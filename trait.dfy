/**
 * The static methods of ValueObjectTrait as the step-by-step procedure they
 * are: `getInstanceFromReflectionClass` fills the argument list in a loop
 * with early exits, and each method is proved to compute the pure
 * definition of module Hydrator.
 */
module ValueObjectTrait {
  import opened Wrappers
  import opened Values
  import opened Hydrator
  import opened Properties

  /**
   * fromArray. Its result is a function of the schema, the class and the
   * data alone: two calls with the same inputs give equal results.
   */
  method FromArray(s: Schema, cls: string, data: map<string, Value>) returns (r: Result<Value, Error>)
    requires WellFormed(s)
    decreases Arr(data), 2
    ensures r == Hydrate(s, cls, data)
  {
    if cls !in s.classes {
      return Failure(ValidationError(IncorrectClass));
    }
    r := GetInstanceFromReflectionClass(s, cls, data);
  }

  /** getInstanceFromReflectionClass: one pass over the constructor's parameters. */
  method GetInstanceFromReflectionClass(s: Schema, cls: string, data: map<string, Value>)
    returns (r: Result<Value, Error>)
    requires WellFormed(s) && cls in s.classes
    decreases Arr(data), 1
    ensures r == HydrateClass(s, cls, data)
  {
    if s.classes[cls].ctor.None? {
      return Success(Obj(cls, []));
    }
    var params := s.classes[cls].ctor.value;
    assert Params(s, cls) == params;
    assert forall p :: p in params ==> Bounded(s, p);
    var args: seq<Arg> := [];
    for i := 0 to |params|
      invariant |args| == i
      invariant forall j :: 0 <= j < i ==>
        args[j].name == params[j].name && BindParameter(s, params[j], data) == Success(args[j].value)
    {
      var p := params[i];
      assert p in params && Bounded(s, p);
      // the value stored in `$args[name]`; a failure is the exception that ends the walk
      var v: Result<Value, Error>;
      if !IsSet(data, p.name) {
        v := DefaultParameterValue(p);
      } else if p.typ.ClassRef? {
        if p.typ.cls !in s.classes {
          v := Failure(ClassNotFound(p.typ.cls));
        } else {
          v := GetParameterFromClass(s, p.typ.cls, data[p.name]);
        }
      } else {
        v := Success(data[p.name]);
      }
      assert v == BindParameter(s, p, data);
      if v.Failure? {
        BindFirstFailure(s, params, data, i);
        return Failure(v.error);
      }
      args := args + [Arg(p.name, v.value)];
    }
    BindAllSucceed(s, params, data, args);
    r := Success(Obj(cls, args));
  }

  /** getParameterFromClass: hydrate an array for a value-object class, else hand the value back. */
  method GetParameterFromClass(s: Schema, c: string, v: Value) returns (r: Result<Value, Error>)
    requires WellFormed(s) && c in s.classes && LastParent(s, c) != Unbounded
    decreases v, 3
    ensures r == ParameterFromClass(s, c, v)
  {
    var last := LastParent(s, c);
    if last.NoParent? {
      return Failure(NoParentClass(c));
    }
    if IsValueObjectClass(s, c) && v.Arr? {
      r := FromArray(s, c, v.entries);
    } else {
      r := Success(v);
    }
  }
}
