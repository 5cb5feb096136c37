/**
 * The hydration rules of ValueObjectTrait as pure functions over the schema:
 * the reference definition the imperative procedure is proved against and
 * the properties are stated about.
 */
module Hydrator {
  import opened Wrappers
  import opened Values

  /** `v` is an instance of `cls` with one argument per constructor parameter, in declaration order. */
  predicate Instance(s: Schema, cls: string, v: Value)
    ensures Instance(s, cls, v) ==> v.Obj? && v.cls == cls && cls in s.classes
  {
    && cls in s.classes
    && v.Obj? && v.cls == cls
    && |v.args| == |Params(s, cls)|
    && forall i :: 0 <= i < |v.args| ==> v.args[i].name == Params(s, cls)[i].name
  }

  /** The class check of getParameterFromClass: the direct parent is a root and is the trait's class. */
  predicate IsValueObjectClass(s: Schema, c: string)
    requires ClosedHierarchy(s) && c in s.classes
    ensures IsValueObjectClass(s, c) <==>
      s.classes[c].parent == Some(s.base) && s.base in s.classes && s.classes[s.base].parent.None?
  {
    LastParent(s, c) == RootParent(s.base)
  }

  /** fromArray: hydrate class `cls` from `data`. */
  function Hydrate(s: Schema, cls: string, data: map<string, Value>): (r: Result<Value, Error>)
    requires WellFormed(s)
    decreases Arr(data), 3
    ensures cls !in s.classes ==> r == Failure(ValidationError(IncorrectClass))
    ensures cls in s.classes && s.classes[cls].ctor.None? ==> r == Success(Obj(cls, []))
    ensures r.Success? ==> Instance(s, cls, r.value)
  {
    if cls !in s.classes then Failure(ValidationError(IncorrectClass))
    else HydrateClass(s, cls, data)
  }

  /** getInstanceFromReflectionClass: bind every constructor parameter, then construct. */
  function HydrateClass(s: Schema, cls: string, data: map<string, Value>): (r: Result<Value, Error>)
    requires WellFormed(s) && cls in s.classes
    decreases Arr(data), 2
    ensures r.Success? ==> Instance(s, cls, r.value)
    ensures r.Success? <==>
      forall i :: 0 <= i < |Params(s, cls)| ==> BindParameter(s, Params(s, cls)[i], data).Success?
    ensures r.Success? ==> forall i :: 0 <= i < |Params(s, cls)| ==>
      BindParameter(s, Params(s, cls)[i], data) == Success(r.value.args[i].value)
  {
    match s.classes[cls].ctor
    case None => Success(Obj(cls, []))
    case Some(params) =>
      assert Params(s, cls) == params;
      assert forall p :: p in params ==> Bounded(s, p);
      match Bind(s, params, data)
      case Failure(e) => Failure(e)
      case Success(args) => Success(Obj(cls, args))
  }

  /** The foreach over the parameters: the first failing parameter ends the walk. */
  function Bind(s: Schema, params: seq<Param>, data: map<string, Value>): (r: Result<seq<Arg>, Error>)
    requires WellFormed(s)
    requires forall p :: p in params ==> Bounded(s, p)
    decreases Arr(data), 1, |params|
    ensures r.Success? <==> forall i :: 0 <= i < |params| ==> BindParameter(s, params[i], data).Success?
    ensures r.Success? ==> |r.value| == |params|
    ensures r.Success? ==> forall i :: 0 <= i < |params| ==>
      r.value[i].name == params[i].name && BindParameter(s, params[i], data) == Success(r.value[i].value)
  {
    if params == [] then Success([])
    else
      match BindParameter(s, params[0], data)
      case Failure(e) => Failure(e)
      case Success(v) =>
        match Bind(s, params[1..], data)
        case Failure(e) =>
          assert exists i :: 1 <= i < |params| && BindParameter(s, params[i], data).Failure? by {
            var j :| 0 <= j < |params[1..]| && BindParameter(s, params[1..][j], data).Failure?;
            assert params[1..][j] == params[j + 1];
          }
          Failure(e)
        case Success(rest) =>
          var args := [Arg(params[0].name, v)] + rest;
          assert forall i :: 1 <= i < |params| ==> params[i] == params[1..][i - 1] && args[i] == rest[i - 1];
          Success(args)
  }

  /** The body of the foreach for one parameter. */
  function BindParameter(s: Schema, p: Param, data: map<string, Value>): (r: Result<Value, Error>)
    requires WellFormed(s) && Bounded(s, p)
    decreases Arr(data), 0
    ensures !IsSet(data, p.name) ==> r == DefaultParameterValue(p)
    ensures IsSet(data, p.name) && !p.typ.ClassRef? ==> r == Success(data[p.name])
    ensures IsSet(data, p.name) && p.typ.ClassRef? && p.typ.cls !in s.classes ==>
      r == Failure(ClassNotFound(p.typ.cls))
    ensures IsSet(data, p.name) && p.typ.ClassRef? && p.typ.cls in s.classes ==>
      r == ParameterFromClass(s, p.typ.cls, data[p.name])
    ensures r.Success? && IsSet(data, p.name) ==> r.value != Null
  {
    if !IsSet(data, p.name) then DefaultParameterValue(p)
    else if p.typ.ClassRef? then
      if p.typ.cls !in s.classes then Failure(ClassNotFound(p.typ.cls))
      else ParameterFromClass(s, p.typ.cls, data[p.name])
    else Success(data[p.name])
  }

  /** getDefaultParameterValue: the declared default, else null when allowed, else a validation error. */
  function DefaultParameterValue(p: Param): (r: Result<Value, Error>)
    ensures r.Failure? <==> p.default.None? && !AllowsNull(p)
    ensures r.Failure? ==> r.error == ValidationError(NotDefined(p.name))
    ensures p.default.Some? ==> r.Success? && r.value == p.default.value
    ensures p.default.None? && AllowsNull(p) ==> r.Success? && r.value == Null
  {
    if p.default.Some? then Success(p.default.value)
    else if AllowsNull(p) then Success(Null)
    else Failure(ValidationError(NotDefined(p.name)))
  }

  /**
   * getParameterFromClass: a value-object class hydrates an array value,
   * anything else is returned as it is.
   */
  function ParameterFromClass(s: Schema, c: string, v: Value): (r: Result<Value, Error>)
    requires WellFormed(s) && c in s.classes && LastParent(s, c) != Unbounded
    decreases v, 4
    ensures LastParent(s, c).NoParent? ==> r == Failure(NoParentClass(c))
    ensures IsValueObjectClass(s, c) && v.Arr? ==> r == Hydrate(s, c, v.entries)
    ensures !LastParent(s, c).NoParent? && !(IsValueObjectClass(s, c) && v.Arr?) ==> r == Success(v)
    ensures r.Success? && v != Null ==> r.value != Null
  {
    var last := LastParent(s, c);
    if last.NoParent? then Failure(NoParentClass(c))
    else if IsValueObjectClass(s, c) && v.Arr? then Hydrate(s, c, v.entries)
    else Success(v)
  }
}
