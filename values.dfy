/**
 * The values a value object is hydrated from and into, and the schema that
 * stands in for PHP reflection: per class, its constructor's parameter list
 * (or none) and its parent class.
 */
module Values {
  import opened Wrappers

  /** A PHP value as far as the hydrator inspects it. */
  datatype Value =
    | Null
    | Int(i: int)
    | Str(s: string)
    | Bool(b: bool)
    | Arr(entries: map<string, Value>)   // an associative array
    | Obj(cls: string, args: seq<Arg>)   // an instance built by newInstanceArgs

  /** One constructor argument, keyed by the parameter's name. */
  datatype Arg = Arg(name: string, value: Value)

  /** The declared type of a constructor parameter. */
  datatype ParamType =
    | Untyped                  // no type declaration
    | Builtin(name: string)    // int, string, array, ...
    | ClassRef(cls: string)    // a class name

  /**
   * A constructor parameter. `nullable` is true when the declared type admits
   * null (`?T`, `mixed`, or an implicit `= null` default).
   */
  datatype Param = Param(name: string, typ: ParamType, default: Option<Value>, nullable: bool)

  /** What reflection tells about a class: its constructor, if any, and its parent. */
  datatype ClassInfo = ClassInfo(ctor: Option<seq<Param>>, parent: Option<string>)

  /**
   * All classes known to the program, and `base`, the class that uses the
   * trait (what `self::class` names inside it).
   */
  datatype Schema = Schema(classes: map<string, ClassInfo>, base: string)

  /** The errors hydration can end with. */
  datatype Error =
    | ValidationError(message: string)  // the library's ValidationException
    | ClassNotFound(name: string)       // ReflectionException for a parameter's class
    | NoParentClass(name: string)       // getParentClass() called on `false`

  const IncorrectClass: string := "Incorrect class"

  /** The message raised for a missing required parameter. */
  function NotDefined(name: string): (m: string)
    ensures |m| > |name| && m[..|name|] == name
  {
    name + " is not defined in array"
  }

  /** PHP `isset($data[$name])`: the key is present and not mapped to null. */
  predicate IsSet(data: map<string, Value>, name: string)
    ensures name !in data ==> !IsSet(data, name)
    ensures name in data ==> (IsSet(data, name) <==> data[name] != Null)
  {
    name in data && data[name] != Null
  }

  /** ReflectionParameter::allowsNull: an untyped parameter always admits null. */
  predicate AllowsNull(p: Param)
    ensures p.typ.Untyped? ==> AllowsNull(p)
    ensures !p.typ.Untyped? ==> (AllowsNull(p) <==> p.nullable)
  {
    p.typ.Untyped? || p.nullable
  }

  /** The constructor's parameters of a known class; a class without a constructor takes none. */
  function Params(s: Schema, cls: string): (ps: seq<Param>)
    requires cls in s.classes
  {
    if s.classes[cls].ctor.Some? then s.classes[cls].ctor.value else []
  }

  /** PHP guarantees that a class's parent class exists. */
  predicate ClosedHierarchy(s: Schema) {
    forall c :: c in s.classes && s.classes[c].parent.Some? ==> s.classes[c].parent.value in s.classes
  }

  /** Where the ancestor loop of getParameterFromClass ends. */
  datatype Ancestry =
    | NoParent               // the class has no parent: the loop calls a method on `false`
    | RootParent(name: string) // the direct parent has no parent of its own
    | Unbounded              // the direct parent has a parent: the loop never ends

  function LastParent(s: Schema, c: string): (a: Ancestry)
    requires ClosedHierarchy(s) && c in s.classes
    ensures a.NoParent? <==> s.classes[c].parent.None?
    ensures a.RootParent? ==> s.classes[c].parent == Some(a.name) && s.classes[a.name].parent.None?
    ensures s.classes[c].parent.Some? && s.classes[s.classes[c].parent.value].parent.None? ==>
      a == RootParent(s.classes[c].parent.value)
    ensures a.Unbounded? <==>
      s.classes[c].parent.Some? && s.classes[s.classes[c].parent.value].parent.Some?
  {
    match s.classes[c].parent
    case None => NoParent
    case Some(p) => if s.classes[p].parent.None? then RootParent(p) else Unbounded
  }

  /** A parameter whose class, when known, does not send the ancestor loop into divergence. */
  predicate Bounded(s: Schema, p: Param)
    requires ClosedHierarchy(s)
  {
    p.typ.ClassRef? && p.typ.cls in s.classes ==> LastParent(s, p.typ.cls) != Unbounded
  }

  /**
   * The schemas the model covers: a closed class hierarchy in which every
   * class that some constructor parameter names is at most one level below
   * a root class.
   */
  predicate WellFormed(s: Schema) {
    && ClosedHierarchy(s)
    && forall c, p :: c in s.classes && p in Params(s, c) ==> Bounded(s, p)
  }

  /** PHP rejects two parameters of one constructor with the same name. */
  predicate DistinctNames(params: seq<Param>) {
    forall i, j :: 0 <= i < j < |params| ==> params[i].name != params[j].name
  }

  /**
   * The associative array `$args` as PHP holds it after the arguments were
   * assigned one by one (a later key overwrites an earlier one).
   */
  function NamedArgs(args: seq<Arg>): (m: map<string, Value>)
    ensures forall k :: k in m <==> exists i :: 0 <= i < |args| && args[i].name == k
  {
    if args == [] then map[]
    else
      var last := args[|args| - 1];
      var m := NamedArgs(args[..|args| - 1]);
      assert forall i :: 0 <= i < |args| - 1 ==> args[..|args| - 1][i] == args[i];
      m[last.name := last.value]
  }

  lemma {:induction false} NamedArgsAt(args: seq<Arg>, i: nat)
    requires i < |args|
    requires forall j, k :: 0 <= j < k < |args| ==> args[j].name != args[k].name
    ensures args[i].name in NamedArgs(args) && NamedArgs(args)[args[i].name] == args[i].value
  {
    if i < |args| - 1 {
      NamedArgsAt(args[..|args| - 1], i);
    }
  }
}
