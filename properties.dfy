/**
 * What hydration promises, stated over the whole input space: how each
 * parameter is bound, which error wins, what the input data can and cannot
 * influence, and that a hydrated object's own arguments hydrate back to it.
 */
module Properties {
  import opened Wrappers
  import opened Values
  import opened Hydrator

  /** Every parameter before index `i` binds. */
  predicate EarlierBind(s: Schema, params: seq<Param>, data: map<string, Value>, i: nat)
    requires WellFormed(s) && i <= |params| && forall p :: p in params ==> Bounded(s, p)
  {
    forall j :: 0 <= j < i ==> BindParameter(s, params[j], data).Success?
  }

  lemma ParamsBounded(s: Schema, cls: string)
    requires WellFormed(s) && cls in s.classes
    ensures forall p :: p in Params(s, cls) ==> Bounded(s, p)
  {
  }

  // ---------------------------------------------------------------------
  // Which error wins

  /** Binding stops at the first parameter that fails, with that parameter's error. */
  lemma {:induction false} BindFirstFailure(s: Schema, params: seq<Param>, data: map<string, Value>, i: nat)
    requires WellFormed(s) && forall p :: p in params ==> Bounded(s, p)
    requires i < |params| && BindParameter(s, params[i], data).Failure?
    requires EarlierBind(s, params, data, i)
    ensures Bind(s, params, data) == Failure(BindParameter(s, params[i], data).error)
  {
    if i > 0 {
      assert BindParameter(s, params[0], data).Success?;
      assert forall j :: 0 <= j < |params| - 1 ==> params[1..][j] == params[j + 1];
      BindFirstFailure(s, params[1..], data, i - 1);
    }
  }

  /** Each parameter binding to its argument, in order and under its own name, is the whole result of the walk. */
  lemma BindAllSucceed(s: Schema, params: seq<Param>, data: map<string, Value>, args: seq<Arg>)
    requires WellFormed(s) && forall p :: p in params ==> Bounded(s, p)
    requires |args| == |params|
    requires forall j :: 0 <= j < |params| ==>
      args[j].name == params[j].name && BindParameter(s, params[j], data) == Success(args[j].value)
    ensures Bind(s, params, data) == Success(args)
  {
    var r := Bind(s, params, data);
    assert r.Success? && |r.value| == |args|;
    assert forall j :: 0 <= j < |params| ==> r.value[j] == args[j];
    assert r.value == args;
  }

  /** The hydration of a class fails with the error of its first failing parameter; no instance is built. */
  lemma FirstFailingParameter(s: Schema, cls: string, data: map<string, Value>, i: nat)
    requires WellFormed(s) && cls in s.classes
    requires i < |Params(s, cls)| && BindParameter(s, Params(s, cls)[i], data).Failure?
    requires EarlierBind(s, Params(s, cls), data, i)
    ensures Hydrate(s, cls, data) == Failure(BindParameter(s, Params(s, cls)[i], data).error)
  {
    BindFirstFailure(s, Params(s, cls), data, i);
  }

  /** A required parameter that is missing (or null) is reported by name. */
  lemma MissingRequiredFails(s: Schema, cls: string, data: map<string, Value>, i: nat)
    requires WellFormed(s) && cls in s.classes && i < |Params(s, cls)|
    requires !IsSet(data, Params(s, cls)[i].name)
    requires Params(s, cls)[i].default.None? && !AllowsNull(Params(s, cls)[i])
    requires EarlierBind(s, Params(s, cls), data, i)
    ensures Hydrate(s, cls, data) == Failure(ValidationError(NotDefined(Params(s, cls)[i].name)))
  {
    FirstFailingParameter(s, cls, data, i);
  }

  /** Whatever else the data holds, one missing required parameter means no instance. */
  lemma MissingRequiredMeansNoInstance(s: Schema, cls: string, data: map<string, Value>, i: nat)
    requires WellFormed(s) && cls in s.classes && i < |Params(s, cls)|
    requires !IsSet(data, Params(s, cls)[i].name)
    requires Params(s, cls)[i].default.None? && !AllowsNull(Params(s, cls)[i])
    ensures Hydrate(s, cls, data).Failure?
  {
  }

  /** A failing nested hydration is the failure of the outer one, unchanged. */
  lemma NestedFailurePropagates(s: Schema, cls: string, data: map<string, Value>, i: nat)
    requires WellFormed(s) && cls in s.classes && i < |Params(s, cls)|
    requires Params(s, cls)[i].typ.ClassRef? && Params(s, cls)[i].typ.cls in s.classes
    requires IsValueObjectClass(s, Params(s, cls)[i].typ.cls)
    requires Params(s, cls)[i].name in data && data[Params(s, cls)[i].name].Arr?
    requires Hydrate(s, Params(s, cls)[i].typ.cls, data[Params(s, cls)[i].name].entries).Failure?
    requires EarlierBind(s, Params(s, cls), data, i)
    ensures Hydrate(s, cls, data) ==
      Failure(Hydrate(s, Params(s, cls)[i].typ.cls, data[Params(s, cls)[i].name].entries).error)
  {
    FirstFailingParameter(s, cls, data, i);
  }

  // ---------------------------------------------------------------------
  // How each argument of a successful hydration is obtained

  /**
   * A parameter whose key is missing or null gets its declared default
   * verbatim, else null; such a parameter must have one or the other.
   */
  lemma MissingArgument(s: Schema, cls: string, data: map<string, Value>, i: nat)
    requires WellFormed(s) && cls in s.classes && Hydrate(s, cls, data).Success?
    requires i < |Params(s, cls)| && !IsSet(data, Params(s, cls)[i].name)
    ensures Params(s, cls)[i].default.Some? || AllowsNull(Params(s, cls)[i])
    ensures Hydrate(s, cls, data).value.args[i] ==
      Arg(Params(s, cls)[i].name,
          if Params(s, cls)[i].default.Some? then Params(s, cls)[i].default.value else Null)
  {
  }

  /** The keys of an instance's argument array are exactly its class's constructor parameter names. */
  lemma InstanceArgumentKeys(s: Schema, cls: string, v: Value)
    requires Instance(s, cls, v)
    ensures forall k :: k in NamedArgs(v.args) <==> exists i :: 0 <= i < |Params(s, cls)| && Params(s, cls)[i].name == k
  {
    assert forall i :: 0 <= i < |v.args| ==> v.args[i].name == Params(s, cls)[i].name;
  }

  /** A present value of an untyped or builtin-typed parameter is passed through unchanged. */
  lemma PresentScalarArgument(s: Schema, cls: string, data: map<string, Value>, i: nat)
    requires WellFormed(s) && cls in s.classes && Hydrate(s, cls, data).Success?
    requires i < |Params(s, cls)| && IsSet(data, Params(s, cls)[i].name)
    requires !Params(s, cls)[i].typ.ClassRef?
    ensures Hydrate(s, cls, data).value.args[i] == Arg(Params(s, cls)[i].name, data[Params(s, cls)[i].name])
  {
  }

  /**
   * A present value of a class-typed parameter: an array for a value-object
   * class becomes an instance of that class hydrated from it; anything else
   * is passed through unchanged. Either way the class exists and has a parent.
   */
  lemma PresentClassArgument(s: Schema, cls: string, data: map<string, Value>, i: nat)
    requires WellFormed(s) && cls in s.classes && Hydrate(s, cls, data).Success?
    requires i < |Params(s, cls)| && IsSet(data, Params(s, cls)[i].name)
    requires Params(s, cls)[i].typ.ClassRef?
    ensures var c := Params(s, cls)[i].typ.cls;
      c in s.classes && s.classes[c].parent.Some?
    ensures var c, x := Params(s, cls)[i].typ.cls, data[Params(s, cls)[i].name];
      var arg := Hydrate(s, cls, data).value.args[i].value;
      c in s.classes &&
      if IsValueObjectClass(s, c) && x.Arr? then
        Hydrate(s, c, x.entries) == Success(arg) && Instance(s, c, arg)
      else
        arg == x
  {
  }

  // ---------------------------------------------------------------------
  // What the input data can influence

  /** Two data arrays bind a name alike: both unset, or both set to the same value. */
  predicate SameBinding(d1: map<string, Value>, d2: map<string, Value>, name: string) {
    IsSet(d1, name) == IsSet(d2, name) && (IsSet(d1, name) ==> d1[name] == d2[name])
  }

  lemma {:induction false} BindDependsOnlyOnParameters(
    s: Schema, params: seq<Param>, d1: map<string, Value>, d2: map<string, Value>)
    requires WellFormed(s) && forall p :: p in params ==> Bounded(s, p)
    requires forall i :: 0 <= i < |params| ==> SameBinding(d1, d2, params[i].name)
    ensures Bind(s, params, d1) == Bind(s, params, d2)
  {
    if params != [] {
      assert SameBinding(d1, d2, params[0].name);
      assert BindParameter(s, params[0], d1) == BindParameter(s, params[0], d2);
      assert forall j :: 0 <= j < |params| - 1 ==> params[1..][j] == params[j + 1];
      BindDependsOnlyOnParameters(s, params[1..], d1, d2);
    }
  }

  /** Only the keys named by constructor parameters, and only whether they are set and to what, matter. */
  lemma HydrateDependsOnlyOnParameters(s: Schema, cls: string, d1: map<string, Value>, d2: map<string, Value>)
    requires WellFormed(s) && cls in s.classes
    requires forall i :: 0 <= i < |Params(s, cls)| ==> SameBinding(d1, d2, Params(s, cls)[i].name)
    ensures Hydrate(s, cls, d1) == Hydrate(s, cls, d2)
  {
    ParamsBounded(s, cls);
    BindDependsOnlyOnParameters(s, Params(s, cls), d1, d2);
  }

  /** A key that names no constructor parameter is ignored. */
  lemma UnmatchedKeyIgnored(s: Schema, cls: string, data: map<string, Value>, k: string, v: Value)
    requires WellFormed(s) && cls in s.classes
    requires forall i :: 0 <= i < |Params(s, cls)| ==> Params(s, cls)[i].name != k
    ensures Hydrate(s, cls, data[k := v]) == Hydrate(s, cls, data)
  {
    HydrateDependsOnlyOnParameters(s, cls, data[k := v], data);
  }

  /** A key mapped to null is the same as a missing key. */
  lemma NullKeyIsMissing(s: Schema, cls: string, data: map<string, Value>, k: string)
    requires WellFormed(s) && cls in s.classes
    ensures Hydrate(s, cls, data[k := Null]) == Hydrate(s, cls, data - {k})
  {
    HydrateDependsOnlyOnParameters(s, cls, data[k := Null], data - {k});
  }

  // ---------------------------------------------------------------------
  // Hydrating again from the arguments of a hydrated object

  /** No class-typed parameter has a default other than null. */
  predicate ClassDefaultsNull(params: seq<Param>) {
    forall p :: p in params && p.typ.ClassRef? && p.default.Some? ==> p.default.value == Null
  }

  /** One parameter binds to the same value from the `$args` array it produced. */
  lemma RebindParameter(s: Schema, p: Param, data: map<string, Value>, args: map<string, Value>)
    requires WellFormed(s) && Bounded(s, p)
    requires p.typ.ClassRef? && p.default.Some? ==> p.default.value == Null
    requires BindParameter(s, p, data).Success?
    requires p.name in args && args[p.name] == BindParameter(s, p, data).value
    ensures BindParameter(s, p, args) == BindParameter(s, p, data)
  {
  }

  /**
   * Feeding the arguments of a hydrated object back as the data array
   * rebuilds the same object: hydration is idempotent on its own output.
   */
  lemma RehydrateFromArguments(s: Schema, cls: string, data: map<string, Value>)
    requires WellFormed(s) && cls in s.classes
    requires DistinctNames(Params(s, cls)) && ClassDefaultsNull(Params(s, cls))
    requires Hydrate(s, cls, data).Success?
    ensures Hydrate(s, cls, NamedArgs(Hydrate(s, cls, data).value.args)) == Hydrate(s, cls, data)
  {
    var params := Params(s, cls);
    var args := Hydrate(s, cls, data).value.args;
    var m := NamedArgs(args);
    ParamsBounded(s, cls);
    forall i | 0 <= i < |params|
      ensures BindParameter(s, params[i], m) == Success(args[i].value)
    {
      NamedArgsAt(args, i);
      assert params[i] in params;
      RebindParameter(s, params[i], data, m);
    }
    var r := Hydrate(s, cls, m);
    assert r.Success?;
    assert |r.value.args| == |args|;
    forall i | 0 <= i < |args|
      ensures r.value.args[i] == args[i]
    {
      assert BindParameter(s, params[i], m) == Success(r.value.args[i].value);
    }
    assert r.value.args == args;
  }

  // ---------------------------------------------------------------------
  // The repository's own example: an object inside an object

  const ParamsA: seq<Param> :=
    [Param("name", Builtin("string"), None, false), Param("surname", Builtin("string"), None, true)]
  const ParamsB: seq<Param> :=
    [Param("year", Builtin("int"), None, false), Param("a", ClassRef("A"), None, false),
     Param("listOfA", Builtin("array"), None, false)]

  /** The test fixtures: A(string name, ?string surname) and B(int year, A a, array listOfA). */
  const TestSchema: Schema := Schema(
    map[
      "ValueObject" := ClassInfo(None, None),
      "A" := ClassInfo(Some(ParamsA), Some("ValueObject")),
      "B" := ClassInfo(Some(ParamsB), Some("ValueObject"))],
    "ValueObject")

  lemma TestSchemaWellFormed()
    ensures WellFormed(TestSchema)
  {
  }

  /** A from an array holding only `name`: the nullable surname is bound to null. */
  lemma SurnameDefaultsToNull()
    ensures WellFormed(TestSchema)
    ensures Hydrate(TestSchema, "A", map["name" := Str("Tester")])
      == Success(Obj("A", [Arg("name", Str("Tester")), Arg("surname", Null)]))
  {
    TestSchemaWellFormed();
    var s, inner := TestSchema, map["name" := Str("Tester")];
    assert Params(s, "A") == ParamsA;
    ParamsBounded(s, "A");
    assert BindParameter(s, ParamsA[0], inner) == Success(Str("Tester"));
    assert BindParameter(s, ParamsA[1], inner) == Success(Null);
    BindAllSucceed(s, ParamsA, inner, [Arg("name", Str("Tester")), Arg("surname", Null)]);
    assert s.classes["A"].ctor == Some(ParamsA);
  }

  /** The data array of the test, with `list` as its `listOfA` entry. */
  function TestData(list: map<string, Value>): (d: map<string, Value>) {
    map["year" := Int(1994), "a" := Arr(map["name" := Str("Tester")]), "listOfA" := Arr(list)]
  }

  const ObjA: Value := Obj("A", [Arg("name", Str("Tester")), Arg("surname", Null)])

  /** The `a` entry of the test data binds to the nested A. */
  lemma NestedArgument(list: map<string, Value>)
    ensures WellFormed(TestSchema)
    ensures BindParameter(TestSchema, ParamsB[1], TestData(list)) == Success(ObjA)
  {
    SurnameDefaultsToNull();
    assert LastParent(TestSchema, "A") == RootParent("ValueObject");
  }

  /**
   * B(year, A a, array listOfA) from a nested array: `a` becomes an A whose
   * omitted nullable surname is null; `listOfA` is a builtin array and is
   * passed through as given.
   */
  lemma ObjectInObject(list: map<string, Value>)
    ensures WellFormed(TestSchema)
    ensures Hydrate(TestSchema, "B", TestData(list))
      == Success(Obj("B", [Arg("year", Int(1994)), Arg("a", ObjA), Arg("listOfA", Arr(list))]))
  {
    NestedArgument(list);
    var s, data := TestSchema, TestData(list);
    assert Params(s, "B") == ParamsB;
    ParamsBounded(s, "B");
    var args := [Arg("year", Int(1994)), Arg("a", ObjA), Arg("listOfA", Arr(list))];
    forall j | 0 <= j < |ParamsB|
      ensures args[j].name == ParamsB[j].name && BindParameter(s, ParamsB[j], data) == Success(args[j].value)
    {
      if j == 0 {
        assert BindParameter(s, ParamsB[0], data) == Success(Int(1994));
      } else if j == 2 {
        assert BindParameter(s, ParamsB[2], data) == Success(Arr(list));
      }
    }
    BindAllSucceed(s, ParamsB, data, args);
    assert s.classes["B"].ctor == Some(ParamsB);
  }
}
