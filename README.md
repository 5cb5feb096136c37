# Value-object hydration, modelled in Dafny

The library's `ValueObjectTrait` builds an immutable value object from an
untyped associative array. `fromArray` reflects on the target class,
`getInstanceFromReflectionClass` walks the constructor's parameters in
declaration order and binds one argument per parameter, and the object is
then created with `newInstanceArgs`. The binding rules for one parameter are:

- **Missing key, or a key mapped to null** (`isset` semantics): use the
  declared default (`getDefaultParameterValue`). With no default, use null if
  the parameter admits null. Otherwise throw `ValidationException("<name> is
  not defined in array")`.
- **Class-typed parameter**: `getParameterFromClass` looks at the class's
  direct parent (see below). If that parent is the trait's own class and the
  value is an array, it hydrates the nested class recursively. Otherwise the
  value is returned unchanged.
- **Any other parameter**: the value is passed through unchanged.

Reflection becomes an explicit `Schema`. For each class name it holds the
constructor's parameter list (or none) and the parent class. Each parameter
has a name, a type (`Untyped`, `Builtin`, `ClassRef`), an optional default
and a nullable flag. `base` is the one class that uses the trait, the one
`self::class` names; the model assumes there is exactly one such class (see
"Left out"). PHP values are a `Value` datatype:
null, int, string, bool, `Arr` (an associative array) and `Obj(class, args)`.
An `Obj` is an instance together with the named arguments passed to
`newInstanceArgs`, in declaration order.

Modules:

- `Wrappers`: `Option` and `Result`.
- `Values`: the value and schema datatypes. It also has `isset`,
  `allowsNull` and the ancestor check.
- `Hydrator`: the hydration rules as pure recursive functions.
  They terminate on the structural size of the data array: each nested array
  is a strict sub-value of the outer one.
- `ValueObjectTrait`: the trait's static methods as imperative code. The
  parameter loop is a `for` loop that computes the value of `$args[name]` in
  the three branches of the source and exits early on the first error. Each
  method is proved to return exactly what the corresponding function of
  `Hydrator` returns.
- `Properties`: lemmas over all inputs. They cover binding and error
  precedence, which parts of the data matter, and re-hydration from a
  hydrated object's own arguments. The repository's test case is proved as a
  concrete lemma.

The ancestor loop of `getParameterFromClass` (`do … while`) only ever looks
at the direct parent, so it ends in one of three ways. The model
distinguishes them (`Values.LastParent`):

- The class has no parent: PHP then calls `getParentClass()` on `false` and
  raises an `Error`. This is modelled as the error `NoParentClass`.
- The direct parent is a root class: the parent's name is compared with
  `base`.
- The direct parent has a parent of its own: the loop never terminates.
  `WellFormed` excludes these schemas, but only for classes that some
  constructor parameter names.

If a parameter names a class that does not exist, `new ReflectionClass` at
line 67 throws a `ReflectionException` that nothing catches. This is
modelled as the error `ClassNotFound`.

`src/ValueObjectTrait.php` has no special handling for arrays of value
objects: `listOfA` in the test is a builtin `array` parameter, so it is passed
through unchanged. The test's expectations about its elements are not
encoded.

## Model

| member | source | states |
|---|---|---|
| `Hydrator.Hydrate` | src/ValueObjectTrait.php:33-42 | an unknown class fails with "Incorrect class"; a class without constructor yields a zero-argument instance whatever the data; a success is an instance of the requested class with one argument per constructor parameter, named after it, in declaration order |
| `Hydrator.HydrateClass` | src/ValueObjectTrait.php:50-82 | hydration succeeds exactly when every parameter binds, and then argument i is what parameter i binds to |
| `Hydrator.Bind` | src/ValueObjectTrait.php:56-77 | the parameter walk succeeds iff each parameter binds; it then yields exactly one argument per parameter, in order, keyed by the parameter's name, holding that parameter's bound value |
| `Hydrator.BindParameter` | src/ValueObjectTrait.php:58-77 | a missing or null key takes the defaulting path; a present value of an untyped or builtin parameter is passed through; a class-typed parameter naming an unknown class fails; a present value never binds to null |
| `Hydrator.DefaultParameterValue` | src/ValueObjectTrait.php:89-98 | fails exactly when there is neither a default nor a nullable type, with the message naming the parameter; a default is returned verbatim; otherwise null |
| `Hydrator.ParameterFromClass` | src/ValueObjectTrait.php:105-119 | a class without parent is an error; an array for a value-object class is hydrated into that class; any other value (non-value-object class, or a non-array value) is returned unchanged |
| `Values.LastParent` | src/ValueObjectTrait.php:108-110 | the loop ends at the direct parent exactly when that parent is a root; it has no parent to end at exactly when the class has none; it never ends exactly when the direct parent has a parent of its own |
| `Values.IsSet` | src/ValueObjectTrait.php:60 | defined as PHP `isset`: an absent key is not set; a present key is set exactly when its value is not null |
| `Values.AllowsNull` | src/ValueObjectTrait.php:93 | defined as `allowsNull()`: an untyped parameter always admits null; a typed one exactly when its type is nullable |
| `Hydrator.IsValueObjectClass` | src/ValueObjectTrait.php:113 | a class counts as a value object exactly when its direct parent is the trait's own class and that class is a root |
| `Hydrator.Instance` | src/ValueObjectTrait.php:79 | defined as what `newInstanceArgs` returns: an object of a known class, named after it, with one argument per constructor parameter in order; its contract states only that the object is of that known class |
| `Properties.InstanceArgumentKeys` | src/ValueObjectTrait.php:57-79 | the keys of an instance's argument array are exactly its class's constructor parameter names |
| `Values.NotDefined` | src/ValueObjectTrait.php:97 | the missing-parameter message begins with the parameter's name |
| `Values.NamedArgs` | src/ValueObjectTrait.php:57-77 | the keys of the `$args` array are exactly the parameter names that were bound |
| `ValueObjectTrait.FromArray` | src/ValueObjectTrait.php:33-42 | the procedure returns exactly `Hydrate(schema, class, data)`: its result depends on its inputs alone, so two calls with equal inputs give equal results |
| `ValueObjectTrait.GetInstanceFromReflectionClass` | src/ValueObjectTrait.php:50-82 | the loop that fills the argument list step by step and stops at the first error returns exactly `HydrateClass`; its invariant is that argument j is what parameter j binds to |
| `ValueObjectTrait.GetParameterFromClass` | src/ValueObjectTrait.php:105-119 | returns exactly `ParameterFromClass`, recursing through `FromArray` |
| `Properties.BindAllSucceed` | src/ValueObjectTrait.php:56-77 | when every parameter binds to a given argument, in order and under its own name, the walk yields exactly those arguments (the converse of `Hydrator.Bind`'s contract) |
| `Properties.BindFirstFailure` | src/ValueObjectTrait.php:58-64 | the walk stops at the first parameter, in declaration order, that fails, and fails with that parameter's error |
| `Properties.FirstFailingParameter` | src/ValueObjectTrait.php:56-79 | hydration fails with the error of the first failing parameter, and no instance is produced |
| `Properties.MissingRequiredFails` | src/ValueObjectTrait.php:60-61 | a missing or null, non-defaulted, non-nullable parameter whose predecessors bind makes hydration fail with "`<name>` is not defined in array" |
| `Properties.MissingRequiredMeansNoInstance` | src/ValueObjectTrait.php:79 | with any missing required parameter, hydration fails whatever the other keys hold |
| `Properties.NestedFailurePropagates` | src/ValueObjectTrait.php:113-114 | the failure of a nested hydration is the failure of the outer hydration, unchanged |
| `Properties.MissingArgument` | src/ValueObjectTrait.php:89-94 | in a successful hydration, a parameter whose key is missing or null received its default verbatim, else null, and had one or the other |
| `Properties.PresentScalarArgument` | src/ValueObjectTrait.php:76 | in a successful hydration, a present value of an untyped or builtin parameter is the argument unchanged |
| `Properties.PresentClassArgument` | src/ValueObjectTrait.php:66-73 | in a successful hydration, a present class-typed value is an instance hydrated from it when the class is a value object and the value an array, and the value unchanged otherwise; the class exists and has a parent |
| `Properties.BindDependsOnlyOnParameters` | src/ValueObjectTrait.php:58-77 | the parameter walk reads only whether each parameter's key is set, and to what |
| `Properties.HydrateDependsOnlyOnParameters` | src/ValueObjectTrait.php:50-82 | two data arrays that set the same parameters to the same values hydrate alike |
| `Properties.UnmatchedKeyIgnored` | src/ValueObjectTrait.php:58-61 | a key that names no constructor parameter does not change the result |
| `Properties.NullKeyIsMissing` | src/ValueObjectTrait.php:60 | a key mapped to null hydrates exactly as an absent key |
| `Properties.RebindParameter` | src/ValueObjectTrait.php:58-77 | a parameter rebinds to the same value from the argument array it produced |
| `Properties.RehydrateFromArguments` | src/ValueObjectTrait.php:57-79 | hydrating from the `$args` array of a hydrated object rebuilds the same object (for distinct parameter names and class-typed defaults that are null) |
| `Properties.SurnameDefaultsToNull` | tests/ValueObjectTest.php:32 | A hydrated from `name` alone has a null `surname` |
| `Properties.NestedArgument` | tests/ValueObjectTest.php:20-32 | the nested `a` array of the test binds to an A with name "Tester" and a null surname |
| `Properties.ObjectInObject` | tests/ValueObjectTest.php:18-31 | B hydrated from the test's nested array holds year 1994, an A with name "Tester" and a null surname, and `listOfA` passed through unchanged |

## Left out

- `__toString` and `toArray` (lines 18-26): JSON serialisation through a library, and property reflection that depends on user constructor bodies.
- Reflection itself (`ReflectionClass`, `getConstructor`, `newInstanceArgs`): replaced by the explicit schema and the `Obj` constructor.
- PHP's handling of declared scalar types when `newInstanceArgs` calls the constructor: neither file declares `strict_types`, so the call runs in coercive mode. A value that can be converted is converted (`"1994"` becomes `1994` for `int $year`, `5` becomes `"5"` for `?string`), and one that cannot raises a `TypeError`. Both come from the language's type system. The model records the bound values as they were passed, unconverted, and builds the instance from them without a type check.
- Hydrator.Hydrate, Hydrator.ParameterFromClass: their `WellFormed` precondition rejects a whole schema as soon as some constructor parameter names a class two or more levels below a root, because the ancestor loop never ends for such a class. The exclusion is per schema, not per input: it also drops inputs on which the source does terminate, such as data that leaves that parameter unset so that it takes its default or null.
- Hydrator.IsValueObjectClass, Hydrator.ParameterFromClass: the model assumes a single class that uses the trait, `Schema.base` (the test's `ValueObject`). When several classes use the trait directly, `self::class` at line 113 is the class from which the class being hydrated inherits the trait, so it varies with that class; nested hydrations that cross from one such hierarchy into another are not modelled, and the model compares every parameter class with the one `base`.
- A nested class that overrides `fromArray`: the model always applies the trait's own rules to nested classes.
- PHP array details: integer keys, numeric-string key conversion and key order. The data is a `map<string, Value>`, so nothing in the model depends on order.
- Floats and other PHP value kinds the hydrator never inspects.
- `src/Exceptions/ValueObjectException.php`: an empty exception class. Errors are values of `Values.Error`.
