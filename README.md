# Innmind/validation: the validation algebra, in Dafny

This project models the core of Innmind/validation, a PHP library of
composable validators. A constraint maps an input to a `Validation`. A
`Validation` is either a success carrying one value, or a non-empty, ordered
list of failures. Each failure has a message and a key path, which renders
outermost segment first and joined by `.`; the root renders as `$`.

The model covers:

- key paths and failures;
- the `Validation` operations the code relies on: `map`, `flatMap`,
  `otherwise`, `mapFailures` and the applicative `and`;
- the leaf constraints: the primitive type checks, `Instance`, `Has`, `Of`,
  and the `Integer`/`Str` refinements;
- the combinators: `and`, `or`, `map`, `flatMap`, `mapFailures`,
  `failWith`, and the predicate adapter;
- the structural validators:
  - `Each` stops at the first failing element;
  - `AssociativeArray` and `Shape` accumulate failures across pairs and
    fields;
  - the immutable shape builder.
- the older top-level classes: `Is`, `Has`, `AndConstraint`,
  `OrConstraint`, `Map`, `Each`, `AssociativeArray` and `Shape`.

Constraints are total Dafny functions `I -> Validation<O>`, and the
combinators are higher-order functions over them. PHP's `mixed` is the
datatype `Values.Value`. A PHP array is an ordered list of `(key, value)`
entries: lookup takes the first entry with the key, and `Put` models
`$a[$k] = $v` (replace in place, else append).

The source has six `foreach` folds: src/Each.php, src/Constraint/Each.php,
src/AssociativeArray.php, src/Constraint/AssociativeArray.php, src/Shape.php
and src/Constraint/Shape.php. Five of them appear twice in the model:

- a specification function, folding over a prefix of the input;
- a method with the loop. Its invariant is "the accumulator equals the
  specification of the prefix", and its postcondition ties the result to
  that function.

The fold of src/AssociativeArray.php is the same text as that of
src/Constraint/AssociativeArray.php. `Legacy.AssociativeArray` therefore
reuses the newer fold and its loop, and is proved equal to the newer
constraint on every input.

The two generations of the code differ, so they are separate members:

- The older `src/Each.php` returns its input list, and the newer
  `src/Constraint/Each.php` returns the elements' outputs.
  `LegacyEach.FoldIsNewerEachOnInput` states the difference exactly.
- The older `src/Shape.php` has no array check and no optional keys,
  defaults, renames or custom message. `Legacy.AgreesWithNewer` proves that
  it is the newer shape with all of those left empty. `Legacy.AsConstraint`
  is an older shape used as the constraint of another shape's field, so
  older shapes nest as the nesting test writes them. proofs/shape.php
  calls this older class; through `Legacy.AgreesWithNewer` the examples
  stated on the newer shape (`ShapeBuilders.ShapeKeepsDeclaredKeys`,
  `ShapeBuilders.ShapeReportsEveryField`) hold for it too.

Where the tests and the code differ, the model follows the code:

- proofs/shape.php expects the message `Unknown key foo` for a missing key.
  The code path, `Has::key` at src/Has.php:32 and
  src/Constraint/Has.php:34-36, produces `The key foo is missing`, and the
  model states that (`ShapeBuilders.ShapeReportsEveryField`,
  `Legacy.NestingReportsUnderKeys`).
- proofs/each.php:53-72 expects the mapped element outputs. Only
  src/Constraint/Each.php returns those; `Is::list($each)` uses the older
  src/Each.php, which returns the input unchanged (`Facade.ListEachKeepsInput`).

## Model

| member | source | states |
|---|---|---|
| KeyPaths.Root | src/KeyPath.php:26-29 | the root path has no segments |
| KeyPaths.RootRendersDollar | src/KeyPath.php:65-71 | the root renders as `$` |
| KeyPaths.Under | src/KeyPath.php:36-39 | a new path with exactly one more segment, the given one, after the unchanged old segments |
| KeyPaths.Match | src/KeyPath.php:50-59 | the root branch iff there are no segments; otherwise the path branch gets the last-added segment first and the earlier ones in reverse order |
| KeyPaths.ToStringUnder | src/KeyPath.php:36-39 | rendering a path with one more segment puts that segment first, followed by `.` and the old rendering, or alone when the old path was the root |
| KeyPaths.RootUnder | src/KeyPath.php:65-71 | `root()->under(s)` renders as exactly `s` |
| KeyPaths.RootUnderUnder | src/KeyPath.php:65-71 | `root()->under(a)->under(b)` renders as `b.a` |
| KeyPaths.ToStringStartsWithLatest | src/KeyPath.php:50-58 | the rendering of a non-root path starts with the segment added last |
| Failures.Of | src/Failure.php:26-29 | a failure at the root path with the given (non-empty) message |
| Failures.Under | src/Failure.php:37-40 | the same message, the path extended by the segment |
| Failures.UnderAll | src/Constraint/MapFailures.php:29-33 | every failure of a list under the same segment, count and order kept |
| Failures.OfUnderUnder | src/Failure.php:37-40 | `of(m)->under(a)->under(b)` is reported at `b.a` with message `m` (what the nested-shape test relies on) |
| Validations.Map | src/Constraint/Map.php:29-33 | success `v` becomes success `f(v)`; a failure passes with the same failures |
| Validations.FlatMap | src/Constraint/AndConstraint.php:34-40 | failure short-circuits unchanged; success `v` gives `f(v)` |
| Validations.Otherwise | src/Constraint/OrConstraint.php:29-35 | success is kept; failure gives the recovery's result |
| Validations.MapFailures | src/Constraint/MapFailures.php:29-33 | success unchanged; every failure transformed with count and order kept |
| Validations.And | src/Constraint/Shape.php:101-116 | applicative: both sides evaluated; failures concatenated left then right; both successes combined |
| Validations.CollectFailuresEmpty | src/Constraint/Shape.php:101-116 | the concatenated failures of a list of validations are empty iff every one succeeded |
| Validations.FoldReportsAll | src/Constraint/Shape.php:101-116 | a left-to-right `and` fold whose every step appends that step's failures ends holding exactly the failures of all steps, in order |
| Validations.FlatMapAssociative | src/Constraint/AndConstraint.php:34-40 | `flatMap` chains may be regrouped |
| Validations.OtherwiseAssociative | src/Constraint/OrConstraint.php:29-35 | `otherwise` chains may be regrouped |
| Values.LookupPut | src/Constraint/Shape.php:103-115 | after `$a[$k] = $v`, key `k` holds `v` and every other key is unchanged |
| Values.KeysOfPut | src/Constraint/Shape.php:103-115 | `$a[$k] = $v` keeps the key order, appending `k` only when it is new |
| Constraints.Primitive | src/Constraint/Primitive.php:34-43 | success iff the type predicate holds, carrying the input unchanged; otherwise exactly one root failure `Value is not of type <type>` |
| Constraints.StringType | src/Constraint/Primitive.php:51-55 | strings pass unchanged; anything else fails as not a `string` |
| Constraints.IntType | src/Constraint/Primitive.php:63-67 | ints pass unchanged; anything else fails as not an `int` |
| Constraints.FloatType | src/Constraint/Primitive.php:75-79 | floats pass unchanged; anything else fails as not a `float` |
| Constraints.ArrayType | src/Constraint/Primitive.php:87-91 | arrays pass unchanged; anything else fails as not an `array` |
| Constraints.BoolType | src/Constraint/Primitive.php:99-103 | bools pass unchanged; anything else fails as not a `bool` |
| Constraints.NullType | src/Constraint/Primitive.php:111-115 | null passes; anything else fails as not `null` |
| Constraints.ObjectType | src/Constraint/Primitive.php:137-141 | objects pass unchanged; anything else fails as not an `object` |
| Constraints.ListType | src/Constraint/Primitive.php:123-129 | a non-array fails only as not an `array`; an array whose keys are not 0..n-1 in order fails as not a `list`; a list passes unchanged |
| Constraints.Instance | src/Constraint/Instance.php:26-32 | an instance of the class passes unchanged; anything else gives one root failure `Value is not an instance of <class>` |
| Constraints.Has | src/Constraint/Has.php:30-37 | a present key (even one holding null) gives the element stored there; an absent key gives one root failure `The key <key> is missing` |
| Constraints.HasWithFailure | src/Constraint/Shape.php:79-83 | the same lookup, with the missing-key message computed from the key |
| Constraints.HasIsDefaultWithFailure | src/Constraint/Has.php:34-36 | `Has` is `withFailure` with the default message |
| Constraints.HasIgnoresOtherKeys | src/Constraint/Has.php:30-37 | adding or replacing an entry under another key does not change the result |
| Constraints.HasFindsStoredValue | src/Constraint/Has.php:32-33 | after `$a[$key] = $v`, `Has` succeeds with `v` |
| Constraints.Of | src/Constraint/Of.php:27-30 | the wrapped function's result, unchanged, on every input |
| Constraints.AndConstraint | src/Constraint/AndConstraint.php:34-40 | `a`'s failures when `a` fails (`b` not run); otherwise `b` on `a`'s output |
| Constraints.AndReportsOneStage | src/Constraint/AndConstraint.php:34-40 | a failing `and` reports the failures of exactly one stage |
| Constraints.AndConstraintAssociative | src/Constraint/AndConstraint.php:34-40 | `(a and b) and c` equals `a and (b and c)` on every input |
| Constraints.OrConstraint | src/Constraint/OrConstraint.php:29-35 | `a`'s result when it succeeds; otherwise `b` on the original input |
| Constraints.OrBothFailReportsSecond | src/Constraint/OrConstraint.php:29-35 | when both fail, only `b`'s failures are reported |
| Constraints.OrConstraintAssociative | src/Constraint/OrConstraint.php:29-35 | `(a or b) or c` equals `a or (b or c)` on every input |
| Constraints.MapConstraint | src/Constraint/Map.php:29-33 | status preserved; success value mapped; failures identical |
| Constraints.FlatMapConstraint | src/Constraint/FlatMap.php:30-39 | failures returned without calling the closure; on success `v`, the derived constraint applied to `v` |
| Constraints.MapFailuresConstraint | src/Constraint/MapFailures.php:29-33 | success unchanged; a failure keeps its status and count, each failure transformed in order |
| Constraints.MapFailuresUnder | src/Constraint/MapFailures.php:29-33 | with `under(k)`, every failure keeps its message and gains `k` as its outermost segment |
| Constraints.FailWith | src/Constraint/FailWith.php:29-37 | success unchanged; any failure becomes exactly one root failure with the message |
| Constraints.Predicate | src/Predicate.php:25-31 | true iff the constraint succeeds |
| EachConstraint.Each | src/Constraint/Each.php:31-46 | success iff every element is accepted, then the outputs in order with the same length; otherwise exactly the failures of the first rejected element (no index in the path) |
| EachConstraint.EachStopsAtFirstFailure | src/Constraint/Each.php:37-43 | the first rejected element decides the result |
| EachConstraint.EachIgnoresRest | src/Constraint/Each.php:37-43 | elements after a rejected one do not affect the result |
| EachConstraint.EachPredicate | src/Constraint/Each.php:31-46 | the predicate holds iff every element satisfies the element constraint |
| EachConstraint.EachIntOrString | src/Constraint/Each.php:31-46 | with `int or string`, a list is accepted iff each element is an int or a string |
| EachConstraint.EachLoop | src/Constraint/Each.php:34-45 | the `foreach` computes `Each` |
| AssociativeArrays.Pair | src/Constraint/AssociativeArray.php:66-88 | a key failure goes under `key(<raw key>)` and the value is not validated; a value failure goes under the raw key, or `''` for the empty key; otherwise the parsed pair |
| AssociativeArrays.ValidateFailures | src/Constraint/AssociativeArray.php:58-96 | the failures are those of all pairs, in iteration order |
| AssociativeArrays.ValidateSucceeds | src/Constraint/AssociativeArray.php:58-96 | the array is accepted iff every pair is |
| AssociativeArrays.ValidateAssembles | src/Constraint/AssociativeArray.php:89-92 | on success, the map built by inserting the parsed pairs in order (an empty array gives the empty map) |
| AssociativeArrays.AssembleKeys | src/Constraint/AssociativeArray.php:91 | the result map holds exactly the parsed keys |
| AssociativeArrays.AssembleLastWins | src/Constraint/AssociativeArray.php:91 | a parsed key holds the value of its last pair |
| AssociativeArrays.AssociativeArray | src/Constraint/AssociativeArray.php:34-37 | a non-array gives one `Value is not of type array` failure; an array goes through `validate` |
| AssociativeArrays.ValidateLoop | src/Constraint/AssociativeArray.php:61-95 | the `foreach` computes `Validate` |
| AssociativeArrays.IntKeyFailurePath | src/Constraint/AssociativeArray.php:69-75 | an int key `5` rejected by a string key constraint is reported at `key(5)` |
| AssociativeArrays.EmptyKeyFailurePath | src/Constraint/AssociativeArray.php:81-86 | a value rejected under the empty key is reported at `''` |
| Shapes.KeyValidation | src/Constraint/Shape.php:79-90 | a present key gives its value; an absent optional key gives the absent marker; an absent required key gives one root failure with the default or custom message |
| Shapes.OfType | src/Constraint/Shape.php:92-99 | the absent marker passes through; a present value goes through the field constraint, its failures under the key |
| Shapes.FieldCases | src/Constraint/Shape.php:79-102 | the composed field validation is the four-case analysis `FieldResult` |
| Shapes.ValidateField | src/Constraint/Shape.php:79-102 | the per-field composition computes `FieldResult` |
| Shapes.ValidatePrefixAnd | src/Constraint/Shape.php:101-116 | one more field is the applicative `and` with the store closure |
| Shapes.ValidateFailures | src/Constraint/Shape.php:76-119 | every field is checked; the failures are those of all fields in declaration order |
| Shapes.ValidateSucceeds | src/Constraint/Shape.php:76-119 | the array is accepted iff every field is |
| Shapes.LookupStoreSlot | src/Constraint/Shape.php:103-115 | storing a field sets only its output key (`rename[key] ?? key`), to the value or the default, or nothing when it is absent without a default |
| Shapes.ValidateDropsOtherKeys | src/Constraint/Shape.php:76-119 | on success, no key other than the fields' output keys is in the output: undeclared input keys are dropped |
| Shapes.ValidateStoresField | src/Constraint/Shape.php:103-115 | on success, a field holds its validated value, or its default when absent, or is missing when absent without a default |
| Shapes.OutputKeys | src/Constraint/Shape.php:101-116 | the keys a valid input stores, as a function of the input alone: no key is listed twice |
| Shapes.OutputKeysMembers | src/Constraint/Shape.php:101-116 | a key is listed iff it is the output key (`rename[key] ?? key`) of a field present in the input or with a default |
| Shapes.ValidateKeys | src/Constraint/Shape.php:101-116 | on success, the output's keys in order are the output keys of the fields that store something, in declaration order, a repeated output key kept at its first place |
| Shapes.OutputKeysAllFields | src/Constraint/Shape.php:101-116 | with no rename, distinct field keys and every key in the input, every field stores under its own key, in declaration order |
| Shapes.ShapeConstraint | src/Constraint/Shape.php:39-42 | a non-array gives one `Value is not of type array` failure and no field is checked; an array goes through `validate` |
| Shapes.ValidateLoop | src/Constraint/Shape.php:76-119 | the `foreach` computes `Validate` |
| ShapeBuilders.Start | src/Constraint/Provider/Arr/Shape.php:60-76 | one field; no optional key, default, rename or message |
| ShapeBuilders.AssignKeys | src/Constraint/Provider/Arr/Shape.php:82-98 | `$constraints[$k] = $c` keeps the key order, appends a new key, and `k` holds `c` |
| ShapeBuilders.AssignDistinct | src/Constraint/Provider/Arr/Shape.php:82-98 | assigning never declares a key twice |
| ShapeBuilders.With | src/Constraint/Provider/Arr/Shape.php:82-98 | the constraint is assigned to the key; nothing else changes |
| ShapeBuilders.Optional | src/Constraint/Provider/Arr/Shape.php:104-126 | the key is appended to the optional keys; the constraints change only when one is given |
| ShapeBuilders.Default | src/Constraint/Provider/Arr/Shape.php:131-148 | an error `No optional key <k> defined` unless the key is optional; otherwise only the default of the key is set |
| ShapeBuilders.Rename | src/Constraint/Provider/Arr/Shape.php:155-167 | `from` is now stored under `to` (the latest call wins); every other output key and every other property is unchanged |
| ShapeBuilders.WithKeyFailure | src/Constraint/Provider/Arr/Shape.php:173-183 | only the missing-key message changes |
| ShapeBuilders.ToConstraint | src/Constraint/Provider/Arr/Shape.php:41-50 | the shape constraint over the five properties as built |
| ShapeBuilders.BuilderKeepsKeysDistinct | src/Constraint/Provider/Arr/Shape.php:60-183 | every builder step keeps the field keys distinct |
| ShapeBuilders.DefaultFillsAbsentKey | src/Constraint/Shape.php:106-112 | an absent optional key with a default gets the default under its output key |
| ShapeBuilders.KeyFailureMessageUsed | src/Constraint/Shape.php:79-83 | a missing required key fails at the root with the custom message |
| ShapeBuilders.FieldsIgnoreStorage | src/Constraint/Shape.php:103-115 | the field validations do not depend on renames or defaults |
| ShapeBuilders.RenameKeepsFailures | src/Constraint/Shape.php:104 | renaming never changes the failures |
| ShapeBuilders.ShapeKeepsDeclaredKeys | src/Constraint/Shape.php:76-119 | the valid-input test: `foo` and `bar` kept, the undeclared `baz` dropped |
| ShapeBuilders.ShapeReportsEveryField | src/Constraint/Shape.php:101-116 | the invalid-input test: `The key foo is missing` at `$`, then `Value is not of type bool` at `bar` |
| ShapeBuilders.NestedFailuresUnderKey | src/Constraint/Shape.php:92-99 | a shape used as a field's constraint reports its failures under that field's key |
| Providers.Positive | src/Constraint/Provider/Integer.php:56-64 | a non-int fails as not an `int` first; `v <= 0` fails with `Integer must be above 0`; otherwise `v` unchanged |
| Providers.Negative | src/Constraint/Provider/Integer.php:70-78 | a non-int fails as not an `int` first; `v >= 0` fails with `Integer must be below 0`; otherwise `v` unchanged |
| Providers.Range | src/Constraint/Provider/Integer.php:84-93 | a non-int fails as not an `int`; `v < min` fails with `Integer cannot be lower than <min>`; otherwise `v > max` fails with `Integer cannot be higher than <max>`; otherwise `v` unchanged |
| Providers.RangeAcceptsBetween | src/Constraint/Provider/Integer.php:88-91 | accepted iff an int with `min <= v <= max`; an empty range accepts nothing |
| Providers.RangeLowerBoundFirst | src/Constraint/Provider/Integer.php:88-90 | a value both under `min` and over `max` is reported as too low |
| Providers.PositiveNegativeDisjoint | src/Constraint/Provider/Integer.php:60-77 | no value is both positive and negative; zero is neither |
| Providers.PositiveIsOpenRange | src/Constraint/Provider/Integer.php:60-63 | `positive` agrees with `range(1, max)` for every int up to `max` |
| Providers.NonEmpty | src/Constraint/Provider/Str.php:54-62 | a non-string fails as not a `string`; `''` fails with `String cannot be empty`; a non-empty string passes unchanged |
| Providers.NonEmptyAcceptsFilledStrings | src/Constraint/Provider/Str.php:58-61 | accepted iff a non-empty string |
| Providers.RefinementsKeepInputOrFailOnce | src/Constraint/Provider/Str.php:58-61 | every refinement succeeds only with its input, and fails with exactly one root failure |
| Providers.PositiveKeepsInputOrFailsOnce | src/Constraint/Provider/Integer.php:56-64 | `positive` succeeds only with its input and fails with exactly one root failure |
| Providers.NegativeKeepsInputOrFailsOnce | src/Constraint/Provider/Integer.php:70-78 | `negative` succeeds only with its input and fails with exactly one root failure |
| Providers.RangeKeepsInputOrFailsOnce | src/Constraint/Provider/Integer.php:84-93 | `range` succeeds only with its input and fails with exactly one root failure |
| Providers.NonEmptyKeepsInputOrFailsOnce | src/Constraint/Provider/Str.php:54-62 | `nonEmpty` succeeds only with its input and fails with exactly one root failure |
| Facade.Apply | src/Is.php:42-51 | success with the input iff the predicate holds; otherwise one root failure with the custom message or `Value is not of type <type>` |
| Facade.FactoriesMatchPrimitives | src/Is.php:58-117 | each factory accepts and rejects exactly like the primitive of the same type, with the same message |
| Facade.WithFailure | src/Is.php:190-193 | same predicate and type name, the given message |
| Facade.WithFailureKeepsCheck | src/Is.php:45-49 | a custom message changes only the failure text |
| Facade.AsPredicateIsCheck | src/Is.php:234-237 | `asPredicate` holds iff the native predicate does |
| Facade.List | src/Is.php:128-139 | the array check first, then the list check, then (when given) the element check through the older `Each` |
| Facade.ListMatchesPrimitive | src/Is.php:128-139 | without an element constraint, `Is::list()` equals `Primitive::list()` |
| Facade.ListEachKeepsInput | src/Is.php:135-138 | with an element constraint, a list is accepted iff every element is, and the result is the input |
| Facade.Just | src/Is.php:174-183 | a present value passes; an empty one gives `No value was provided` or the custom message |
| Facade.JustAcceptsPresent | src/Is.php:174-183 | accepted iff a value is present, with that value |
| Facade.HasAndRunsOnElement | src/Has.php:48-51 | `Has::key($k)->and($c)` runs `c` on the element; a missing key is reported without running `c` |
| Facade.HasOrFallsBack | src/Has.php:53-56 | `Has::key($k)->or($c)` gives the element, or `c` on the same array |
| Facade.AndChainFirstFailingStage | src/AndConstraint.php:59-62 | a left-nested `and` chain reports the failures of its first failing stage only |
| Facade.AndThenOrFallsBack | src/AndConstraint.php:64-67 | `(a and b)->or(c)` runs `c` on the original input when either stage fails |
| Facade.OrThenAndRunsOnWinner | src/OrConstraint.php:67-71 | `(a or b)->and(c)` runs `c` on the output of the alternative that succeeded |
| Facade.OrChainFirstSuccess | src/OrConstraint.php:80-84 | a chain `x->or(y)->or(z)` gives the first success from the left, or the last alternative's failures |
| Facade.MapComposes | src/Map.php:34-38 | mapping twice is mapping the composition |
| LegacyEach.FoldIsNewerEachOnInput | src/Each.php:29-44 | the older fold is the newer `Each` with its output replaced by the input |
| LegacyEach.EachKeepsInput | src/Each.php:29-44 | success with the input itself iff every element is accepted; otherwise the first rejected element's failures |
| LegacyEach.EachLoop | src/Each.php:32-43 | the `foreach` computes the older `Each` |
| Legacy.Of | src/Shape.php:59-62 | one field with the given key and constraint |
| Legacy.WithAddsOrReplaces | src/Shape.php:67-73 | `with` replaces a declared key in place or appends a new one; the key then holds the constraint; keys stay distinct |
| Legacy.OfType | src/Shape.php:34-38 | the field's constraint with its failures put under the key |
| Legacy.FieldComposes | src/Shape.php:34-41 | `Has::key($key)->and($ofType)` is the case analysis `Field` |
| Legacy.AgreesWithNewer | src/Shape.php:28-52 | the older shape equals the newer shape with no optional key, default, rename or message, on every input |
| Legacy.ReportsEveryField | src/Shape.php:28-52 | all fields' failures in declaration order; accepted iff every key is present and its value accepted |
| Legacy.KeepsDeclaredKeys | src/Shape.php:33-49 | on success, the output holds exactly the declared keys, in declaration order, each with its validated value |
| Legacy.AsConstraint | src/Shape.php:28-52 | an older shape used as a constraint: on an array, its validation with the output array as an array value |
| Legacy.AsConstraintIsNewer | src/Shape.php:28-52 | on an array, the older shape as a constraint equals the newer shape constraint with only the fields declared |
| Legacy.NestedField | src/Shape.php:34-41 | a field holding a nested shape: an accepted nested array is stored as the inner output, a rejected one reports the inner failures under the field's key |
| Legacy.MissingThenNestedFailure | src/Shape.php:28-52 | a missing first key and a rejecting nested second field report the root failure, then the nested failures under the second key |
| Legacy.NestingKeepsValues | proofs/shape.php:69-83 | the nested valid input comes back as `['foo' => 42, 'bar' => ['baz' => true]]` |
| Legacy.NestingReportsUnderKeys | proofs/shape.php:85-103 | the nested invalid input reports `The key foo is missing` at `$`, then `Value is not of type bool` at `bar.baz` |
| Legacy.ValidatePrefixAnd | src/Shape.php:40-48 | one more field is the applicative `and` with the store closure |
| Legacy.ValidateLoop | src/Shape.php:31-51 | the `foreach` computes `Validate` |
| Legacy.AssociativeArray | src/AssociativeArray.php:29-139 | the older associative array gives the same result as the newer one on every input |

## Left out

- `Innmind\Immutable` is not part of this model. `Validation` is the datatype `Validations.Validation`, and `Maybe` is `Outcomes.Option`.
- The `Map` returned by `AssociativeArray` is a Dafny `map`, which has no insertion order; the order of the parsed pairs is stated on `AssociativeArrays.Assemble`.
- src/Constraint/Guard.php, the `guard`/`xor` behaviour, src/Constraint/PointInTime.php, src/PointInTime.php and src/Constraint/Provider/Clock.php are not part of this model. They rest on an unseen `Validation::guard` and on the external clock and its date parsing.
- src/Constraint/Like.php, src/Constraint/Provider/Arr.php, src/Constraint/Provider/Objet.php, src/Of.php and src/Instance.php only forward to the constraints modelled here, so they are not modelled themselves.
- `Is::shape` and `Is::associativeArray` are those forwarders too; they give `Legacy.Of` and `Legacy.AssociativeArray`.
- The interfaces (src/Constraint.php, src/Constraint/Implementation.php, src/Constraint/Provider.php) only declare types, so they have no counterpart.
- The `and`/`or`/`map`/`asPredicate` methods of every class are modelled by the combinators they build: `Constraints.AndConstraint`, `Constraints.OrConstraint`, `Constraints.MapConstraint` and `Constraints.Predicate`.
- The `build` closure of the providers and of the shape builder is the identity.
- Passing a provider where a constraint is expected (`Provider|Constraint`) is not modelled: the builder takes constraints only.
- Floats are an opaque tag, and no arithmetic is done on them.
- PHP's coercion of numeric-string array keys to ints is not modelled: keys are taken as already normalised.
- Field names of `Has`, `Shape` and the builder are assumed not to be decimal integers: a field named `"5"` is looked up and stored as the string key `"5"`, whereas PHP would find and write the int key `5`.
- The `\stdClass` sentinel of src/Constraint/Shape.php:74 is the explicit marker `Shapes.Absent`.
- Exceptions: `default()` on a key that is not optional returns `Err` with the exception's message instead of throwing.
- The older `Shape` and `Has` take an array (`Entries`), as their signatures demand. The `TypeError` PHP raises on a non-array is not modelled.
- The older `Each` over a scalar visits no element and returns its input. PHP also emits a warning for the `foreach`, which is not modelled.
- The older `Each` over an object: PHP's `foreach` visits the object's public properties, but the model's objects carry only their class and supertypes, so an object is treated as having no elements.
- Legacy.AsConstraint: PHP's `array_key_exists` raises a `TypeError` on a non-array; the model validates a non-array as the empty array.
- Shapes.ValidateStoresField: states the stored value only for a field whose output key no other field shares. When two fields are renamed to the same output key, the later field's value wins, and no lemma states that.
- Failure tags (`tag()`/`tags()` in proofs/failure.php) do not exist in src/Failure.php and are not modelled.
