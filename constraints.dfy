/** The constraints of src/Constraint/: a constraint is a pure function from an input to a
    Validation. This module holds the leaf constraints (Primitive, Instance,
    Has, Of) and the combinators (AndConstraint, OrConstraint, Map, FlatMap,
    MapFailures, FailWith) and the Predicate adapter. */
module Constraints {
  import opened Text
  import opened Outcomes
  import opened Values
  import Failures
  import opened Validations

  type Constraint<!I, O> = I -> Validation<O>

  /** The single root failure `Value is not of type <type>`. */
  function TypeMismatch<T>(typeName: NonEmptyString): Validation<T>
  {
    Fail([Failures.Of("Value is not of type " + typeName)])
  }

  /** The default message of a missing key. */
  function MissingKey(key: NonEmptyString): NonEmptyString
  {
    "The key " + key + " is missing"
  }

  // ---------------------------------------------------------------- Primitive

  /** src/Constraint/Primitive.php `__invoke`: success with the input itself
      iff the type predicate holds, otherwise one root failure naming the type. */
  function Primitive(check: Value -> bool, typeName: NonEmptyString): (c: Constraint<Value, Value>)
    ensures forall v :: c(v).Success? <==> check(v)
    ensures forall v :: check(v) ==> c(v) == Success(v)
    ensures forall v :: !check(v) ==> c(v) == TypeMismatch(typeName)
  {
    v => if check(v) then Success(v) else TypeMismatch(typeName)
  }

  /** `Primitive::string()`. */
  function StringType(): (c: Constraint<Value, Value>)
    ensures forall v :: c(v) == if v.VStr? then Success(v) else TypeMismatch("string")
  {
    Primitive(IsString, "string")
  }

  /** `Primitive::int()`. */
  function IntType(): (c: Constraint<Value, Value>)
    ensures forall v :: c(v) == if v.VInt? then Success(v) else TypeMismatch("int")
  {
    Primitive(IsInt, "int")
  }

  /** `Primitive::float()`. */
  function FloatType(): (c: Constraint<Value, Value>)
    ensures forall v :: c(v) == if v.VFloat? then Success(v) else TypeMismatch("float")
  {
    Primitive(IsFloat, "float")
  }

  /** `Primitive::array()`. */
  function ArrayType(): (c: Constraint<Value, Value>)
    ensures forall v :: c(v) == if v.VArray? then Success(v) else TypeMismatch("array")
  {
    Primitive(IsArray, "array")
  }

  /** `Primitive::bool()`. */
  function BoolType(): (c: Constraint<Value, Value>)
    ensures forall v :: c(v) == if v.VBool? then Success(v) else TypeMismatch("bool")
  {
    Primitive(IsBool, "bool")
  }

  /** `Primitive::null()`. */
  function NullType(): (c: Constraint<Value, Value>)
    ensures forall v :: c(v) == if v.VNull? then Success(v) else TypeMismatch("null")
  {
    Primitive(IsNull, "null")
  }

  /** `Primitive::object()`. */
  function ObjectType(): (c: Constraint<Value, Value>)
    ensures forall v :: c(v) == if v.VObject? then Success(v) else TypeMismatch("object")
  {
    Primitive(IsObject, "object")
  }

  /** `Primitive::list()`: the array check first, then `array_is_list`; a
      non-array is only ever reported as not an array. */
  function ListType(): (c: Constraint<Value, Value>)
    ensures forall v: Value :: !v.VArray? ==> c(v) == TypeMismatch("array")
    ensures forall v: Value :: v.VArray? && !IsList(v) ==> c(v) == TypeMismatch("list")
    ensures forall v :: IsList(v) ==> c(v) == Success(v)
  {
    AndConstraint(ArrayType(), Primitive(IsList, "list"))
  }

  // ----------------------------------------------------------------- Instance

  /** src/Constraint/Instance.php `__invoke`. */
  function Instance(cls: NonEmptyString): (c: Constraint<Value, Value>)
    ensures forall v :: InstanceOf(v, cls) ==> c(v) == Success(v)
    ensures forall v :: !InstanceOf(v, cls) ==>
      c(v) == Fail([Failures.Of("Value is not an instance of " + cls)])
  {
    v => if InstanceOf(v, cls) then Success(v)
         else Fail([Failures.Of("Value is not an instance of " + cls)])
  }

  // ---------------------------------------------------------------------- Has

  /** src/Constraint/Has.php `__invoke` (and src/Has.php, which is the same):
      presence is key existence, and the success value is the element stored
      at the key, not the array. The input is an array by precondition of the
      source, hence `Entries`. */
  function Has(key: NonEmptyString): (c: Constraint<Entries, Value>)
    ensures forall es :: Lookup(es, StrKey(key)).Some? ==> c(es) == Success(Lookup(es, StrKey(key)).value)
    ensures forall es :: Lookup(es, StrKey(key)).None? ==> c(es) == Fail([Failures.Of(MissingKey(key))])
  {
    es => match Lookup(es, StrKey(key))
          case Some(v) => Success(v)
          case None => Fail([Failures.Of(MissingKey(key))])
  }

  /** `Has::key($key)->withFailure($message)`: the same lookup, with the
      missing-key message computed from the key. */
  function HasWithFailure(key: NonEmptyString, message: NonEmptyString -> NonEmptyString): (c: Constraint<Entries, Value>)
    ensures forall es :: Lookup(es, StrKey(key)).Some? ==> c(es) == Has(key)(es)
    ensures forall es :: Lookup(es, StrKey(key)).None? ==> c(es) == Fail([Failures.Of(message(key))])
  {
    es => match Lookup(es, StrKey(key))
          case Some(v) => Success(v)
          case None => Fail([Failures.Of(message(key))])
  }

  /** Other keys of the array do not matter to `Has`: adding or replacing an
      entry under another key leaves the result unchanged. */
  lemma HasIgnoresOtherKeys(key: NonEmptyString, es: Entries, k: Key, v: Value)
    requires k != StrKey(key)
    ensures Has(key)(Put(es, k, v)) == Has(key)(es)
  {
    LookupPut(es, k, v, StrKey(key));
  }

  /** A key whose value is null is present: storing any value under the key,
      null included, makes `Has` succeed with exactly that value. */
  lemma HasFindsStoredValue(key: NonEmptyString, es: Entries, v: Value)
    ensures Has(key)(Put(es, StrKey(key), v)) == Success(v)
  {
    LookupPut(es, StrKey(key), v, StrKey(key));
  }

  // ----------------------------------------------------------------------- Of

  /** src/Constraint/Of.php: the wrapped function's result, unchanged. */
  function Of<A(!new), B>(wrapped: A -> Validation<B>): (c: Constraint<A, B>)
    ensures forall x :: c(x) == wrapped(x)
  {
    x => wrapped(x)
  }

  // ------------------------------------------------------------- combinators

  /** src/Constraint/AndConstraint.php: `b` runs on `a`'s output and only when
      `a` succeeded; failures pass through untouched. */
  function AndConstraint<A(!new), B, C>(a: Constraint<A, B>, b: Constraint<B, C>): (c: Constraint<A, C>)
    ensures forall x :: a(x).Fail? ==> c(x) == Fail(a(x).failures)
    ensures forall x :: a(x).Success? ==> c(x) == b(a(x).value)
  {
    x => FlatMap(a(x), b)
  }

  /** src/Constraint/OrConstraint.php: `a`'s result when it succeeds, else `b`
      on the original input; `a`'s failures are dropped. */
  function OrConstraint<A(!new), B>(a: Constraint<A, B>, b: Constraint<A, B>): (c: Constraint<A, B>)
    ensures forall x :: a(x).Success? ==> c(x) == a(x)
    ensures forall x :: a(x).Fail? ==> c(x) == b(x)
  {
    x => Otherwise(a(x), _ => b(x))
  }

  /** src/Constraint/Map.php (and src/Map.php): transforms the success value,
      keeps the status and the failures. */
  function MapConstraint<A(!new), B, C>(c: Constraint<A, B>, f: B -> C): (r: Constraint<A, C>)
    ensures forall x :: r(x).Success? <==> c(x).Success?
    ensures forall x :: c(x).Success? ==> r(x).value == f(c(x).value)
    ensures forall x :: c(x).Fail? ==> r(x) == Fail(c(x).failures)
  {
    x => Map(c(x), f)
  }

  /** src/Constraint/FlatMap.php: on success `v`, the constraint built from `v`
      is applied to that same `v`. */
  function FlatMapConstraint<A(!new), B, C>(c: Constraint<A, B>, m: B -> Constraint<B, C>): (r: Constraint<A, C>)
    ensures forall x :: c(x).Fail? ==> r(x) == Fail(c(x).failures)
    ensures forall x :: c(x).Success? ==> r(x) == m(c(x).value)(c(x).value)
  {
    x => FlatMap(c(x), v => m(v)(v))
  }

  /** src/Constraint/MapFailures.php: every failure transformed, count, order
      and status kept. */
  function MapFailuresConstraint<A(!new), B>(c: Constraint<A, B>, f: Failures.Failure -> Failures.Failure): (r: Constraint<A, B>)
    ensures forall x :: c(x).Success? ==> r(x) == c(x)
    ensures forall x :: c(x).Fail? ==> r(x).Fail? && |r(x).failures| == |c(x).failures|
    ensures forall x, i | c(x).Fail? && 0 <= i < |c(x).failures| :: r(x).failures[i] == f(c(x).failures[i])
  {
    x => MapFailures(c(x), f)
  }

  /** src/Constraint/FailWith.php: any failure becomes the single root
      failure `message`. */
  function FailWith<A(!new), B>(c: Constraint<A, B>, message: NonEmptyString): (r: Constraint<A, B>)
    ensures forall x :: c(x).Success? ==> r(x) == c(x)
    ensures forall x :: c(x).Fail? ==> r(x) == Fail([Failures.Of(message)])
  {
    x => Otherwise(c(x), _ => Fail([Failures.Of(message)]))
  }

  /** src/Predicate.php (and every `asPredicate()`): whether the constraint succeeds. */
  function Predicate<A(!new), B>(c: Constraint<A, B>): (p: A -> bool)
    ensures forall x :: p(x) <==> c(x).Success?
  {
    x => c(x).Success?
  }

  // ------------------------------------------------------------------ lemmas

  /** Failing under `under(k)` gives every failure `k` as its new outermost
      segment, i.e. the one rendered first. */
  lemma MapFailuresUnder<A(!new), B>(c: Constraint<A, B>, k: NonEmptyString, x: A, i: nat)
    requires c(x).Fail? && i < |c(x).failures|
    ensures var r := MapFailuresConstraint(c, f => Failures.Under(f, k))(x);
      r.Fail? && r.failures[i].message == c(x).failures[i].message &&
      r.failures[i].path.parts == c(x).failures[i].path.parts + [k]
  {
  }

  /** An `and` chain reports the failures of exactly one of its stages. */
  lemma AndReportsOneStage<A(!new), B, C>(a: Constraint<A, B>, b: Constraint<B, C>, x: A)
    requires AndConstraint(a, b)(x).Fail?
    ensures var r := AndConstraint(a, b)(x);
      (a(x).Fail? && r.failures == a(x).failures) ||
      (a(x).Success? && r == b(a(x).value))
  {
  }

  /** An `or` whose branches both fail reports only the second branch. */
  lemma OrBothFailReportsSecond<A(!new), B>(a: Constraint<A, B>, b: Constraint<A, B>, x: A)
    requires a(x).Fail? && b(x).Fail?
    ensures OrConstraint(a, b)(x) == Fail(b(x).failures)
  {
  }

  /** `and` chains may be nested either way. */
  lemma AndConstraintAssociative<A(!new), B(!new), C, D>(a: Constraint<A, B>, b: Constraint<B, C>, c: Constraint<C, D>, x: A)
    ensures AndConstraint(AndConstraint(a, b), c)(x) == AndConstraint(a, AndConstraint(b, c))(x)
  {
  }

  /** `or` chains may be nested either way. */
  lemma OrConstraintAssociative<A(!new), B>(a: Constraint<A, B>, b: Constraint<A, B>, c: Constraint<A, B>, x: A)
    ensures OrConstraint(OrConstraint(a, b), c)(x) == OrConstraint(a, OrConstraint(b, c))(x)
  {
  }

  /** `Has(key)` is `Has(key)->withFailure()` with the default message. */
  lemma HasIsDefaultWithFailure(key: NonEmptyString, es: Entries)
    ensures HasWithFailure(key, MissingKey)(es) == Has(key)(es)
  {
  }
}
