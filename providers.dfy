/** src/Constraint/Provider/Integer.php and src/Constraint/Provider/Str.php:
    refinements of the `int` and `string` primitives. Each one is the type
    check followed, through `and`, by a check of the typed value that either
    passes it through unchanged or fails with one root failure. The `build`
    closure of a provider is the identity here. */
module Providers {
  import opened Text
  import opened Values
  import KeyPaths
  import Failures
  import opened Validations
  import opened Constraints

  /** The message of a value under the lower bound of a range. */
  function TooLow(min: int): NonEmptyString
  {
    var bound := IntToString(min);
    assert |bound| > 0;
    "Integer cannot be lower than " + bound
  }

  /** The message of a value over the upper bound of a range. */
  function TooHigh(max: int): NonEmptyString
  {
    var bound := IntToString(max);
    assert |bound| > 0;
    "Integer cannot be higher than " + bound
  }

  /** The closure given to `Constraint::of` by `positive()`. */
  function AboveZero(v: Value): Validation<Value>
  {
    if v.VInt? && v.i <= 0 then Fail([Failures.Of("Integer must be above 0")]) else Success(v)
  }

  /** The closure given to `Constraint::of` by `negative()`. */
  function BelowZero(v: Value): Validation<Value>
  {
    if v.VInt? && v.i >= 0 then Fail([Failures.Of("Integer must be below 0")]) else Success(v)
  }

  /** The closure given to `Constraint::of` by `range($min, $max)`: the lower
      bound is checked first. */
  function Within(min: int, max: int, v: Value): Validation<Value>
  {
    if v.VInt? && v.i < min then Fail([Failures.Of(TooLow(min))])
    else if v.VInt? && v.i > max then Fail([Failures.Of(TooHigh(max))])
    else Success(v)
  }

  /** The closure given to `Constraint::of` by `nonEmpty()`. */
  function Filled(v: Value): Validation<Value>
  {
    if v == VStr("") then Fail([Failures.Of("String cannot be empty")]) else Success(v)
  }

  /** `Integer::positive()`. */
  function Positive(): (c: Constraint<Value, Value>)
    ensures forall v: Value :: !v.VInt? ==> c(v) == TypeMismatch("int")
    ensures forall v: Value :: v.VInt? && v.i > 0 ==> c(v) == Success(v)
    ensures forall v: Value :: v.VInt? && v.i <= 0 ==> c(v) == Fail([Failures.Of("Integer must be above 0")])
  {
    AndConstraint(IntType(), Constraints.Of(AboveZero))
  }

  /** `Integer::negative()`. */
  function Negative(): (c: Constraint<Value, Value>)
    ensures forall v: Value :: !v.VInt? ==> c(v) == TypeMismatch("int")
    ensures forall v: Value :: v.VInt? && v.i < 0 ==> c(v) == Success(v)
    ensures forall v: Value :: v.VInt? && v.i >= 0 ==> c(v) == Fail([Failures.Of("Integer must be below 0")])
  {
    AndConstraint(IntType(), Constraints.Of(BelowZero))
  }

  /** `Integer::range($min, $max)`. */
  function Range(min: int, max: int): (c: Constraint<Value, Value>)
    ensures forall v: Value :: !v.VInt? ==> c(v) == TypeMismatch("int")
    ensures forall v: Value :: v.VInt? && v.i < min ==> c(v) == Fail([Failures.Of(TooLow(min))])
    ensures forall v: Value :: v.VInt? && min <= v.i && v.i > max ==> c(v) == Fail([Failures.Of(TooHigh(max))])
    ensures forall v: Value :: v.VInt? && min <= v.i <= max ==> c(v) == Success(v)
  {
    AndConstraint(IntType(), Constraints.Of(v => Within(min, max, v)))
  }

  /** `Str::nonEmpty()`. */
  function NonEmpty(): (c: Constraint<Value, Value>)
    ensures forall v: Value :: !v.VStr? ==> c(v) == TypeMismatch("string")
    ensures c(VStr("")) == Fail([Failures.Of("String cannot be empty")])
    ensures forall v: Value :: v.VStr? && v.s != "" ==> c(v) == Success(v)
  {
    AndConstraint(StringType(), Constraints.Of(Filled))
  }

  /** A refinement's outcome: success with the input itself, or exactly one
      failure at the root path. */
  predicate KeepsInputOrFailsOnce(r: Validation<Value>, v: Value)
  {
    (r.Success? ==> r.value == v) &&
    (r.Fail? ==> |r.failures| == 1 && r.failures[0].path == KeyPaths.Root())
  }

  /** `positive()` passes its input through or fails once at the root. */
  lemma PositiveKeepsInputOrFailsOnce(v: Value)
    ensures KeepsInputOrFailsOnce(Positive()(v), v)
  {
  }

  /** `negative()` passes its input through or fails once at the root. */
  lemma NegativeKeepsInputOrFailsOnce(v: Value)
    ensures KeepsInputOrFailsOnce(Negative()(v), v)
  {
  }

  /** `range()` passes its input through or fails once at the root. */
  lemma RangeKeepsInputOrFailsOnce(v: Value, min: int, max: int)
    ensures KeepsInputOrFailsOnce(Range(min, max)(v), v)
  {
  }

  /** `nonEmpty()` passes its input through or fails once at the root. */
  lemma NonEmptyKeepsInputOrFailsOnce(v: Value)
    ensures KeepsInputOrFailsOnce(NonEmpty()(v), v)
  {
  }

  /** Every refinement succeeds only with its input, and fails with exactly
      one failure at the root path. */
  lemma RefinementsKeepInputOrFailOnce(v: Value, min: int, max: int)
    ensures KeepsInputOrFailsOnce(Positive()(v), v) && KeepsInputOrFailsOnce(Negative()(v), v)
    ensures KeepsInputOrFailsOnce(Range(min, max)(v), v) && KeepsInputOrFailsOnce(NonEmpty()(v), v)
  {
    PositiveKeepsInputOrFailsOnce(v);
    NegativeKeepsInputOrFailsOnce(v);
    RangeKeepsInputOrFailsOnce(v, min, max);
    NonEmptyKeepsInputOrFailsOnce(v);
  }

  /** No integer is both positive and negative, and zero is neither. */
  lemma PositiveNegativeDisjoint(v: Value)
    ensures !(Positive()(v).Success? && Negative()(v).Success?)
    ensures v == VInt(0) ==> Positive()(v).Fail? && Negative()(v).Fail?
  {
    if v.VInt? {
      if v.i > 0 {
        assert Negative()(v).Fail?;
      } else {
        assert Positive()(v).Fail?;
      }
    }
  }

  /** A range accepts exactly the integers between its bounds, bounds
      included; an empty range (`min > max`) accepts nothing. */
  lemma RangeAcceptsBetween(min: int, max: int, v: Value)
    ensures Range(min, max)(v).Success? <==> v.VInt? && min <= v.i <= max
    ensures min > max ==> Range(min, max)(v).Fail?
  {
  }

  /** The lower bound takes precedence: a value under `min` is reported as
      too low even when it is also over `max`. */
  lemma RangeLowerBoundFirst(min: int, max: int, i: int)
    requires i < min && i > max
    ensures Range(min, max)(VInt(i)) == Fail([Failures.Of(TooLow(min))])
    ensures Range(min, max)(VInt(i)).failures[0].message != TooHigh(max)
  {
    assert TooLow(min)[18] == 'l' && TooHigh(max)[18] == 'h';
  }

  /** `positive()` is the range from one up to any bound at least as large
      as the value. */
  lemma PositiveIsOpenRange(i: int, max: int)
    requires i <= max
    ensures Positive()(VInt(i)).Success? <==> Range(1, max)(VInt(i)).Success?
  {
  }

  /** `nonEmpty()` accepts exactly the non-empty strings. */
  lemma NonEmptyAcceptsFilledStrings(v: Value)
    ensures NonEmpty()(v).Success? <==> v.VStr? && |v.s| > 0
  {
  }
}
