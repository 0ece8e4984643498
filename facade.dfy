/** The older top-level constraints: src/Is.php (a native type predicate
    with its type name and an optional custom message, `list`, `just`), and
    the delegating methods of src/Has.php, src/AndConstraint.php,
    src/OrConstraint.php and src/Map.php, which build the same compositions
    as the constraints of src/Constraint/. */
module Facade {
  import opened Text
  import opened Outcomes
  import opened Values
  import KeyPaths
  import Failures
  import opened Validations
  import opened Constraints
  import LegacyEach

  /** An `Is` instance: `$assert`, `$type` and `$message`. */
  datatype Is = Is(check: Value -> bool, typeName: NonEmptyString, message: Option<NonEmptyString>)

  /** `$this->message ?? "Value is not of type {$this->type}"`. */
  function FailureMessage(it: Is): NonEmptyString
  {
    if it.message.Some? then it.message.value else "Value is not of type " + it.typeName
  }

  /** `Is::__invoke`: success with the input itself iff the predicate holds,
      otherwise one root failure with the custom or the default message. */
  function Apply(it: Is): (c: Constraint<Value, Value>)
    ensures forall v: Value :: it.check(v) ==> c(v) == Success(v)
    ensures forall v: Value :: !it.check(v) ==> c(v) == Fail([Failures.Of(FailureMessage(it))])
  {
    v => if it.check(v) then Success(v) else Fail([Failures.Of(FailureMessage(it))])
  }

  // The factories: each native predicate with its type name, no message.
  function String(): Is { Is(IsString, "string", None) }
  function Int(): Is { Is(IsInt, "int", None) }
  function Float(): Is { Is(IsFloat, "float", None) }
  function Array(): Is { Is(IsArray, "array", None) }
  function Bool(): Is { Is(IsBool, "bool", None) }
  function Null(): Is { Is(IsNull, "null", None) }

  /** `$is->withFailure($message)`: the same predicate and type, the given
      message. */
  function WithFailure(it: Is, message: NonEmptyString): (r: Is)
    ensures r.check == it.check && r.typeName == it.typeName && r.message == Some(message)
  {
    it.(message := Some(message))
  }

  /** Every factory behaves as the primitive of the same type: the same
      accepted values and the same `Value is not of type <type>` failure. */
  lemma FactoriesMatchPrimitives(v: Value)
    ensures Apply(String())(v) == StringType()(v) && Apply(Int())(v) == IntType()(v)
    ensures Apply(Float())(v) == FloatType()(v) && Apply(Array())(v) == ArrayType()(v)
    ensures Apply(Bool())(v) == BoolType()(v) && Apply(Null())(v) == NullType()(v)
  {
  }

  /** A custom message changes only the failure's text: the same values are
      accepted, and a rejection is still one root failure. */
  lemma WithFailureKeepsCheck(it: Is, message: NonEmptyString, v: Value)
    ensures Apply(WithFailure(it, message))(v).Success? <==> Apply(it)(v).Success?
    ensures Apply(WithFailure(it, message))(v).Success? ==> Apply(WithFailure(it, message))(v) == Apply(it)(v)
    ensures Apply(WithFailure(it, message))(v).Fail? ==>
      Apply(WithFailure(it, message))(v) == Fail([Failures.Of(message)])
  {
  }

  /** `asPredicate()` holds exactly for the values the predicate accepts. */
  lemma AsPredicateIsCheck(it: Is, v: Value)
    ensures Predicate(Apply(it))(v) <==> it.check(v)
  {
  }

  /** `Is::list($each)`: the array check, then `array_is_list`, then, when
      an element constraint is given, the older `Each` over the elements. */
  function List<T>(each: Option<Constraint<Value, T>>): (c: Constraint<Value, Value>)
    ensures forall v: Value :: !v.VArray? ==> c(v) == Fail([Failures.Of("Value is not of type array")])
    ensures forall v: Value :: v.VArray? && !IsList(v) ==> c(v) == Fail([Failures.Of("Value is not of type list")])
    ensures each.None? ==> forall v: Value :: IsList(v) ==> c(v) == Success(v)
    ensures each.Some? ==> forall v: Value :: IsList(v) ==> c(v) == LegacyEach.Each(each.value)(v)
  {
    assert FailureMessage(Array()) == "Value is not of type array";
    assert FailureMessage(Is(IsList, "list", None)) == "Value is not of type list";
    var lists := AndConstraint(Apply(Array()), Apply(Is(IsList, "list", None)));
    match each
    case None => lists
    case Some(e) => AndConstraint(lists, LegacyEach.Each(e))
  }

  /** Without an element constraint, `Is::list()` is `Primitive::list()`. */
  lemma ListMatchesPrimitive(v: Value)
    ensures List<Value>(None)(v) == ListType()(v)
  {
  }

  /** With an element constraint, a list is accepted, unchanged, exactly
      when every element is; a rejected element's failures are the result. */
  lemma ListEachKeepsInput<T>(e: Constraint<Value, T>, v: Value)
    requires IsList(v)
    ensures List(Some(e))(v).Success? <==> forall i | 0 <= i < |Elements(v)| :: e(Elements(v)[i]).Success?
    ensures List(Some(e))(v).Success? ==> List(Some(e))(v).value == v
  {
    LegacyEach.EachKeepsInput(e, v);
  }

  /** `Is::just($message)`: the value of a present `Maybe`, or one root
      failure, `No value was provided` unless a message is given. */
  function Just<V(!new)>(message: Option<NonEmptyString>): (c: Constraint<Option<V>, V>)
    ensures forall x: V :: c(Some(x)) == Success(x)
    ensures message.None? ==> c(None) == Fail([Failures.Of("No value was provided")])
    ensures message.Some? ==> c(None) == Fail([Failures.Of(message.value)])
  {
    (m: Option<V>) => match m
         case Some(x) => Success(x)
         case None => Fail([Failures.Of(if message.Some? then message.value else "No value was provided")])
  }

  /** `just` accepts exactly the present values. */
  lemma JustAcceptsPresent<V(!new)>(message: Option<NonEmptyString>, m: Option<V>)
    ensures Just(message)(m).Success? <==> m.Some?
    ensures m.Some? ==> Just(message)(m).value == m.value
  {
  }

  // ------------------------------------------------------- delegation lemmas

  /** `Has::key($k)->and($c)` (src/Has.php): `c` runs on the element at the
      key, and a missing key is reported without running `c`. */
  lemma HasAndRunsOnElement<T>(key: NonEmptyString, c: Constraint<Value, T>, es: Entries)
    ensures Lookup(es, StrKey(key)).Some? ==> AndConstraint(Has(key), c)(es) == c(Lookup(es, StrKey(key)).value)
    ensures Lookup(es, StrKey(key)).None? ==>
      AndConstraint(Has(key), c)(es) == Fail([Failures.Of(MissingKey(key))])
  {
  }

  /** `Has::key($k)->or($c)` (src/Has.php): the element when the key is
      present, otherwise `c` on the same array. */
  lemma HasOrFallsBack(key: NonEmptyString, c: Constraint<Entries, Value>, es: Entries)
    ensures Lookup(es, StrKey(key)).Some? ==> OrConstraint(Has(key), c)(es) == Success(Lookup(es, StrKey(key)).value)
    ensures Lookup(es, StrKey(key)).None? ==> OrConstraint(Has(key), c)(es) == c(es)
  {
  }

  /** `$and->and($c)` nests to the left (src/AndConstraint.php): the result
      reports the failures of the first stage that fails, and only those. */
  lemma AndChainFirstFailingStage<A(!new), B(!new), C(!new), D>(a: Constraint<A, B>, b: Constraint<B, C>, c: Constraint<C, D>, x: A)
    ensures a(x).Fail? ==> AndConstraint(AndConstraint(a, b), c)(x) == Fail(a(x).failures)
    ensures a(x).Success? && b(a(x).value).Fail? ==>
      AndConstraint(AndConstraint(a, b), c)(x) == Fail(b(a(x).value).failures)
    ensures a(x).Success? && b(a(x).value).Success? ==>
      AndConstraint(AndConstraint(a, b), c)(x) == c(b(a(x).value).value)
  {
  }

  /** `$and->or($c)` (src/AndConstraint.php): the whole sequence is the
      first branch, so `c` runs on the original input when either stage
      fails. */
  lemma AndThenOrFallsBack<A(!new), B(!new), C>(a: Constraint<A, B>, b: Constraint<B, C>, c: Constraint<A, C>, x: A)
    ensures a(x).Success? && b(a(x).value).Success? ==>
      OrConstraint(AndConstraint(a, b), c)(x) == b(a(x).value)
    ensures a(x).Fail? || b(a(x).value).Fail? ==> OrConstraint(AndConstraint(a, b), c)(x) == c(x)
  {
  }

  /** `$or->and($c)` (src/OrConstraint.php): `c` runs on the output of
      whichever alternative succeeded. */
  lemma OrThenAndRunsOnWinner<A(!new), B(!new), C>(a: Constraint<A, B>, b: Constraint<A, B>, c: Constraint<B, C>, x: A)
    ensures a(x).Success? ==> AndConstraint(OrConstraint(a, b), c)(x) == c(a(x).value)
    ensures a(x).Fail? && b(x).Success? ==> AndConstraint(OrConstraint(a, b), c)(x) == c(b(x).value)
    ensures a(x).Fail? && b(x).Fail? ==> AndConstraint(OrConstraint(a, b), c)(x) == Fail(b(x).failures)
  {
  }

  /** `$x->or($y)->or($z)...`: alternatives nested to the left, as
      `OrConstraint::or` builds them. */
  function OrChain<A(!new), B>(cs: seq<Constraint<A, B>>): Constraint<A, B>
    requires |cs| > 0
    decreases |cs|
  {
    if |cs| == 1 then cs[0] else OrConstraint(OrChain(cs[..|cs| - 1]), cs[|cs| - 1])
  }

  /** An or-chain returns the first success from the left, or, when every
      alternative fails, the failures of the last one only. */
  lemma {:induction false} OrChainFirstSuccess<A(!new), B>(cs: seq<Constraint<A, B>>, x: A)
    requires |cs| > 0
    ensures forall i | 0 <= i < |cs| && cs[i](x).Success? && (forall j | 0 <= j < i :: cs[j](x).Fail?) ::
      OrChain(cs)(x) == cs[i](x)
    ensures (forall i | 0 <= i < |cs| :: cs[i](x).Fail?) ==> OrChain(cs)(x) == cs[|cs| - 1](x)
    decreases |cs|
  {
    if |cs| > 1 {
      var n := |cs| - 1;
      var init := cs[..n];
      OrChainFirstSuccess(init, x);
      assert forall i | 0 <= i < n :: init[i] == cs[i];
      if forall i | 0 <= i < n :: cs[i](x).Fail? {
        assert init[n - 1](x).Fail?;
        assert OrChain(init)(x).Fail?;
      }
    }
  }

  /** `map` twice is `map` of the composition (src/Map.php, and every
      `->map()`): the status and the failures are those of the inner
      constraint. */
  lemma MapComposes<A(!new), B, C, D>(c: Constraint<A, B>, f: B -> C, g: C -> D, x: A)
    ensures MapConstraint(MapConstraint(c, f), g)(x) == MapConstraint(c, y => g(f(y)))(x)
  {
  }
}
