/** src/Each.php, the older list validator: the same short-circuiting fold
    as src/Constraint/Each.php, but the accumulator starts as the input itself
    and every element's output is discarded, so on success the result is the
    input list unchanged. */
module LegacyEach {
  import opened Values
  import opened Validations
  import opened Constraints
  import EachConstraint

  /** The body of the `foreach`: validate one element, keep the carried
      value. */
  function Step<T>(c: Constraint<Value, T>, element: Value): Value -> Validation<Value>
  {
    carry => Map(c(element), _ => carry)
  }

  /** The fold of `Step` over the first elements, starting from success with
      the input. */
  function Fold<T>(c: Constraint<Value, T>, input: Value, xs: seq<Value>): Validation<Value>
    decreases |xs|
  {
    if xs == [] then Success(input)
    else FlatMap(Fold(c, input, xs[..|xs| - 1]), Step(c, xs[|xs| - 1]))
  }

  /** `Each::of($c)`: the fold over the elements of the input. */
  function Each<T>(c: Constraint<Value, T>): (r: Constraint<Value, Value>)
    ensures forall v: Value :: r(v) == Fold(c, v, Elements(v))
  {
    v => Fold(c, v, Elements(v))
  }

  /** The older fold is the newer one with its output replaced by the input:
      it fails exactly when the newer one does, with the same failures (those
      of the first failing element), and otherwise returns the input. */
  lemma {:induction false} FoldIsNewerEachOnInput<T>(c: Constraint<Value, T>, input: Value, xs: seq<Value>)
    ensures Fold(c, input, xs) == Map(EachConstraint.Each(c, xs), _ => input)
    decreases |xs|
  {
    if xs != [] {
      var n := |xs| - 1;
      FoldIsNewerEachOnInput(c, input, xs[..n]);
    }
  }

  /** What the older `Each` promises: success with the input exactly when
      every element is accepted, and otherwise the failures of the first
      rejected element, with no index in their paths. */
  lemma EachKeepsInput<T>(c: Constraint<Value, T>, v: Value)
    ensures Each(c)(v).Success? <==> forall i | 0 <= i < |Elements(v)| :: c(Elements(v)[i]).Success?
    ensures Each(c)(v).Success? ==> Each(c)(v).value == v
    ensures forall k | EachConstraint.FirstFailure(c, Elements(v), k) ::
      Each(c)(v) == Fail(c(Elements(v)[k]).failures)
  {
    FoldIsNewerEachOnInput(c, v, Elements(v));
    forall k | EachConstraint.FirstFailure(c, Elements(v), k)
      ensures Each(c)(v) == Fail(c(Elements(v)[k]).failures)
    {
      EachConstraint.EachStopsAtFirstFailure(c, Elements(v), k);
    }
  }

  /** The `foreach` of `Each::__invoke`, reassigning the accumulated
      validation. */
  method EachLoop<T>(c: Constraint<Value, T>, value: Value) returns (validation: Validation<Value>)
    ensures validation == Each(c)(value)
  {
    var xs := Elements(value);
    validation := Success(value);
    var i := 0;
    while i < |xs|
      invariant 0 <= i <= |xs|
      invariant validation == Fold(c, value, xs[..i])
    {
      var element := xs[i];
      assert xs[..i + 1][..i] == xs[..i];
      validation := FlatMap(validation, Step(c, element));
      i := i + 1;
    }
    assert xs[..|xs|] == xs;
  }
}
