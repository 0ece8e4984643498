/** src/Constraint/Each.php: validates every element of a list with one
    constraint, folding with `flatMap`, so the first failing element stops
    the validation; on success the result is the list of the elements'
    outputs. Failures keep the element constraint's own paths (no index). */
module EachConstraint {
  import opened Values
  import opened Validations
  import opened Constraints

  /** Element `k` is the first one the constraint rejects. */
  ghost predicate FirstFailure<I, T>(c: Constraint<I, T>, xs: seq<I>, k: int)
  {
    0 <= k < |xs| && c(xs[k]).Fail? && forall i | 0 <= i < k :: c(xs[i]).Success?
  }

  /** The body of the `foreach`: validate one element and append its output
      to the carried list. */
  function Step<I, T>(c: Constraint<I, T>, element: I): seq<T> -> Validation<seq<T>>
  {
    carry => Map(c(element), v => carry + [v])
  }

  /** `Each::of($c)($list)`: the left fold of `Step` over the elements,
      starting from success `[]`. */
  function Each<I, T>(c: Constraint<I, T>, xs: seq<I>): (r: Validation<seq<T>>)
    ensures r.Success? <==> forall i | 0 <= i < |xs| :: c(xs[i]).Success?
    ensures r.Success? ==> |r.value| == |xs|
    ensures r.Success? ==> forall i | 0 <= i < |xs| :: r.value[i] == c(xs[i]).value
    ensures r.Fail? ==> exists k :: FirstFailure(c, xs, k) && r.failures == c(xs[k]).failures
    decreases |xs|
  {
    if xs == [] then Success([])
    else
      var n := |xs| - 1;
      var prefix := Each(c, xs[..n]);
      assert forall i | 0 <= i < n :: xs[..n][i] == xs[i];
      assert prefix.Fail? ==> exists k :: FirstFailure(c, xs, k) && prefix.failures == c(xs[k]).failures by {
        if prefix.Fail? {
          var k :| FirstFailure(c, xs[..n], k) && prefix.failures == c(xs[..n][k]).failures;
          assert FirstFailure(c, xs, k);
        }
      }
      assert prefix.Success? && c(xs[n]).Fail? ==> FirstFailure(c, xs, n);
      FlatMap(prefix, Step(c, xs[n]))
  }

  /** The first failing element decides the result, whatever follows it. */
  lemma EachStopsAtFirstFailure<I, T>(c: Constraint<I, T>, xs: seq<I>, k: int)
    requires FirstFailure(c, xs, k)
    ensures Each(c, xs) == Fail(c(xs[k]).failures)
  {
    var r := Each(c, xs);
    var k' :| FirstFailure(c, xs, k') && r.failures == c(xs[k']).failures;
    assert k' == k;
  }

  /** Elements after a failing one do not affect the result. */
  lemma EachIgnoresRest<I, T>(c: Constraint<I, T>, xs: seq<I>, ys: seq<I>, j: int)
    requires 0 <= j < |xs| && c(xs[j]).Fail?
    ensures Each(c, xs + ys) == Each(c, xs)
  {
    var r := Each(c, xs);
    var k :| FirstFailure(c, xs, k) && r.failures == c(xs[k]).failures;
    assert forall i | 0 <= i < |xs| :: (xs + ys)[i] == xs[i];
    assert FirstFailure(c, xs + ys, k);
    EachStopsAtFirstFailure(c, xs + ys, k);
  }

  /** The predicate of `Each` holds iff every element satisfies the constraint. */
  lemma EachPredicate<I(!new), T>(c: Constraint<I, T>, xs: seq<I>)
    ensures Predicate(xs => Each(c, xs))(xs) <==> forall i | 0 <= i < |xs| :: Predicate(c)(xs[i])
  {
  }

  /** `int or string` element by element: a list is accepted exactly when
      each element is an int or a string, whatever the mix. */
  lemma EachIntOrString(xs: seq<Value>)
    ensures Each(OrConstraint(IntType(), StringType()), xs).Success? <==>
      forall i | 0 <= i < |xs| :: xs[i].VInt? || xs[i].VStr?
  {
    var c := OrConstraint(IntType(), StringType());
    assert forall i | 0 <= i < |xs| :: c(xs[i]).Success? <==> xs[i].VInt? || xs[i].VStr?;
  }

  /** The `foreach` of `Each::__invoke`, reassigning the accumulated validation. */
  method EachLoop<I, T>(c: Constraint<I, T>, xs: seq<I>) returns (validation: Validation<seq<T>>)
    ensures validation == Each(c, xs)
  {
    validation := Success([]);
    var i := 0;
    while i < |xs|
      invariant 0 <= i <= |xs|
      invariant validation == Each(c, xs[..i])
    {
      var element := xs[i];
      assert xs[..i + 1][..i] == xs[..i];
      validation := FlatMap(validation, Step(c, element));
      i := i + 1;
    }
    assert xs[..|xs|] == xs;
  }
}
