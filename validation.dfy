/** The result algebra every constraint returns (`Innmind\Immutable\Validation`,
    a library the source depends on): one success value, or a non-empty,
    ordered list of failures. Two ways of combining: `FlatMap` stops at the
    first failure, `And` runs both sides and concatenates their failures. */
module Validations {
  import opened Failures

  /** A failure list is never empty, even for a single scalar mismatch. */
  type FailureList = fs: seq<Failure> | |fs| > 0 witness [Failure(KeyPaths.KeyPath([]), "?")]

  datatype Validation<+T> = Success(value: T) | Fail(failures: FailureList)

  /** The failures a result carries: none for a success. */
  function FailuresOf<T>(v: Validation<T>): (fs: seq<Failure>)
    ensures v.Fail? <==> |fs| > 0
  {
    if v.Fail? then v.failures else []
  }

  /** `$validation->map($f)`: transforms the success value only. */
  function Map<T, U>(v: Validation<T>, f: T -> U): (r: Validation<U>)
    ensures r.Success? <==> v.Success?
    ensures v.Success? ==> r.value == f(v.value)
    ensures FailuresOf(r) == FailuresOf(v)
  {
    match v
    case Success(x) => Success(f(x))
    case Fail(fs) => Fail(fs)
  }

  /** `$validation->flatMap($f)`: monadic bind; a failure short-circuits and
      `f` is not evaluated. */
  function FlatMap<T, U>(v: Validation<T>, f: T -> Validation<U>): (r: Validation<U>)
    ensures v.Fail? ==> r == Fail(v.failures)
    ensures v.Success? ==> r == f(v.value)
  {
    match v
    case Success(x) => f(x)
    case Fail(fs) => Fail(fs)
  }

  /** `$validation->otherwise($f)`: recovery; a success is kept, a failure is
      replaced by whatever `f` makes of its failures. */
  function Otherwise<T>(v: Validation<T>, f: FailureList -> Validation<T>): (r: Validation<T>)
    ensures v.Success? ==> r == v
    ensures v.Fail? ==> r == f(v.failures)
  {
    match v
    case Success(_) => v
    case Fail(fs) => f(fs)
  }

  /** `$validation->mapFailures($f)`: every failure transformed, count and
      order kept; a success is untouched. */
  function MapFailures<T>(v: Validation<T>, f: Failure -> Failure): (r: Validation<T>)
    ensures r.Success? <==> v.Success?
    ensures v.Success? ==> r == v
    ensures v.Fail? ==> |r.failures| == |v.failures|
    ensures v.Fail? ==> forall i | 0 <= i < |v.failures| :: r.failures[i] == f(v.failures[i])
  {
    match v
    case Success(_) => v
    case Fail(fs) => Fail(seq(|fs|, i requires 0 <= i < |fs| => f(fs[i])))
  }

  /** `$validation->and($other, $combine)`: applicative; both sides are
      evaluated, values are combined when both succeed, otherwise the failures
      of the left then the right side are reported together. */
  function And<T, U, W>(v: Validation<T>, w: Validation<U>, combine: (T, U) -> W): (r: Validation<W>)
    ensures r.Success? <==> v.Success? && w.Success?
    ensures r.Success? ==> r.value == combine(v.value, w.value)
    ensures FailuresOf(r) == FailuresOf(v) + FailuresOf(w)
  {
    match (v, w)
    case (Success(x), Success(y)) => Success(combine(x, y))
    case (Fail(fs), Success(_)) => Fail(fs)
    case (Success(_), Fail(gs)) => Fail(gs)
    case (Fail(fs), Fail(gs)) => Fail(fs + gs)
  }

  /** The failures of every failing result, in order: what an `And` fold
      over these results reports. */
  function CollectFailures<T>(vs: seq<Validation<T>>): (fs: seq<Failure>)
    decreases |vs|
  {
    if vs == [] then [] else CollectFailures(vs[..|vs| - 1]) + FailuresOf(vs[|vs| - 1])
  }

  /** Collecting over one more result appends that result's failures. */
  lemma CollectFailuresAppend<T>(vs: seq<Validation<T>>, v: Validation<T>)
    ensures CollectFailures(vs + [v]) == CollectFailures(vs) + FailuresOf(v)
  {
    assert (vs + [v])[..|vs|] == vs;
  }

  /** No failure is collected exactly when every result is a success. */
  lemma {:induction false} CollectFailuresEmpty<T>(vs: seq<Validation<T>>)
    ensures CollectFailures(vs) == [] <==> forall i | 0 <= i < |vs| :: vs[i].Success?
    decreases |vs|
  {
    if vs != [] {
      CollectFailuresEmpty(vs[..|vs| - 1]);
      assert forall i | 0 <= i < |vs| - 1 :: vs[..|vs| - 1][i] == vs[i];
    }
  }

  /** A fold whose every step appends one result's failures to those
      accumulated so far, starting from a success, has after `k` steps the
      failures of the first `k` results, in order. */
  lemma {:induction false} FoldReportsPrefix<T, U>(acc: seq<Validation<T>>, vs: seq<Validation<U>>, k: nat)
    requires |acc| == |vs| + 1 && acc[0].Success? && k <= |vs|
    requires forall i | 0 <= i < |vs| :: FailuresOf(acc[i + 1]) == FailuresOf(acc[i]) + FailuresOf(vs[i])
    ensures FailuresOf(acc[k]) == CollectFailures(vs[..k])
    decreases k
  {
    if k == 0 {
      assert vs[..0] == [];
    } else {
      FoldReportsPrefix(acc, vs, k - 1);
      assert vs[..k] == vs[..k - 1] + [vs[k - 1]];
      CollectFailuresAppend(vs[..k - 1], vs[k - 1]);
    }
  }

  /** The same fold, at its end: the failures of all the results. */
  lemma FoldReportsAll<T, U>(acc: seq<Validation<T>>, vs: seq<Validation<U>>)
    requires |acc| == |vs| + 1 && acc[0].Success?
    requires forall i | 0 <= i < |vs| :: FailuresOf(acc[i + 1]) == FailuresOf(acc[i]) + FailuresOf(vs[i])
    ensures FailuresOf(acc[|vs|]) == CollectFailures(vs)
  {
    FoldReportsPrefix(acc, vs, |vs|);
    assert vs[..|vs|] == vs;
  }

  /** Sequencing is associative: where the parentheses go in a chain of
      `flatMap`s does not change the result. */
  lemma FlatMapAssociative<T, U, W>(v: Validation<T>, f: T -> Validation<U>, g: U -> Validation<W>)
    ensures FlatMap(FlatMap(v, f), g) == FlatMap(v, x => FlatMap(f(x), g))
  {
  }

  /** Recovery is associative in the same way. */
  lemma OtherwiseAssociative<T>(v: Validation<T>, f: FailureList -> Validation<T>, g: FailureList -> Validation<T>)
    ensures Otherwise(Otherwise(v, f), g) == Otherwise(v, fs => Otherwise(f(fs), g))
  {
  }
}
