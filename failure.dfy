/** src/Failure.php: one validation error, a key path and a non-empty
    message. A failure is never changed in place; `Under` builds a new one. */
module Failures {
  import opened Text
  import KeyPaths

  datatype Failure = Failure(path: KeyPaths.KeyPath, message: NonEmptyString)

  /** `Failure::of($message)`: a failure at the root path. */
  function Of(message: NonEmptyString): (f: Failure)
    ensures f.path == KeyPaths.Root() && f.message == message
  {
    Failure(KeyPaths.Root(), message)
  }

  /** `$failure->under($path)`: the same message, one level deeper; the new
      segment becomes the first one rendered. */
  function Under(f: Failure, segment: NonEmptyString): (r: Failure)
    ensures r.message == f.message
    ensures r.path == KeyPaths.Under(f.path, segment)
  {
    Failure(KeyPaths.Under(f.path, segment), f.message)
  }

  /** Every failure of a list put under the same segment. */
  function UnderAll(fs: seq<Failure>, segment: NonEmptyString): (r: seq<Failure>)
    ensures |r| == |fs| && forall i | 0 <= i < |fs| :: r[i] == Under(fs[i], segment)
  {
    seq(|fs|, i requires 0 <= i < |fs| => Under(fs[i], segment))
  }

  /** What the nested-shape test relies on: `of(m)->under(a)->under(b)` is
      reported at `b.a` with message `m`. */
  lemma OfUnderUnder(m: NonEmptyString, a: NonEmptyString, b: NonEmptyString)
    ensures KeyPaths.ToString(Under(Under(Of(m), a), b).path) == b + "." + a
    ensures Under(Under(Of(m), a), b).message == m
  {
    KeyPaths.RootUnderUnder(a, b);
  }
}
