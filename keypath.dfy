/** src/KeyPath.php: where a failure happened inside the validated input.
    Segments are stored in the order they were added (innermost first) and
    rendered outermost first, joined with dots; the root renders as `$`. */
module KeyPaths {
  import opened Text

  /** `parts` in order of addition: the last element is the outermost key. */
  datatype KeyPath = KeyPath(parts: seq<NonEmptyString>)

  /** `KeyPath::root()`. */
  function Root(): (p: KeyPath)
    ensures |p.parts| == 0
  {
    KeyPath([])
  }

  /** `KeyPath::under($path)`: a new path with one more segment, added last. */
  function Under(p: KeyPath, segment: NonEmptyString): (r: KeyPath)
    ensures |r.parts| == |p.parts| + 1
    ensures r.parts[..|p.parts|] == p.parts && r.parts[|p.parts|] == segment
  {
    KeyPath(p.parts + [segment])
  }

  /** `Sequence::reverse()`. */
  function Reverse<T>(s: seq<T>): (r: seq<T>)
    ensures |r| == |s|
    ensures forall i | 0 <= i < |s| :: r[i] == s[|s| - 1 - i]
    decreases |s|
  {
    if s == [] then [] else Reverse(s[1..]) + [s[0]]
  }

  /** `KeyPath::match($path, $root)`: `root()` when there is no segment,
      otherwise `path(first, rest)` over the reversed segments. */
  function Match<T>(p: KeyPath, path: (NonEmptyString, seq<NonEmptyString>) -> T, root: () -> T): (r: T)
    ensures p.parts == [] ==> r == root()
    ensures p.parts != [] ==>
      r == path(p.parts[|p.parts| - 1], Reverse(p.parts[..|p.parts| - 1]))
  {
    var reversed := Reverse(p.parts);
    if reversed == [] then root()
    else
      assert reversed[1..] == Reverse(p.parts[..|p.parts| - 1]);
      path(reversed[0], reversed[1..])
  }

  /** `KeyPath::toString()`: the segments joined by `.`, latest first; `$` for the root. */
  function ToString(p: KeyPath): NonEmptyString
  {
    Match(p, (first: NonEmptyString, rest: seq<NonEmptyString>) => Join([first] + rest, "."), () => "$")
  }

  /** The root renders as `$` and nothing else does. */
  lemma RootRendersDollar()
    ensures ToString(Root()) == "$"
  {
  }

  lemma ReverseAppend<T>(s: seq<T>, x: T)
    ensures Reverse(s + [x]) == [x] + Reverse(s)
  {
  }

  /** Adding a segment puts it in front of the rendering: this is why the
      outermost key of a nested failure is printed first. */
  lemma {:induction false} ToStringUnder(p: KeyPath, segment: NonEmptyString)
    ensures ToString(Under(p, segment)) ==
      if p.parts == [] then segment else segment + "." + ToString(p)
  {
    var q := Under(p, segment);
    ReverseAppend(p.parts, segment);
    var rev := Reverse(p.parts);
    assert Reverse(q.parts) == [segment] + rev;
    if p.parts != [] {
      assert [rev[0]] + rev[1..] == rev;
      assert ToString(p) == Join(rev, ".");
      assert ToString(q) == Join([segment] + rev, ".");
      assert ([segment] + rev)[1..] == rev;
    }
  }

  /** `root().under(s)` renders as exactly `s`. */
  lemma RootUnder(segment: NonEmptyString)
    ensures ToString(Under(Root(), segment)) == segment
  {
    ToStringUnder(Root(), segment);
  }

  /** Two additions render latest first: `root().under(a).under(b)` is `b.a`. */
  lemma RootUnderUnder(a: NonEmptyString, b: NonEmptyString)
    ensures ToString(Under(Under(Root(), a), b)) == b + "." + a
  {
    ToStringUnder(Root(), a);
    ToStringUnder(Under(Root(), a), b);
  }

  /** A path with segments renders as a string that starts with its latest
      segment. */
  lemma {:induction false} ToStringStartsWithLatest(p: KeyPath)
    requires p.parts != []
    ensures ToString(p)[..|p.parts[|p.parts| - 1]|] == p.parts[|p.parts| - 1]
  {
    var n := |p.parts|;
    var prefix := KeyPath(p.parts[..n - 1]);
    assert p == Under(prefix, p.parts[n - 1]);
    ToStringUnder(prefix, p.parts[n - 1]);
  }
}
