/**
 * Shared constants and helpers of the service (base.go): the script timeouts,
 * the staleness ceiling used by the quorum checks, `Max` and `SliceEqual`.
 */
module Base {

  /** Seconds a notification or verification script may run (base.go:9-10). */
  const NOTIFICATION_SCRIPT_TIMEOUT: int := 60
  const VERIFICATION_SCRIPT_TIMEOUT: int := 60

  /** Observations older than this many seconds are ignored by the quorum checks. */
  const STALE_INFO_INTERVAL_IN_SECONDS: int := 300

  const NANOS_PER_SECOND: int := 1_000_000_000

  /** Go's `Max` on int64: the larger of the two arguments. */
  function Max(x: int, y: int): (r: int)
    ensures r >= x && r >= y
    ensures r == x || r == y
  {
    if x > y then x else y
  }

  /** A Go `[]string`: the nil slice is distinct from a non-nil empty slice. */
  datatype StringSlice = NilSlice | Slice(items: seq<string>) {
    function Elems(): seq<string> {
      if NilSlice? then [] else items
    }
  }

  /** The two slices are equal in Go's sense: both nil, or both non-nil with the same elements in order. */
  predicate SameSlice(a: StringSlice, b: StringSlice) {
    a.NilSlice? == b.NilSlice? && a.Elems() == b.Elems()
  }

  /**
   * `SliceEqual`: false when exactly one argument is nil, false when the
   * lengths differ, otherwise the first mismatching position makes it false.
   */
  method SliceEqual(a: StringSlice, b: StringSlice) returns (r: bool)
    ensures a.NilSlice? != b.NilSlice? ==> !r
    ensures |a.Elems()| != |b.Elems()| ==> !r
    ensures r <==> SameSlice(a, b)
  {
    if a.NilSlice? != b.NilSlice? {
      return false;
    }
    var xs, ys := a.Elems(), b.Elems();
    if |xs| != |ys| {
      return false;
    }
    var i := 0;
    while i < |xs|
      invariant 0 <= i <= |xs|
      invariant xs[..i] == ys[..i]
    {
      if xs[i] != ys[i] {
        return false;
      }
      assert xs[..i + 1] == xs[..i] + [xs[i]] && ys[..i + 1] == ys[..i] + [ys[i]];
      i := i + 1;
    }
    assert xs == xs[..i] && ys == ys[..i];
    return true;
  }

  /** `SliceEqual` is an equivalence on slices: reflexive and symmetric. */
  lemma SliceEqualReflexiveSymmetric(a: StringSlice, b: StringSlice)
    ensures SameSlice(a, a)
    ensures SameSlice(a, b) == SameSlice(b, a)
  {
  }
}
