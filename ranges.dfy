/** Half-open integer ranges `[start, end)` and the canonical lists of them
    that a range list keeps: the value-level vocabulary of the model. */
module Ranges {

  /** The pair `[start, end)`; it holds the integers start, start + 1, ..., end - 1. */
  datatype Range = Range(start: int, end: int)

  /** `x` is one of the integers of `r`. */
  predicate Contains(r: Range, x: int) {
    r.start <= x < r.end
  }

  /** `x` is covered by some range of the list. */
  predicate Covers(s: seq<Range>, x: int) {
    exists k :: 0 <= k < |s| && Contains(s[k], x)
  }

  /** `e` and `r` have an integer in common. */
  predicate Overlaps(e: Range, r: Range) {
    e.start < e.end && r.start < r.end && e.start < r.end && r.start < e.end
  }

  /** Ordered by start, as `Array.prototype.sort` with the comparator on starts leaves the list. */
  predicate SortedByStart(s: seq<Range>) {
    forall j, k :: 0 <= j < k < |s| ==> s[j].start <= s[k].start
  }

  /** The shape the range list keeps between calls: no empty range, and each
      range ends strictly before the next one starts (so the list is sorted,
      disjoint, and no two neighbours touch and could be merged). */
  ghost predicate Canonical(s: seq<Range>) {
    && (forall k :: 0 <= k < |s| ==> s[k].start < s[k].end)
    && (forall j :: 0 <= j < |s| - 1 ==> s[j].end < s[j + 1].start)
  }

  // ---------------------------------------------------------------------------
  // Coverage of concatenated lists

  lemma CoversConcat(a: seq<Range>, b: seq<Range>)
    ensures forall x :: Covers(a + b, x) <==> Covers(a, x) || Covers(b, x)
  {
    forall x
      ensures Covers(a + b, x) <==> Covers(a, x) || Covers(b, x)
    {
      if Covers(a + b, x) {
        var k :| 0 <= k < |a + b| && Contains((a + b)[k], x);
        if k < |a| {
          assert (a + b)[k] == a[k];
        } else {
          assert (a + b)[k] == b[k - |a|];
        }
      }
      if Covers(a, x) {
        var k :| 0 <= k < |a| && Contains(a[k], x);
        assert (a + b)[k] == a[k];
      }
      if Covers(b, x) {
        var k :| 0 <= k < |b| && Contains(b[k], x);
        assert (a + b)[|a| + k] == b[k];
      }
    }
  }

  lemma CoversSingle(r: Range)
    ensures forall x :: Covers([r], x) <==> Contains(r, x)
  {
    forall x | Contains(r, x)
      ensures Covers([r], x)
    {
      assert [r][0] == r;
    }
  }

  // ---------------------------------------------------------------------------
  // The canonical shape

  /** Consecutive separation extends to every pair: an earlier range ends
      strictly before any later one starts. */
  lemma {:induction false} Separated(s: seq<Range>, j: int, k: int)
    requires Canonical(s)
    requires 0 <= j < k < |s|
    ensures s[j].end < s[k].start
    decreases k - j
  {
    if j + 1 < k {
      Separated(s, j, k - 1);
      assert s[k - 1].start < s[k - 1].end;
    }
  }

  lemma CanonicalIsSorted(s: seq<Range>)
    requires Canonical(s)
    ensures SortedByStart(s)
    ensures forall j, k :: 0 <= j < k < |s| ==> s[j].end < s[k].start
  {
    forall j, k | 0 <= j < k < |s|
      ensures s[j].end < s[k].start
    {
      Separated(s, j, k);
    }
  }

  /** A canonical list glued from two canonical lists with a gap at the seam. */
  lemma CanonicalConcat(a: seq<Range>, b: seq<Range>)
    requires Canonical(a) && Canonical(b)
    requires |a| > 0 && |b| > 0 ==> a[|a| - 1].end < b[0].start
    ensures Canonical(a + b)
  {
    var c := a + b;
    forall j | 0 <= j < |c| - 1
      ensures c[j].end < c[j + 1].start
    {
      if j + 1 < |a| {
        assert c[j] == a[j] && c[j + 1] == a[j + 1];
      } else if j < |a| {
        assert c[j] == a[|a| - 1] && c[j + 1] == b[0];
      } else {
        assert c[j] == b[j - |a|] && c[j + 1] == b[j + 1 - |a|];
      }
    }
  }

  lemma CanonicalSlice(s: seq<Range>, i: int, j: int)
    requires Canonical(s) && 0 <= i <= j <= |s|
    ensures Canonical(s[i..j])
  {
    var t := s[i..j];
    forall m | 0 <= m < |t| - 1
      ensures t[m].end < t[m + 1].start
    {
      assert t[m] == s[i + m] && t[m + 1] == s[i + m + 1];
    }
  }

  /** Past the first range of a canonical list, coverage is what the whole
      list covers at or beyond that range's end. */
  lemma TailCoverage(s: seq<Range>)
    requires Canonical(s) && |s| > 0
    ensures forall x :: Covers(s[1..], x) <==> Covers(s, x) && s[0].end <= x
  {
    CanonicalIsSorted(s);
    forall x
      ensures Covers(s[1..], x) <==> Covers(s, x) && s[0].end <= x
    {
      if Covers(s[1..], x) {
        var k :| 0 <= k < |s[1..]| && Contains(s[1..][k], x);
        assert s[1..][k] == s[k + 1];
      }
      if Covers(s, x) && s[0].end <= x {
        var k :| 0 <= k < |s| && Contains(s[k], x);
        assert k != 0;
        assert s[1..][k - 1] == s[k];
      }
    }
  }

  /** The end of the first range of a canonical list is a gap. */
  lemma FirstEndUncovered(s: seq<Range>)
    requires Canonical(s) && |s| > 0
    ensures !Covers(s, s[0].end)
  {
    CanonicalIsSorted(s);
    forall k | 0 <= k < |s|
      ensures !Contains(s[k], s[0].end)
    {
    }
  }

  /** Two canonical lists covering the same integers start with the same range. */
  lemma SameFirst(a: seq<Range>, b: seq<Range>)
    requires Canonical(a) && Canonical(b) && |a| > 0 && |b| > 0
    requires forall x :: Covers(a, x) <==> Covers(b, x)
    ensures a[0] == b[0]
  {
    CanonicalIsSorted(a);
    CanonicalIsSorted(b);
    // the first starts agree: each is the least covered integer
    assert Contains(a[0], a[0].start) && Covers(a, a[0].start);
    assert Contains(b[0], b[0].start) && Covers(b, b[0].start);
    var ka :| 0 <= ka < |b| && Contains(b[ka], a[0].start);
    var kb :| 0 <= kb < |a| && Contains(a[kb], b[0].start);
    assert b[0].start <= b[ka].start <= a[0].start;
    assert a[0].start <= a[kb].start <= b[0].start;
    // the first ends agree: the smaller end would be covered by one list only
    FirstEndUncovered(a);
    FirstEndUncovered(b);
    var a0, b0 := a[0], b[0];
    assert Contains(b0, a0.end) ==> Covers(b, a0.end);
    assert Contains(a0, b0.end) ==> Covers(a, b0.end);
  }

  /** The canonical form is unique: two canonical lists that cover the same
      integers are the same list. */
  lemma {:induction false} CanonicalUnique(a: seq<Range>, b: seq<Range>)
    requires Canonical(a) && Canonical(b)
    requires forall x :: Covers(a, x) <==> Covers(b, x)
    ensures a == b
    decreases |a|
  {
    if a != [] {
      assert Contains(a[0], a[0].start) && Covers(a, a[0].start);
    }
    if b != [] {
      assert Contains(b[0], b[0].start) && Covers(b, b[0].start);
    }
    if a != [] && b != [] {
      SameFirst(a, b);
      TailCoverage(a);
      TailCoverage(b);
      CanonicalSlice(a, 1, |a|);
      CanonicalSlice(b, 1, |b|);
      CanonicalUnique(a[1..], b[1..]);
      assert a == [a[0]] + a[1..];
      assert b == [b[0]] + b[1..];
    }
  }

  // ---------------------------------------------------------------------------
  // Ordered insertion (what push followed by sort does to a sorted list)

  /** `s` with `r` placed after every range whose start is at most `r.start`:
      the outcome of appending `r` to a list sorted by start and sorting it
      again with a stable sort. */
  function InsertByStart(s: seq<Range>, r: Range): (t: seq<Range>)
    ensures |t| == |s| + 1
  {
    if s == [] || r.start < s[0].start then
      [r] + s
    else
      [s[0]] + InsertByStart(s[1..], r)
  }

  /** The insertion adds `r` and keeps every range of the list. */
  lemma {:induction false} InsertByStartPerm(s: seq<Range>, r: Range)
    ensures multiset(InsertByStart(s, r)) == multiset(s) + multiset{r}
  {
    if s != [] && s[0].start <= r.start {
      InsertByStartPerm(s[1..], r);
      assert s == [s[0]] + s[1..];
    }
  }

  /** A lower bound on the starts of the list and of `r` bounds the starts
      after the insertion. */
  lemma {:induction false} InsertByStartAbove(s: seq<Range>, r: Range, lo: int)
    requires lo <= r.start
    requires forall k :: 0 <= k < |s| ==> lo <= s[k].start
    ensures forall k :: 0 <= k < |InsertByStart(s, r)| ==> lo <= InsertByStart(s, r)[k].start
  {
    if s != [] && s[0].start <= r.start {
      InsertByStartAbove(s[1..], r, lo);
      var rest := InsertByStart(s[1..], r);
      assert InsertByStart(s, r) == [s[0]] + rest;
    }
  }

  /** Inserting into a list sorted by start leaves it sorted by start. */
  lemma {:induction false} InsertByStartSorted(s: seq<Range>, r: Range)
    requires SortedByStart(s)
    ensures SortedByStart(InsertByStart(s, r))
  {
    if s != [] && s[0].start <= r.start {
      var rest := InsertByStart(s[1..], r);
      InsertByStartSorted(s[1..], r);
      InsertByStartAbove(s[1..], r, s[0].start);
      var t := [s[0]] + rest;
      assert InsertByStart(s, r) == t;
      forall j, k | 0 <= j < k < |t|
        ensures t[j].start <= t[k].start
      {
        assert t[k] == rest[k - 1];
        if j > 0 {
          assert t[j] == rest[j - 1];
        }
      }
    }
  }

  /** Inserting between a prefix of no larger starts and a suffix of larger starts. */
  lemma {:induction false} InsertBetween(a: seq<Range>, b: seq<Range>, r: Range)
    requires forall k :: 0 <= k < |a| ==> a[k].start <= r.start
    requires forall k :: 0 <= k < |b| ==> r.start < b[k].start
    ensures InsertByStart(a + b, r) == a + [r] + b
  {
    if a == [] {
      assert a + b == b;
    } else {
      var c, rest := a + b, a[1..];
      assert c[0] == a[0] && c[0].start <= r.start;
      assert c[1..] == rest + b;
      assert InsertByStart(c, r) == [a[0]] + InsertByStart(rest + b, r);
      InsertBetween(rest, b, r);
      assert [a[0]] + (rest + [r] + b) == ([a[0]] + rest) + [r] + b;
      assert a == [a[0]] + rest;
    }
  }

  /** The list sorted by start with a stable sort, as `Array.prototype.sort`
      with a comparator on starts sorts it: each range, in list order, goes
      after every range placed before it that starts no later. */
  function SortByStart(s: seq<Range>): (t: seq<Range>)
    ensures |t| == |s|
  {
    if s == [] then [] else InsertByStart(SortByStart(s[..|s| - 1]), s[|s| - 1])
  }

  /** The stable sort leaves the list sorted by start. */
  lemma {:induction false} SortByStartSorted(s: seq<Range>)
    ensures SortedByStart(SortByStart(s))
  {
    if s != [] {
      SortByStartSorted(s[..|s| - 1]);
      InsertByStartSorted(SortByStart(s[..|s| - 1]), s[|s| - 1]);
    }
  }

  /** The stable sort keeps every range of the list and adds none. */
  lemma {:induction false} SortByStartPerm(s: seq<Range>)
    ensures multiset(SortByStart(s)) == multiset(s)
  {
    if s != [] {
      var init, last := s[..|s| - 1], s[|s| - 1];
      SortByStartPerm(init);
      InsertByStartPerm(SortByStart(init), last);
      assert s == init + [last];
    }
  }

  /** A list already sorted by start is left as it is. */
  lemma {:induction false} SortByStartUnmoved(s: seq<Range>)
    requires SortedByStart(s)
    ensures SortByStart(s) == s
  {
    if s != [] {
      var init, last := s[..|s| - 1], s[|s| - 1];
      assert SortedByStart(init) by {
        forall j, k | 0 <= j < k < |init|
          ensures init[j].start <= init[k].start
        {
          assert init[j] == s[j] && init[k] == s[k];
        }
      }
      SortByStartUnmoved(init);
      assert SortByStart(s) == InsertByStart(init, last);
      assert forall k :: 0 <= k < |init| ==> init[k].start <= last.start by {
        forall k | 0 <= k < |init|
          ensures init[k].start <= last.start
        {
          assert init[k] == s[k];
        }
      }
      InsertBetween(init, [], last);
      assert init + [] == init && init + [last] + [] == init + [last];
      assert s == init + [last];
    }
  }

  /** Pushing onto a sorted list and sorting again is insertion by start. */
  lemma SortAfterPush(s: seq<Range>, r: Range)
    requires SortedByStart(s)
    ensures SortByStart(s + [r]) == InsertByStart(s, r)
  {
    assert (s + [r])[..|s|] == s;
    SortByStartUnmoved(s);
  }

  // ---------------------------------------------------------------------------
  // Subtraction, range by range

  /** What is left of the stored range `e` once the integers of `r` are taken
      out, as the non-empty ones of the left remainder `[e.start, r.start)` and
      the right remainder `[r.end, e.end)`. */
  function Pieces(e: Range, r: Range): (p: seq<Range>)
    ensures |p| <= 2
    ensures forall k :: 0 <= k < |p| ==> e.start <= p[k].start && p[k].end <= e.end
  {
    if !Overlaps(e, r) then
      [e]                                            // untouched
    else if e.start < r.start && r.end < e.end then
      [Range(e.start, r.start), Range(r.end, e.end)] // an interior hole splits it
    else if e.start < r.start then
      [Range(e.start, r.start)]                      // cut back to the start of r
    else if r.end < e.end then
      [Range(r.end, e.end)]                          // starts again at the end of r
    else
      []                                             // inside r: dropped
  }

  /** The pieces cover exactly what `e` covers outside `r`, form a canonical
      list when `e` is not empty, and lie within `e`. */
  lemma PiecesSpec(e: Range, r: Range)
    ensures forall x :: Covers(Pieces(e, r), x) <==> Contains(e, x) && !Contains(r, x)
    ensures e.start < e.end ==> Canonical(Pieces(e, r))
  {
    var left, right := Range(e.start, r.start), Range(r.end, e.end);
    CoversSingle(e);
    CoversSingle(left);
    CoversSingle(right);
    if Overlaps(e, r) && e.start < r.start && r.end < e.end {
      assert Pieces(e, r) == [left] + [right];
      CoversConcat([left], [right]);
    }
  }

  /** The list with `r` taken out of every stored range independently. */
  function Subtract(s: seq<Range>, r: Range): (t: seq<Range>)
    ensures |t| <= 2 * |s|
  {
    if s == [] then [] else Subtract(s[..|s| - 1], r) + Pieces(s[|s| - 1], r)
  }

  /** Subtract takes exactly the integers of `r` out of what the list covers. */
  lemma {:induction false} SubtractCovers(s: seq<Range>, r: Range)
    ensures forall x :: Covers(Subtract(s, r), x) <==> Covers(s, x) && !Contains(r, x)
  {
    if s != [] {
      var init, last := s[..|s| - 1], s[|s| - 1];
      SubtractCovers(init, r);
      PiecesSpec(last, r);
      CoversConcat(Subtract(init, r), Pieces(last, r));
      assert s == init + [last];
      CoversConcat(init, [last]);
      CoversSingle(last);
    }
  }

  /** Subtract keeps a canonical list canonical, inside the span of the old one. */
  lemma {:induction false} SubtractCanonical(s: seq<Range>, r: Range)
    requires Canonical(s)
    ensures Canonical(Subtract(s, r))
    ensures forall k :: 0 <= k < |Subtract(s, r)| ==> Subtract(s, r)[k].end <= s[|s| - 1].end
  {
    if s != [] {
      var init, last := s[..|s| - 1], s[|s| - 1];
      CanonicalSlice(s, 0, |s| - 1);
      SubtractCanonical(init, r);
      PiecesSpec(last, r);
      var t, p := Subtract(init, r), Pieces(last, r);
      if |t| > 0 && |p| > 0 {
        assert t[|t| - 1].end <= init[|init| - 1].end;
        assert init[|init| - 1] == s[|s| - 2];
      }
      CanonicalConcat(t, p);
      var u := t + p;
      forall k | 0 <= k < |u|
        ensures u[k].end <= last.end
      {
        if k < |t| {
          assert u[k] == t[k];
          assert init[|init| - 1].end < last.start;
        } else {
          assert u[k] == p[k - |t|];
        }
      }
    }
  }

  /** One more stored range: Subtract extends by that range's pieces. */
  lemma SubtractSnoc(s: seq<Range>, e: Range, r: Range)
    ensures Subtract(s + [e], r) == Subtract(s, r) + Pieces(e, r)
  {
    assert (s + [e])[..|s + [e]| - 1] == s;
  }
}
