/** The `RangeList` class: a list of half-open ranges kept canonical
    (sorted by start, no empty range, neighbours separated by a gap) and
    updated in place by `Add` (union) and `Remove` (difference). */
module RangeLists {
  import opened Ranges

  class RangeList {
    /** The stored ranges, as plain (start, end) pairs. */
    var rangeList: seq<Range>

    ghost predicate Valid()
      reads this
    {
      Canonical(rangeList)
    }

    constructor ()
      ensures Valid() && rangeList == []
    {
      rangeList := [];
    }

    /** The integers of `range` in increasing order, one per push. */
    static method CreateRange(range: Range) returns (res: seq<int>)
      ensures |res| == if range.start < range.end then range.end - range.start else 0
      ensures forall k :: 0 <= k < |res| ==> res[k] == range.start + k
      ensures forall x :: x in res <==> Contains(range, x)
    {
      var start, end := range.start, range.end - 1;
      res := [];
      var i := start;
      while i <= end
        invariant start <= i <= if start <= end then end + 1 else start
        invariant |res| == i - start
        invariant forall k :: 0 <= k < |res| ==> res[k] == start + k
      {
        res := res + [i];
        i := i + 1;
      }
      forall x | Contains(range, x)
        ensures x in res
      {
        assert res[x - start] == x;
      }
    }

    /** Appends `range` and restores the order by start. The list is already
        sorted, so sorting moves the new range left past every range that
        starts after it, and nothing else. */
    method SaveRange(range: Range)
      requires SortedByStart(rangeList)
      modifies this
      ensures rangeList == InsertByStart(old(rangeList), range)
      ensures SortedByStart(rangeList)
      ensures multiset(rangeList) == multiset(old(rangeList)) + multiset{range}
    {
      ghost var s := rangeList;
      rangeList := rangeList + [range];
      var k := |rangeList| - 1;
      while k > 0 && rangeList[k - 1].start > rangeList[k].start
        invariant 0 <= k <= |s|
        invariant rangeList == s[..k] + [range] + s[k..]
        invariant forall m :: k <= m < |s| ==> range.start < s[m].start
      {
        rangeList := rangeList[k - 1 := rangeList[k]][k := rangeList[k - 1]];
        k := k - 1;
        assert s[..k + 1] == s[..k] + [s[k]];
      }
      assert s == s[..k] + s[k..];
      InsertBetween(s[..k], s[k..], range);
      InsertByStartSorted(s, range);
      InsertByStartPerm(s, range);
    }

    /** Adds the integers of `range` to the list. A range inside a stored
        one (or an empty range) changes nothing; one that overlaps or touches
        stored ranges is merged with all of them into one stored range; one
        that touches nothing is appended and sorted into place. */
    method Add(range: Range)
      requires Valid()
      modifies this
      ensures Valid()
      ensures forall x :: Covers(rangeList, x) <==> Covers(old(rangeList), x) || Contains(range, x)
      ensures range.end <= range.start ==> rangeList == old(rangeList)
      ensures forall k :: 0 <= k < |old(rangeList)| && old(rangeList)[k].start <= range.start && range.end <= old(rangeList)[k].end
                ==> rangeList == old(rangeList)
      ensures |rangeList| <= |old(rangeList)| + 1
    {
      var s := rangeList;
      CanonicalIsSorted(s);
      if range.end <= range.start {
        // an empty range holds no integer
        return;
      }
      // skip the ranges that end before the input starts
      var i := 0;
      while i < |s| && s[i].end < range.start
        invariant 0 <= i <= |s|
        invariant forall k :: 0 <= k < i ==> s[k].end < range.start
      {
        i := i + 1;
      }
      if i < |s| && s[i].start <= range.start && range.end <= s[i].end {
        // the list already includes the range
        forall k | 0 <= k < |s| && s[k].start <= range.start && range.end <= s[k].end
          ensures k == i
        {
        }
        return;
      }
      // s[i..j] are the stored ranges that overlap or touch the input
      var j, lo, hi := i, range.start, range.end;
      while j < |s| && s[j].start <= range.end
        invariant i <= j <= |s|
        invariant forall k :: i <= k < j ==> s[k].start <= range.end
        invariant lo == if i < j then (if s[i].start < range.start then s[i].start else range.start) else range.start
        invariant hi == if i < j then (if s[j - 1].end > range.end then s[j - 1].end else range.end) else range.end
      {
        if s[j].start < lo {
          lo := s[j].start;
        }
        if s[j].end > hi {
          hi := s[j].end;
        }
        j := j + 1;
      }
      assert MergeSplit(s, range, i, j, Range(lo, hi));
      if i == j {
        // the range touches nothing stored: push it and sort
        SaveRange(range);
      } else {
        // extend: the merged range takes the place of the ranges it absorbs
        rangeList := s[..i] + [Range(lo, hi)] + s[j..];
      }
      AddDone(s, range, i, j, Range(lo, hi), rangeList);
    }

    /** Takes the integers of `range` out of the list, stored range by stored
        range: a range around an interior hole is split in two, one reaching
        into the input from the left is cut back to the input's start, one
        reaching out of it to the right starts again at the input's end, and
        one inside the input is dropped. */
    method Remove(range: Range)
      requires Valid()
      modifies this
      ensures Valid()
      ensures rangeList == Subtract(old(rangeList), range)
      ensures forall x :: Covers(rangeList, x) <==> Covers(old(rangeList), x) && !Contains(range, x)
    {
      ghost var s := rangeList;
      ghost var k := 0;
      var i := 0;
      assert s[..0] == [] && s[0..] == s;
      while i < |rangeList|
        invariant 0 <= k <= |s|
        invariant rangeList == Subtract(s[..k], range) + s[k..]
        invariant i == |Subtract(s[..k], range)|
        decreases |s| - k
      {
        RemoveStep(s, k, range, rangeList, i);
        // what is left of the stored range: itself, a split, a truncation, or nothing
        var pieces := Pieces(rangeList[i], range);
        rangeList := rangeList[..i] + pieces + rangeList[i + 1..];
        i := i + |pieces|;
        k := k + 1;
      }
      RemoveDone(s, range, k, rangeList);
    }
  }

  /** One more stored range handled by `Remove`: replacing it by its pieces
      extends the subtracted prefix by one range. */
  lemma RemoveStep(s: seq<Range>, k: int, r: Range, list: seq<Range>, i: int)
    requires 0 <= k <= |s|
    requires list == Subtract(s[..k], r) + s[k..]
    requires i == |Subtract(s[..k], r)| && i < |list|
    ensures k < |s| && list[i] == s[k]
    ensures list[..i] + Pieces(list[i], r) + list[i + 1..] == Subtract(s[..k + 1], r) + s[k + 1..]
    ensures i + |Pieces(list[i], r)| == |Subtract(s[..k + 1], r)|
  {
    assert list[i] == s[k];
    assert s[..k + 1] == s[..k] + [s[k]];
    SubtractSnoc(s[..k], s[k], r);
    assert list[..i] == Subtract(s[..k], r);
    assert list[i + 1..] == s[k + 1..];
  }

  /** When `Remove` has walked the whole list, it holds the subtracted list,
      which is canonical and covers the old integers outside the input. */
  lemma RemoveDone(s: seq<Range>, r: Range, k: int, list: seq<Range>)
    requires Canonical(s) && 0 <= k <= |s|
    requires list == Subtract(s[..k], r) + s[k..]
    requires |Subtract(s[..k], r)| >= |list|
    ensures list == Subtract(s, r)
    ensures Canonical(list)
    ensures forall x :: Covers(list, x) <==> Covers(s, x) && !Contains(r, x)
  {
    assert s[..k] == s;
    SubtractCovers(s, r);
    SubtractCanonical(s, r);
  }

  /** The merge conditions of `Add`: `s[..i]` ends before `r`, `s[j..]`
      starts after it, `s[i..j]` overlaps or touches it, and `m` spans `r`
      together with `s[i..j]`. */
  ghost predicate MergeSplit(s: seq<Range>, r: Range, i: int, j: int, m: Range) {
    && Canonical(s) && r.start < r.end
    && 0 <= i <= j <= |s|
    && (forall k :: 0 <= k < i ==> s[k].end < r.start)
    && (i < |s| ==> r.start <= s[i].end)
    && (forall k :: i <= k < j ==> s[k].start <= r.end)
    && (j < |s| ==> r.end < s[j].start)
    && m.start == (if i < j then (if s[i].start < r.start then s[i].start else r.start) else r.start)
    && m.end == (if i < j then (if s[j - 1].end > r.end then s[j - 1].end else r.end) else r.end)
  }

  /** The merged range covers the absorbed ranges and, beyond them, only integers of `r`. */
  lemma MergedSpan(s: seq<Range>, r: Range, i: int, j: int, m: Range)
    requires MergeSplit(s, r, i, j, m)
    ensures forall x :: Contains(m, x) <==> Covers(s[i..j], x) || Contains(r, x)
  {
    CanonicalIsSorted(s);
    var mid := s[i..j];
    forall x | Covers(mid, x)
      ensures Contains(m, x)
    {
      var k :| 0 <= k < |mid| && Contains(mid[k], x);
      assert mid[k] == s[i + k];
      assert s[i].start <= s[i + k].start && s[i + k].end <= s[j - 1].end;
    }
    forall x | Contains(m, x) && !Contains(r, x)
      ensures Covers(mid, x)
    {
      if x < r.start {
        assert mid[0] == s[i] && Contains(s[i], x);
      } else {
        assert mid[j - 1 - i] == s[j - 1] && Contains(s[j - 1], x);
      }
    }
  }

  /** Replacing the stored ranges `s[i..j]` that overlap or touch `r` by the
      merged range `m` keeps the list canonical. */
  lemma MergeCanonical(s: seq<Range>, r: Range, i: int, j: int, m: Range)
    requires MergeSplit(s, r, i, j, m)
    ensures Canonical(s[..i] + [m] + s[j..])
  {
    CanonicalIsSorted(s);
    var pre, post := s[..i], s[j..];
    CanonicalSlice(s, 0, i);
    CanonicalSlice(s, j, |s|);
    if i > 0 {
      assert pre[|pre| - 1] == s[i - 1];
    }
    CanonicalConcat(pre, [m]);
    CanonicalConcat(pre + [m], post);
  }

  /** Replacing the stored ranges `s[i..j]` that overlap or touch `r` by the
      merged range `m` keeps the list canonical and adds exactly `r`. */
  lemma MergeCorrect(s: seq<Range>, r: Range, i: int, j: int, m: Range)
    requires MergeSplit(s, r, i, j, m)
    ensures Canonical(s[..i] + [m] + s[j..])
    ensures forall x :: Covers(s[..i] + [m] + s[j..], x) <==> Covers(s, x) || Contains(r, x)
  {
    MergeCanonical(s, r, i, j, m);
    MergedSpan(s, r, i, j, m);
    var pre, mid, post := s[..i], s[i..j], s[j..];
    assert s == pre + mid + post;
    CoversConcat(pre + [m], post);
    CoversConcat(pre, [m]);
    CoversConcat(pre + mid, post);
    CoversConcat(pre, mid);
    CoversSingle(m);
  }

  /** The list `Add` leaves when the input is not inside one stored range:
      the input inserted by start when it touches nothing, the merged range
      in place of the absorbed ones otherwise. Either way the list stays
      canonical, gains exactly the integers of `r`, and grows by at most one. */
  lemma AddDone(s: seq<Range>, r: Range, i: int, j: int, m: Range, t: seq<Range>)
    requires MergeSplit(s, r, i, j, m)
    requires !(i < |s| && s[i].start <= r.start && r.end <= s[i].end)
    requires t == if i == j then InsertByStart(s, r) else s[..i] + [m] + s[j..]
    ensures Canonical(t)
    ensures forall x :: Covers(t, x) <==> Covers(s, x) || Contains(r, x)
    ensures forall k :: 0 <= k < |s| ==> !(s[k].start <= r.start && r.end <= s[k].end)
    ensures |t| <= |s| + 1
  {
    var merged := s[..i] + [m] + s[j..];
    if i == j {
      InsertSeam(s, r, i, m);
    }
    assert t == merged;
    MergeCorrect(s, r, i, j, m);
    NotInside(s, r, i);
  }

  /** With nothing to absorb, the merged range is the input itself, and
      inserting it by start puts it at the split point. */
  lemma InsertSeam(s: seq<Range>, r: Range, i: int, m: Range)
    requires MergeSplit(s, r, i, i, m)
    ensures InsertByStart(s, r) == s[..i] + [m] + s[i..]
  {
    CanonicalIsSorted(s);
    assert s == s[..i] + s[i..];
    InsertBetween(s[..i], s[i..], r);
  }

  /** The first stored range not ending before `r` is the only one that
      could hold `r`; when it does not, none does. */
  lemma NotInside(s: seq<Range>, r: Range, i: int)
    requires Canonical(s) && 0 <= i <= |s| && r.start < r.end
    requires forall k :: 0 <= k < i ==> s[k].end < r.start
    requires i < |s| ==> r.start <= s[i].end
    requires !(i < |s| && s[i].start <= r.start && r.end <= s[i].end)
    ensures forall k :: 0 <= k < |s| ==> !(s[k].start <= r.start && r.end <= s[k].end)
  {
    CanonicalIsSorted(s);
    forall k | 0 <= k < |s|
      ensures !(s[k].start <= r.start && r.end <= s[k].end)
    {
      if i < k {
        assert s[i].end < s[k].start;
      }
    }
  }
}

/** Laws of the list operations, stated on what `Add` and `Remove` promise:
    `Add` leaves a canonical list covering the old integers and those of the
    input, `Remove` leaves the subtracted list. */
module RangeListLaws {
  import opened Ranges

  /** Adding the same range a second time changes nothing. */
  lemma AddIdempotent(s: seq<Range>, r: Range, t: seq<Range>, u: seq<Range>)
    requires Canonical(t) && Canonical(u)
    requires forall x :: Covers(t, x) <==> Covers(s, x) || Contains(r, x)
    requires forall x :: Covers(u, x) <==> Covers(t, x) || Contains(r, x)
    ensures u == t
  {
    CanonicalUnique(u, t);
  }

  /** Adding `a` then `b` leaves the same list as adding `b` then `a`. */
  lemma AddCommutes(s: seq<Range>, a: Range, b: Range, ta: seq<Range>, tab: seq<Range>, tb: seq<Range>, tba: seq<Range>)
    requires Canonical(tab) && Canonical(tba)
    requires forall x :: Covers(ta, x) <==> Covers(s, x) || Contains(a, x)
    requires forall x :: Covers(tab, x) <==> Covers(ta, x) || Contains(b, x)
    requires forall x :: Covers(tb, x) <==> Covers(s, x) || Contains(b, x)
    requires forall x :: Covers(tba, x) <==> Covers(tb, x) || Contains(a, x)
    ensures tab == tba
  {
    CanonicalUnique(tab, tba);
  }

  /** Removing a range that was just added, and that shared no integer with
      the list before, gives back the list as it was. */
  lemma RemoveUndoesAdd(s: seq<Range>, r: Range, t: seq<Range>)
    requires Canonical(s) && Canonical(t)
    requires forall x :: Covers(t, x) <==> Covers(s, x) || Contains(r, x)
    requires forall x :: Contains(r, x) ==> !Covers(s, x)
    ensures Subtract(t, r) == s
  {
    SubtractCovers(t, r);
    SubtractCanonical(t, r);
    CanonicalUnique(Subtract(t, r), s);
  }
}
