/** The loops of `add` and `remove` exactly as the source writes them,
    on values: each pass reads and updates the list the way the source's
    index loops do, so the inputs on which they break the list's documented
    meaning can be shown. */
module AsWritten {
  import opened Ranges

  datatype Option<T> = None | Some(value: T)

  // ---------------------------------------------------------------- add

  /** Where a loop of `add` stopped: at the early `return`, or at its end;
      either way with the list as the extensions left it. */
  datatype Scan = Returned(list: seq<Range>) | Finished(list: seq<Range>)

  /** The inner loop of `add` for one `i`: walks `j` up to `n`. A stored
      range that ends inside the input is extended to the input's end; the
      loop returns when the input lies between the start of range `i` and
      the end of range `j`. */
  function AddInner(list: seq<Range>, r: Range, iStart: int, j: nat, n: nat): (res: Scan)
    requires n == |list|
    ensures |res.list| == |list|
    ensures forall k :: 0 <= k < |list| ==> res.list[k].start == list[k].start
    decreases n - j
  {
    if j >= n then Finished(list)
    else if r.start >= iStart && r.end <= list[j].end then Returned(list)
    else if r.end > list[j].end && r.start <= list[j].end then
      AddInner(list[j := Range(list[j].start, r.end)], r, iStart, j + 1, n)
    else AddInner(list, r, iStart, j + 1, n)
  }

  /** The outer loop of `add`, from index `i` on. */
  function AddOuter(list: seq<Range>, r: Range, i: nat): (res: Scan)
    ensures |res.list| == |list|
    ensures forall k :: 0 <= k < |list| ==> res.list[k].start == list[k].start
    decreases |list| - i
  {
    if i >= |list| then Finished(list)
    else match AddInner(list, r, list[i].start, i, |list|)
      case Returned(next) => Returned(next)
      case Finished(next) => AddOuter(next, r, i + 1)
  }

  /** `add` as written: the two loops, then, unless they returned, the range
      is pushed and the list sorted by start. The loops move no start, so a
      list sorted by start stays sorted either way. */
  function AddAsWritten(list: seq<Range>, r: Range): (res: seq<Range>)
    ensures |res| == |list| || |res| == |list| + 1
    ensures SortedByStart(list) ==> SortedByStart(res)
  {
    match AddOuter(list, r, 0)
    case Returned(next) => next
    case Finished(next) =>
      SortByStartSorted(next + [r]);
      SortByStart(next + [r])
  }

  /** A range in the gap between two stored ranges is dropped: the inner
      loop pairs the start of the first stored range with the end of the
      second and takes the input as already included. */
  lemma AddDropsGapRange()
    ensures AddAsWritten([Range(1, 5), Range(10, 20)], Range(6, 9)) == [Range(1, 5), Range(10, 20)]
    ensures !Covers(AddAsWritten([Range(1, 5), Range(10, 20)], Range(6, 9)), 6)
  {
    assert AddInner([Range(1, 5), Range(10, 20)], Range(6, 9), 1, 0, 2) == Returned([Range(1, 5), Range(10, 20)]);
  }

  /** An empty range beyond every stored range is stored. */
  lemma AddStoresEmptyRange()
    ensures AddAsWritten([Range(1, 5)], Range(30, 30)) == [Range(1, 5), Range(30, 30)]
    ensures !Canonical(AddAsWritten([Range(1, 5)], Range(30, 30)))
  {
    assert AddOuter([Range(1, 5)], Range(30, 30), 0) == Finished([Range(1, 5)]);
    SortAfterPush([Range(1, 5)], Range(30, 30));
    assert [Range(1, 5)][1..] == [];
    assert InsertByStart([Range(1, 5)], Range(30, 30)) == [Range(1, 5)] + [Range(30, 30)];
    var t := [Range(1, 5)] + [Range(30, 30)];
    assert t == [Range(1, 5), Range(30, 30)];
    assert !(t[1].start < t[1].end);
  }

  /** A range reaching past the end of a stored range extends it, and is
      then pushed as well: no containment test runs after the extension. */
  lemma AddExtendsThenPushes()
    ensures AddAsWritten([Range(1, 5)], Range(3, 8)) == [Range(1, 8), Range(3, 8)]
    ensures !Canonical(AddAsWritten([Range(1, 5)], Range(3, 8)))
  {
    assert AddOuter([Range(1, 5)], Range(3, 8), 0) == Finished([Range(1, 8)]);
    SortAfterPush([Range(1, 8)], Range(3, 8));
    assert InsertByStart([Range(1, 8)], Range(3, 8)) == [Range(1, 8), Range(3, 8)];
    var t := [Range(1, 8), Range(3, 8)];
    assert !(t[0].end < t[1].start);
  }

  /** A range starting where a stored range ends is joined to it, and is
      then pushed as well. */
  lemma AddTouchingThenPushes()
    ensures AddAsWritten([Range(1, 5)], Range(5, 10)) == [Range(1, 10), Range(5, 10)]
    ensures !Canonical(AddAsWritten([Range(1, 5)], Range(5, 10)))
  {
    assert AddOuter([Range(1, 5)], Range(5, 10), 0) == Finished([Range(1, 10)]);
    SortAfterPush([Range(1, 10)], Range(5, 10));
    assert InsertByStart([Range(1, 10)], Range(5, 10)) == [Range(1, 10), Range(5, 10)];
    var t := [Range(1, 10), Range(5, 10)];
    assert !(t[0].end < t[1].start);
  }

  /** A range overlapping the start of a stored range is not merged with it:
      neither test fires for an input that starts before the stored range. */
  lemma AddOverlapFromLeftNotMerged()
    ensures AddAsWritten([Range(10, 20)], Range(5, 15)) == [Range(5, 15), Range(10, 20)]
    ensures !Canonical(AddAsWritten([Range(10, 20)], Range(5, 15)))
  {
    assert AddOuter([Range(10, 20)], Range(5, 15), 0) == Finished([Range(10, 20)]);
    SortAfterPush([Range(10, 20)], Range(5, 15));
    var t := [Range(5, 15), Range(10, 20)];
    assert !(t[0].end < t[1].start);
  }

  /** The sort after the push orders the whole list by start, not only the
      pushed range: a list left out of order keeps no order of its own. */
  lemma AddSortsWholeList()
    ensures AddAsWritten([Range(5, 0), Range(1, 30)], Range(40, 50)) == [Range(1, 30), Range(5, 0), Range(40, 50)]
  {
    var l := [Range(5, 0), Range(1, 30)];
    assert AddInner(l, Range(40, 50), 5, 0, 2) == Finished(l);
    assert AddInner(l, Range(40, 50), 1, 1, 2) == Finished(l);
    assert AddOuter(l, Range(40, 50), 1) == Finished(l);
    assert AddOuter(l, Range(40, 50), 0) == Finished(l);
    assert l + [Range(40, 50)] == [Range(5, 0), Range(1, 30), Range(40, 50)];
    var s := [Range(5, 0), Range(1, 30), Range(40, 50)];
    assert s[..2] == [Range(5, 0), Range(1, 30)] && s[..2][..1] == [Range(5, 0)];
    assert SortByStart([Range(5, 0)]) == [Range(5, 0)];
    assert SortByStart(s[..2]) == [Range(1, 30), Range(5, 0)];
    assert SortByStart(s) == InsertByStart([Range(1, 30), Range(5, 0)], Range(40, 50));
    assert [Range(1, 30), Range(5, 0)][1..] == [Range(5, 0)] && [Range(5, 0)][1..] == [];
    assert InsertByStart([Range(1, 30), Range(5, 0)], Range(40, 50)) == [Range(1, 30), Range(5, 0), Range(40, 50)];
  }

  /** On the session that closes the source file, the loops of `add` give
      the lists its comments show. */
  lemma AddSessionAsWritten()
    ensures AddAsWritten([], Range(1, 5)) == [Range(1, 5)]
    ensures AddAsWritten([Range(1, 5)], Range(10, 20)) == [Range(1, 5), Range(10, 20)]
    ensures AddAsWritten([Range(1, 5), Range(10, 20)], Range(20, 20)) == [Range(1, 5), Range(10, 20)]
    ensures AddAsWritten([Range(1, 5), Range(10, 20)], Range(20, 21)) == [Range(1, 5), Range(10, 21)]
    ensures AddAsWritten([Range(1, 5), Range(10, 21)], Range(2, 4)) == [Range(1, 5), Range(10, 21)]
    ensures AddAsWritten([Range(1, 5), Range(10, 21)], Range(3, 8)) == [Range(1, 8), Range(10, 21)]
  {
    assert AddInner([Range(1, 5), Range(10, 20)], Range(20, 20), 1, 0, 2) == Returned([Range(1, 5), Range(10, 20)]);
    assert [Range(1, 5), Range(10, 20)][1 := Range(10, 21)] == [Range(1, 5), Range(10, 21)];
    assert AddInner([Range(1, 5), Range(10, 20)], Range(20, 21), 1, 0, 2) == Finished([Range(1, 5), Range(10, 21)]);
    assert AddInner([Range(1, 5), Range(10, 21)], Range(20, 21), 10, 1, 2) == Returned([Range(1, 5), Range(10, 21)]);
  }

  // ------------------------------------------------------------- remove

  /** The search of `remove` for a later stored range `j` that ends after
      the input: it cuts the range at `i` back to the input's start and
      makes range `j` start at the input's end. `None` when no `j` qualifies. */
  function RemoveTail(list: seq<Range>, r: Range, i: nat, e: Range, j: nat, n: nat): (res: Option<seq<Range>>)
    requires i < n <= |list| && i < j
    ensures res.Some? ==> |res.value| == |list| && res.value[i] == Range(e.start, r.start)
    ensures res.Some? ==> forall k :: 0 <= k < |list| && k != i ==> res.value[k] == list[k] || res.value[k].start == r.end
    decreases n - j
  {
    if j >= n then None
    else if r.start <= e.end && r.end < list[j].end then
      Some(list[i := Range(e.start, r.start)][j := Range(r.end, list[j].end)])
    else RemoveTail(list, r, i, e, j + 1, n)
  }

  /** The loop of `remove` from index `i` on, over the `n` ranges the list
      held when it started; `del` is the index it marks for deletion. The
      split branch inserts a range, so the list can outgrow `n`. */
  function RemoveOuter(list: seq<Range>, r: Range, i: nat, n: nat, del: int): (res: (seq<Range>, int))
    requires i <= n <= |list|
    ensures |list| <= |res.0| <= |list| + (n - i)
    ensures res.1 == del || i <= res.1 < n
    decreases n - i
  {
    if i >= n then (list, del)
    else
      var e := list[i];
      if r.start > e.start && r.end < e.end && e.end - r.end > 1 then
        RemoveOuter(list[..i] + [Range(e.start, r.start), Range(r.end, e.end)] + list[i + 1..], r, i + 1, n, del)
      else if r.start >= e.start && r.end <= e.end then
        RemoveOuter(list[i := Range(r.end, e.end)], r, i + 1, n, del)
      else if |list| >= 2 then
        match RemoveTail(list, r, i, e, i + 1, n)
        case None => RemoveOuter(list, r, i + 1, n, del)
        case Some(next) => RemoveOuter(next, r, i + 1, n, i)
      else RemoveOuter(list, r, i + 1, n, del)
  }

  /** `remove` as written: the loop, then the marked range is spliced out
      when its index is positive. */
  function RemoveAsWritten(list: seq<Range>, r: Range): (res: seq<Range>)
    ensures |list| - 1 <= |res| <= 2 * |list|
  {
    var (next, del) := RemoveOuter(list, r, 0, |list|, -1);
    if 0 < del < |next| then next[..del] + next[del + 1..] else next
  }

  /** Taking out a range that ends one before a stored range's end cuts the
      stored range to the input's end and loses the part before the input:
      the split branch demands a gap of more than one. */
  lemma RemoveLosesLeftPart()
    ensures RemoveAsWritten([Range(11, 21)], Range(15, 20)) == [Range(20, 21)]
    ensures !Covers(RemoveAsWritten([Range(11, 21)], Range(15, 20)), 11)
  {
    assert [Range(11, 21)][0 := Range(20, 21)] == [Range(20, 21)];
    assert RemoveOuter([Range(11, 21)], Range(15, 20), 0, 1, -1) == ([Range(20, 21)], -1);
  }

  /** A range that holds the only stored range whole is not taken out: the
      branch that handles it needs at least two stored ranges. */
  lemma RemoveKeepsSwallowedRange()
    ensures RemoveAsWritten([Range(1, 3)], Range(0, 10)) == [Range(1, 3)]
    ensures Covers(RemoveAsWritten([Range(1, 3)], Range(0, 10)), 1)
  {
    assert Contains(Range(1, 3), 1);
  }

  /** A range spanning every stored range is not taken out: the tail
      search needs a later stored range that ends after the input. */
  lemma RemoveKeepsSpannedRanges()
    ensures RemoveAsWritten([Range(1, 3), Range(5, 7)], Range(0, 100)) == [Range(1, 3), Range(5, 7)]
    ensures Covers(RemoveAsWritten([Range(1, 3), Range(5, 7)], Range(0, 100)), 1)
  {
    assert Contains(Range(1, 3), 1);
  }

  /** An empty range strictly inside a stored range splits it in two
      touching halves: the split branch never checks the input is empty. */
  lemma RemoveEmptySplits()
    ensures RemoveAsWritten([Range(11, 21)], Range(15, 15)) == [Range(11, 15), Range(15, 21)]
    ensures !Canonical(RemoveAsWritten([Range(11, 21)], Range(15, 15)))
  {
    var t := [Range(11, 15), Range(15, 21)];
    assert [] + [Range(11, 15), Range(15, 21)] + [] == t;
    assert RemoveOuter([Range(11, 21)], Range(15, 15), 0, 1, -1) == (t, -1);
    assert !(t[0].end < t[1].start);
  }

  /** Taking out integers the list does not hold rewrites it: the tail
      branch fires for a stored range that starts after the input and
      leaves an inverted range and one reaching back over the gap. */
  lemma RemoveOfUncoveredCorrupts()
    ensures RemoveAsWritten([Range(5, 10), Range(20, 30)], Range(0, 1)) == [Range(5, 0), Range(1, 30)]
    ensures Covers(RemoveAsWritten([Range(5, 10), Range(20, 30)], Range(0, 1)), 15)
  {
    assert Contains(Range(1, 30), 15);
  }

  /** On the session that closes the source file, the loop of `remove`
      gives the lists its comments show. */
  lemma RemoveSessionAsWritten()
    ensures RemoveAsWritten([Range(1, 8), Range(10, 21)], Range(10, 10)) == [Range(1, 8), Range(10, 21)]
    ensures RemoveAsWritten([Range(1, 8), Range(10, 21)], Range(10, 11)) == [Range(1, 8), Range(11, 21)]
    ensures RemoveAsWritten([Range(1, 8), Range(11, 21)], Range(15, 17)) == [Range(1, 8), Range(11, 15), Range(17, 21)]
    ensures RemoveAsWritten([Range(1, 8), Range(11, 15), Range(17, 21)], Range(3, 19)) == [Range(1, 3), Range(19, 21)]
  {
  }
}
