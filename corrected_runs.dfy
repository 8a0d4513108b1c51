/** The inputs on which the source's loops go wrong, run through the
    corrected model instead: each gives the list the documented meaning
    calls for. */
module CorrectedRuns {
  import opened Ranges
  import opened RangeLists
  import opened ExampleRun

  /** Three separated ranges cover the integers of any one of them. */
  lemma CoversThree(a: Range, b: Range, c: Range)
    ensures forall x :: Covers([a, b, c], x) <==> Contains(a, x) || Contains(b, x) || Contains(c, x)
  {
    CoversTwo(a, b);
    CoversConcat([a, b], [c]);
    CoversSingle(c);
    assert [a, b] + [c] == [a, b, c];
  }

  /** A range in the gap between two stored ranges is stored between them. */
  method AddGapRange() returns (shown: seq<Range>)
    ensures shown == [Range(1, 5), Range(6, 9), Range(10, 20)]
  {
    var rl := new RangeList();
    CoversSingle(Range(1, 5));
    AddStep(rl, Range(1, 5), [], [Range(1, 5)]);
    CoversTwo(Range(1, 5), Range(10, 20));
    AddStep(rl, Range(10, 20), [Range(1, 5)], [Range(1, 5), Range(10, 20)]);
    CoversThree(Range(1, 5), Range(6, 9), Range(10, 20));
    AddStep(rl, Range(6, 9), [Range(1, 5), Range(10, 20)], [Range(1, 5), Range(6, 9), Range(10, 20)]);
    shown := rl.rangeList;
  }

  /** An empty range leaves the list as it was. */
  method AddEmptyRange() returns (shown: seq<Range>)
    ensures shown == [Range(1, 5)]
  {
    var rl := new RangeList();
    CoversSingle(Range(1, 5));
    AddStep(rl, Range(1, 5), [], [Range(1, 5)]);
    rl.Add(Range(30, 30));
    shown := rl.rangeList;
  }

  /** A range reaching past a stored range's end is merged into it. */
  method AddOverlapRange() returns (shown: seq<Range>)
    ensures shown == [Range(1, 8)]
  {
    var rl := new RangeList();
    CoversSingle(Range(1, 5));
    AddStep(rl, Range(1, 5), [], [Range(1, 5)]);
    CoversSingle(Range(1, 8));
    AddStep(rl, Range(3, 8), [Range(1, 5)], [Range(1, 8)]);
    shown := rl.rangeList;
  }

  /** A range starting where a stored range ends is merged into it. */
  method AddTouchingRange() returns (shown: seq<Range>)
    ensures shown == [Range(1, 10)]
  {
    var rl := new RangeList();
    CoversSingle(Range(1, 5));
    AddStep(rl, Range(1, 5), [], [Range(1, 5)]);
    CoversSingle(Range(1, 10));
    AddStep(rl, Range(5, 10), [Range(1, 5)], [Range(1, 10)]);
    shown := rl.rangeList;
  }

  /** A range overlapping the start of a stored range is merged with it. */
  method AddOverlapFromLeft() returns (shown: seq<Range>)
    ensures shown == [Range(5, 20)]
  {
    var rl := new RangeList();
    CoversSingle(Range(10, 20));
    AddStep(rl, Range(10, 20), [], [Range(10, 20)]);
    CoversSingle(Range(5, 20));
    AddStep(rl, Range(5, 15), [Range(10, 20)], [Range(5, 20)]);
    shown := rl.rangeList;
  }

  /** The differences `Remove` computes on the same inputs: the part before
      the input is kept, swallowed ranges go, and integers the list does not
      hold, or an empty range, change nothing. */
  lemma RemoveOnFindings()
    ensures Subtract([Range(11, 21)], Range(15, 20)) == [Range(11, 15), Range(20, 21)]
    ensures Subtract([Range(1, 3)], Range(0, 10)) == []
    ensures Subtract([Range(5, 10), Range(20, 30)], Range(0, 1)) == [Range(5, 10), Range(20, 30)]
    ensures Subtract([Range(1, 3), Range(5, 7)], Range(0, 100)) == []
    ensures Subtract([Range(11, 21)], Range(15, 15)) == [Range(11, 21)]
  {
    assert [Range(1, 3), Range(5, 7)][..1] == [Range(1, 3)];
    assert [Range(5, 10), Range(20, 30)][..1] == [Range(5, 10)];
  }
}
