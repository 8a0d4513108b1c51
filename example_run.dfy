/** The example session that closes the source file: six additions and four
    removals on one list, with the list shown after each of them. */
module ExampleRun {
  import opened Ranges
  import opened RangeLists

  /** Two separated ranges cover the integers of either one. */
  lemma CoversTwo(a: Range, b: Range)
    ensures forall x :: Covers([a, b], x) <==> Contains(a, x) || Contains(b, x)
  {
    CoversConcat([a], [b]);
    CoversSingle(a);
    CoversSingle(b);
    assert [a] + [b] == [a, b];
  }

  /** One addition of the session: from `prev`, adding `r` leaves
      `expected`, the canonical list of the integers of `prev` and `r`. */
  method AddStep(rl: RangeList, r: Range, ghost prev: seq<Range>, expected: seq<Range>)
    requires rl.Valid() && rl.rangeList == prev
    requires Canonical(expected)
    requires forall x :: Covers(expected, x) <==> Covers(prev, x) || Contains(r, x)
    modifies rl
    ensures rl.Valid() && rl.rangeList == expected
  {
    rl.Add(r);
    CanonicalUnique(rl.rangeList, expected);
  }

  /** The six additions of the session, on a fresh list. */
  method AddPhase() returns (rl: RangeList, shown: seq<seq<Range>>)
    ensures fresh(rl)
    ensures rl.Valid() && rl.rangeList == [Range(1, 8), Range(10, 21)]
    ensures shown == [
      [Range(1, 5)],
      [Range(1, 5), Range(10, 20)],
      [Range(1, 5), Range(10, 20)],
      [Range(1, 5), Range(10, 21)],
      [Range(1, 5), Range(10, 21)],
      [Range(1, 8), Range(10, 21)]]
  {
    rl := new RangeList();
    shown := [];

    CoversSingle(Range(1, 5));
    AddStep(rl, Range(1, 5), [], [Range(1, 5)]);
    shown := shown + [rl.rangeList];

    CoversTwo(Range(1, 5), Range(10, 20));
    AddStep(rl, Range(10, 20), [Range(1, 5)], [Range(1, 5), Range(10, 20)]);
    shown := shown + [rl.rangeList];

    AddStep(rl, Range(20, 20), [Range(1, 5), Range(10, 20)], [Range(1, 5), Range(10, 20)]);
    shown := shown + [rl.rangeList];

    CoversTwo(Range(1, 5), Range(10, 21));
    AddStep(rl, Range(20, 21), [Range(1, 5), Range(10, 20)], [Range(1, 5), Range(10, 21)]);
    shown := shown + [rl.rangeList];

    AddStep(rl, Range(2, 4), [Range(1, 5), Range(10, 21)], [Range(1, 5), Range(10, 21)]);
    shown := shown + [rl.rangeList];

    CoversTwo(Range(1, 8), Range(10, 21));
    AddStep(rl, Range(3, 8), [Range(1, 5), Range(10, 21)], [Range(1, 8), Range(10, 21)]);
    shown := shown + [rl.rangeList];
  }

  /** The differences the four removals of the session compute. */
  lemma RemoveResults()
    ensures Subtract([Range(1, 8), Range(10, 21)], Range(10, 10)) == [Range(1, 8), Range(10, 21)]
    ensures Subtract([Range(1, 8), Range(10, 21)], Range(10, 11)) == [Range(1, 8), Range(11, 21)]
    ensures Subtract([Range(1, 8), Range(11, 21)], Range(15, 17)) == [Range(1, 8), Range(11, 15), Range(17, 21)]
    ensures Subtract([Range(1, 8), Range(11, 15), Range(17, 21)], Range(3, 19)) == [Range(1, 3), Range(19, 21)]
  {
    var s := [Range(1, 8), Range(11, 15), Range(17, 21)];
    assert s[..2] == [Range(1, 8), Range(11, 15)];
    assert s[..2][..1] == [Range(1, 8)];
    assert Subtract([Range(1, 8)], Range(3, 19)) == [Range(1, 3)];
    assert Subtract(s[..2], Range(3, 19)) == [Range(1, 3)];
  }

  /** One removal of the session: the list becomes `expected`, the
      subtraction of `r` from the list before. */
  method RemoveCall(rl: RangeList, r: Range, expected: seq<Range>)
    requires rl.Valid() && Subtract(rl.rangeList, r) == expected
    modifies rl
    ensures rl.Valid() && rl.rangeList == expected
  {
    rl.Remove(r);
  }

  /** The four removals of the session, on the list the additions left. */
  method RemovePhase(rl: RangeList) returns (shown: seq<seq<Range>>)
    requires rl.Valid() && rl.rangeList == [Range(1, 8), Range(10, 21)]
    modifies rl
    ensures shown == [
      [Range(1, 8), Range(10, 21)],
      [Range(1, 8), Range(11, 21)],
      [Range(1, 8), Range(11, 15), Range(17, 21)],
      [Range(1, 3), Range(19, 21)]]
  {
    RemoveResults();
    RemoveCall(rl, Range(10, 10), [Range(1, 8), Range(10, 21)]);
    shown := [rl.rangeList];
    RemoveCall(rl, Range(10, 11), [Range(1, 8), Range(11, 21)]);
    shown := shown + [rl.rangeList];
    RemoveCall(rl, Range(15, 17), [Range(1, 8), Range(11, 15), Range(17, 21)]);
    shown := shown + [rl.rangeList];
    RemoveCall(rl, Range(3, 19), [Range(1, 3), Range(19, 21)]);
    shown := shown + [rl.rangeList];
  }

  /** Runs the session and returns the list as shown after every call; each
      snapshot is the one the session's comments say it should display. */
  method Session() returns (shown: seq<seq<Range>>)
    ensures shown == [
      [Range(1, 5)],
      [Range(1, 5), Range(10, 20)],
      [Range(1, 5), Range(10, 20)],
      [Range(1, 5), Range(10, 21)],
      [Range(1, 5), Range(10, 21)],
      [Range(1, 8), Range(10, 21)],
      [Range(1, 8), Range(10, 21)],
      [Range(1, 8), Range(11, 21)],
      [Range(1, 8), Range(11, 15), Range(17, 21)],
      [Range(1, 3), Range(19, 21)]]
  {
    var rl, added := AddPhase();
    var removed := RemovePhase(rl);
    shown := added + removed;
  }
}
