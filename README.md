# RangeList in Dafny

A model of the `RangeList` class of `src/app.ts`. The class keeps a list of
half-open integer ranges: `[1, 5)` holds 1, 2, 3 and 4. A list such as
`[1, 5) [10, 11) [100, 201)` stands for the union of its ranges.

The class exposes `add`, which takes the union with a range, and `remove`,
which takes a range out. They work in place on the field `rangeList`, using
the private `saveRange` (push, then sort by start) and the static
`createRange` (enumerate a range's integers).

The model is a Dafny class `RangeLists.RangeList` with the field
`rangeList: seq<Range>` and these methods:

- `Add` and `Remove`, whose loops update the field in place;
- `SaveRange`, a push followed by an insertion pass;
- `CreateRange`, a push loop.

The class invariant `Valid` says the list is canonical. Every range in it is
non-empty, and each ends strictly before the next one starts. So the list is
sorted, disjoint and fully merged, as the header comment at `src/app.ts:2-3`
and the example session describe.

Both `Add` and `Remove` are proved to keep `Valid`. Their effect is stated as
membership:

- after `Add`, the integers covered are the old ones plus those of the range;
- after `Remove`, they are the old ones minus those of the range.

`Remove` is also proved equal to `Subtract`, the per-range difference.

A canonical list is determined by the integers it covers (`CanonicalUnique`).
This pins the exact lists of the example session at `src/app.ts:191-232`. It
also gives three laws:

- adding a range twice is the same as adding it once;
- two additions commute;
- removing a fresh range undoes its addition.

The source's own loops reach the documented lists on the example session,
but not on every input. `AsWritten` models those loops as the code has them
and exhibits the inputs on which they break the list's meaning (see
Findings). The class methods model the behaviour the documentation and the
example session call for.

Files:

- `ranges.dfy` (module `Ranges`): the `Range` value, coverage, the canonical
  form and its uniqueness, insertion by start, and subtraction range by range.
- `range_list.dfy` (modules `RangeLists`, `RangeListLaws`): the class, the
  lemmas its methods rest on, and the laws above.
- `example_run.dfy` (module `ExampleRun`): the example session.
- `as_written.dfy` (module `AsWritten`): the source's loops of `add` and
  `remove` as written, on values.
- `corrected_runs.dfy` (module `CorrectedRuns`): the inputs of the findings,
  run through the class.

## Model

| member | source | states |
|---|---|---|
| RangeLists.RangeList.constructor | src/app.ts:44 | a new list is empty and canonical |
| RangeLists.RangeList.CreateRange | src/app.ts:21-32 | the result is start, start + 1, ..., end - 1 in increasing order, of length end - start, empty when start >= end; an integer is in it exactly when the range holds it |
| RangeLists.RangeList.SaveRange | src/app.ts:178-188 | pushing the range and sorting by start leaves the old list with the range inserted after every range starting no later; the list stays sorted by start and is, as a multiset, the old list plus the range |
| Ranges.InsertByStart | src/app.ts:184 | the list after push and sort is one range longer |
| Ranges.InsertByStartPerm | src/app.ts:184-187 | the list after push and sort is, as a multiset, the old list plus the new range |
| Ranges.InsertByStartSorted | src/app.ts:187 | inserting into a list sorted by start leaves it sorted by start |
| Ranges.InsertBetween | src/app.ts:184-187 | the range lands right after the ranges starting no later than it and before those starting later |
| Ranges.SortByStart | src/app.ts:187 | the stable sort by start keeps the list's length |
| Ranges.SortByStartSorted | src/app.ts:187 | the stable sort leaves any list sorted by start |
| Ranges.SortByStartPerm | src/app.ts:187 | the stable sort keeps every range of any list and adds none |
| Ranges.SortByStartUnmoved | src/app.ts:187 | the stable sort leaves a list already sorted by start as it is |
| Ranges.SortAfterPush | src/app.ts:184-187 | on a list sorted by start, push and stable sort give the insertion by start that `SaveRange` performs |
| RangeLists.RangeList.Add | src/app.ts:50-90 | keeps the list canonical; afterwards the list covers exactly the old integers plus those of the range; an empty range, or one inside a stored range, leaves the list unchanged; the list grows by at most one range |
| RangeLists.AddDone | src/app.ts:57-89 | when the range is not inside a stored range, inserting it where it touches nothing, or merging it with the ranges it overlaps or touches, keeps the list canonical, adds exactly its integers, and grows the list by at most one |
| RangeLists.NotInside | src/app.ts:61-76 | the first stored range not ending before the input is the only one that can hold it |
| RangeLists.InsertSeam | src/app.ts:89 | a range that touches no stored range is sorted in between the ranges before it and those after it |
| RangeLists.MergedSpan | src/app.ts:77-84 | the merged range holds exactly the integers of the absorbed ranges and of the input |
| RangeLists.MergeCanonical | src/app.ts:77-84 | replacing the absorbed ranges by the merged range keeps the list canonical |
| RangeLists.MergeCorrect | src/app.ts:77-84 | the merge keeps the list canonical and adds exactly the integers of the input |
| RangeLists.RangeList.Remove | src/app.ts:96-165 | keeps the list canonical; afterwards the list is the old one with the range subtracted from each stored range, and covers exactly the old integers outside the range |
| RangeLists.RemoveStep | src/app.ts:106-158 | replacing the next stored range by what is left of it extends the subtracted prefix by one range |
| RangeLists.RemoveDone | src/app.ts:96-165 | once every stored range is handled, the list is the subtracted list, canonical, covering the old integers outside the range |
| Ranges.Pieces | src/app.ts:110-158 | what is left of one stored range once the input is taken out is at most two ranges, both within the stored range |
| Ranges.PiecesSpec | src/app.ts:110-158 | what is left of one stored range (kept, split around an interior hole, cut back to the input's start, starting again at its end, or dropped) holds exactly its integers outside the input, is canonical, and lies within it |
| Ranges.Subtract | src/app.ts:96-165 | the per-range difference that `Remove` computes at most doubles the number of ranges |
| Ranges.SubtractCovers | src/app.ts:96-165 | subtraction takes out exactly the integers of the range |
| Ranges.SubtractCanonical | src/app.ts:96-165 | subtraction keeps a canonical list canonical and within the old list's end |
| Ranges.SubtractSnoc | src/app.ts:106-158 | subtraction handles the stored ranges one after another |
| Ranges.CanonicalUnique | src/app.ts:2-3 | two canonical lists covering the same integers are equal |
| Ranges.CanonicalIsSorted | src/app.ts:186-187 | a canonical list is sorted by start and its ranges are pairwise separated |
| Ranges.CanonicalConcat | src/app.ts:77-89 | two canonical lists with a gap at the seam form a canonical list |
| Ranges.CanonicalSlice | src/app.ts:77-89 | a slice of a canonical list is canonical |
| RangeListLaws.AddIdempotent | src/app.ts:50-90 | adding the same range twice gives the list adding it once gives |
| RangeListLaws.AddCommutes | src/app.ts:50-90 | adding two ranges in either order gives the same list |
| RangeListLaws.RemoveUndoesAdd | src/app.ts:96-165 | removing a range that shared no integer with the list just after adding it gives back the old list |
| ExampleRun.Session | src/app.ts:191-232 | the session shows, call after call, the ten lists its comments give |
| ExampleRun.AddPhase | src/app.ts:192-216 | the six additions of the session show [1, 5); [1, 5) [10, 20) twice; [1, 5) [10, 21) twice; then [1, 8) [10, 21) |
| ExampleRun.RemovePhase | src/app.ts:218-232 | the four removals show [1, 8) [10, 21); [1, 8) [11, 21); [1, 8) [11, 15) [17, 21); then [1, 3) [19, 21) |
| ExampleRun.AddStep | src/app.ts:194-216 | one addition leaves the canonical list of the old integers and the range's |
| ExampleRun.RemoveCall | src/app.ts:218-232 | one removal leaves the subtraction of the range from the list before |
| ExampleRun.RemoveResults | src/app.ts:218-232 | the subtractions of the four removals are the displayed lists |
| AsWritten.AddSessionAsWritten | src/app.ts:57-89 | the source's loops of `add` give the displayed lists on the session's additions |
| AsWritten.RemoveSessionAsWritten | src/app.ts:103-164 | the source's loop of `remove` gives the displayed lists on the session's removals |
| AsWritten.AddInner | src/app.ts:64-85 | the inner loop of `add` keeps the list's length and every start: it only rewrites ends |
| AsWritten.AddOuter | src/app.ts:57-87 | the two loops of `add` keep the list's length and every start |
| AsWritten.AddAsWritten | src/app.ts:50-90 | the source's `add` returns the list as its loops left it, or one range longer after push and sort; a list sorted by start stays sorted |
| AsWritten.AddExtendsThenPushes | src/app.ts:77-89 | the source's `add` of [3, 8) to [1, 5) extends the stored range and pushes the input too, giving overlapping ranges |
| AsWritten.AddTouchingThenPushes | src/app.ts:77-89 | the source's `add` of [5, 10) to [1, 5) gives [1, 10) [5, 10), not one merged range |
| AsWritten.AddOverlapFromLeftNotMerged | src/app.ts:68-89 | the source's `add` of [5, 15) to [10, 20) stores both ranges overlapping |
| AsWritten.AddSortsWholeList | src/app.ts:184-187 | the source's sort after the push reorders the whole list by start, including ranges out of order before the call |
| AsWritten.RemoveTail | src/app.ts:140-157 | the tail search of `remove` keeps the list's length, cuts range `i` back to the input's start, and makes any other range it rewrites start at the input's end |
| AsWritten.RemoveOuter | src/app.ts:103-159 | the loop of `remove` only grows the list, by at most one range per stored range, and marks an index it visited or keeps the old mark |
| AsWritten.RemoveAsWritten | src/app.ts:96-165 | the source's `remove` deletes at most one range and at most doubles the list |
| AsWritten.RemoveKeepsSpannedRanges | src/app.ts:134-158 | the source's `remove` of [0, 100) from [1, 3) [5, 7) keeps both ranges |
| AsWritten.RemoveEmptySplits | src/app.ts:110-126 | the source's `remove` of the empty [15, 15) from [11, 21) splits it into the touching [11, 15) [15, 21) |
| AsWritten.AddDropsGapRange | src/app.ts:68-76 | the source's `add` drops a range lying in the gap between two stored ranges |
| AsWritten.AddStoresEmptyRange | src/app.ts:89 | the source's `add` stores an empty range beyond every stored range, so the list is no longer canonical |
| AsWritten.RemoveLosesLeftPart | src/app.ts:110-133 | the source's `remove` loses the part before the input when the input ends one before a stored range's end |
| AsWritten.RemoveKeepsSwallowedRange | src/app.ts:134-158 | the source's `remove` keeps the only stored range when the input holds it whole |
| AsWritten.RemoveOfUncoveredCorrupts | src/app.ts:134-164 | the source's `remove` of integers the list does not hold leaves an inverted range and one covering the old gap |
| CorrectedRuns.AddGapRange | src/app.ts:50-90 | the class stores a range in a gap between its neighbours |
| CorrectedRuns.AddEmptyRange | src/app.ts:50-90 | the class leaves the list unchanged on an empty range |
| CorrectedRuns.AddOverlapRange | src/app.ts:50-90 | the class merges [3, 8) into [1, 5), giving [1, 8) |
| CorrectedRuns.AddTouchingRange | src/app.ts:50-90 | the class merges [5, 10) with [1, 5), giving [1, 10) |
| CorrectedRuns.AddOverlapFromLeft | src/app.ts:50-90 | the class merges [5, 15) with [10, 20), giving [5, 20) |
| CorrectedRuns.RemoveOnFindings | src/app.ts:96-165 | the subtraction keeps the part before the input, drops swallowed ranges, and changes nothing for integers the list does not hold or for an empty range |

## Left out

- `print` (`src/app.ts:170-176`) writes to the console. It renders each
  stored range through `getRange`, which is `createRange`, so it prints the
  enumerated integers (`1,2,3,4 ` for `[1, 5)`), not the `[1, 5)` pairs the
  session's comments show. The example session returns the field's values
  instead; `CreateRange` models the enumeration.
- `handleException` (`src/app.ts:34-42`) rejects not-a-number endpoints and
  arrays longer than two. A `Range` of two unbounded integers has neither,
  so the model has no error path.
- The endpoints are JavaScript numbers, that is 64-bit floats. They are
  modelled as unbounded integers; rounding beyond 2^53 is not modelled.
- The `getRange` function field that each stored entry carries
  (`src/app.ts:12`, `src/app.ts:123`, `src/app.ts:180`) is left out. Stored
  ranges are plain `(start, end)` pairs, and `CreateRange` stands alone.
- RangeLists.RangeList.SaveRange: requires the list to be sorted by start,
  which the class invariant gives, and performs the stable sort of
  `src/app.ts:187` as one insertion pass; `SortAfterPush` proves that pass
  equal to the general stable sort `SortByStart` on such lists. The class
  does not sort an unsorted list; `AsWritten.AddAsWritten` uses the general
  sort.
- RangeLists.RangeList.Add: models the documented union, not the nested
  loops of `src/app.ts:57-89`. Those loops are modelled as written in
  `AsWritten`; the inputs found where the two differ are under Findings,
  which does not claim to list every such input.
- RangeLists.RangeList.Remove: models the documented per-range difference,
  not the index bookkeeping of `src/app.ts:103-164`. That bookkeeping keeps
  a loop bound fixed across a `splice` and deletes at most one range, and
  never the one at index 0. It is modelled as written in `AsWritten`; the
  inputs found where the two differ are under Findings, which does not claim
  to list every such input.
- The top-level session (`src/app.ts:191-232`) is modelled as methods that
  return the displayed lists. It is not a program entry point.

## Findings

| source | as written | input that shows it | evidently intended | confidence | as-written member | corrected member |
|---|---|---|---|---|---|---|
| src/app.ts:68 | the containment test pairs the start of range `i` with the end of a later range `j` | add [6, 9) to [1, 5) [10, 20): the list stays [1, 5) [10, 20) | store the range: [1, 5) [6, 9) [10, 20) | high, not executed | AsWritten.AddDropsGapRange | CorrectedRuns.AddGapRange |
| src/app.ts:89 | an empty range that no containment test catches is pushed | add [30, 30) to [1, 5): the list becomes [1, 5) [30, 30) | an empty range changes nothing, as `add([20, 20])` in the session shows | high, not executed | AsWritten.AddStoresEmptyRange | CorrectedRuns.AddEmptyRange |
| src/app.ts:113 | the split branch needs the stored range to reach more than one past the input | remove [15, 20) from [11, 21): the list becomes [20, 21) | [11, 15) [20, 21) | high, not executed | AsWritten.RemoveLosesLeftPart | CorrectedRuns.RemoveOnFindings |
| src/app.ts:134 | a stored range that the input holds whole is only handled by the tail branch, which needs two stored ranges | remove [0, 10) from [1, 3): the list stays [1, 3) | the empty list | high, not executed | AsWritten.RemoveKeepsSwallowedRange | CorrectedRuns.RemoveOnFindings |
| src/app.ts:144-147 | the tail branch also needs a later stored range that ends after the input | remove [0, 100) from [1, 3) [5, 7): the list stays [1, 3) [5, 7) | the empty list | high, not executed | AsWritten.RemoveKeepsSpannedRanges | CorrectedRuns.RemoveOnFindings |
| src/app.ts:110-125 | the split branch does not check that the input is non-empty | remove [15, 15) from [11, 21): the list becomes [11, 15) [15, 21) | unchanged: [11, 21) | high, not executed | AsWritten.RemoveEmptySplits | CorrectedRuns.RemoveOnFindings |
| src/app.ts:77-89 | after extending a stored range the loops go on and the input is still pushed | add [3, 8) to [1, 5): the list becomes [1, 8) [3, 8) | [1, 8) | high, not executed | AsWritten.AddExtendsThenPushes | CorrectedRuns.AddOverlapRange |
| src/app.ts:77-89 | a range touching a stored range's end is joined to it and pushed as well | add [5, 10) to [1, 5): the list becomes [1, 10) [5, 10) | [1, 10) | high, not executed | AsWritten.AddTouchingThenPushes | CorrectedRuns.AddTouchingRange |
| src/app.ts:68-84 | neither test fires for an input that starts before a stored range and ends inside it | add [5, 15) to [10, 20): the list becomes [5, 15) [10, 20) | [5, 20) | high, not executed | AsWritten.AddOverlapFromLeftNotMerged | CorrectedRuns.AddOverlapFromLeft |
| src/app.ts:144-151 | the tail branch does not check that the input overlaps range `i` | remove [0, 1) from [5, 10) [20, 30): the list becomes [5, 0) [1, 30) | unchanged: [5, 10) [20, 30) | high, not executed | AsWritten.RemoveOfUncoveredCorrupts | CorrectedRuns.RemoveOnFindings |
