/** Day 5: an ingredient database of inclusive fresh-id ranges and of
    ingredient ids. Ids are told fresh or spoiled by a two-cursor walk over
    the sorted ids and ranges, and the number of distinct fresh ids is
    counted by a sweep over the sorted ranges. */
module FifthDay {
  import opened Common
  import SecondDay

  /** `ProcessingIdRange`: the inclusive range `start..=end`. */
  datatype IdRange = IdRange(start: nat, end: nat)

  /** `From<InputIdRange>`. */
  function FromInputRange(input: SecondDay.IdRange): (r: IdRange)
    ensures r.start == input.start && r.end == input.end
  {
    IdRange(input.start, input.end)
  }

  /** The derived order of `ProcessingIdRange`: by `start`, then by `end`. */
  predicate RangeLe(a: IdRange, b: IdRange)
  {
    a.start < b.start || (a.start == b.start && a.end <= b.end)
  }

  /** The derived order is a total order. */
  lemma RangeLeIsTotalOrder(a: IdRange, b: IdRange, c: IdRange)
    ensures RangeLe(a, a)
    ensures RangeLe(a, b) || RangeLe(b, a)
    ensures RangeLe(a, b) && RangeLe(b, a) ==> a == b
    ensures RangeLe(a, b) && RangeLe(b, c) ==> RangeLe(a, c)
  {
  }

  predicate RangesSorted(rs: seq<IdRange>)
  {
    forall i, j :: 0 <= i < j < |rs| ==> RangeLe(rs[i], rs[j])
  }

  function InsertRange(rs: seq<IdRange>, x: IdRange): (r: seq<IdRange>)
    requires RangesSorted(rs)
    ensures RangesSorted(r)
    ensures multiset(r) == multiset(rs) + multiset{x}
  {
    if |rs| == 0 || RangeLe(rs[|rs| - 1], x) then rs + [x]
    else
      var n := |rs| - 1;
      var last := rs[n];
      var rest := rs[..n];
      SortedInit(rs, rest);
      var init := InsertRange(rest, x);
      AllBelow(init, rest, x, last);
      SortedAppend(init, last);
      assert rs == rs[..n] + [last];
      init + [last]
  }

  /** The ranges before the last of a sorted sequence are sorted and no
      greater than it. */
  lemma SortedInit(rs: seq<IdRange>, rest: seq<IdRange>)
    requires RangesSorted(rs) && |rs| > 0 && rest == rs[..|rs| - 1]
    ensures RangesSorted(rest)
    ensures forall k :: 0 <= k < |rest| ==> RangeLe(rest[k], rs[|rs| - 1])
  {
  }

  /** Every range of `init`, the ranges of `rest` and `x`, is at most `last`. */
  lemma AllBelow(init: seq<IdRange>, rest: seq<IdRange>, x: IdRange, last: IdRange)
    requires multiset(init) == multiset(rest) + multiset{x} && !RangeLe(last, x)
    requires forall k :: 0 <= k < |rest| ==> RangeLe(rest[k], last)
    ensures forall k :: 0 <= k < |init| ==> RangeLe(init[k], last)
  {
    forall k | 0 <= k < |init| ensures RangeLe(init[k], last) {
      assert init[k] in multiset(init);
      if init[k] != x {
        assert init[k] in multiset(rest);
        assert init[k] in rest;
      }
    }
  }

  lemma SortedAppend(s: seq<IdRange>, y: IdRange)
    requires RangesSorted(s) && forall k :: 0 <= k < |s| ==> RangeLe(s[k], y)
    ensures RangesSorted(s + [y])
  {
  }

  /** `ranges.sort()`. */
  function SortRanges(rs: seq<IdRange>): (r: seq<IdRange>)
    ensures RangesSorted(r)
    ensures multiset(r) == multiset(rs)
  {
    if |rs| == 0 then []
    else
      assert rs == rs[..|rs| - 1] + [rs[|rs| - 1]];
      InsertRange(SortRanges(rs[..|rs| - 1]), rs[|rs| - 1])
  }

  /** `ids.sort()`. */
  function SortIds(ids: seq<nat>): (r: seq<nat>)
    ensures IsAscending(r)
    ensures multiset(r) == multiset(ids)
  {
    SortByKey(ids, (x: nat) => x)
  }

  predicate IsAscending(s: seq<nat>)
  {
    forall i, j :: 0 <= i < j < |s| ==> s[i] <= s[j]
  }

  /** Some range holds `id`. */
  predicate InSomeRange(id: nat, rs: seq<IdRange>)
  {
    exists k :: 0 <= k < |rs| && rs[k].start <= id <= rs[k].end
  }

  /** Whether an id is in some range does not depend on their order. */
  lemma InSomeRangePermutation(id: nat, rs: seq<IdRange>, qs: seq<IdRange>)
    requires multiset(rs) == multiset(qs)
    ensures InSomeRange(id, rs) <==> InSomeRange(id, qs)
  {
    if InSomeRange(id, rs) {
      var k :| 0 <= k < |rs| && rs[k].start <= id <= rs[k].end;
      assert rs[k] in multiset(qs);
      var k' :| 0 <= k' < |qs| && qs[k'] == rs[k];
    }
    if InSomeRange(id, qs) {
      var k :| 0 <= k < |qs| && qs[k].start <= id <= qs[k].end;
      assert qs[k] in multiset(rs);
      var k' :| 0 <= k' < |rs| && rs[k'] == qs[k];
    }
  }

  // ---------------------------------------------------------------------
  // Fresh or spoiledIds

  datatype SpoiledAndFresh = SpoiledAndFresh(spoiledIds: seq<nat>, freshIds: seq<nat>)

  /** What the two-cursor walk keeps: the first `i` sorted ids are placed,
      each list ascending and correct, and the first `j` ranges end below
      the next id. */
  ghost predicate WalkInvariant(sorted: seq<nat>, ranges: seq<IdRange>, i: nat, j: nat,
                                freshIds: seq<nat>, spoiledIds: seq<nat>)
  {
    i <= |sorted| && j <= |ranges|
    && multiset(spoiledIds) + multiset(freshIds) == multiset(sorted[..i])
    && (forall x :: x in freshIds ==> InSomeRange(x, ranges))
    && (forall x :: x in spoiledIds ==> !InSomeRange(x, ranges))
    && IsAscending(freshIds) && IsAscending(spoiledIds)
    && (i < |sorted| ==> forall k :: 0 <= k < j ==> ranges[k].end < sorted[i])
  }

  /** Placing the next id in the list its ranges decide keeps the invariant. */
  lemma PlaceId(sorted: seq<nat>, ranges: seq<IdRange>, i: nat, j: nat,
                freshIds: seq<nat>, spoiledIds: seq<nat>, isFresh: bool)
    requires IsAscending(sorted) && WalkInvariant(sorted, ranges, i, j, freshIds, spoiledIds)
    requires i < |sorted| && (isFresh <==> InSomeRange(sorted[i], ranges))
    ensures isFresh ==> WalkInvariant(sorted, ranges, i + 1, j, freshIds + [sorted[i]], spoiledIds)
    ensures !isFresh ==> WalkInvariant(sorted, ranges, i + 1, j, freshIds, spoiledIds + [sorted[i]])
  {
    var id := sorted[i];
    assert sorted[..i + 1] == sorted[..i] + [id];
    forall x | x in freshIds || x in spoiledIds ensures x <= id {
      assert x in multiset(sorted[..i]);
      var k :| 0 <= k < i && sorted[k] == x;
    }
    AppendAscending(freshIds, id);
    AppendAscending(spoiledIds, id);
  }

  lemma AppendAscending(s: seq<nat>, x: nat)
    requires IsAscending(s) && forall y :: y in s ==> y <= x
    ensures IsAscending(s + [x])
  {
    forall i, j | 0 <= i < j < |s + [x]| ensures (s + [x])[i] <= (s + [x])[j] {
      if j == |s| {
        assert s[i] in s;
      }
    }
  }

  /** Moving past a range that ends below the next id keeps the invariant. */
  lemma SkipRange(sorted: seq<nat>, ranges: seq<IdRange>, i: nat, j: nat,
                  freshIds: seq<nat>, spoiledIds: seq<nat>)
    requires WalkInvariant(sorted, ranges, i, j, freshIds, spoiledIds)
    requires i < |sorted| && j < |ranges| && ranges[j].end < sorted[i]
    ensures WalkInvariant(sorted, ranges, i, j + 1, freshIds, spoiledIds)
  {
  }

  /** An id below the start of range `j` that all ranges before `j` end
      below is in no range. */
  lemma BelowRange(sorted: seq<nat>, ranges: seq<IdRange>, i: nat, j: nat,
                   freshIds: seq<nat>, spoiledIds: seq<nat>)
    requires RangesSorted(ranges) && WalkInvariant(sorted, ranges, i, j, freshIds, spoiledIds)
    requires i < |sorted| && (j == |ranges| || sorted[i] < ranges[j].start)
    ensures !InSomeRange(sorted[i], ranges)
  {
    var id := sorted[i];
    forall k | 0 <= k < |ranges| ensures !(ranges[k].start <= id <= ranges[k].end) {
      if j < k {
        assert RangeLe(ranges[j], ranges[k]);
      }
    }
  }

  /** `separate_spoiled_and_fresh_ingredients`: every id goes to exactly one
      list, the fresh ones being those in some range, both lists ascending.
      The source wraps the result in an `Ok` that is never an error. */
  method SeparateSpoiledAndFreshIngredients(idRanges: seq<IdRange>, ids: seq<nat>) returns (result: SpoiledAndFresh)
    ensures multiset(result.spoiledIds) + multiset(result.freshIds) == multiset(ids)
    ensures |result.spoiledIds| + |result.freshIds| == |ids|
    ensures forall x :: x in result.freshIds ==> InSomeRange(x, idRanges)
    ensures forall x :: x in result.spoiledIds ==> !InSomeRange(x, idRanges)
    ensures IsAscending(result.freshIds) && IsAscending(result.spoiledIds)
  {
    var ranges := SortRanges(idRanges);
    var sorted := SortIds(ids);
    var freshIds: seq<nat> := [];
    var spoiledIds: seq<nat> := [];
    var i: nat, j: nat := 0, 0;
    while i < |sorted|
      invariant WalkInvariant(sorted, ranges, i, j, freshIds, spoiledIds)
      decreases |sorted| - i + |ranges| - j
    {
      i, j, freshIds, spoiledIds := WalkStep(sorted, ranges, i, j, freshIds, spoiledIds);
    }
    WalkDone(sorted, ranges, i, j, freshIds, spoiledIds, idRanges, ids);
    result := SpoiledAndFresh(spoiledIds, freshIds);
  }

  /** One turn of the walk: the next id is placed, or the current range is
      passed. */
  method WalkStep(sorted: seq<nat>, ranges: seq<IdRange>, i: nat, j: nat, freshIds: seq<nat>, spoiledIds: seq<nat>)
    returns (i': nat, j': nat, freshIds': seq<nat>, spoiledIds': seq<nat>)
    requires IsAscending(sorted) && RangesSorted(ranges) && WalkInvariant(sorted, ranges, i, j, freshIds, spoiledIds)
    requires i < |sorted|
    ensures WalkInvariant(sorted, ranges, i', j', freshIds', spoiledIds')
    ensures |sorted| - i' + |ranges| - j' < |sorted| - i + |ranges| - j
  {
    i', j', freshIds', spoiledIds' := i, j, freshIds, spoiledIds;
    var id := sorted[i];
    if j == |ranges| || id < ranges[j].start {
      BelowRange(sorted, ranges, i, j, freshIds, spoiledIds);
      PlaceId(sorted, ranges, i, j, freshIds, spoiledIds, false);
      spoiledIds' := spoiledIds + [id];
      i' := i + 1;
    } else if id <= ranges[j].end {
      PlaceId(sorted, ranges, i, j, freshIds, spoiledIds, true);
      freshIds' := freshIds + [id];
      i' := i + 1;
    } else {
      SkipRange(sorted, ranges, i, j, freshIds, spoiledIds);
      j' := j + 1;
    }
  }

  /** Once every id is placed, the lists are what the walk promises. */
  lemma WalkDone(sorted: seq<nat>, ranges: seq<IdRange>, i: nat, j: nat, freshIds: seq<nat>,
                 spoiledIds: seq<nat>, idRanges: seq<IdRange>, ids: seq<nat>)
    requires WalkInvariant(sorted, ranges, i, j, freshIds, spoiledIds) && i == |sorted|
    requires multiset(sorted) == multiset(ids) && multiset(ranges) == multiset(idRanges)
    ensures multiset(spoiledIds) + multiset(freshIds) == multiset(ids)
    ensures |spoiledIds| + |freshIds| == |ids|
    ensures forall x :: x in freshIds ==> InSomeRange(x, idRanges)
    ensures forall x :: x in spoiledIds ==> !InSomeRange(x, idRanges)
  {
    assert sorted[..i] == sorted;
    assert |multiset(spoiledIds) + multiset(freshIds)| == |multiset(ids)|;
    InSomeRangeOfSorted(freshIds, spoiledIds, ranges, idRanges);
  }

  lemma InSomeRangeOfSorted(freshIds: seq<nat>, spoiledIds: seq<nat>, ranges: seq<IdRange>, idRanges: seq<IdRange>)
    requires multiset(ranges) == multiset(idRanges)
    requires forall x :: x in freshIds ==> InSomeRange(x, ranges)
    requires forall x :: x in spoiledIds ==> !InSomeRange(x, ranges)
    ensures forall x :: x in freshIds ==> InSomeRange(x, idRanges)
    ensures forall x :: x in spoiledIds ==> !InSomeRange(x, idRanges)
  {
    forall x | x in freshIds || x in spoiledIds
      ensures InSomeRange(x, ranges) <==> InSomeRange(x, idRanges)
    {
      InSomeRangePermutation(x, ranges, idRanges);
    }
  }

  // ---------------------------------------------------------------------
  // Counting the fresh ids

  /** The ids `a..=b`. */
  function Interval(a: nat, b: nat): set<nat>
    decreases b + 1 - a
  {
    if a > b then {} else {a} + Interval(a + 1, b)
  }

  lemma {:induction false} IntervalMembers(a: nat, b: nat)
    ensures forall x :: x in Interval(a, b) <==> a <= x <= b
    decreases b + 1 - a
  {
    if a <= b {
      IntervalMembers(a + 1, b);
    }
  }

  lemma {:induction false} IntervalSize(a: nat, b: nat)
    requires a <= b + 1
    ensures |Interval(a, b)| == b + 1 - a
    decreases b + 1 - a
  {
    if a <= b {
      IntervalSize(a + 1, b);
      IntervalMembers(a + 1, b);
      assert a !in Interval(a + 1, b);
    }
  }

  /** Every id of some range. */
  function Covered(rs: seq<IdRange>): set<nat>
  {
    if |rs| == 0 then {} else Covered(rs[..|rs| - 1]) + Interval(rs[|rs| - 1].start, rs[|rs| - 1].end)
  }

  lemma {:induction false} CoveredMembers(rs: seq<IdRange>)
    ensures forall x :: x in Covered(rs) <==> InSomeRange(x, rs)
  {
    if |rs| > 0 {
      var init := rs[..|rs| - 1];
      CoveredMembers(init);
      var last := rs[|rs| - 1];
      IntervalMembers(last.start, last.end);
      forall x: nat ensures x in Covered(rs) <==> InSomeRange(x, rs) {
        if InSomeRange(x, rs) {
          var k :| 0 <= k < |rs| && rs[k].start <= x <= rs[k].end;
          if k < |init| {
            assert init[k] == rs[k];
          }
        }
        if InSomeRange(x, init) {
          var k :| 0 <= k < |init| && init[k].start <= x <= init[k].end;
          assert rs[k] == init[k];
        }
        if last.start <= x <= last.end {
          assert rs[|rs| - 1] == last;
        }
      }
    }
  }

  predicate WellFormed(rs: seq<IdRange>)
  {
    forall k :: 0 <= k < |rs| ==> rs[k].start <= rs[k].end
  }

  /** What the sweep keeps after `i` sorted ranges: the count is the
      number of nonzero covered ids, all of them at most the previous end,
      every id from the last start to the previous end is covered (or 0),
      and the ranges still to come start no lower. */
  ghost predicate SweepInvariant(ranges: seq<IdRange>, i: nat, n: nat, previousEnd: nat, lastStart: nat)
  {
    i <= |ranges|
    && n == |Covered(ranges[..i]) - {0}|
    && CoveredUpTo(Covered(ranges[..i]), lastStart, previousEnd)
    && (forall k :: i <= k < |ranges| ==> lastStart <= ranges[k].start)
  }

  /** The facts every step of the sweep starts from. */
  lemma SweepStepFacts(ranges: seq<IdRange>, i: nat)
    requires RangesSorted(ranges) && i < |ranges|
    ensures Covered(ranges[..i + 1]) == Covered(ranges[..i]) + Interval(ranges[i].start, ranges[i].end)
    ensures forall k :: i + 1 <= k < |ranges| ==> ranges[i].start <= ranges[k].start
  {
    assert ranges[..i + 1][..i] == ranges[..i];
    forall k | i + 1 <= k < |ranges| ensures ranges[i].start <= ranges[k].start {
      assert RangeLe(ranges[i], ranges[k]);
    }
  }

  /** The covered ids before a step: all at most the previous end, and
      every id from the last start to there (0 aside). */
  ghost predicate CoveredUpTo(covered: set<nat>, lastStart: nat, previousEnd: nat)
  {
    && (forall x :: x in covered ==> x <= previousEnd)
    && (forall x: nat :: lastStart <= x <= previousEnd ==> x in covered || x == 0)
  }

  /** A range that ends no later than the previous one adds nothing. */
  lemma ContainedSets(before: set<nat>, lastStart: nat, previousEnd: nat, start: nat, end: nat)
    requires CoveredUpTo(before, lastStart, previousEnd) && lastStart <= start && end <= previousEnd
    ensures (before + Interval(start, end)) - {0} == before - {0}
    ensures CoveredUpTo(before + Interval(start, end), start, previousEnd)
  {
    IntervalMembers(start, end);
  }

  lemma DisjointCard(a: set<nat>, b: set<nat>)
    requires a !! b
    ensures |a + b| == |a| + |b|
  {
  }

  /** A range that overlaps the previous end adds the ids above it. */
  lemma OverlapUnion(before: set<nat>, lastStart: nat, previousEnd: nat, start: nat, end: nat)
    requires CoveredUpTo(before, lastStart, previousEnd) && lastStart <= start <= previousEnd < end
    ensures (before + Interval(start, end)) - {0} == (before - {0}) + Interval(previousEnd + 1, end)
    ensures (before - {0}) !! Interval(previousEnd + 1, end)
  {
    IntervalMembers(start, end);
    IntervalMembers(previousEnd + 1, end);
  }

  lemma OverlapCount(before: set<nat>, lastStart: nat, previousEnd: nat, start: nat, end: nat)
    requires CoveredUpTo(before, lastStart, previousEnd) && lastStart <= start <= previousEnd < end
    ensures |(before + Interval(start, end)) - {0}| == |before - {0}| + (end - previousEnd)
  {
    OverlapUnion(before, lastStart, previousEnd, start, end);
    IntervalSize(previousEnd + 1, end);
    DisjointCard(before - {0}, Interval(previousEnd + 1, end));
  }

  lemma OverlapCovered(before: set<nat>, lastStart: nat, previousEnd: nat, start: nat, end: nat)
    requires CoveredUpTo(before, lastStart, previousEnd) && lastStart <= start <= previousEnd < end
    ensures CoveredUpTo(before + Interval(start, end), start, end)
  {
    IntervalMembers(start, end);
  }

  /** A range that starts above the previous end adds all its ids. */
  lemma DisjointCount(before: set<nat>, lastStart: nat, previousEnd: nat, start: nat, end: nat)
    requires CoveredUpTo(before, lastStart, previousEnd) && previousEnd < start <= end
    ensures |(before + Interval(start, end)) - {0}| == |before - {0}| + (end - start + 1)
  {
    IntervalMembers(start, end);
    IntervalSize(start, end);
    assert (before + Interval(start, end)) - {0} == (before - {0}) + Interval(start, end);
    DisjointCard(before - {0}, Interval(start, end));
  }

  lemma DisjointCovered(before: set<nat>, lastStart: nat, previousEnd: nat, start: nat, end: nat)
    requires CoveredUpTo(before, lastStart, previousEnd) && previousEnd < start <= end
    ensures CoveredUpTo(before + Interval(start, end), start, end)
  {
    IntervalMembers(start, end);
  }

  lemma ContainedStep(ranges: seq<IdRange>, i: nat, n: nat, previousEnd: nat, lastStart: nat)
    requires RangesSorted(ranges) && SweepInvariant(ranges, i, n, previousEnd, lastStart)
    requires i < |ranges| && previousEnd >= ranges[i].end
    ensures SweepInvariant(ranges, i + 1, n, previousEnd, ranges[i].start)
  {
    SweepStepFacts(ranges, i);
    ContainedSets(Covered(ranges[..i]), lastStart, previousEnd, ranges[i].start, ranges[i].end);
  }

  lemma OverlapStep(ranges: seq<IdRange>, i: nat, n: nat, previousEnd: nat, lastStart: nat)
    requires RangesSorted(ranges) && SweepInvariant(ranges, i, n, previousEnd, lastStart)
    requires i < |ranges| && ranges[i].start <= previousEnd < ranges[i].end
    ensures SweepInvariant(ranges, i + 1, n + (ranges[i].end - (previousEnd + 1) + 1), ranges[i].end, ranges[i].start)
  {
    SweepStepFacts(ranges, i);
    OverlapCount(Covered(ranges[..i]), lastStart, previousEnd, ranges[i].start, ranges[i].end);
    OverlapCovered(Covered(ranges[..i]), lastStart, previousEnd, ranges[i].start, ranges[i].end);
  }

  lemma DisjointStep(ranges: seq<IdRange>, i: nat, n: nat, previousEnd: nat, lastStart: nat)
    requires RangesSorted(ranges) && SweepInvariant(ranges, i, n, previousEnd, lastStart)
    requires i < |ranges| && previousEnd < ranges[i].start <= ranges[i].end
    ensures SweepInvariant(ranges, i + 1, n + (ranges[i].end - ranges[i].start + 1), ranges[i].end, ranges[i].start)
  {
    SweepStepFacts(ranges, i);
    DisjointCount(Covered(ranges[..i]), lastStart, previousEnd, ranges[i].start, ranges[i].end);
    DisjointCovered(Covered(ranges[..i]), lastStart, previousEnd, ranges[i].start, ranges[i].end);
  }

  lemma WellFormedPermutation(rs: seq<IdRange>, qs: seq<IdRange>)
    requires WellFormed(rs) && multiset(rs) == multiset(qs)
    ensures WellFormed(qs)
  {
    forall k | 0 <= k < |qs| ensures qs[k].start <= qs[k].end {
      assert qs[k] in multiset(rs);
    }
  }

  /** `count_number_of_fresh_ingredients`: the sweep that keeps the previous
      range, seeded with `0..=0`, and counts only the ids above its end. */
  method CountNumberOfFreshIngredients(freshIngredientRanges: seq<IdRange>) returns (nFreshIngredients: nat)
    requires WellFormed(freshIngredientRanges)
    ensures nFreshIngredients == |Covered(freshIngredientRanges) - {0}|
  {
    nFreshIngredients := 0;
    var ranges := SortRanges(freshIngredientRanges);
    var previousRange := IdRange(0, 0);
    ghost var lastStart: nat := 0;
    WellFormedPermutation(freshIngredientRanges, ranges);
    for i := 0 to |ranges|
      invariant SweepInvariant(ranges, i, nFreshIngredients, previousRange.end, lastStart)
    {
      var current := ranges[i];
      if previousRange.end >= current.end {
        ContainedStep(ranges, i, nFreshIngredients, previousRange.end, lastStart);
      } else if previousRange.end >= current.start {
        OverlapStep(ranges, i, nFreshIngredients, previousRange.end, lastStart);
        var valid := IdRange(previousRange.end + 1, current.end);
        nFreshIngredients := nFreshIngredients + (valid.end - valid.start + 1);
        previousRange := valid;
      } else {
        DisjointStep(ranges, i, nFreshIngredients, previousRange.end, lastStart);
        nFreshIngredients := nFreshIngredients + (current.end - current.start + 1);
        previousRange := current;
      }
      lastStart := current.start;
    }
    assert ranges[..|ranges|] == ranges;
    CoveredPermutation(ranges, freshIngredientRanges);
  }

  /** The covered ids do not depend on the order of the ranges. */
  lemma CoveredPermutation(rs: seq<IdRange>, qs: seq<IdRange>)
    requires multiset(rs) == multiset(qs)
    ensures Covered(rs) == Covered(qs)
  {
    CoveredMembers(rs);
    CoveredMembers(qs);
    forall x ensures x in Covered(rs) <==> x in Covered(qs) {
      InSomeRangePermutation(x, rs, qs);
    }
  }

  /** Without a range starting at 0 the count is the number of fresh ids;
      the `0..=0` seed only ever hides id 0. */
  lemma CountWithoutZero(rs: seq<IdRange>)
    requires forall k :: 0 <= k < |rs| ==> rs[k].start >= 1
    ensures Covered(rs) - {0} == Covered(rs)
  {
    CoveredMembers(rs);
  }

  lemma CoveredPair(a: IdRange, b: IdRange)
    ensures Covered([a, b]) == Interval(a.start, a.end) + Interval(b.start, b.end)
  {
    assert [a, b][..1] == [a];
    assert [a][..0] == [];
    assert Covered([a]) == Interval(a.start, a.end);
  }

  /** Two ranges, the second above the first. */
  lemma CoveredOfTwo(a: IdRange, b: IdRange)
    requires 1 <= a.start <= a.end < b.start <= b.end
    ensures |Covered([a, b]) - {0}| == (a.end - a.start + 1) + (b.end - b.start + 1)
  {
    CoveredPair(a, b);
    IntervalMembers(a.start, a.end);
    IntervalMembers(b.start, b.end);
    IntervalSize(a.start, a.end);
    IntervalSize(b.start, b.end);
    var x, y := Interval(a.start, a.end), Interval(b.start, b.end);
    assert Covered([a, b]) - {0} == x + y;
    assert x * y == {};
  }

  /** Two ranges, the second overlapping or inside the first. */
  lemma CoveredOfOverlapping(a: IdRange, b: IdRange)
    requires 1 <= a.start <= b.start <= a.end
    ensures |Covered([a, b]) - {0}| == (if a.end < b.end then b.end else a.end) - a.start + 1
  {
    CoveredPair(a, b);
    var e := if a.end < b.end then b.end else a.end;
    IntervalMembers(a.start, a.end);
    IntervalMembers(b.start, b.end);
    IntervalMembers(a.start, e);
    IntervalSize(a.start, e);
    assert Covered([a, b]) - {0} == Interval(a.start, e);
  }

  /** The fixtures of the source's tests. */
  lemma CountExamples()
    ensures |Covered([IdRange(1, 3), IdRange(10, 11)]) - {0}| == 5
    ensures |Covered([IdRange(1, 3), IdRange(3, 6)]) - {0}| == 6
    ensures |Covered([IdRange(1, 6), IdRange(3, 5)]) - {0}| == 6
    ensures |Covered([IdRange(1, 6), IdRange(6, 7)]) - {0}| == 7
    ensures |Covered([IdRange(1, 6), IdRange(5, 6)]) - {0}| == 6
  {
    CoveredOfTwo(IdRange(1, 3), IdRange(10, 11));
    CoveredOfOverlapping(IdRange(1, 3), IdRange(3, 6));
    CoveredOfOverlapping(IdRange(1, 6), IdRange(3, 5));
    CoveredOfOverlapping(IdRange(1, 6), IdRange(6, 7));
    CoveredOfOverlapping(IdRange(1, 6), IdRange(5, 6));
  }
}
