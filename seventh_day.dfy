/** Day 7: tachyon beams falling through a manifold. Each line below the start
    holds splitters; a beam that meets a splitter continues on both sides of
    it. The classical run counts the splits, the quantic run counts the
    timelines (one per left/right choice sequence). */
module SeventhDay {
  import opened Common

  /** `TachyonManifold`: the start column and, per line below it, the columns
      that hold a splitter. */
  datatype TachyonManifold = TachyonManifold(startingPosition: nat, splitterLines: seq<set<nat>>)

  datatype TachyonManifoldResult = TachyonManifoldResult(nSplits: nat)

  datatype QuanticTachyonManifoldResult = QuanticTachyonManifoldResult(nTimelines: nat)

  datatype TachyonBeams = TachyonBeams(currentPosition: set<nat>, nSplits: nat)

  datatype QuanticTachyonBeams = QuanticTachyonBeams(currentPosition: set<nat>, nPreviousTimelines: nat)

  // ---------------------------------------------------------------------
  // Classical beams

  /** No beam meets a splitter in column 0: the source computes
      `position - 1` in `usize` for every position on a splitter. */
  predicate SplitsInRange(positions: set<nat>, splitterLine: set<nat>)
  {
    forall p :: p in positions && p in splitterLine ==> p >= 1
  }

  function ShiftedLeft(hits: set<nat>): set<nat>
    requires forall p :: p in hits ==> p >= 1
  {
    set p | p in hits :: p - 1
  }

  function ShiftedRight(hits: set<nat>): set<nat>
  {
    set p | p in hits :: p + 1
  }

  /** The columns lit below one splitter line: a beam on a splitter goes on
      at both neighbouring columns, every other beam goes straight on. */
  function Advanced(positions: set<nat>, splitterLine: set<nat>): set<nat>
    requires SplitsInRange(positions, splitterLine)
  {
    (positions - splitterLine)
      + ShiftedLeft(positions * splitterLine) + ShiftedRight(positions * splitterLine)
  }

  /** Column by column: a column is lit below the line exactly when a beam
      passes straight down it or a split beam lands on it from either side. */
  lemma AdvancedMembers(positions: set<nat>, splitterLine: set<nat>, x: nat)
    requires SplitsInRange(positions, splitterLine)
    ensures x in Advanced(positions, splitterLine) <==>
      (x in positions && x !in splitterLine)
      || (x + 1 in positions && x + 1 in splitterLine)
      || (x >= 1 && x - 1 in positions && x - 1 in splitterLine)
  {
    var hits := positions * splitterLine;
    if x + 1 in hits {
      assert x == (x + 1) - 1;
      assert x in ShiftedLeft(hits);
    }
    if x >= 1 && x - 1 in hits {
      assert x == (x - 1) + 1;
      assert x in ShiftedRight(hits);
    }
  }

  /** A line without a splitter under any beam leaves the beams as they are. */
  lemma AdvancedWithoutHits(positions: set<nat>, splitterLine: set<nat>)
    requires forall p :: p in positions ==> p !in splitterLine
    ensures Advanced(positions, splitterLine) == positions
  {
    forall x: nat ensures x in Advanced(positions, splitterLine) <==> x in positions {
      AdvancedMembers(positions, splitterLine, x);
    }
  }

  /** Adding one more beam adds its own contribution and nothing else. */
  lemma AdvancedAddOne(visited: set<nat>, position: nat, splitterLine: set<nat>)
    requires SplitsInRange(visited + {position}, splitterLine)
    ensures Advanced(visited + {position}, splitterLine)
      == Advanced(visited, splitterLine)
         + (if position in splitterLine then {position - 1, position + 1} else {position})
  {
    var extra := if position in splitterLine then {position - 1, position + 1} else {position};
    forall x: nat
      ensures x in Advanced(visited + {position}, splitterLine)
        <==> x in Advanced(visited, splitterLine) + extra
    {
      AdvancedMembers(visited + {position}, splitterLine, x);
      AdvancedMembers(visited, splitterLine, x);
    }
  }

  /** One position moves from the unvisited to the visited ones. */
  lemma MoveOne(visited: set<nat>, remaining: set<nat>, all: set<nat>, position: nat)
    requires visited + remaining == all && visited !! remaining && position in remaining
    ensures (visited + {position}) + (remaining - {position}) == all
    ensures (visited + {position}) !! (remaining - {position})
    ensures position !in visited && |remaining - {position}| < |remaining|
  {
  }

  lemma HitsAddOne(visited: set<nat>, position: nat, splitterLine: set<nat>)
    requires position !in visited
    ensures |(visited + {position}) * splitterLine|
      == |visited * splitterLine| + (if position in splitterLine then 1 else 0)
  {
    if position in splitterLine {
      assert (visited + {position}) * splitterLine == visited * splitterLine + {position};
    } else {
      assert (visited + {position}) * splitterLine == visited * splitterLine;
    }
  }

  /** `TachyonBeams::advance`: the positions are visited in whichever order
      the hash set yields them. */
  method AdvanceBeams(beams: TachyonBeams, splitterLine: set<nat>) returns (r: TachyonBeams)
    requires SplitsInRange(beams.currentPosition, splitterLine)
    ensures r.currentPosition == Advanced(beams.currentPosition, splitterLine)
    ensures r.nSplits == beams.nSplits + |beams.currentPosition * splitterLine|
  {
    var outputBeam: set<nat> := {};
    var splitOnLine := 0;
    var remaining := beams.currentPosition;
    ghost var visited: set<nat> := {};
    while remaining != {}
      invariant visited + remaining == beams.currentPosition && visited !! remaining
      invariant outputBeam == Advanced(visited, splitterLine)
      invariant splitOnLine == |visited * splitterLine|
      decreases |remaining|
    {
      var position :| position in remaining;
      MoveOne(visited, remaining, beams.currentPosition, position);
      AdvancedAddOne(visited, position, splitterLine);
      HitsAddOne(visited, position, splitterLine);
      if position in splitterLine {
        outputBeam := outputBeam + {position - 1, position + 1};
        splitOnLine := splitOnLine + 1;
      } else {
        outputBeam := outputBeam + {position};
      }
      visited := visited + {position};
      remaining := remaining - {position};
    }
    r := TachyonBeams(outputBeam, beams.nSplits + splitOnLine);
  }

  /** Every line of the run meets only splitters past column 0. */
  predicate RunInRange(positions: set<nat>, splitterLines: seq<set<nat>>)
    decreases |splitterLines|
  {
    |splitterLines| == 0
    || (SplitsInRange(positions, splitterLines[0])
        && RunInRange(Advanced(positions, splitterLines[0]), splitterLines[1..]))
  }

  /** The splits of a run: per line, the beams that meet a splitter. */
  function SplitCount(positions: set<nat>, splitterLines: seq<set<nat>>): nat
    requires RunInRange(positions, splitterLines)
    decreases |splitterLines|
  {
    if |splitterLines| == 0 then 0
    else
      |positions * splitterLines[0]|
      + SplitCount(Advanced(positions, splitterLines[0]), splitterLines[1..])
  }

  function SplitterTotal(splitterLines: seq<set<nat>>): nat
  {
    if |splitterLines| == 0 then 0 else |splitterLines[0]| + SplitterTotal(splitterLines[1..])
  }

  /** Each splitter splits at most once per run, however many beams reach
      its line. */
  lemma {:induction false} SplitCountBound(positions: set<nat>, splitterLines: seq<set<nat>>)
    requires RunInRange(positions, splitterLines)
    ensures SplitCount(positions, splitterLines) <= SplitterTotal(splitterLines)
    decreases |splitterLines|
  {
    if |splitterLines| > 0 {
      var line := splitterLines[0];
      assert positions * line <= line;
      SplitCountBound(Advanced(positions, line), splitterLines[1..]);
    }
  }

  /** `TachyonManifold::run`. */
  method Run(manifold: TachyonManifold) returns (result: TachyonManifoldResult)
    requires RunInRange({manifold.startingPosition}, manifold.splitterLines)
    ensures result.nSplits == SplitCount({manifold.startingPosition}, manifold.splitterLines)
  {
    var lines := manifold.splitterLines;
    var beam := TachyonBeams({manifold.startingPosition}, 0);
    for i := 0 to |lines|
      invariant RunInRange(beam.currentPosition, lines[i..])
      invariant beam.nSplits + SplitCount(beam.currentPosition, lines[i..])
        == SplitCount({manifold.startingPosition}, lines)
    {
      assert lines[i..][1..] == lines[i + 1..];
      beam := AdvanceBeams(beam, lines[i]);
    }
    result := TachyonManifoldResult(beam.nSplits);
  }

  /** The example of the source's `advance` test. */
  lemma AdvanceExample()
    ensures Advanced({1, 3, 8}, {1, 3}) == {0, 2, 4, 8}
    ensures |{1, 3, 8} * {1, 3}| == 2
  {
    forall x: nat ensures x in Advanced({1, 3, 8}, {1, 3}) <==> x in {0, 2, 4, 8} {
      AdvancedMembers({1, 3, 8}, {1, 3}, x);
    }
    assert {1, 3, 8} * {1, 3} == {1, 3};
  }

  // ---------------------------------------------------------------------
  // Quantic beams

  /** `QuanticTachyonBeams::split`: a left and a right timeline, both with
      the column `on` replaced by its neighbour on that side. */
  function SplitBeam(beam: QuanticTachyonBeams, on: nat): (r: seq<QuanticTachyonBeams>)
    requires on >= 1
  {
    [QuanticTachyonBeams((beam.currentPosition + {on - 1}) - {on}, beam.nPreviousTimelines),
     QuanticTachyonBeams((beam.currentPosition + {on + 1}) - {on}, beam.nPreviousTimelines)]
  }

  /** Both timelines keep the beam's count; the left one holds the old
      columns but `on`, plus `on - 1`, the right one the same with `on + 1`. */
  lemma SplitBeamMembers(beam: QuanticTachyonBeams, on: nat, x: nat)
    requires on >= 1
    ensures |SplitBeam(beam, on)| == 2
    ensures SplitBeam(beam, on)[0].nPreviousTimelines == beam.nPreviousTimelines
    ensures SplitBeam(beam, on)[1].nPreviousTimelines == beam.nPreviousTimelines
    ensures x in SplitBeam(beam, on)[0].currentPosition
      <==> x != on && (x in beam.currentPosition || x == on - 1)
    ensures x in SplitBeam(beam, on)[1].currentPosition
      <==> x != on && (x in beam.currentPosition || x == on + 1)
  {
  }

  /** The example of the source's `split` test. */
  lemma SplitBeamExample()
    ensures SplitBeam(QuanticTachyonBeams({1, 3, 8}, 2), 1)
      == [QuanticTachyonBeams({0, 3, 8}, 2), QuanticTachyonBeams({2, 3, 8}, 2)]
  {
    assert ({1, 3, 8} + {0}) - {1} == {0, 3, 8};
    assert ({1, 3, 8} + {2}) - {1} == {2, 3, 8};
  }

  /** What one position does to one timeline inside `advance`. */
  function StepBeam(beam: QuanticTachyonBeams, position: nat, splitterLine: set<nat>)
    : seq<QuanticTachyonBeams>
    requires position in splitterLine ==> position >= 1
  {
    if position in splitterLine then SplitBeam(beam, position)
    else [beam.(currentPosition := beam.currentPosition + {position})]
  }

  /** The `map` and `flatten` over all timelines for one position. */
  function StepAll(beams: seq<QuanticTachyonBeams>, position: nat, splitterLine: set<nat>)
    : (r: seq<QuanticTachyonBeams>)
    requires position in splitterLine ==> position >= 1
    ensures |r| == |beams| * (if position in splitterLine then 2 else 1)
  {
    if |beams| == 0 then []
    else
      StepAll(beams[..|beams| - 1], position, splitterLine)
      + StepBeam(beams[|beams| - 1], position, splitterLine)
  }

  lemma {:induction false} StepAllMember(beams: seq<QuanticTachyonBeams>, position: nat,
                                         splitterLine: set<nat>, b: QuanticTachyonBeams)
    requires position in splitterLine ==> position >= 1
    requires b in StepAll(beams, position, splitterLine)
    ensures exists c :: c in beams && b in StepBeam(c, position, splitterLine)
    decreases |beams|
  {
    var init := beams[..|beams| - 1];
    var last := beams[|beams| - 1];
    if b in StepAll(init, position, splitterLine) {
      StepAllMember(init, position, splitterLine, b);
      var c :| c in init && b in StepBeam(c, position, splitterLine);
      assert c in beams;
    } else {
      assert b in StepBeam(last, position, splitterLine);
    }
  }

  predicate OrderInRange(order: seq<nat>, splitterLine: set<nat>)
  {
    forall k :: 0 <= k < |order| && order[k] in splitterLine ==> order[k] >= 1
  }

  /** `QuanticTachyonBeams::advance` when the hash set yields the positions
      in the sequence `order`. */
  function AdvanceAlong(beams: seq<QuanticTachyonBeams>, order: seq<nat>, splitterLine: set<nat>)
    : seq<QuanticTachyonBeams>
    requires OrderInRange(order, splitterLine)
    decreases |order|
  {
    if |order| == 0 then beams
    else StepAll(AdvanceAlong(beams, order[..|order| - 1], splitterLine),
                 order[|order| - 1], splitterLine)
  }

  /** `order` lists every element of `positions` exactly once. */
  ghost predicate Enumerates(order: seq<nat>, positions: set<nat>)
  {
    (forall i, j :: 0 <= i < j < |order| ==> order[i] != order[j])
    && (forall x: nat :: x in order <==> x in positions)
  }

  lemma EnumeratesAppend(order: seq<nat>, visited: set<nat>, position: nat)
    requires Enumerates(order, visited) && position !in visited
    ensures Enumerates(order + [position], visited + {position})
  {
    var extended := order + [position];
    forall i, j | 0 <= i < j < |extended| ensures extended[i] != extended[j] {
      assert order[i] in order;
      if j < |order| {
        assert extended[j] == order[j];
      }
    }
  }

  /** The order-independent facts about the timelines of `advance`, once the
      positions of `visited` are processed. */
  ghost predicate AdvanceBounds(beams: seq<QuanticTachyonBeams>, n: nat, visited: set<nat>,
                                splitterLine: set<nat>)
    requires SplitsInRange(visited, splitterLine)
  {
    forall b :: b in beams ==>
      b.nPreviousTimelines == n
      && visited - splitterLine <= b.currentPosition <= Advanced(visited, splitterLine)
  }

  lemma StepAllBounds(beams: seq<QuanticTachyonBeams>, n: nat, visited: set<nat>, position: nat,
                      splitterLine: set<nat>)
    requires position !in visited && SplitsInRange(visited + {position}, splitterLine)
    requires AdvanceBounds(beams, n, visited, splitterLine)
    ensures AdvanceBounds(StepAll(beams, position, splitterLine), n, visited + {position}, splitterLine)
  {
    AdvancedAddOne(visited, position, splitterLine);
    var next := visited + {position};
    forall b | b in StepAll(beams, position, splitterLine)
      ensures b.nPreviousTimelines == n
      ensures next - splitterLine <= b.currentPosition <= Advanced(next, splitterLine)
    {
      StepAllMember(beams, position, splitterLine, b);
      var c :| c in beams && b in StepBeam(c, position, splitterLine);
      if position in splitterLine {
        assert b == SplitBeam(c, position)[0] || b == SplitBeam(c, position)[1];
      } else {
        assert b.currentPosition == c.currentPosition + {position};
      }
    }
  }

  /** The loop invariant of `advance` once the positions `visited` are
      processed, in the sequence `order`. */
  ghost predicate AdvanceInvariant(beams: seq<QuanticTachyonBeams>, n: nat, order: seq<nat>,
                                   visited: set<nat>, splitterLine: set<nat>)
  {
    SplitsInRange(visited, splitterLine)
    && Enumerates(order, visited) && OrderInRange(order, splitterLine)
    && beams == AdvanceAlong([QuanticTachyonBeams({}, n)], order, splitterLine)
    && |beams| == Pow(2, |visited * splitterLine|)
    && AdvanceBounds(beams, n, visited, splitterLine)
  }

  lemma AdvanceStart(n: nat, splitterLine: set<nat>)
    ensures AdvanceInvariant([QuanticTachyonBeams({}, n)], n, [], {}, splitterLine)
  {
    assert Advanced({}, splitterLine) == {};
  }

  lemma AdvanceStep(beams: seq<QuanticTachyonBeams>, n: nat, order: seq<nat>, visited: set<nat>,
                    position: nat, splitterLine: set<nat>)
    requires AdvanceInvariant(beams, n, order, visited, splitterLine)
    requires position !in visited && (position in splitterLine ==> position >= 1)
    ensures AdvanceInvariant(StepAll(beams, position, splitterLine), n, order + [position],
                             visited + {position}, splitterLine)
  {
    AdvanceStepOrder(beams, n, order, visited, position, splitterLine);
    AdvanceStepCount(beams, n, order, visited, position, splitterLine);
    StepAllBounds(beams, n, visited, position, splitterLine);
  }

  lemma AdvanceStepOrder(beams: seq<QuanticTachyonBeams>, n: nat, order: seq<nat>, visited: set<nat>,
                         position: nat, splitterLine: set<nat>)
    requires AdvanceInvariant(beams, n, order, visited, splitterLine)
    requires position !in visited && (position in splitterLine ==> position >= 1)
    ensures SplitsInRange(visited + {position}, splitterLine)
    ensures Enumerates(order + [position], visited + {position})
    ensures OrderInRange(order + [position], splitterLine)
    ensures StepAll(beams, position, splitterLine)
      == AdvanceAlong([QuanticTachyonBeams({}, n)], order + [position], splitterLine)
  {
    EnumeratesAppend(order, visited, position);
    assert (order + [position])[..|order|] == order;
  }

  lemma AdvanceStepCount(beams: seq<QuanticTachyonBeams>, n: nat, order: seq<nat>, visited: set<nat>,
                         position: nat, splitterLine: set<nat>)
    requires AdvanceInvariant(beams, n, order, visited, splitterLine)
    requires position !in visited && (position in splitterLine ==> position >= 1)
    ensures |StepAll(beams, position, splitterLine)| == Pow(2, |(visited + {position}) * splitterLine|)
  {
    HitsAddOne(visited, position, splitterLine);
  }

  /** `QuanticTachyonBeams::advance`. Its result depends on the order in which
      the hash set yields the positions (when a split lands on another
      splitter of the same line), so the contract holds for that order,
      whatever it is, and states what does not depend on it: 2^k timelines
      for k positions on splitters, each with the beam's count, each keeping
      the beams that go straight on and lying within the classical
      `Advanced` columns. */
  method QuanticAdvance(beam: QuanticTachyonBeams, splitterLine: set<nat>)
    returns (outputBeams: seq<QuanticTachyonBeams>)
    requires SplitsInRange(beam.currentPosition, splitterLine)
    ensures exists order ::
      (Enumerates(order, beam.currentPosition)
       && OrderInRange(order, splitterLine)
       && outputBeams == AdvanceAlong([QuanticTachyonBeams({}, beam.nPreviousTimelines)],
                                      order, splitterLine))
    ensures |outputBeams| == Pow(2, |beam.currentPosition * splitterLine|)
    ensures forall b :: b in outputBeams ==> b.nPreviousTimelines == beam.nPreviousTimelines
    ensures forall b :: b in outputBeams ==>
      beam.currentPosition - splitterLine <= b.currentPosition
      && b.currentPosition <= Advanced(beam.currentPosition, splitterLine)
  {
    var n := beam.nPreviousTimelines;
    var start := [QuanticTachyonBeams({}, n)];
    outputBeams := start;
    var remaining := beam.currentPosition;
    ghost var visited: set<nat> := {};
    ghost var order: seq<nat> := [];
    AdvanceStart(n, splitterLine);
    while remaining != {}
      invariant visited + remaining == beam.currentPosition && visited !! remaining
      invariant AdvanceInvariant(outputBeams, n, order, visited, splitterLine)
      decreases |remaining|
    {
      var position :| position in remaining;
      MoveOne(visited, remaining, beam.currentPosition, position);
      AdvanceStep(outputBeams, n, order, visited, position, splitterLine);
      outputBeams := StepAll(outputBeams, position, splitterLine);
      order := order + [position];
      visited := visited + {position};
      remaining := remaining - {position};
    }
  }

  lemma {:induction false} StepAllAppend(a: seq<QuanticTachyonBeams>, b: seq<QuanticTachyonBeams>,
                                         position: nat, splitterLine: set<nat>)
    requires position in splitterLine ==> position >= 1
    ensures StepAll(a + b, position, splitterLine)
      == StepAll(a, position, splitterLine) + StepAll(b, position, splitterLine)
    decreases |b|
  {
    if |b| > 0 {
      assert (a + b)[..|a + b| - 1] == a + b[..|b| - 1];
      StepAllAppend(a, b[..|b| - 1], position, splitterLine);
    } else {
      assert a + b == a;
    }
  }

  lemma StepAllSingle(b: QuanticTachyonBeams, position: nat, splitterLine: set<nat>)
    requires position in splitterLine ==> position >= 1
    ensures StepAll([b], position, splitterLine) == StepBeam(b, position, splitterLine)
  {
    assert [b][..0] == [];
  }

  lemma StepAllPair(a: QuanticTachyonBeams, b: QuanticTachyonBeams, position: nat, splitterLine: set<nat>)
    requires position in splitterLine ==> position >= 1
    ensures StepAll([a, b], position, splitterLine)
      == StepBeam(a, position, splitterLine) + StepBeam(b, position, splitterLine)
  {
    assert [a, b] == [a] + [b];
    StepAllAppend([a], [b], position, splitterLine);
    StepAllSingle(a, position, splitterLine);
    StepAllSingle(b, position, splitterLine);
  }

  /** The example of the source's quantic `advance` test, with the positions
      taken in ascending order (the test compares the outputs after sorting
      them). */
  lemma QuanticAdvanceExample(order: seq<nat>, line: set<nat>)
    requires order == [1, 3, 8] && line == {1, 3}
    ensures AdvanceAlong([QuanticTachyonBeams({}, 2)], order, line)
      == [QuanticTachyonBeams({0, 2, 8}, 2), QuanticTachyonBeams({0, 4, 8}, 2),
          QuanticTachyonBeams({2, 8}, 2), QuanticTachyonBeams({2, 4, 8}, 2)]
  {
    var b0 := QuanticTachyonBeams({}, 2);
    assert order[..2] == [1, 3] && order[..2][..1] == [1] && order[..1][..0] == [];
    var one := [QuanticTachyonBeams({0}, 2), QuanticTachyonBeams({2}, 2)];
    var two := [QuanticTachyonBeams({0, 2}, 2), QuanticTachyonBeams({0, 4}, 2),
                QuanticTachyonBeams({2}, 2), QuanticTachyonBeams({2, 4}, 2)];
    var o1, o2 := order[..1], order[..2];
    assert o1 == o2[..1] && o1[..0] == [] && o2 == order[..|order| - 1];
    assert AdvanceAlong([b0], o1, line) == StepAll([b0], 1, line);
    ExampleFirstStep(b0, one, line);
    assert AdvanceAlong([b0], o2, line) == StepAll(one, 3, line);
    ExampleSecondStep(one, two, line);
    assert AdvanceAlong([b0], order, line) == StepAll(two, 8, line);
    ExampleThirdStep(two, line);
  }

  lemma ExampleFirstStep(b0: QuanticTachyonBeams, one: seq<QuanticTachyonBeams>, line: set<nat>)
    requires line == {1, 3} && b0 == QuanticTachyonBeams({}, 2)
    requires one == [QuanticTachyonBeams({0}, 2), QuanticTachyonBeams({2}, 2)]
    ensures StepAll([b0], 1, line) == one
  {
    StepAllSingle(b0, 1, line);
    assert ({} + {0}) - {1} == {0} && ({} + {2}) - {1} == {2};
  }

  lemma ExampleSecondStep(one: seq<QuanticTachyonBeams>, two: seq<QuanticTachyonBeams>, line: set<nat>)
    requires line == {1, 3}
    requires one == [QuanticTachyonBeams({0}, 2), QuanticTachyonBeams({2}, 2)]
    requires two == [QuanticTachyonBeams({0, 2}, 2), QuanticTachyonBeams({0, 4}, 2),
                     QuanticTachyonBeams({2}, 2), QuanticTachyonBeams({2, 4}, 2)]
    ensures StepAll(one, 3, line) == two
  {
    assert one == [one[0]] + [one[1]];
    StepAllAppend([one[0]], [one[1]], 3, line);
    StepAllSingle(one[0], 3, line);
    StepAllSingle(one[1], 3, line);
    assert ({0} + {2}) - {3} == {0, 2} && ({0} + {4}) - {3} == {0, 4};
    assert ({2} + {2}) - {3} == {2} && ({2} + {4}) - {3} == {2, 4};
  }

  lemma ExampleThirdStep(two: seq<QuanticTachyonBeams>, line: set<nat>)
    requires line == {1, 3}
    requires two == [QuanticTachyonBeams({0, 2}, 2), QuanticTachyonBeams({0, 4}, 2),
                     QuanticTachyonBeams({2}, 2), QuanticTachyonBeams({2, 4}, 2)]
    ensures StepAll(two, 8, line)
      == [QuanticTachyonBeams({0, 2, 8}, 2), QuanticTachyonBeams({0, 4, 8}, 2),
          QuanticTachyonBeams({2, 8}, 2), QuanticTachyonBeams({2, 4, 8}, 2)]
  {
    assert two == [two[0], two[1]] + [two[2], two[3]];
    StepAllAppend([two[0], two[1]], [two[2], two[3]], 8, line);
    StepAllPair(two[0], two[1], 8, line);
    StepAllPair(two[2], two[3], 8, line);
    assert {0, 2} + {8} == {0, 2, 8} && {0, 4} + {8} == {0, 4, 8};
    assert {2} + {8} == {2, 8} && {2, 4} + {8} == {2, 4, 8};
  }

  // ---------------------------------------------------------------------
  // The quantic run

  /** Every timeline of the run meets only splitters past column 0. */
  predicate QuanticInRange(position: nat, splitterLines: seq<set<nat>>)
    decreases |splitterLines|
  {
    |splitterLines| == 0
    || (if position in splitterLines[0] then
          position >= 1
          && QuanticInRange(position - 1, splitterLines[1..])
          && QuanticInRange(position + 1, splitterLines[1..])
        else QuanticInRange(position, splitterLines[1..]))
  }

  /** The number of timelines of a single beam starting at `position`: one
      beam that meets a splitter becomes two timelines. */
  function Timelines(position: nat, splitterLines: seq<set<nat>>): (n: nat)
    requires QuanticInRange(position, splitterLines)
    ensures n >= 1
    decreases |splitterLines|
  {
    if |splitterLines| == 0 then 1
    else if position in splitterLines[0] then
      Timelines(position - 1, splitterLines[1..]) + Timelines(position + 1, splitterLines[1..])
    else Timelines(position, splitterLines[1..])
  }

  /** Each line at most doubles the timelines. */
  lemma {:induction false} TimelinesBound(position: nat, splitterLines: seq<set<nat>>)
    requires QuanticInRange(position, splitterLines)
    ensures Timelines(position, splitterLines) <= Pow(2, |splitterLines|)
    decreases |splitterLines|
  {
    if |splitterLines| > 0 {
      var rest := splitterLines[1..];
      if position in splitterLines[0] {
        TimelinesBound(position - 1, rest);
        TimelinesBound(position + 1, rest);
      } else {
        TimelinesBound(position, rest);
        assert Pow(2, |rest|) <= Pow(2, |splitterLines|);
      }
    }
  }

  /** The classical and the quantic run reach the same columns: their range
      conditions agree. */
  lemma {:induction false} RunInRangeIffQuantic(positions: set<nat>, splitterLines: seq<set<nat>>)
    ensures RunInRange(positions, splitterLines)
      <==> forall p :: p in positions ==> QuanticInRange(p, splitterLines)
    decreases |splitterLines|
  {
    if |splitterLines| > 0 {
      var line := splitterLines[0];
      var rest := splitterLines[1..];
      if SplitsInRange(positions, line) {
        var next := Advanced(positions, line);
        RunInRangeIffQuantic(next, rest);
        if forall q :: q in next ==> QuanticInRange(q, rest) {
          forall p | p in positions ensures QuanticInRange(p, splitterLines) {
            if p in line {
              AdvancedMembers(positions, line, p - 1);
              AdvancedMembers(positions, line, p + 1);
            } else {
              AdvancedMembers(positions, line, p);
            }
          }
        } else {
          var q :| q in next && !QuanticInRange(q, rest);
          AdvancedMembers(positions, line, q);
          if q in positions && q !in line {
            assert !QuanticInRange(q, splitterLines);
          } else if q + 1 in positions && q + 1 in line {
            assert q + 1 - 1 == q;
            assert !QuanticInRange(q + 1, splitterLines);
          } else {
            assert q - 1 + 1 == q;
            assert !QuanticInRange(q - 1, splitterLines);
          }
        }
      } else {
        var p :| p in positions && p in line && p < 1;
        assert !QuanticInRange(p, splitterLines);
      }
    }
  }

  /** With no splitter in column 0 every run stays in range. */
  lemma {:induction false} NoSplitterAtZero(position: nat, splitterLines: seq<set<nat>>)
    requires forall k :: 0 <= k < |splitterLines| ==> 0 !in splitterLines[k]
    ensures QuanticInRange(position, splitterLines)
    decreases |splitterLines|
  {
    if |splitterLines| > 0 {
      var rest := splitterLines[1..];
      assert forall k :: 0 <= k < |rest| ==> rest[k] == splitterLines[k + 1];
      NoSplitterAtZero(position, rest);
      if position in splitterLines[0] {
        NoSplitterAtZero(position - 1, rest);
        NoSplitterAtZero(position + 1, rest);
      }
    }
  }

  /** The total number of timelines of a list of beams. */
  function Total(beams: seq<QuanticTachyonBeams>): nat
  {
    if |beams| == 0 then 0
    else Total(beams[..|beams| - 1]) + beams[|beams| - 1].nPreviousTimelines
  }

  /** The `chunk_by` of `run_quantic`: consecutive beams with the same
      columns become one beam carrying the sum of their timeline counts. */
  function ChunkBy(beams: seq<QuanticTachyonBeams>): (r: seq<QuanticTachyonBeams>)
    ensures |r| <= |beams|
    ensures |beams| > 0 ==> |r| > 0 && r[|r| - 1].currentPosition == beams[|beams| - 1].currentPosition
  {
    if |beams| == 0 then []
    else
      var groups := ChunkBy(beams[..|beams| - 1]);
      var beam := beams[|beams| - 1];
      if |groups| > 0 && groups[|groups| - 1].currentPosition == beam.currentPosition then
        groups[..|groups| - 1]
          + [QuanticTachyonBeams(beam.currentPosition,
                                 groups[|groups| - 1].nPreviousTimelines + beam.nPreviousTimelines)]
      else groups + [beam]
  }

  /** After regrouping no two neighbouring beams share their columns. */
  lemma {:induction false} ChunkByAdjacentDiffer(beams: seq<QuanticTachyonBeams>)
    ensures forall k :: 0 <= k < |ChunkBy(beams)| - 1 ==>
      ChunkBy(beams)[k].currentPosition != ChunkBy(beams)[k + 1].currentPosition
    decreases |beams|
  {
    if |beams| > 0 {
      var init := beams[..|beams| - 1];
      var groups := ChunkBy(init);
      var beam := beams[|beams| - 1];
      ChunkByAdjacentDiffer(init);
      if |groups| > 0 && groups[|groups| - 1].currentPosition == beam.currentPosition {
        var front := groups[..|groups| - 1];
        var merged := QuanticTachyonBeams(beam.currentPosition,
                                          groups[|groups| - 1].nPreviousTimelines + beam.nPreviousTimelines);
        assert ChunkBy(beams) == front + [merged];
        if |front| > 0 {
          assert groups[|groups| - 2].currentPosition != groups[|groups| - 1].currentPosition;
        }
      } else {
        assert ChunkBy(beams) == groups + [beam];
      }
    }
  }

  /** The column sets that occur among `beams`. */
  ghost function Columns(beams: seq<QuanticTachyonBeams>): set<set<nat>>
  {
    set j | 0 <= j < |beams| :: beams[j].currentPosition
  }

  /** Every regrouped beam has the columns of some input beam. */
  lemma {:induction false} ChunkByColumns(beams: seq<QuanticTachyonBeams>)
    ensures forall k :: 0 <= k < |ChunkBy(beams)| ==> ChunkBy(beams)[k].currentPosition in Columns(beams)
    decreases |beams|
  {
    if |beams| > 0 {
      var init := beams[..|beams| - 1];
      var groups := ChunkBy(init);
      var r := ChunkBy(beams);
      var beam := beams[|beams| - 1];
      ChunkByColumns(init);
      var kept := if |groups| > 0 && groups[|groups| - 1].currentPosition == beam.currentPosition
                  then |groups| - 1 else |groups|;
      assert |r| == kept + 1 && r[kept].currentPosition == beam.currentPosition;
      assert forall k :: 0 <= k < kept ==> r[k] == groups[k];
      assert Columns(init) <= Columns(beams) by {
        forall c | c in Columns(init) ensures c in Columns(beams) {
          var j :| 0 <= j < |init| && init[j].currentPosition == c;
          assert beams[j] == init[j];
        }
      }
      assert beam.currentPosition in Columns(beams) by {
        assert beams[|beams| - 1] == beam;
      }
    }
  }

  lemma {:induction false} TotalAppend(a: seq<QuanticTachyonBeams>, b: seq<QuanticTachyonBeams>)
    ensures Total(a + b) == Total(a) + Total(b)
    decreases |b|
  {
    if |b| > 0 {
      assert (a + b)[..|a + b| - 1] == a + b[..|b| - 1];
      TotalAppend(a, b[..|b| - 1]);
    } else {
      assert a + b == a;
    }
  }

  /** Regrouping keeps the total number of timelines. */
  lemma {:induction false} ChunkByTotal(beams: seq<QuanticTachyonBeams>)
    ensures Total(ChunkBy(beams)) == Total(beams)
    decreases |beams|
  {
    if |beams| > 0 {
      var init := beams[..|beams| - 1];
      var groups := ChunkBy(init);
      var beam := beams[|beams| - 1];
      ChunkByTotal(init);
      if |groups| > 0 && groups[|groups| - 1].currentPosition == beam.currentPosition {
        var front := groups[..|groups| - 1];
        var last := groups[|groups| - 1];
        assert groups == front + [last];
        TotalAppend(front, [last]);
        TotalAppend(front, [QuanticTachyonBeams(beam.currentPosition,
                                                last.nPreviousTimelines + beam.nPreviousTimelines)]);
      } else {
        TotalAppend(groups, [beam]);
      }
    }
  }

  /** The column of a single-column beam. */
  ghost function Position(beam: QuanticTachyonBeams): nat
    requires |beam.currentPosition| == 1
  {
    SetMin(beam.currentPosition)
  }

  lemma SingleColumn(s: set<nat>)
    requires |s| == 1
    ensures s == {SetMin(s)}
  {
    var m := SetMin(s);
    assert |s - {m}| == 0;
  }

  /** Single-column beams whose timelines stay in range for `splitterLines`. */
  ghost predicate Weighable(beams: seq<QuanticTachyonBeams>, splitterLines: seq<set<nat>>)
  {
    forall k :: 0 <= k < |beams| ==>
      |beams[k].currentPosition| == 1 && QuanticInRange(Position(beams[k]), splitterLines)
  }

  /** The timelines one timeline in the columns `positions` still produces
      over `splitterLines` (only single columns are ever weighed). */
  ghost function ColumnWeight(positions: set<nat>, splitterLines: seq<set<nat>>): nat
  {
    if |positions| == 1 && QuanticInRange(SetMin(positions), splitterLines)
    then Timelines(SetMin(positions), splitterLines)
    else 0
  }

  /** The timelines the beams will have produced at the end of `splitterLines`. */
  ghost function Weighted(beams: seq<QuanticTachyonBeams>, splitterLines: seq<set<nat>>): nat
  {
    if |beams| == 0 then 0
    else
      Weighted(beams[..|beams| - 1], splitterLines)
      + beams[|beams| - 1].nPreviousTimelines
        * ColumnWeight(beams[|beams| - 1].currentPosition, splitterLines)
  }

  lemma {:induction false} WeightedAppend(a: seq<QuanticTachyonBeams>, b: seq<QuanticTachyonBeams>,
                                          splitterLines: seq<set<nat>>)
    ensures Weighted(a + b, splitterLines) == Weighted(a, splitterLines) + Weighted(b, splitterLines)
    decreases |b|
  {
    if |b| > 0 {
      assert (a + b)[..|a + b| - 1] == a + b[..|b| - 1];
      WeightedAppend(a, b[..|b| - 1], splitterLines);
    } else {
      assert a + b == a;
    }
  }

  lemma WeighableAppend(a: seq<QuanticTachyonBeams>, b: seq<QuanticTachyonBeams>,
                        splitterLines: seq<set<nat>>)
    requires Weighable(a, splitterLines) && Weighable(b, splitterLines)
    ensures Weighable(a + b, splitterLines)
  {
    assert forall k :: 0 <= k < |a + b| ==> (a + b)[k] == if k < |a| then a[k] else b[k - |a|];
  }

  lemma AddMul(a: int, b: int, c: int)
    ensures (a + b) * c == a * c + b * c
  {
  }

  lemma MulAdd(a: int, b: int, c: int)
    ensures a * (b + c) == a * b + a * c
  {
  }

  lemma ChunkByWeighable(beams: seq<QuanticTachyonBeams>, splitterLines: seq<set<nat>>)
    requires Weighable(beams, splitterLines)
    ensures Weighable(ChunkBy(beams), splitterLines)
  {
    var r := ChunkBy(beams);
    ChunkByColumns(beams);
    forall k | 0 <= k < |r|
      ensures |r[k].currentPosition| == 1 && QuanticInRange(Position(r[k]), splitterLines)
    {
      assert r[k].currentPosition in Columns(beams);
      var j :| 0 <= j < |beams| && beams[j].currentPosition == r[k].currentPosition;
      assert Position(r[k]) == Position(beams[j]);
    }
  }

  /** Merging a beam into the last group with the same columns adds its
      timelines to that group. */
  lemma WeightedMerge(front: seq<QuanticTachyonBeams>, last: QuanticTachyonBeams,
                      beam: QuanticTachyonBeams, splitterLines: seq<set<nat>>)
    requires last.currentPosition == beam.currentPosition
    ensures Weighted(front + [QuanticTachyonBeams(beam.currentPosition,
                                                  last.nPreviousTimelines + beam.nPreviousTimelines)],
                     splitterLines)
      == Weighted(front + [last], splitterLines) + Weighted([beam], splitterLines)
  {
    var merged := QuanticTachyonBeams(beam.currentPosition,
                                      last.nPreviousTimelines + beam.nPreviousTimelines);
    assert (front + [merged])[..|front|] == front == (front + [last])[..|front|];
    assert [beam][..0] == [];
    AddMul(last.nPreviousTimelines, beam.nPreviousTimelines,
           ColumnWeight(beam.currentPosition, splitterLines));
  }

  /** Regrouping keeps the timelines still to come. */
  lemma {:induction false} ChunkByWeighted(beams: seq<QuanticTachyonBeams>, splitterLines: seq<set<nat>>)
    ensures Weighted(ChunkBy(beams), splitterLines) == Weighted(beams, splitterLines)
    decreases |beams|
  {
    if |beams| > 0 {
      var init := beams[..|beams| - 1];
      var groups := ChunkBy(init);
      var beam := beams[|beams| - 1];
      ChunkByWeighted(init, splitterLines);
      WeightedAppend(init, [beam], splitterLines);
      assert init + [beam] == beams;
      if |groups| > 0 && groups[|groups| - 1].currentPosition == beam.currentPosition {
        var front := groups[..|groups| - 1];
        var last := groups[|groups| - 1];
        var merged := QuanticTachyonBeams(beam.currentPosition,
                                          last.nPreviousTimelines + beam.nPreviousTimelines);
        assert ChunkBy(beams) == front + [merged];
        assert groups == front + [last];
        WeightedMerge(front, last, beam, splitterLines);
      } else {
        assert ChunkBy(beams) == groups + [beam];
        WeightedAppend(groups, [beam], splitterLines);
      }
    }
  }

  /** At the end of the manifold a beam counts its own timelines. */
  lemma {:induction false} WeightedAtEnd(beams: seq<QuanticTachyonBeams>)
    requires Weighable(beams, [])
    ensures Weighted(beams, []) == Total(beams)
    decreases |beams|
  {
    if |beams| > 0 {
      WeightedAtEnd(beams[..|beams| - 1]);
    }
  }

  lemma EnumeratesSingle(order: seq<nat>, p: nat)
    requires Enumerates(order, {p})
    ensures order == [p]
  {
    assert p in order;
    assert order[0] in order && order[|order| - 1] in order;
    assert order[0] == p == order[|order| - 1];
    assert |order| == 1;
  }

  lemma AdvanceAlongSingle(n: nat, p: nat, splitterLine: set<nat>, order: seq<nat>)
    requires Enumerates(order, {p}) && OrderInRange(order, splitterLine)
    ensures p in splitterLine ==> p >= 1
    ensures AdvanceAlong([QuanticTachyonBeams({}, n)], order, splitterLine)
      == if p in splitterLine then [QuanticTachyonBeams({p - 1}, n), QuanticTachyonBeams({p + 1}, n)]
         else [QuanticTachyonBeams({p}, n)]
  {
    var start := QuanticTachyonBeams({}, n);
    EnumeratesSingle(order, p);
    assert order[..0] == [];
    assert AdvanceAlong([start], order, splitterLine) == StepAll([start], p, splitterLine);
    StepAllSingle(start, p, splitterLine);
    if p in splitterLine {
      assert ({} + {p - 1}) - {p} == {p - 1} && ({} + {p + 1}) - {p} == {p + 1};
    } else {
      assert {} + {p} == {p};
    }
  }

  lemma WeightOfColumn(p: nat, splitterLines: seq<set<nat>>)
    requires QuanticInRange(p, splitterLines)
    ensures ColumnWeight({p}, splitterLines) == Timelines(p, splitterLines)
  {
    assert SetMin({p}) == p;
  }

  lemma WeightedPair(a: QuanticTachyonBeams, b: QuanticTachyonBeams, splitterLines: seq<set<nat>>)
    ensures Weighted([a, b], splitterLines)
      == a.nPreviousTimelines * ColumnWeight(a.currentPosition, splitterLines)
         + b.nPreviousTimelines * ColumnWeight(b.currentPosition, splitterLines)
  {
    assert [a, b][..1] == [a] && [a][..0] == [];
    assert Weighted([a], splitterLines)
      == a.nPreviousTimelines * ColumnWeight(a.currentPosition, splitterLines);
  }

  /** The quantic advance of a single-column beam: one timeline, or two that
      lie one column to each side. */
  lemma AdvanceOfSingle(beam: QuanticTachyonBeams, outputBeams: seq<QuanticTachyonBeams>,
                        splitterLines: seq<set<nat>>)
    requires |splitterLines| > 0 && |beam.currentPosition| == 1
    requires QuanticInRange(Position(beam), splitterLines)
    requires exists order ::
      (Enumerates(order, beam.currentPosition)
       && OrderInRange(order, splitterLines[0])
       && outputBeams == AdvanceAlong([QuanticTachyonBeams({}, beam.nPreviousTimelines)],
                                      order, splitterLines[0]))
    ensures Weighable(outputBeams, splitterLines[1..])
    ensures Weighted(outputBeams, splitterLines[1..])
      == beam.nPreviousTimelines * Timelines(Position(beam), splitterLines)
  {
    var line := splitterLines[0];
    var rest := splitterLines[1..];
    var n := beam.nPreviousTimelines;
    var p := Position(beam);
    SingleColumn(beam.currentPosition);
    var order :| Enumerates(order, beam.currentPosition) && OrderInRange(order, line)
      && outputBeams == AdvanceAlong([QuanticTachyonBeams({}, n)], order, line);
    AdvanceAlongSingle(n, p, line, order);
    if p in line {
      SplitWeight(p, n, splitterLines);
    } else {
      StraightWeight(p, n, splitterLines);
    }
  }

  lemma SplitWeight(p: nat, n: nat, splitterLines: seq<set<nat>>)
    requires |splitterLines| > 0 && p in splitterLines[0] && QuanticInRange(p, splitterLines)
    ensures p >= 1
    ensures Weighable([QuanticTachyonBeams({p - 1}, n), QuanticTachyonBeams({p + 1}, n)],
                      splitterLines[1..])
    ensures Weighted([QuanticTachyonBeams({p - 1}, n), QuanticTachyonBeams({p + 1}, n)],
                     splitterLines[1..])
      == n * Timelines(p, splitterLines)
  {
    var rest := splitterLines[1..];
    WeightOfColumn(p - 1, rest);
    WeightOfColumn(p + 1, rest);
    WeightedPair(QuanticTachyonBeams({p - 1}, n), QuanticTachyonBeams({p + 1}, n), rest);
    MulAdd(n, Timelines(p - 1, rest), Timelines(p + 1, rest));
  }

  lemma StraightWeight(p: nat, n: nat, splitterLines: seq<set<nat>>)
    requires |splitterLines| > 0 && p !in splitterLines[0] && QuanticInRange(p, splitterLines)
    ensures Weighable([QuanticTachyonBeams({p}, n)], splitterLines[1..])
    ensures Weighted([QuanticTachyonBeams({p}, n)], splitterLines[1..]) == n * Timelines(p, splitterLines)
  {
    WeightOfColumn(p, splitterLines[1..]);
    assert [QuanticTachyonBeams({p}, n)][..0] == [];
  }

  /** One step of the inner loop of `run_quantic`: appending the beams that
      `beams[j]` turns into keeps the weight equal to that of `beams[..j + 1]`. */
  lemma AccumulateBeam(advanced: seq<QuanticTachyonBeams>, beams: seq<QuanticTachyonBeams>, j: nat,
                       split: seq<QuanticTachyonBeams>, splitterLines: seq<set<nat>>)
    requires |splitterLines| > 0 && j < |beams| && Weighable(beams, splitterLines)
    requires Weighable(advanced, splitterLines[1..])
    requires Weighted(advanced, splitterLines[1..]) == Weighted(beams[..j], splitterLines)
    requires exists order ::
      (Enumerates(order, beams[j].currentPosition)
       && OrderInRange(order, splitterLines[0])
       && split == AdvanceAlong([QuanticTachyonBeams({}, beams[j].nPreviousTimelines)],
                                order, splitterLines[0]))
    ensures Weighable(advanced + split, splitterLines[1..])
    ensures Weighted(advanced + split, splitterLines[1..]) == Weighted(beams[..j + 1], splitterLines)
  {
    var rest := splitterLines[1..];
    var beam := beams[j];
    assert |beam.currentPosition| == 1 && QuanticInRange(Position(beam), splitterLines);
    assert Weighable(advanced + split, rest) by {
      AdvanceOfSingle(beam, split, splitterLines);
      WeighableAppend(advanced, split, rest);
    }
    assert Weighted(advanced + split, rest)
        == Weighted(advanced, rest) + beam.nPreviousTimelines * Timelines(Position(beam), splitterLines) by {
      AdvanceOfSingle(beam, split, splitterLines);
      WeightedAppend(advanced, split, rest);
    }
    var weight := ColumnWeight(beam.currentPosition, splitterLines);
    assert weight == Timelines(Position(beam), splitterLines) by {
      SingleColumn(beam.currentPosition);
      WeightOfColumn(Position(beam), splitterLines);
    }
    calc {
      Weighted(beams[..j + 1], splitterLines);
    == { assert beams[..j + 1][..j] == beams[..j] && beams[..j + 1][j] == beam; }
      Weighted(beams[..j], splitterLines) + beam.nPreviousTimelines * weight;
    }
  }

  /** `TachyonManifold::run_quantic`: every beam of the run holds a single
      column, and the timelines it will still produce, summed over the
      beams, never change; at the end that sum is the number of timelines of
      the start column. */
  method RunQuantic(manifold: TachyonManifold) returns (result: QuanticTachyonManifoldResult)
    requires RunInRange({manifold.startingPosition}, manifold.splitterLines)
    ensures QuanticInRange(manifold.startingPosition, manifold.splitterLines)
    ensures result.nTimelines == Timelines(manifold.startingPosition, manifold.splitterLines)
  {
    var lines := manifold.splitterLines;
    RunInRangeIffQuantic({manifold.startingPosition}, lines);
    var beams := [QuanticTachyonBeams({manifold.startingPosition}, 1)];
    assert Position(beams[0]) == manifold.startingPosition;
    assert beams[..0] == [];
    WeightOfColumn(manifold.startingPosition, lines);
    assert lines[0..] == lines;
    for i := 0 to |lines|
      invariant Weighable(beams, lines[i..])
      invariant Weighted(beams, lines[i..]) == Timelines(manifold.startingPosition, lines)
    {
      var line := lines[i];
      ghost var rest := lines[i + 1..];
      assert lines[i..][1..] == rest;
      var advanced: seq<QuanticTachyonBeams> := [];
      for j := 0 to |beams|
        invariant Weighable(advanced, rest)
        invariant Weighted(advanced, rest) == Weighted(beams[..j], lines[i..])
      {
        var split := QuanticAdvance(beams[j], line);
        AccumulateBeam(advanced, beams, j, split, lines[i..]);
        advanced := advanced + split;
      }
      assert beams[..|beams|] == beams;
      ChunkByWeighted(advanced, rest);
      ChunkByWeighable(advanced, rest);
      beams := ChunkBy(advanced);
    }
    WeightedAtEnd(beams);
    result := QuanticTachyonManifoldResult(Total(beams));
  }

  // ---------------------------------------------------------------------
  // The manifold of the source's quantic run test

  /** The splitter lines of the manifold in the source's quantic run test
      (the rows below the start, `^` marking a splitter). */
  ghost predicate IsExampleManifold(lines: seq<set<nat>>)
  {
    |lines| == 15
    && lines[0] == {} && lines[1] == {7} && lines[2] == {} && lines[3] == {6, 8}
    && lines[4] == {} && lines[5] == {5, 7, 9} && lines[6] == {} && lines[7] == {4, 6, 10}
    && lines[8] == {} && lines[9] == {3, 5, 9, 11} && lines[10] == {} && lines[11] == {2, 6, 12}
    && lines[12] == {} && lines[13] == {1, 3, 5, 7, 9, 13} && lines[14] == {}
  }

  lemma Uncons<T>(s: seq<T>, k: nat)
    requires k < |s|
    ensures s[k..] == [s[k]] + s[k + 1..]
  {
  }

  /** A beam at column `p` above the lines `lines` yields `v` timelines. */
  ghost predicate ExampleCount(lines: seq<set<nat>>, p: nat, v: nat)
  {
    QuanticInRange(p, lines) && Timelines(p, lines) == v
  }

  lemma ExampleSplit(line: set<nat>, rest: seq<set<nat>>, p: nat, left: nat, right: nat)
    requires p in line && p >= 1
    requires ExampleCount(rest, p - 1, left) && ExampleCount(rest, p + 1, right)
    ensures ExampleCount([line] + rest, p, left + right)
  {
    assert ([line] + rest)[0] == line && ([line] + rest)[1..] == rest;
  }

  lemma ExampleStraight(line: set<nat>, rest: seq<set<nat>>, p: nat, v: nat)
    requires p !in line
    requires ExampleCount(rest, p, v)
    ensures ExampleCount([line] + rest, p, v)
  {
    assert ([line] + rest)[0] == line && ([line] + rest)[1..] == rest;
  }

  lemma ExampleLine14(rest: seq<set<nat>>)
    requires rest == []
    ensures ExampleCount([{}] + rest, 0, 1) && ExampleCount([{}] + rest, 2, 1)
      && ExampleCount([{}] + rest, 4, 1) && ExampleCount([{}] + rest, 6, 1)
      && ExampleCount([{}] + rest, 8, 1) && ExampleCount([{}] + rest, 10, 1)
      && ExampleCount([{}] + rest, 11, 1) && ExampleCount([{}] + rest, 12, 1)
      && ExampleCount([{}] + rest, 14, 1)
  {
    var line: set<nat> := {};
    assert forall p :: ExampleCount(rest, p, 1);
    ExampleStraight(line, rest, 0, 1); ExampleStraight(line, rest, 2, 1);
    ExampleStraight(line, rest, 4, 1);
    ExampleStraight(line, rest, 6, 1); ExampleStraight(line, rest, 8, 1);
    ExampleStraight(line, rest, 10, 1);
    ExampleStraight(line, rest, 11, 1); ExampleStraight(line, rest, 12, 1);
    ExampleStraight(line, rest, 14, 1);
  }

  lemma ExampleLine13(rest: seq<set<nat>>)
    requires ExampleCount(rest, 0, 1) && ExampleCount(rest, 2, 1) && ExampleCount(rest, 4, 1)
      && ExampleCount(rest, 6, 1) && ExampleCount(rest, 8, 1) && ExampleCount(rest, 10, 1)
      && ExampleCount(rest, 11, 1) && ExampleCount(rest, 12, 1) && ExampleCount(rest, 14, 1)
    ensures ExampleCount([{1, 3, 5, 7, 9, 13}] + rest, 1, 2)
      && ExampleCount([{1, 3, 5, 7, 9, 13}] + rest, 3, 2)
      && ExampleCount([{1, 3, 5, 7, 9, 13}] + rest, 4, 1)
      && ExampleCount([{1, 3, 5, 7, 9, 13}] + rest, 5, 2)
      && ExampleCount([{1, 3, 5, 7, 9, 13}] + rest, 7, 2)
      && ExampleCount([{1, 3, 5, 7, 9, 13}] + rest, 8, 1)
      && ExampleCount([{1, 3, 5, 7, 9, 13}] + rest, 10, 1)
      && ExampleCount([{1, 3, 5, 7, 9, 13}] + rest, 11, 1)
      && ExampleCount([{1, 3, 5, 7, 9, 13}] + rest, 13, 2)
  {
    var line: set<nat> := {1, 3, 5, 7, 9, 13};
    ExampleSplit(line, rest, 1, 1, 1); ExampleSplit(line, rest, 3, 1, 1);
    ExampleStraight(line, rest, 4, 1);
    ExampleSplit(line, rest, 5, 1, 1); ExampleSplit(line, rest, 7, 1, 1);
    ExampleStraight(line, rest, 8, 1);
    ExampleStraight(line, rest, 10, 1); ExampleStraight(line, rest, 11, 1);
    ExampleSplit(line, rest, 13, 1, 1);
  }

  lemma ExampleLine12(rest: seq<set<nat>>)
    requires ExampleCount(rest, 1, 2) && ExampleCount(rest, 3, 2) && ExampleCount(rest, 4, 1)
      && ExampleCount(rest, 5, 2) && ExampleCount(rest, 7, 2) && ExampleCount(rest, 8, 1)
      && ExampleCount(rest, 10, 1) && ExampleCount(rest, 11, 1) && ExampleCount(rest, 13, 2)
    ensures ExampleCount([{}] + rest, 1, 2) && ExampleCount([{}] + rest, 3, 2)
      && ExampleCount([{}] + rest, 4, 1) && ExampleCount([{}] + rest, 5, 2)
      && ExampleCount([{}] + rest, 7, 2) && ExampleCount([{}] + rest, 8, 1)
      && ExampleCount([{}] + rest, 10, 1) && ExampleCount([{}] + rest, 11, 1)
      && ExampleCount([{}] + rest, 13, 2)
  {
    var line: set<nat> := {};
    ExampleStraight(line, rest, 1, 2); ExampleStraight(line, rest, 3, 2);
    ExampleStraight(line, rest, 4, 1);
    ExampleStraight(line, rest, 5, 2); ExampleStraight(line, rest, 7, 2);
    ExampleStraight(line, rest, 8, 1);
    ExampleStraight(line, rest, 10, 1); ExampleStraight(line, rest, 11, 1);
    ExampleStraight(line, rest, 13, 2);
  }

  lemma ExampleLine11(rest: seq<set<nat>>)
    requires ExampleCount(rest, 1, 2) && ExampleCount(rest, 3, 2) && ExampleCount(rest, 4, 1)
      && ExampleCount(rest, 5, 2) && ExampleCount(rest, 7, 2) && ExampleCount(rest, 8, 1)
      && ExampleCount(rest, 10, 1) && ExampleCount(rest, 11, 1) && ExampleCount(rest, 13, 2)
    ensures ExampleCount([{2, 6, 12}] + rest, 2, 4) && ExampleCount([{2, 6, 12}] + rest, 4, 1)
      && ExampleCount([{2, 6, 12}] + rest, 6, 4) && ExampleCount([{2, 6, 12}] + rest, 7, 2)
      && ExampleCount([{2, 6, 12}] + rest, 8, 1) && ExampleCount([{2, 6, 12}] + rest, 10, 1)
      && ExampleCount([{2, 6, 12}] + rest, 12, 3)
  {
    var line: set<nat> := {2, 6, 12};
    ExampleSplit(line, rest, 2, 2, 2); ExampleStraight(line, rest, 4, 1);
    ExampleSplit(line, rest, 6, 2, 2);
    ExampleStraight(line, rest, 7, 2); ExampleStraight(line, rest, 8, 1);
    ExampleStraight(line, rest, 10, 1);
    ExampleSplit(line, rest, 12, 1, 2);
  }

  lemma ExampleLine10(rest: seq<set<nat>>)
    requires ExampleCount(rest, 2, 4) && ExampleCount(rest, 4, 1) && ExampleCount(rest, 6, 4)
      && ExampleCount(rest, 7, 2) && ExampleCount(rest, 8, 1) && ExampleCount(rest, 10, 1)
      && ExampleCount(rest, 12, 3)
    ensures ExampleCount([{}] + rest, 2, 4) && ExampleCount([{}] + rest, 4, 1)
      && ExampleCount([{}] + rest, 6, 4) && ExampleCount([{}] + rest, 7, 2)
      && ExampleCount([{}] + rest, 8, 1) && ExampleCount([{}] + rest, 10, 1)
      && ExampleCount([{}] + rest, 12, 3)
  {
    var line: set<nat> := {};
    ExampleStraight(line, rest, 2, 4); ExampleStraight(line, rest, 4, 1);
    ExampleStraight(line, rest, 6, 4);
    ExampleStraight(line, rest, 7, 2); ExampleStraight(line, rest, 8, 1);
    ExampleStraight(line, rest, 10, 1);
    ExampleStraight(line, rest, 12, 3);
  }

  lemma ExampleLine9(rest: seq<set<nat>>)
    requires ExampleCount(rest, 2, 4) && ExampleCount(rest, 4, 1) && ExampleCount(rest, 6, 4)
      && ExampleCount(rest, 7, 2) && ExampleCount(rest, 8, 1) && ExampleCount(rest, 10, 1)
      && ExampleCount(rest, 12, 3)
    ensures ExampleCount([{3, 5, 9, 11}] + rest, 3, 5) && ExampleCount([{3, 5, 9, 11}] + rest, 5, 5)
      && ExampleCount([{3, 5, 9, 11}] + rest, 7, 2) && ExampleCount([{3, 5, 9, 11}] + rest, 8, 1)
      && ExampleCount([{3, 5, 9, 11}] + rest, 9, 2) && ExampleCount([{3, 5, 9, 11}] + rest, 11, 4)
  {
    var line: set<nat> := {3, 5, 9, 11};
    ExampleSplit(line, rest, 3, 4, 1); ExampleSplit(line, rest, 5, 1, 4);
    ExampleStraight(line, rest, 7, 2);
    ExampleStraight(line, rest, 8, 1); ExampleSplit(line, rest, 9, 1, 1);
    ExampleSplit(line, rest, 11, 1, 3);
  }

  lemma ExampleLine8(rest: seq<set<nat>>)
    requires ExampleCount(rest, 3, 5) && ExampleCount(rest, 5, 5) && ExampleCount(rest, 7, 2)
      && ExampleCount(rest, 8, 1) && ExampleCount(rest, 9, 2) && ExampleCount(rest, 11, 4)
    ensures ExampleCount([{}] + rest, 3, 5) && ExampleCount([{}] + rest, 5, 5)
      && ExampleCount([{}] + rest, 7, 2) && ExampleCount([{}] + rest, 8, 1)
      && ExampleCount([{}] + rest, 9, 2) && ExampleCount([{}] + rest, 11, 4)
  {
    var line: set<nat> := {};
    ExampleStraight(line, rest, 3, 5); ExampleStraight(line, rest, 5, 5);
    ExampleStraight(line, rest, 7, 2);
    ExampleStraight(line, rest, 8, 1); ExampleStraight(line, rest, 9, 2);
    ExampleStraight(line, rest, 11, 4);
  }

  lemma ExampleLine7(rest: seq<set<nat>>)
    requires ExampleCount(rest, 3, 5) && ExampleCount(rest, 5, 5) && ExampleCount(rest, 7, 2)
      && ExampleCount(rest, 8, 1) && ExampleCount(rest, 9, 2) && ExampleCount(rest, 11, 4)
    ensures ExampleCount([{4, 6, 10}] + rest, 4, 10) && ExampleCount([{4, 6, 10}] + rest, 6, 7)
      && ExampleCount([{4, 6, 10}] + rest, 8, 1) && ExampleCount([{4, 6, 10}] + rest, 10, 6)
  {
    var line: set<nat> := {4, 6, 10};
    ExampleSplit(line, rest, 4, 5, 5); ExampleSplit(line, rest, 6, 5, 2);
    ExampleStraight(line, rest, 8, 1);
    ExampleSplit(line, rest, 10, 2, 4);
  }

  lemma ExampleLine6(rest: seq<set<nat>>)
    requires ExampleCount(rest, 4, 10) && ExampleCount(rest, 6, 7) && ExampleCount(rest, 8, 1)
      && ExampleCount(rest, 10, 6)
    ensures ExampleCount([{}] + rest, 4, 10) && ExampleCount([{}] + rest, 6, 7)
      && ExampleCount([{}] + rest, 8, 1) && ExampleCount([{}] + rest, 10, 6)
  {
    var line: set<nat> := {};
    ExampleStraight(line, rest, 4, 10); ExampleStraight(line, rest, 6, 7);
    ExampleStraight(line, rest, 8, 1);
    ExampleStraight(line, rest, 10, 6);
  }

  lemma ExampleLine5(rest: seq<set<nat>>)
    requires ExampleCount(rest, 4, 10) && ExampleCount(rest, 6, 7) && ExampleCount(rest, 8, 1)
      && ExampleCount(rest, 10, 6)
    ensures ExampleCount([{5, 7, 9}] + rest, 5, 17) && ExampleCount([{5, 7, 9}] + rest, 7, 8)
      && ExampleCount([{5, 7, 9}] + rest, 9, 7)
  {
    var line: set<nat> := {5, 7, 9};
    ExampleSplit(line, rest, 5, 10, 7); ExampleSplit(line, rest, 7, 7, 1);
    ExampleSplit(line, rest, 9, 1, 6);
  }

  lemma ExampleLine4(rest: seq<set<nat>>)
    requires ExampleCount(rest, 5, 17) && ExampleCount(rest, 7, 8) && ExampleCount(rest, 9, 7)
    ensures ExampleCount([{}] + rest, 5, 17) && ExampleCount([{}] + rest, 7, 8)
      && ExampleCount([{}] + rest, 9, 7)
  {
    var line: set<nat> := {};
    ExampleStraight(line, rest, 5, 17); ExampleStraight(line, rest, 7, 8);
    ExampleStraight(line, rest, 9, 7);
  }

  lemma ExampleLine3(rest: seq<set<nat>>)
    requires ExampleCount(rest, 5, 17) && ExampleCount(rest, 7, 8) && ExampleCount(rest, 9, 7)
    ensures ExampleCount([{6, 8}] + rest, 6, 25) && ExampleCount([{6, 8}] + rest, 8, 15)
  {
    var line: set<nat> := {6, 8};
    ExampleSplit(line, rest, 6, 17, 8); ExampleSplit(line, rest, 8, 8, 7);
  }

  lemma ExampleLine2(rest: seq<set<nat>>)
    requires ExampleCount(rest, 6, 25) && ExampleCount(rest, 8, 15)
    ensures ExampleCount([{}] + rest, 6, 25) && ExampleCount([{}] + rest, 8, 15)
  {
    var line: set<nat> := {};
    ExampleStraight(line, rest, 6, 25); ExampleStraight(line, rest, 8, 15);
  }

  lemma ExampleLine1(rest: seq<set<nat>>)
    requires ExampleCount(rest, 6, 25) && ExampleCount(rest, 8, 15)
    ensures ExampleCount([{7}] + rest, 7, 40)
  {
    var line: set<nat> := {7};
    ExampleSplit(line, rest, 7, 25, 15);
  }

  lemma ExampleLine0(rest: seq<set<nat>>)
    requires ExampleCount(rest, 7, 40)
    ensures ExampleCount([{}] + rest, 7, 40)
  {
    var line: set<nat> := {};
    ExampleStraight(line, rest, 7, 40);
  }

  /** The source's quantic run test: 40 timelines. */
  lemma RunQuanticExample(lines: seq<set<nat>>)
    requires IsExampleManifold(lines)
    ensures RunInRange({7}, lines)
    ensures QuanticInRange(7, lines) && Timelines(7, lines) == 40
  {
    assert lines[15..] == [];
    ExampleLine14(lines[15..]);
    Uncons(lines, 14);
    ExampleLine13(lines[14..]);
    Uncons(lines, 13);
    ExampleLine12(lines[13..]);
    Uncons(lines, 12);
    ExampleLine11(lines[12..]);
    Uncons(lines, 11);
    ExampleLine10(lines[11..]);
    Uncons(lines, 10);
    ExampleLine9(lines[10..]);
    Uncons(lines, 9);
    ExampleLine8(lines[9..]);
    Uncons(lines, 8);
    ExampleLine7(lines[8..]);
    Uncons(lines, 7);
    ExampleLine6(lines[7..]);
    Uncons(lines, 6);
    ExampleLine5(lines[6..]);
    Uncons(lines, 5);
    ExampleLine4(lines[5..]);
    Uncons(lines, 4);
    ExampleLine3(lines[4..]);
    Uncons(lines, 3);
    ExampleLine2(lines[3..]);
    Uncons(lines, 2);
    ExampleLine1(lines[2..]);
    Uncons(lines, 1);
    ExampleLine0(lines[1..]);
    Uncons(lines, 0);
    assert lines[0..] == lines;
    RunInRangeIffQuantic({7}, lines);
  }

  // ---------------------------------------------------------------------
  // Ordering of quantic beams

  /** The loop of `Ord::cmp` on the sorted column lists: the first index
      where they differ decides, and when the shorter list runs out without
      a difference the result is `Equal`. */
  function PrefixCompare(xs: seq<nat>, ys: seq<nat>): Ordering
  {
    if |xs| == 0 || |ys| == 0 then Equal
    else CompareInt(xs[0], ys[0]).Then(PrefixCompare(xs[1..], ys[1..]))
  }

  function BeamOrder(a: QuanticTachyonBeams, b: QuanticTachyonBeams): Ordering
  {
    PrefixCompare(SortedElements(a.currentPosition), SortedElements(b.currentPosition))
  }

  /** `Ord::cmp` for `QuanticTachyonBeams`. */
  method Cmp(self: QuanticTachyonBeams, other: QuanticTachyonBeams) returns (ordering: Ordering)
    ensures ordering == BeamOrder(self, other)
  {
    var xs := SortedElements(self.currentPosition);
    var ys := SortedElements(other.currentPosition);
    ordering := Equal;
    var i := 0;
    while i < |xs| && i < |ys|
      invariant i <= |xs| && i <= |ys|
      invariant PrefixCompare(xs[i..], ys[i..]) == PrefixCompare(xs, ys)
      invariant ordering == Equal
    {
      match CompareInt(xs[i], ys[i])
      case Greater =>
        ordering := Greater;
        break;
      case Less =>
        ordering := Less;
        break;
      case Equal =>
        assert xs[i..][1..] == xs[i + 1..] && ys[i..][1..] == ys[i + 1..];
        ordering := Equal;
        i := i + 1;
    }
  }

  /** `cmp` says `Equal` exactly when one sorted column list is a prefix of
      the other. */
  lemma {:induction false} PrefixCompareEqual(xs: seq<nat>, ys: seq<nat>)
    ensures PrefixCompare(xs, ys) == Equal <==> xs <= ys || ys <= xs
    decreases |xs|
  {
    if |xs| > 0 && |ys| > 0 {
      PrefixCompareEqual(xs[1..], ys[1..]);
      if xs[0] == ys[0] {
        assert xs == [xs[0]] + xs[1..] && ys == [ys[0]] + ys[1..];
      }
    }
  }

  /** Swapping the arguments reverses the answer. */
  lemma {:induction false} PrefixCompareReverse(xs: seq<nat>, ys: seq<nat>)
    ensures PrefixCompare(ys, xs) == PrefixCompare(xs, ys).Reverse()
    decreases |xs|
  {
    if |xs| > 0 && |ys| > 0 {
      PrefixCompareReverse(xs[1..], ys[1..]);
    }
  }

  lemma SortedSingle(x: nat)
    ensures SortedElements({x}) == [x]
  {
    var r := SortedElements({x});
    assert r[0] in r;
  }

  lemma SortedPair(x: nat, y: nat)
    requires x < y
    ensures SortedElements({x, y}) == [x, y]
  {
    var r := SortedElements({x, y});
    assert r[0] in r && r[1] in r;
    assert r[0] < r[1];
  }

  /** The source's `Equal` is not transitive, and calls beams with different
      columns equal, which the `Ord` contract forbids. */
  lemma BeamOrderNotTransitive()
    ensures BeamOrder(QuanticTachyonBeams({1, 2}, 1), QuanticTachyonBeams({1}, 1)) == Equal
    ensures BeamOrder(QuanticTachyonBeams({1}, 1), QuanticTachyonBeams({1, 3}, 1)) == Equal
    ensures BeamOrder(QuanticTachyonBeams({1, 2}, 1), QuanticTachyonBeams({1, 3}, 1)) == Less
  {
    SortedSingle(1);
    SortedPair(1, 2);
    SortedPair(1, 3);
    assert [1, 2][1..] == [2] && [1, 3][1..] == [3] && [1][1..] == [];
  }

  /** Lexicographic order on sequences: a proper prefix comes first. */
  function LexCompare(xs: seq<nat>, ys: seq<nat>): Ordering
  {
    if |xs| == 0 && |ys| == 0 then Equal
    else if |xs| == 0 then Less
    else if |ys| == 0 then Greater
    else CompareInt(xs[0], ys[0]).Then(LexCompare(xs[1..], ys[1..]))
  }

  /** A total order on quantic beams that agrees with their equality: the
      sorted columns lexicographically, then the timeline count. */
  function BeamTotalOrder(a: QuanticTachyonBeams, b: QuanticTachyonBeams): Ordering
  {
    LexCompare(SortedElements(a.currentPosition), SortedElements(b.currentPosition))
      .Then(CompareInt(a.nPreviousTimelines, b.nPreviousTimelines))
  }

  lemma {:induction false} LexCompareEqual(xs: seq<nat>, ys: seq<nat>)
    ensures LexCompare(xs, ys) == Equal <==> xs == ys
    decreases |xs|
  {
    if |xs| > 0 && |ys| > 0 {
      LexCompareEqual(xs[1..], ys[1..]);
      assert xs == [xs[0]] + xs[1..] && ys == [ys[0]] + ys[1..];
    }
  }

  lemma {:induction false} LexCompareReverse(xs: seq<nat>, ys: seq<nat>)
    ensures LexCompare(ys, xs) == LexCompare(xs, ys).Reverse()
    decreases |xs|
  {
    if |xs| > 0 && |ys| > 0 {
      LexCompareReverse(xs[1..], ys[1..]);
    }
  }

  lemma {:induction false} LexCompareTransitive(xs: seq<nat>, ys: seq<nat>, zs: seq<nat>)
    requires LexCompare(xs, ys) == Less && LexCompare(ys, zs) == Less
    ensures LexCompare(xs, zs) == Less
    decreases |xs|
  {
    if |xs| > 0 && |ys| > 0 && |zs| > 0 && xs[0] == ys[0] == zs[0] {
      LexCompareTransitive(xs[1..], ys[1..], zs[1..]);
    }
  }

  lemma SortedElementsInjective(a: set<nat>, b: set<nat>)
    requires SortedElements(a) == SortedElements(b)
    ensures a == b
  {
    forall x: nat ensures x in a <==> x in b {
      assert x in SortedElements(a) <==> x in a;
    }
  }

  /** `BeamTotalOrder` says `Equal` exactly for equal beams and is
      antisymmetric. */
  lemma BeamTotalOrderEqual(a: QuanticTachyonBeams, b: QuanticTachyonBeams)
    ensures BeamTotalOrder(a, b) == Equal <==> a == b
    ensures BeamTotalOrder(b, a) == BeamTotalOrder(a, b).Reverse()
  {
    var xs := SortedElements(a.currentPosition);
    var ys := SortedElements(b.currentPosition);
    LexCompareEqual(xs, ys);
    LexCompareReverse(xs, ys);
    if xs == ys {
      SortedElementsInjective(a.currentPosition, b.currentPosition);
    }
  }

  lemma BeamTotalOrderTransitive(a: QuanticTachyonBeams, b: QuanticTachyonBeams, c: QuanticTachyonBeams)
    requires BeamTotalOrder(a, b) == Less && BeamTotalOrder(b, c) == Less
    ensures BeamTotalOrder(a, c) == Less
  {
    var xs := SortedElements(a.currentPosition);
    var ys := SortedElements(b.currentPosition);
    var zs := SortedElements(c.currentPosition);
    LexCompareEqual(xs, ys);
    LexCompareEqual(ys, zs);
    LexCompareEqual(xs, zs);
    if LexCompare(xs, ys) == Less && LexCompare(ys, zs) == Less {
      LexCompareTransitive(xs, ys, zs);
    }
  }
}
