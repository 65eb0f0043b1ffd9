/** Day 4: rolls of paper on a grid. A roll is accessible when at most three
    of the other rolls touch it (the eight neighbouring cells); accessible
    rolls are removed round after round until none is left. */
module FourthDay {

  datatype Roll = Roll(x: nat, y: nat)

  /** `RollOfPaper::is_adjacent`: the conjunction the source builds, with the
      lower bounds only checked when `other.x - 1` and `other.y - 1` exist. */
  predicate IsAdjacent(a: Roll, b: Roll)
  {
    a != b && a.x <= b.x + 1 && a.y <= b.y + 1
    && (b.x > 0 ==> a.x >= b.x - 1)
    && (b.y > 0 ==> a.y >= b.y - 1)
  }

  /** The guarded test is exactly "a different cell at most one step away in
      each axis". */
  lemma AdjacentIffNeighbour(a: Roll, b: Roll)
    ensures IsAdjacent(a, b) <==> a != b && -1 <= a.x - b.x <= 1 && -1 <= a.y - b.y <= 1
  {
  }

  lemma AdjacentIrreflexive(a: Roll)
    ensures !IsAdjacent(a, a)
  {
  }

  lemma AdjacentSymmetric(a: Roll, b: Roll)
    ensures IsAdjacent(a, b) <==> IsAdjacent(b, a)
  {
    AdjacentIffNeighbour(a, b);
    AdjacentIffNeighbour(b, a);
  }

  /** All eight neighbouring cells that exist are adjacent; a cell two steps
      away in either axis is not. */
  lemma EightNeighbours(a: Roll, dx: int, dy: int)
    requires -1 <= dx <= 1 && -1 <= dy <= 1 && (dx, dy) != (0, 0)
    requires a.x + dx >= 0 && a.y + dy >= 0
    ensures IsAdjacent(a, Roll(a.x + dx, a.y + dy))
  {
  }

  lemma TwoStepsApart(a: Roll, b: Roll)
    requires a.x - b.x >= 2 || b.x - a.x >= 2 || a.y - b.y >= 2 || b.y - a.y >= 2
    ensures !IsAdjacent(a, b)
  {
  }

  /** The fixtures of the source's adjacency tests. */
  lemma AdjacencyExamples()
    ensures !IsAdjacent(Roll(1, 1), Roll(1, 1))
    ensures IsAdjacent(Roll(1, 1), Roll(1, 2)) && IsAdjacent(Roll(1, 1), Roll(1, 0))
    ensures IsAdjacent(Roll(1, 1), Roll(0, 1)) && IsAdjacent(Roll(1, 1), Roll(2, 1))
    ensures IsAdjacent(Roll(1, 1), Roll(2, 2))
    ensures !IsAdjacent(Roll(1, 1), Roll(3, 3)) && !IsAdjacent(Roll(1, 1), Roll(3, 1))
    ensures !IsAdjacent(Roll(1, 1), Roll(1, 3)) && !IsAdjacent(Roll(1, 1), Roll(2, 3))
    ensures !IsAdjacent(Roll(1, 1), Roll(4, 2))
  {
  }

  // ---------------------------------------------------------------------
  // Counting neighbours

  /** The number of entries of `rs` adjacent to `r`. */
  function AdjacentCount(r: Roll, rs: seq<Roll>): nat
  {
    if |rs| == 0 then 0
    else AdjacentCount(r, rs[..|rs| - 1]) + (if IsAdjacent(r, rs[|rs| - 1]) then 1 else 0)
  }

  /** The rolls of `rs` adjacent to `r`, as a set. */
  function AdjacentSet(r: Roll, rs: seq<Roll>): set<Roll>
  {
    set q | q in rs && IsAdjacent(r, q)
  }

  predicate Distinct(rs: seq<Roll>)
  {
    forall i, j :: 0 <= i < j < |rs| ==> rs[i] != rs[j]
  }

  /** On a list without repeats, the count is the number of adjacent rolls. */
  lemma {:induction false} AdjacentCountIsSetSize(r: Roll, rs: seq<Roll>)
    requires Distinct(rs)
    ensures AdjacentCount(r, rs) == |AdjacentSet(r, rs)|
  {
    if |rs| > 0 {
      var init, last := rs[..|rs| - 1], rs[|rs| - 1];
      assert Distinct(init);
      AdjacentCountIsSetSize(r, init);
      assert last !in init;
      assert rs == init + [last];
      if IsAdjacent(r, last) {
        assert AdjacentSet(r, rs) == AdjacentSet(r, init) + {last};
      } else {
        assert AdjacentSet(r, rs) == AdjacentSet(r, init);
      }
    }
  }

  /** Counting over a longer prefix never gives less. */
  lemma {:induction false} AdjacentCountPrefix(r: Roll, rs: seq<Roll>, j: nat)
    requires j <= |rs|
    ensures AdjacentCount(r, rs[..j]) <= AdjacentCount(r, rs)
    decreases |rs| - j
  {
    if j < |rs| {
      AdjacentCountPrefix(r, rs, j + 1);
      assert rs[..j + 1][..j] == rs[..j];
    } else {
      assert rs[..j] == rs;
    }
  }

  // ---------------------------------------------------------------------
  // Accessible rolls

  /** The rolls of `prefix`, in order, with at most `max` adjacent rolls
      among `rolls`. */
  function Accessible(prefix: seq<Roll>, rolls: seq<Roll>, max: nat): (r: seq<Roll>)
    ensures |r| <= |prefix|
  {
    if |prefix| == 0 then []
    else
      var init := Accessible(prefix[..|prefix| - 1], rolls, max);
      var last := prefix[|prefix| - 1];
      if AdjacentCount(last, rolls) <= max then init + [last] else init
  }

  lemma {:induction false} AccessibleMembers(prefix: seq<Roll>, rolls: seq<Roll>, max: nat)
    ensures forall x :: x in Accessible(prefix, rolls, max) <==> x in prefix && AdjacentCount(x, rolls) <= max
  {
    if |prefix| > 0 {
      AccessibleMembers(prefix[..|prefix| - 1], rolls, max);
      assert prefix == prefix[..|prefix| - 1] + [prefix[|prefix| - 1]];
    }
  }

  /** `brute_force_accessible_rolls`: for each roll, count its neighbours and
      stop counting at the first one over the limit. */
  method BruteForceAccessibleRolls(rolls: seq<Roll>, maximumAdjacentRolls: nat) returns (available: seq<Roll>)
    ensures available == Accessible(rolls, rolls, maximumAdjacentRolls)
  {
    available := [];
    for i := 0 to |rolls|
      invariant available == Accessible(rolls[..i], rolls, maximumAdjacentRolls)
    {
      var roll := rolls[i];
      var nAdjacentRolls := 0;
      var rollIsAvailable := true;
      for j := 0 to |rolls|
        invariant nAdjacentRolls == AdjacentCount(roll, rolls[..j])
        invariant nAdjacentRolls <= maximumAdjacentRolls
      {
        assert rolls[..j + 1][..j] == rolls[..j];
        if IsAdjacent(roll, rolls[j]) {
          nAdjacentRolls := nAdjacentRolls + 1;
          if nAdjacentRolls > maximumAdjacentRolls {
            AdjacentCountPrefix(roll, rolls, j + 1);
            rollIsAvailable := false;
            break;
          }
        }
      }
      assert rollIsAvailable <==> AdjacentCount(roll, rolls) <= maximumAdjacentRolls by {
        if rollIsAvailable {
          assert rolls[..|rolls|] == rolls;
        }
      }
      assert rolls[..i + 1][..i] == rolls[..i];
      if rollIsAvailable {
        available := available + [roll];
      }
    }
    assert rolls[..|rolls|] == rolls;
  }

  // ---------------------------------------------------------------------
  // Removal

  /** `remove_available_rolls`: the rolls not listed in `available`, in their
      order. */
  function RemoveRolls(rolls: seq<Roll>, available: seq<Roll>): seq<Roll>
  {
    if |rolls| == 0 then []
    else
      var init := RemoveRolls(rolls[..|rolls| - 1], available);
      var last := rolls[|rolls| - 1];
      if last in available then init else init + [last]
  }

  lemma {:induction false} RemoveRollsMembers(rolls: seq<Roll>, available: seq<Roll>)
    ensures forall x :: x in RemoveRolls(rolls, available) <==> x in rolls && x !in available
  {
    if |rolls| > 0 {
      RemoveRollsMembers(rolls[..|rolls| - 1], available);
      assert rolls == rolls[..|rolls| - 1] + [rolls[|rolls| - 1]];
    }
  }

  /** Removal works piece by piece, so the kept rolls stay in order. */
  lemma {:induction false} RemoveRollsConcat(a: seq<Roll>, b: seq<Roll>, available: seq<Roll>)
    ensures RemoveRolls(a + b, available) == RemoveRolls(a, available) + RemoveRolls(b, available)
    decreases |b|
  {
    if |b| == 0 {
      assert a + b == a;
    } else {
      var b' := b[..|b| - 1];
      assert (a + b)[..|a + b| - 1] == a + b';
      RemoveRollsConcat(a, b', available);
    }
  }

  /** Removing nothing keeps every roll. */
  lemma {:induction false} RemoveNothing(rolls: seq<Roll>)
    ensures RemoveRolls(rolls, []) == rolls
  {
    if |rolls| > 0 {
      RemoveNothing(rolls[..|rolls| - 1]);
      assert rolls == rolls[..|rolls| - 1] + [rolls[|rolls| - 1]];
    }
  }

  /** Removing the accessible rolls of `rolls` from a part of `rolls`
      removes exactly the part's accessible rolls. */
  lemma {:induction false} RemoveAccessibleLength(prefix: seq<Roll>, rolls: seq<Roll>, max: nat)
    requires forall x :: x in prefix ==> x in rolls
    ensures |RemoveRolls(prefix, Accessible(rolls, rolls, max))| == |prefix| - |Accessible(prefix, rolls, max)|
  {
    if |prefix| > 0 {
      var last := prefix[|prefix| - 1];
      assert last in rolls;
      RemoveAccessibleLength(prefix[..|prefix| - 1], rolls, max);
      AccessibleMembers(rolls, rolls, max);
    }
  }

  // ---------------------------------------------------------------------
  // Iterative removal

  /** The number of rolls removed by removing accessible rolls round after
      round until a round finds none. */
  function RemovalTotal(rolls: seq<Roll>): nat
    decreases |rolls|
  {
    var a := Accessible(rolls, rolls, 3);
    if a == [] then 0
    else
      RemoveAccessibleLength(rolls, rolls, 3);
      |a| + RemovalTotal(RemoveRolls(rolls, a))
  }

  /** The rolls left when no roll is accessible any more. */
  function Survivors(rolls: seq<Roll>): seq<Roll>
    decreases |rolls|
  {
    var a := Accessible(rolls, rolls, 3);
    if a == [] then rolls
    else
      RemoveAccessibleLength(rolls, rolls, 3);
      Survivors(RemoveRolls(rolls, a))
  }

  /** The total is the number of rolls that disappear, so at most the input
      length, and what is left has no accessible roll. */
  lemma {:induction false} RemovalTotalIsRemovedCount(rolls: seq<Roll>)
    ensures RemovalTotal(rolls) + |Survivors(rolls)| == |rolls|
    ensures RemovalTotal(rolls) <= |rolls|
    ensures Accessible(Survivors(rolls), Survivors(rolls), 3) == []
    decreases |rolls|
  {
    var a := Accessible(rolls, rolls, 3);
    if a != [] {
      RemoveAccessibleLength(rolls, rolls, 3);
      RemovalTotalIsRemovedCount(RemoveRolls(rolls, a));
    }
  }

  /** `count_accessible_rolls_with_iterative_removal`. */
  method CountAccessibleRollsWithIterativeRemoval(initial: seq<Roll>) returns (totalRemovedRolls: nat)
    ensures totalRemovedRolls == RemovalTotal(initial)
  {
    var rolls := initial;
    totalRemovedRolls := 0;
    var availableRolls := BruteForceAccessibleRolls(rolls, 3);
    while availableRolls != []
      invariant totalRemovedRolls + RemovalTotal(rolls) == RemovalTotal(initial)
      invariant availableRolls == [] ==> Accessible(rolls, rolls, 3) == []
      decreases |rolls| + (if availableRolls == [] then 0 else 1)
    {
      availableRolls := BruteForceAccessibleRolls(rolls, 3);
      RemoveAccessibleLength(rolls, rolls, 3);
      totalRemovedRolls := totalRemovedRolls + |availableRolls|;
      if availableRolls == [] {
        RemoveNothing(rolls);
      }
      rolls := RemoveRolls(rolls, availableRolls);
    }
  }
}
