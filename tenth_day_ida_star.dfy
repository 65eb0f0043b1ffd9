/** The iterative-deepening A* search for the joltage mode of the tenth day:
    a depth-first search bounded by an estimated cost, a transposition table
    of the cheapest cost seen per state, the states on the current path, and
    an outer loop that raises the bound to the smallest estimate that went
    over it. */
module TenthDayIdaStar {
  import opened Common
  import opened TenthDay
  import J = TenthDayJoltage

  // ---------------------------------------------------------------------
  // The pieces

  /** `heuristic`: the largest counter, 0 for no counters. */
  function Heuristic(state: seq<nat>): (h: nat)
    ensures forall i :: 0 <= i < |state| ==> state[i] <= h
    ensures |state| == 0 ==> h == 0
    ensures |state| > 0 ==> exists i :: 0 <= i < |state| && state[i] == h
    decreases |state|
  {
    if |state| == 0 then 0
    else
      var init := state[..|state| - 1];
      assert forall i :: 0 <= i < |init| ==> init[i] == state[i];
      var h := Heuristic(init);
      if state[|state| - 1] > h then state[|state| - 1] else h
  }

  /** The estimate never exceeds the presses still needed: each press lowers
      the largest counter by at most one, and all of them by at least one. */
  lemma {:induction false} HeuristicBound(state: seq<nat>)
    ensures Heuristic(state) <= Sum(state)
    ensures Heuristic(state) == 0 <==> state == J.Zeros(|state|)
    decreases |state|
  {
    if |state| > 0 {
      var init := state[..|state| - 1];
      assert forall i :: 0 <= i < |init| ==> init[i] == state[i];
      HeuristicBound(init);
      if Heuristic(state) == 0 {
        assert init == J.Zeros(|init|);
        assert state == init + [0];
      }
    }
  }

  /** `apply`: a copy of the state with each listed counter lowered by one,
      or nothing as soon as one of them is already 0. */
  method Apply(button: Button, state: seq<nat>) returns (r: Option<seq<nat>>)
    requires forall i | i in button.lightsActivated :: i < |state|
    ensures r == Decrement(state, button.lightsActivated)
  {
    var newState := state;
    var remaining := button.lightsActivated;
    while remaining != {}
      invariant remaining <= button.lightsActivated && |newState| == |state|
      invariant forall i | i in button.lightsActivated - remaining :: state[i] > 0
      invariant forall i :: 0 <= i < |state| ==>
        newState[i] + (if i in button.lightsActivated - remaining then 1 else 0) == state[i]
      decreases |remaining|
    {
      var i :| i in remaining;
      if state[i] == 0 {
        return None;
      }
      newState := newState[i := newState[i] - 1];
      remaining := remaining - {i};
    }
    assert newState == seq(|state|, i requires 0 <= i < |state| =>
      if i in button.lightsActivated then state[i] - 1 else state[i]);
    return Some(newState);
  }

  // ---------------------------------------------------------------------
  // The bounded depth-first search

  /** `AsWritten` is the search as the source has it: a state reached again
      at no lower cost reports the bound, and the outer loop keeps the table
      from one probe to the next. `Corrected` reports no estimate for such a
      state (`usize::MAX`) and starts each probe with an empty table. */
  datatype Variant = AsWritten | Corrected

  datatype DfsResult = Success(cost: nat) | Failure(bound: nat)

  /** `transposition`: the cheapest cost at which each state was entered. */
  type Table = map<seq<nat>, nat>

  /** What a call returns, and what it leaves in its two `&mut` arguments. */
  datatype Probe = Probe(result: DfsResult, table: Table, visited: set<seq<nat>>)

  /** `depth_first_search` as a function of its arguments: the three early
      returns, then the loop over the buttons; on a failure the state leaves
      the current path again. */
  function Dfs(v: Variant, state: seq<nat>, cost: nat, bound: nat, buttons: seq<Button>,
               table: Table, visited: set<seq<nat>>): Probe
    requires CountersInRange(buttons, |state|) && NonEmptyButtons(buttons)
    decreases Sum(state), 1
  {
    var estimate := cost + Heuristic(state);
    if estimate > bound then Probe(Failure(estimate), table, visited)
    else if state == J.Zeros(|state|) then Probe(Success(cost), table, visited)
    else if state in table && cost >= table[state] then
      Probe(Failure(if v == AsWritten then bound else USIZE_MAX), table, visited)
    else
      var p := DfsLoop(v, state, cost, bound, buttons, 0, USIZE_MAX, table[state := cost], visited + {state});
      if p.result.Success? then p else Probe(p.result, p.table, p.visited - {state})
  }

  /** The loop of `depth_first_search` from button `k` on, with the least
      estimate reported so far: a success ends it, a failure lowers that
      estimate; a press that is refused or reaches a state on the current
      path is skipped. */
  function DfsLoop(v: Variant, state: seq<nat>, cost: nat, bound: nat, buttons: seq<Button>, k: nat,
                   minNext: nat, table: Table, visited: set<seq<nat>>): Probe
    requires CountersInRange(buttons, |state|) && NonEmptyButtons(buttons) && k <= |buttons|
    decreases Sum(state), 0, |buttons| - k
  {
    if k == |buttons| then Probe(Failure(minNext), table, visited)
    else
      var next := Decrement(state, buttons[k].lightsActivated);
      if next.None? || next.value in visited then DfsLoop(v, state, cost, bound, buttons, k + 1, minNext, table, visited)
      else
        DecrementSum(state, buttons[k].lightsActivated);
        var p := Dfs(v, next.value, cost + 1, bound, buttons, table, visited);
        match p.result
        case Success(_) => p
        case Failure(b) =>
          DfsLoop(v, state, cost, bound, buttons, k + 1, if b < minNext then b else minNext, p.table, p.visited)
  }

  /** `depth_first_search`, with the transposition table and the states on
      the current path passed in and returned. */
  method DepthFirstSearch(v: Variant, state: seq<nat>, cost: nat, bound: nat, buttons: seq<Button>,
                          table: Table, visited: set<seq<nat>>)
    returns (r: DfsResult, newTable: Table, newVisited: set<seq<nat>>)
    requires CountersInRange(buttons, |state|) && NonEmptyButtons(buttons)
    ensures Probe(r, newTable, newVisited) == Dfs(v, state, cost, bound, buttons, table, visited)
    decreases Sum(state), 1
  {
    var estimate := cost + Heuristic(state);
    if estimate > bound {
      return Failure(estimate), table, visited;
    }
    if state == J.Zeros(|state|) {
      return Success(cost), table, visited;
    }
    if state in table && cost >= table[state] {
      return Failure(if v == AsWritten then bound else USIZE_MAX), table, visited;
    }
    var found;
    found, newTable, newVisited :=
      SearchButtons(v, state, cost, bound, buttons, table[state := cost], visited + {state});
    r := found;
    if found.Failure? {
      newVisited := newVisited - {state};
    }
  }

  /** The loop of `depth_first_search` over the buttons, started with no
      estimate yet (`usize::MAX`). */
  method SearchButtons(v: Variant, state: seq<nat>, cost: nat, bound: nat, buttons: seq<Button>,
                       table: Table, visited: set<seq<nat>>)
    returns (r: DfsResult, newTable: Table, newVisited: set<seq<nat>>)
    requires CountersInRange(buttons, |state|) && NonEmptyButtons(buttons)
    ensures Probe(r, newTable, newVisited) == DfsLoop(v, state, cost, bound, buttons, 0, USIZE_MAX, table, visited)
    decreases Sum(state), 0, 1
  {
    newTable, newVisited := table, visited;
    var minNext: nat := USIZE_MAX;
    var k := 0;
    while k < |buttons|
      invariant k <= |buttons|
      invariant DfsLoop(v, state, cost, bound, buttons, k, minNext, newTable, newVisited)
             == DfsLoop(v, state, cost, bound, buttons, 0, USIZE_MAX, table, visited)
    {
      var done;
      done, r, minNext, newTable, newVisited := PressButton(v, state, cost, bound, buttons, k, minNext, newTable, newVisited);
      if done {
        return;
      }
      k := k + 1;
    }
    r := Failure(minNext);
  }

  /** One round of that loop: the press of button `k`, and the search below
      it when the press is allowed and leaves the current path. */
  method PressButton(v: Variant, state: seq<nat>, cost: nat, bound: nat, buttons: seq<Button>, k: nat,
                     minNext: nat, table: Table, visited: set<seq<nat>>)
    returns (done: bool, r: DfsResult, nextMin: nat, newTable: Table, newVisited: set<seq<nat>>)
    requires CountersInRange(buttons, |state|) && NonEmptyButtons(buttons) && k < |buttons|
    ensures done ==> Probe(r, newTable, newVisited) == DfsLoop(v, state, cost, bound, buttons, k, minNext, table, visited)
    ensures !done ==>
      DfsLoop(v, state, cost, bound, buttons, k + 1, nextMin, newTable, newVisited)
        == DfsLoop(v, state, cost, bound, buttons, k, minNext, table, visited)
    decreases Sum(state), 0, 0
  {
    var next := Apply(buttons[k], state);
    if next.None? || next.value in visited {
      DfsLoopSkip(v, state, cost, bound, buttons, k, minNext, table, visited);
      return false, Failure(minNext), minNext, table, visited;
    }
    DecrementSum(state, buttons[k].lightsActivated);
    DfsLoopCall(v, state, cost, bound, buttons, k, minNext, table, visited);
    r, newTable, newVisited := DepthFirstSearch(v, next.value, cost + 1, bound, buttons, table, visited);
    done := r.Success?;
    nextMin := if r.Failure? && r.bound < minNext then r.bound else minNext;
  }

  /** A press that is refused, or that reaches a state on the path, is skipped. */
  lemma DfsLoopSkip(v: Variant, state: seq<nat>, cost: nat, bound: nat, buttons: seq<Button>, k: nat,
                    minNext: nat, table: Table, visited: set<seq<nat>>)
    requires CountersInRange(buttons, |state|) && NonEmptyButtons(buttons) && k < |buttons|
    requires var next := Decrement(state, buttons[k].lightsActivated); next.None? || next.value in visited
    ensures DfsLoop(v, state, cost, bound, buttons, k, minNext, table, visited)
         == DfsLoop(v, state, cost, bound, buttons, k + 1, minNext, table, visited)
  {
  }

  /** Otherwise the loop goes on from what the call returns, or ends with it. */
  lemma DfsLoopCall(v: Variant, state: seq<nat>, cost: nat, bound: nat, buttons: seq<Button>, k: nat,
                    minNext: nat, table: Table, visited: set<seq<nat>>)
    requires CountersInRange(buttons, |state|) && NonEmptyButtons(buttons) && k < |buttons|
    requires var next := Decrement(state, buttons[k].lightsActivated); next.Some? && next.value !in visited
    ensures var next := Decrement(state, buttons[k].lightsActivated);
      var p := Dfs(v, next.value, cost + 1, bound, buttons, table, visited);
      DfsLoop(v, state, cost, bound, buttons, k, minNext, table, visited)
        == match p.result
           case Success(_) => p
           case Failure(b) =>
             DfsLoop(v, state, cost, bound, buttons, k + 1, if b < minNext then b else minNext, p.table, p.visited)
  {
  }

  // ---------------------------------------------------------------------
  // What a probe returns

  /** Pressing `b` first, then presses that solve what it leaves. */
  lemma SolvesPrepend(state: seq<nat>, b: Button, presses: seq<Button>)
    requires forall i | i in b.lightsActivated :: i < |state|
    requires Decrement(state, b.lightsActivated).Some?
    requires J.Solves(Decrement(state, b.lightsActivated).value, presses)
    ensures J.Solves(state, [b] + presses)
  {
    forall i | 0 <= i < |state| ensures ButtonCount([b] + presses, i) == state[i] {
      J.ButtonCountAppend([b], presses, i);
      J.ButtonCountSingle(b, i);
    }
  }

  /** A success reports a cost within the bound, the cost of presses of the
      buttons that bring the state to all zeros. */
  lemma {:induction false} DfsWitness(v: Variant, state: seq<nat>, cost: nat, bound: nat, buttons: seq<Button>,
                                      table: Table, visited: set<seq<nat>>)
      returns (presses: seq<Button>)
    requires CountersInRange(buttons, |state|) && NonEmptyButtons(buttons)
    ensures var p := Dfs(v, state, cost, bound, buttons, table, visited);
      p.result.Success? ==>
        && cost <= p.result.cost <= bound
        && cost + |presses| == p.result.cost
        && (forall k :: 0 <= k < |presses| ==> presses[k] in buttons)
        && J.Solves(state, presses)
    decreases Sum(state), 1
  {
    presses := [];
    if cost + Heuristic(state) <= bound && state != J.Zeros(|state|) && !(state in table && cost >= table[state]) {
      presses := DfsLoopWitness(v, state, cost, bound, buttons, 0, USIZE_MAX, table[state := cost], visited + {state});
    }
  }

  lemma {:induction false} DfsLoopWitness(v: Variant, state: seq<nat>, cost: nat, bound: nat, buttons: seq<Button>,
                                          k: nat, minNext: nat, table: Table, visited: set<seq<nat>>)
      returns (presses: seq<Button>)
    requires CountersInRange(buttons, |state|) && NonEmptyButtons(buttons) && k <= |buttons|
    ensures var p := DfsLoop(v, state, cost, bound, buttons, k, minNext, table, visited);
      p.result.Success? ==>
        && cost < p.result.cost <= bound
        && cost + |presses| == p.result.cost
        && (forall k :: 0 <= k < |presses| ==> presses[k] in buttons)
        && J.Solves(state, presses)
    decreases Sum(state), 0, |buttons| - k
  {
    presses := [];
    if k < |buttons| {
      var next := Decrement(state, buttons[k].lightsActivated);
      if next.None? || next.value in visited {
        DfsLoopSkip(v, state, cost, bound, buttons, k, minNext, table, visited);
        presses := DfsLoopWitness(v, state, cost, bound, buttons, k + 1, minNext, table, visited);
      } else {
        DecrementSum(state, buttons[k].lightsActivated);
        DfsLoopCall(v, state, cost, bound, buttons, k, minNext, table, visited);
        var p := Dfs(v, next.value, cost + 1, bound, buttons, table, visited);
        var rest := DfsWitness(v, next.value, cost + 1, bound, buttons, table, visited);
        if p.result.Success? {
          presses := PressWitness(state, buttons, k, rest);
        } else {
          var b := p.result.bound;
          presses := DfsLoopWitness(v, state, cost, bound, buttons, k + 1, if b < minNext then b else minNext, p.table, p.visited);
        }
      }
    }
  }

  /** Button `k` pressed before presses that solve what it leaves. */
  lemma PressWitness(state: seq<nat>, buttons: seq<Button>, k: nat, rest: seq<Button>) returns (presses: seq<Button>)
    requires CountersInRange(buttons, |state|) && k < |buttons|
    requires Decrement(state, buttons[k].lightsActivated).Some?
    requires J.Solves(Decrement(state, buttons[k].lightsActivated).value, rest)
    requires forall j :: 0 <= j < |rest| ==> rest[j] in buttons
    ensures |presses| == |rest| + 1 && J.Solves(state, presses)
    ensures forall j :: 0 <= j < |presses| ==> presses[j] in buttons
  {
    SolvesPrepend(state, buttons[k], rest);
    presses := [buttons[k]] + rest;
    assert forall j :: 0 < j < |presses| ==> presses[j] == rest[j - 1];
  }

  /** The estimate a corrected failure reports: above the bound, so that the
      next probe gets further, and no more than the cost of pressing every
      remaining unit one at a time — or `usize::MAX` for no estimate. */
  predicate Beyond(b: nat, bound: nat, limit: nat)
  {
    (b > bound || b == USIZE_MAX) && (b == USIZE_MAX || b <= limit)
  }

  lemma BeyondMin(b: nat, m: nat, bound: nat, lower: nat, limit: nat)
    requires lower <= limit && Beyond(b, bound, lower) && Beyond(m, bound, limit)
    ensures Beyond(if b < m then b else m, bound, limit)
  {
  }

  lemma {:induction false} DfsCorrectedBound(v: Variant, state: seq<nat>, cost: nat, bound: nat, buttons: seq<Button>,
                                             table: Table, visited: set<seq<nat>>)
    requires v == Corrected && CountersInRange(buttons, |state|) && NonEmptyButtons(buttons)
    ensures var p := Dfs(v, state, cost, bound, buttons, table, visited);
      p.result.Failure? ==> Beyond(p.result.bound, bound, cost + Sum(state))
    decreases Sum(state), 1
  {
    HeuristicBound(state);
    if cost + Heuristic(state) <= bound && state != J.Zeros(|state|) && !(state in table && cost >= table[state]) {
      var none := USIZE_MAX;
      DfsLoopCorrectedBound(v, state, cost, bound, buttons, 0, none, table[state := cost], visited + {state});
    }
  }

  lemma {:induction false} DfsLoopCorrectedBound(v: Variant, state: seq<nat>, cost: nat, bound: nat, buttons: seq<Button>,
                                                 k: nat, minNext: nat, table: Table, visited: set<seq<nat>>)
    requires v == Corrected && CountersInRange(buttons, |state|) && NonEmptyButtons(buttons) && k <= |buttons|
    requires Beyond(minNext, bound, cost + Sum(state))
    ensures var p := DfsLoop(v, state, cost, bound, buttons, k, minNext, table, visited);
      p.result.Failure? ==> Beyond(p.result.bound, bound, cost + Sum(state))
    decreases Sum(state), 0, |buttons| - k, 1
  {
    if k < |buttons| {
      var next := Decrement(state, buttons[k].lightsActivated);
      if next.None? || next.value in visited {
        DfsLoopSkip(v, state, cost, bound, buttons, k, minNext, table, visited);
        DfsLoopCorrectedBound(v, state, cost, bound, buttons, k + 1, minNext, table, visited);
      } else {
        CorrectedBoundCall(v, state, cost, bound, buttons, k, minNext, table, visited);
      }
    }
  }

  lemma {:induction false} CorrectedBoundCall(v: Variant, state: seq<nat>, cost: nat, bound: nat, buttons: seq<Button>,
                                              k: nat, minNext: nat, table: Table, visited: set<seq<nat>>)
    requires v == Corrected && CountersInRange(buttons, |state|) && NonEmptyButtons(buttons) && k < |buttons|
    requires var next := Decrement(state, buttons[k].lightsActivated); next.Some? && next.value !in visited
    requires Beyond(minNext, bound, cost + Sum(state))
    ensures var p := DfsLoop(v, state, cost, bound, buttons, k, minNext, table, visited);
      p.result.Failure? ==> Beyond(p.result.bound, bound, cost + Sum(state))
    decreases Sum(state), 0, |buttons| - k, 0
  {
    var next := Decrement(state, buttons[k].lightsActivated).value;
    DecrementSum(state, buttons[k].lightsActivated);
    assert cost + 1 + Sum(next) <= cost + Sum(state) by {
      assert |buttons[k].lightsActivated| > 0;
    }
    DfsLoopCall(v, state, cost, bound, buttons, k, minNext, table, visited);
    var p := Dfs(v, next, cost + 1, bound, buttons, table, visited);
    DfsCorrectedBound(v, next, cost + 1, bound, buttons, table, visited);
    if p.result.Failure? {
      var b := p.result.bound;
      var m := if b < minNext then b else minNext;
      BeyondMin(b, minNext, bound, cost + 1 + Sum(next), cost + Sum(state));
      DfsLoopCorrectedBound(v, state, cost, bound, buttons, k + 1, m, p.table, p.visited);
    }
  }

  /** The search leaves the states on the current path as it found them when
      it fails (`visited_states.remove`). */
  lemma {:induction false} DfsRestoresPath(v: Variant, state: seq<nat>, cost: nat, bound: nat, buttons: seq<Button>,
                                           table: Table, visited: set<seq<nat>>)
    requires CountersInRange(buttons, |state|) && NonEmptyButtons(buttons) && state !in visited
    ensures var p := Dfs(v, state, cost, bound, buttons, table, visited);
      p.result.Failure? ==> p.visited == visited
    decreases Sum(state), 1
  {
    if cost + Heuristic(state) <= bound && state != J.Zeros(|state|) && !(state in table && cost >= table[state]) {
      var none := USIZE_MAX;
      DfsLoopRestoresPath(v, state, cost, bound, buttons, 0, none, table[state := cost], visited + {state});
      assert visited + {state} - {state} == visited;
    }
  }

  lemma {:induction false} DfsLoopRestoresPath(v: Variant, state: seq<nat>, cost: nat, bound: nat, buttons: seq<Button>,
                                               k: nat, minNext: nat, table: Table, visited: set<seq<nat>>)
    requires CountersInRange(buttons, |state|) && NonEmptyButtons(buttons) && k <= |buttons|
    ensures var p := DfsLoop(v, state, cost, bound, buttons, k, minNext, table, visited);
      p.result.Failure? ==> p.visited == visited
    decreases Sum(state), 0, |buttons| - k
  {
    if k < |buttons| {
      var next := Decrement(state, buttons[k].lightsActivated);
      if next.None? || next.value in visited {
        DfsLoopSkip(v, state, cost, bound, buttons, k, minNext, table, visited);
        DfsLoopRestoresPath(v, state, cost, bound, buttons, k + 1, minNext, table, visited);
      } else {
        DecrementSum(state, buttons[k].lightsActivated);
        DfsLoopCall(v, state, cost, bound, buttons, k, minNext, table, visited);
        var p := Dfs(v, next.value, cost + 1, bound, buttons, table, visited);
        DfsRestoresPath(v, next.value, cost + 1, bound, buttons, table, visited);
        if p.result.Failure? {
          var b := p.result.bound;
          DfsLoopRestoresPath(v, state, cost, bound, buttons, k + 1, if b < minNext then b else minNext, p.table, p.visited);
        }
      }
    }
  }

  /** Every state of `t1` is in `t2` at no higher cost. */
  predicate NoHigher(t1: Table, t2: Table)
  {
    forall s :: s in t1 ==> s in t2 && t2[s] <= t1[s]
  }

  lemma NoHigherTrans(t1: Table, t2: Table, t3: Table)
    requires NoHigher(t1, t2) && NoHigher(t2, t3)
    ensures NoHigher(t1, t3)
  {
  }

  /** The transposition table only ever gains states and lowers costs: a
      state is recorded again only when reached more cheaply. */
  lemma {:induction false} DfsTableLowers(v: Variant, state: seq<nat>, cost: nat, bound: nat, buttons: seq<Button>,
                                          table: Table, visited: set<seq<nat>>)
    requires CountersInRange(buttons, |state|) && NonEmptyButtons(buttons)
    ensures NoHigher(table, Dfs(v, state, cost, bound, buttons, table, visited).table)
    decreases Sum(state), 1
  {
    if cost + Heuristic(state) <= bound && state != J.Zeros(|state|) && !(state in table && cost >= table[state]) {
      var none := USIZE_MAX;
      var t := table[state := cost];
      DfsLoopTableLowers(v, state, cost, bound, buttons, 0, none, t, visited + {state});
      NoHigherTrans(table, t, DfsLoop(v, state, cost, bound, buttons, 0, none, t, visited + {state}).table);
    }
  }

  lemma {:induction false} DfsLoopTableLowers(v: Variant, state: seq<nat>, cost: nat, bound: nat, buttons: seq<Button>,
                                              k: nat, minNext: nat, table: Table, visited: set<seq<nat>>)
    requires CountersInRange(buttons, |state|) && NonEmptyButtons(buttons) && k <= |buttons|
    ensures NoHigher(table, DfsLoop(v, state, cost, bound, buttons, k, minNext, table, visited).table)
    decreases Sum(state), 0, |buttons| - k
  {
    if k < |buttons| {
      var next := Decrement(state, buttons[k].lightsActivated);
      if next.None? || next.value in visited {
        DfsLoopSkip(v, state, cost, bound, buttons, k, minNext, table, visited);
        DfsLoopTableLowers(v, state, cost, bound, buttons, k + 1, minNext, table, visited);
      } else {
        DecrementSum(state, buttons[k].lightsActivated);
        DfsLoopCall(v, state, cost, bound, buttons, k, minNext, table, visited);
        var p := Dfs(v, next.value, cost + 1, bound, buttons, table, visited);
        DfsTableLowers(v, next.value, cost + 1, bound, buttons, table, visited);
        if p.result.Failure? {
          var b := p.result.bound;
          var m := if b < minNext then b else minNext;
          DfsLoopTableLowers(v, state, cost, bound, buttons, k + 1, m, p.table, p.visited);
          NoHigherTrans(table, p.table, DfsLoop(v, state, cost, bound, buttons, k + 1, m, p.table, p.visited).table);
        }
      }
    }
  }

  /** No presses that solve the state are fewer than the estimate: each press
      lowers the largest counter by at most one. */
  lemma HeuristicAdmissible(state: seq<nat>, presses: seq<Button>)
    requires J.Solves(state, presses)
    ensures Heuristic(state) <= |presses|
  {
    if |state| > 0 {
      var i :| 0 <= i < |state| && state[i] == Heuristic(state);
      assert ButtonCount(presses, i) == state[i];
    }
  }

  // ---------------------------------------------------------------------
  // The outer loop

  /** A measure of how far the bound is below the total of the counters. */
  function Room(state: seq<nat>, bound: nat): nat
  {
    if bound <= Sum(state) then Sum(state) - bound + 1 else 0
  }

  /** The loop of `find_joltage_ida_star` as written, for at most `fuel`
      probes (`None` when they run out): the path is cleared before each
      probe, the transposition table is kept, and the bound becomes the
      smallest estimate reported, until a success or no estimate at all. */
  function IdaAsWritten(state: seq<nat>, buttons: seq<Button>, bound: nat, table: Table, fuel: nat)
    : Option<Result<nat, ToggleSolutionError>>
    requires CountersInRange(buttons, |state|) && NonEmptyButtons(buttons)
    decreases fuel
  {
    if fuel == 0 then None
    else
      var p := Dfs(AsWritten, state, 0, bound, buttons, table, {});
      match p.result
      case Success(c) => Some(Ok(c))
      case Failure(b) =>
        if b == USIZE_MAX then Some(Err(EmptySolutionToExplore))
        else IdaAsWritten(state, buttons, b, p.table, fuel - 1)
  }

  /** The corrected loop: each probe starts with an empty table, and since a
      corrected failure reports an estimate above the bound and at most the
      total of the counters (`DfsCorrectedBound`), the loop ends. */
  function IdaCorrected(state: seq<nat>, buttons: seq<Button>, bound: nat): Result<nat, ToggleSolutionError>
    requires CountersInRange(buttons, |state|) && NonEmptyButtons(buttons)
    decreases Room(state, bound)
  {
    var none: Table := map[];
    var p := Dfs(Corrected, state, 0, bound, buttons, none, {});
    DfsCorrectedBound(Corrected, state, 0, bound, buttons, none, {});
    match p.result
    case Success(c) => Ok(c)
    case Failure(b) =>
      if b == USIZE_MAX then Err(EmptySolutionToExplore)
      else IdaCorrected(state, buttons, b)
  }

  /** `find_joltage_ida_star` (corrected): the first bound is the estimate
      of the targets. */
  function IdaStarResult(m: Machine): Result<nat, ToggleSolutionError>
    requires CountersInRange(m.buttons, |m.targetJoltage|) && NonEmptyButtons(m.buttons)
  {
    IdaCorrected(m.targetJoltage, m.buttons, Heuristic(m.targetJoltage))
  }

  /** `find_joltage_ida_star`, with the table emptied along with the path
      before each probe. The source stops with a panic on a machine without
      buttons (when taking the largest button). */
  method FindJoltageIdaStar(m: Machine) returns (r: Result<nat, ToggleSolutionError>)
    requires |m.buttons| > 0
    requires CountersInRange(m.buttons, |m.targetJoltage|) && NonEmptyButtons(m.buttons)
    ensures r == IdaStarResult(m)
  {
    var state := m.targetJoltage;
    var transposition: Table := map[];
    var visitedStates: set<seq<nat>> := {};
    var bound := Heuristic(state);
    while true
      invariant IdaCorrected(state, m.buttons, bound) == IdaStarResult(m)
      decreases Room(state, bound)
    {
      visitedStates := {};
      transposition := map[];
      var found;
      found, transposition, visitedStates := DepthFirstSearch(Corrected, state, 0, bound, m.buttons, transposition, visitedStates);
      match found
      case Success(c) =>
        return Ok(c);
      case Failure(b) =>
        if b == USIZE_MAX {
          return Err(EmptySolutionToExplore);
        }
        DfsCorrectedBound(Corrected, state, 0, bound, m.buttons, map[], {});
        bound := b;
    }
  }

  /** A count the corrected loop returns is the number of some presses of
      the buttons that bring every counter to 0, and no fewer than the
      estimate it started from. */
  lemma {:induction false} IdaCorrectedWitness(state: seq<nat>, buttons: seq<Button>, bound: nat)
      returns (presses: seq<Button>)
    requires CountersInRange(buttons, |state|) && NonEmptyButtons(buttons)
    ensures var r := IdaCorrected(state, buttons, bound);
      r.Ok? ==>
        && |presses| == r.value && Heuristic(state) <= r.value
        && (forall k :: 0 <= k < |presses| ==> presses[k] in buttons)
        && J.Solves(state, presses)
    decreases Room(state, bound)
  {
    var none: Table := map[];
    var p := Dfs(Corrected, state, 0, bound, buttons, none, {});
    DfsCorrectedBound(Corrected, state, 0, bound, buttons, none, {});
    presses := DfsWitness(Corrected, state, 0, bound, buttons, none, {});
    if p.result.Failure? && p.result.bound != USIZE_MAX {
      presses := IdaCorrectedWitness(state, buttons, p.result.bound);
    } else if p.result.Success? {
      HeuristicAdmissible(state, presses);
    }
  }

  /** The same for the loop as written, whenever it ends. */
  lemma {:induction false} IdaAsWrittenWitness(state: seq<nat>, buttons: seq<Button>, bound: nat, table: Table, fuel: nat)
      returns (presses: seq<Button>)
    requires CountersInRange(buttons, |state|) && NonEmptyButtons(buttons)
    ensures var r := IdaAsWritten(state, buttons, bound, table, fuel);
      r.Some? && r.value.Ok? ==>
        && |presses| == r.value.value
        && (forall k :: 0 <= k < |presses| ==> presses[k] in buttons)
        && J.Solves(state, presses)
    decreases fuel
  {
    presses := [];
    if fuel > 0 {
      var p := Dfs(AsWritten, state, 0, bound, buttons, table, {});
      presses := DfsWitness(AsWritten, state, 0, bound, buttons, table, {});
      if p.result.Failure? && p.result.bound != USIZE_MAX {
        presses := IdaAsWrittenWitness(state, buttons, p.result.bound, p.table, fuel - 1);
      }
    }
  }

  // ---------------------------------------------------------------------
  // A bound that never rises

  /** Two buttons numbered in order, each on a counter of its own; both
      targets 1. */
  predicate IsLoopingMachine(m: Machine)
  {
    && |m.buttons| == 2 && |m.targetJoltage| == 2
    && m.buttons[0].index == 0 && m.buttons[0].lightsActivated == {0}
    && m.buttons[1].index == 1 && m.buttons[1].lightsActivated == {1}
    && m.targetJoltage[0] == 1 && m.targetJoltage[1] == 1
  }

  lemma LoopingWellFormed(m: Machine)
    requires IsLoopingMachine(m)
    ensures |m.buttons| > 0 && CountersInRange(m.buttons, |m.targetJoltage|) && NonEmptyButtons(m.buttons)
  {
    assert 0 in m.buttons[0].lightsActivated && 1 in m.buttons[1].lightsActivated;
  }

  /** A state whose estimate is over the bound fails with that estimate. */
  lemma OverBound(v: Variant, state: seq<nat>, cost: nat, bound: nat, buttons: seq<Button>,
                  table: Table, visited: set<seq<nat>>)
    requires CountersInRange(buttons, |state|) && NonEmptyButtons(buttons)
    requires cost + Heuristic(state) > bound
    ensures Dfs(v, state, cost, bound, buttons, table, visited) == Probe(Failure(cost + Heuristic(state)), table, visited)
  {
  }

  /** A state within the bound, not all zeros and not pruned, is entered,
      searched below and, on a failure, left again. */
  lemma DfsEnters(v: Variant, state: seq<nat>, cost: nat, bound: nat, buttons: seq<Button>,
                  table: Table, visited: set<seq<nat>>)
    requires CountersInRange(buttons, |state|) && NonEmptyButtons(buttons)
    requires cost + Heuristic(state) <= bound && state != J.Zeros(|state|) && !(state in table && cost >= table[state])
    ensures var p := DfsLoop(v, state, cost, bound, buttons, 0, USIZE_MAX, table[state := cost], visited + {state});
      Dfs(v, state, cost, bound, buttons, table, visited)
        == if p.result.Success? then p else Probe(p.result, p.table, p.visited - {state})
  {
  }

  /** The estimate of a two-counter state with one counter at 1 and the
      other at most 1. */
  lemma HeuristicOfOnes(state: seq<nat>)
    requires |state| == 2 && state[0] <= 1 && state[1] <= 1 && (state[0] == 1 || state[1] == 1)
    ensures Heuristic(state) == 1
  {
  }

  /** A press of a button on the single counter `i`, which is above 0. */
  lemma DecrementOne(state: seq<nat>, i: nat)
    requires i < |state| && state[i] > 0
    ensures Decrement(state, {i}) == Some(state[i := state[i] - 1])
  {
    var r := Decrement(state, {i});
    assert r.Some?;
    var lowered := state[i := state[i] - 1];
    assert |r.value| == |lowered|;
    assert forall j :: 0 <= j < |state| ==> r.value[j] == lowered[j];
    assert r.value == lowered;
  }

  /** The loop of the first probe: both presses lead to an estimate of 2. */
  lemma LoopingFirstLoop(v: Variant, s: seq<nat>, buttons: seq<Button>, t: Table, path: set<seq<nat>>)
    requires |s| == 2 && s[0] == 1 && s[1] == 1 && t == map[s := 0] && path == {s}
    requires |buttons| == 2 && buttons[0].lightsActivated == {0} && buttons[1].lightsActivated == {1}
    ensures CountersInRange(buttons, |s|) && NonEmptyButtons(buttons)
    ensures DfsLoop(v, s, 0, 1, buttons, 0, USIZE_MAX, t, path) == Probe(Failure(2), t, path)
  {
    assert 0 in buttons[0].lightsActivated && 1 in buttons[1].lightsActivated;
    var zero, one, two, none: nat := 0, 1, 2, USIZE_MAX;
    DecrementOne(s, 0);
    DecrementOne(s, 1);
    var a, b := s[0 := 0], s[1 := 0];
    HeuristicOfOnes(a);
    HeuristicOfOnes(b);
    assert a != s && b != s by {
      assert a[0] != s[0] && b[1] != s[1];
    }
    DfsLoopCall(v, s, zero, one, buttons, zero, none, t, path);
    OverBound(v, a, one, one, buttons, t, path);
    DfsLoopCall(v, s, zero, one, buttons, one, two, t, path);
    OverBound(v, b, one, one, buttons, t, path);
  }

  /** The first probe, with bound 1, fails in both variants with estimate 2
      and leaves the targets in the table at cost 0. */
  lemma LoopingFirstProbe(v: Variant, m: Machine)
    requires IsLoopingMachine(m)
    ensures CountersInRange(m.buttons, |m.targetJoltage|) && NonEmptyButtons(m.buttons)
    ensures Heuristic(m.targetJoltage) == 1
    ensures var none: Table := map[];
      Dfs(v, m.targetJoltage, 0, 1, m.buttons, none, {}) == Probe(Failure(2), map[m.targetJoltage := 0], {})
  {
    var s, buttons := m.targetJoltage, m.buttons;
    var zero, one: nat := 0, 1;
    HeuristicOfOnes(s);
    assert s != J.Zeros(|s|) by {
      assert s[0] != J.Zeros(|s|)[0];
    }
    var empty: Table := map[];
    var nothing: set<seq<nat>> := {};
    LoopingFirstLoop(v, s, buttons, empty[s := zero], nothing + {s});
    DfsEnters(v, s, zero, one, buttons, empty, nothing);
    assert nothing + {s} - {s} == nothing;
  }

  /** From the second probe on, the table left by the first prunes the
      targets themselves and the as-written search reports the bound again:
      the bound stays 2 and no number of probes ends the loop. */
  lemma {:induction false} LoopingAsWrittenAgain(m: Machine, fuel: nat)
    requires IsLoopingMachine(m)
    ensures CountersInRange(m.buttons, |m.targetJoltage|) && NonEmptyButtons(m.buttons)
    ensures IdaAsWritten(m.targetJoltage, m.buttons, 2, map[m.targetJoltage := 0], fuel) == None
    decreases fuel
  {
    LoopingWellFormed(m);
    if fuel > 0 {
      var s := m.targetJoltage;
      HeuristicOfOnes(s);
      assert s != J.Zeros(|s|) by {
        assert s[0] != J.Zeros(|s|)[0];
      }
      LoopingAsWrittenAgain(m, fuel - 1);
    }
  }

  /** As written, `find_joltage_ida_star` never returns on this machine,
      although two presses solve it (`LoopingCorrected`). */
  lemma LoopingAsWritten(m: Machine, fuel: nat)
    requires IsLoopingMachine(m)
    ensures CountersInRange(m.buttons, |m.targetJoltage|) && NonEmptyButtons(m.buttons)
    ensures IdaAsWritten(m.targetJoltage, m.buttons, Heuristic(m.targetJoltage), map[], fuel) == None
  {
    LoopingFirstProbe(AsWritten, m);
    if fuel > 0 {
      LoopingAsWrittenAgain(m, fuel - 1);
    }
  }

  /** Below the first press of the second probe: the first button is
      refused, the second reaches all zeros at cost 2. */
  lemma LoopingSecondBelow(s: seq<nat>, a: seq<nat>, buttons: seq<Button>, t: Table, path: set<seq<nat>>)
    requires |s| == 2 && s[0] == 1 && s[1] == 1 && a == s[0 := 0]
    requires |buttons| == 2 && buttons[0].lightsActivated == {0} && buttons[1].lightsActivated == {1}
    requires path == {s, a}
    ensures CountersInRange(buttons, |a|) && NonEmptyButtons(buttons)
    ensures DfsLoop(Corrected, a, 1, 2, buttons, 0, USIZE_MAX, t, path).result == Success(2)
  {
    assert 0 in buttons[0].lightsActivated && 1 in buttons[1].lightsActivated;
    var v := Corrected;
    var zero, one, two, none: nat := 0, 1, 2, USIZE_MAX;
    assert Decrement(a, buttons[0].lightsActivated).None?;
    DfsLoopSkip(v, a, one, two, buttons, zero, none, t, path);
    DecrementOne(a, 1);
    var z := a[1 := 0];
    assert z == J.Zeros(|z|) by {
      assert z[0] == 0 && z[1] == 0;
    }
    assert z != s && z != a by {
      assert z[0] != s[0] && z[1] != a[1];
    }
    DfsLoopCall(v, a, one, two, buttons, one, none, t, path);
  }

  /** The second corrected probe, with bound 2 and an empty table, presses
      the first button, skips it again (its counter is at 0) and reaches all
      zeros with the second. */
  lemma LoopingSecondProbe(m: Machine)
    requires IsLoopingMachine(m)
    ensures CountersInRange(m.buttons, |m.targetJoltage|) && NonEmptyButtons(m.buttons)
    ensures var none: Table := map[];
      Dfs(Corrected, m.targetJoltage, 0, 2, m.buttons, none, {}).result == Success(2)
  {
    LoopingWellFormed(m);
    var v, s, buttons := Corrected, m.targetJoltage, m.buttons;
    var zero, one, two, none: nat := 0, 1, 2, USIZE_MAX;
    HeuristicOfOnes(s);
    assert s != J.Zeros(|s|) by {
      assert s[0] != J.Zeros(|s|)[0];
    }
    var empty: Table := map[];
    var nothing: set<seq<nat>> := {};
    var t, path := empty[s := zero], nothing + {s};
    DecrementOne(s, 0);
    var a := s[0 := 0];
    HeuristicOfOnes(a);
    assert a != s && a != J.Zeros(|a|) by {
      assert a[0] != s[0] && a[1] != J.Zeros(|a|)[1];
    }
    LoopingSecondBelow(s, a, buttons, t[a := one], path + {a});
    DfsEnters(v, a, one, two, buttons, t, path);
    DfsLoopCall(v, s, zero, two, buttons, zero, none, t, path);
    DfsEnters(v, s, zero, two, buttons, empty, nothing);
  }

  /** With the table emptied before each probe and no estimate reported on
      a prune, the search finds the two presses. */
  lemma LoopingCorrected(m: Machine)
    requires IsLoopingMachine(m)
    ensures CountersInRange(m.buttons, |m.targetJoltage|) && NonEmptyButtons(m.buttons)
    ensures IdaStarResult(m) == Ok(2)
  {
    LoopingFirstProbe(Corrected, m);
    LoopingSecondProbe(m);
    var s, buttons := m.targetJoltage, m.buttons;
    var one, two := 1, 2;
    assert IdaCorrected(s, buttons, one) == IdaCorrected(s, buttons, two);
  }
}
