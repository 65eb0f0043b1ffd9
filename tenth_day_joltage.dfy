/** The joltage mode of the tenth day: presses lower counters, and
    `find_joltage_backtrack` searches for the fewest presses that bring every
    counter to 0. A reference definition of that fewest number (`Fewest`) is
    given and proved to be the minimum over all press sequences; the search
    is then proved against it. */
module TenthDayJoltage {
  import opened Common
  import opened TenthDay

  // ---------------------------------------------------------------------
  // Solutions

  /** The all-zero state the search aims at. */
  function Zeros(n: nat): (r: seq<nat>)
    ensures |r| == n && forall i :: 0 <= i < n ==> r[i] == 0
  {
    seq(n, _ => 0)
  }

  lemma {:induction false} ButtonCountAppend(a: seq<Button>, b: seq<Button>, j: nat)
    ensures ButtonCount(a + b, j) == ButtonCount(a, j) + ButtonCount(b, j)
    decreases |b|
  {
    if |b| > 0 {
      assert (a + b)[..|a + b| - 1] == a + b[..|b| - 1];
      ButtonCountAppend(a, b[..|b| - 1], j);
    } else {
      assert a + b == a;
    }
  }

  lemma ButtonCountSingle(b: Button, j: nat)
    ensures ButtonCount([b], j) == if j in b.lightsActivated then 1 else 0
  {
    assert [b][..0] == [];
  }

  /** Presses that lower every counter exactly to 0: counter `i` is listed
      by exactly `state[i]` of them, whatever their order. */
  predicate Solves(state: seq<nat>, presses: seq<Button>)
  {
    forall i :: 0 <= i < |state| ==> ButtonCount(presses, i) == state[i]
  }

  /** Every press is one of `buttons[cursor..]`. */
  predicate Among(presses: seq<Button>, buttons: seq<Button>, cursor: nat)
    requires cursor <= |buttons|
  {
    forall k :: 0 <= k < |presses| ==> presses[k] in buttons[cursor..]
  }

  /** Presses applied one after the other, each as `Decrement` does it. */
  function ApplyPresses(state: seq<nat>, presses: seq<Button>): (r: Option<seq<nat>>)
    requires CountersInRange(presses, |state|)
    ensures r.Some? ==> |r.value| == |state|
    decreases |presses|
  {
    if |presses| == 0 then Some(state)
    else
      var lowered := Decrement(state, presses[0].lightsActivated);
      if lowered.None? then None
      else
        assert CountersInRange(presses[1..], |lowered.value|) by {
          forall k, i | 0 <= k < |presses[1..]| && i in presses[1..][k].lightsActivated
            ensures i < |state|
          {
            assert presses[1..][k] == presses[k + 1];
          }
        }
        ApplyPresses(lowered.value, presses[1..])
  }

  /** Applying presses in sequence reaches all zeros exactly when they solve
      the state; in particular their order does not matter. */
  lemma {:induction false} ApplyPressesSolves(state: seq<nat>, presses: seq<Button>)
    requires CountersInRange(presses, |state|)
    ensures ApplyPresses(state, presses) == Some(Zeros(|state|)) <==> Solves(state, presses)
    decreases |presses|
  {
    if |presses| == 0 {
      if Solves(state, presses) {
        assert state == Zeros(|state|);
      }
    } else {
      var p := presses[0];
      var rest := presses[1..];
      assert presses == [p] + rest;
      forall i | 0 <= i < |state|
        ensures ButtonCount(presses, i) == (if i in p.lightsActivated then 1 else 0) + ButtonCount(rest, i)
      {
        ButtonCountAppend([p], rest, i);
        ButtonCountSingle(p, i);
      }
      var lowered := Decrement(state, p.lightsActivated);
      if lowered.None? {
        var i :| i in p.lightsActivated && state[i] == 0;
        assert ButtonCount(presses, i) != state[i];
      } else {
        assert CountersInRange(rest, |lowered.value|) by {
          forall k, i | 0 <= k < |rest| && i in rest[k].lightsActivated
            ensures i < |state|
          {
            assert rest[k] == presses[k + 1];
          }
        }
        ApplyPressesSolves(lowered.value, rest);
      }
    }
  }

  // ---------------------------------------------------------------------
  // The fewest presses

  function MinOption(a: Option<nat>, b: Option<nat>): (r: Option<nat>)
    ensures r.Some? <==> a.Some? || b.Some?
    ensures a.Some? ==> r.value <= a.value
    ensures b.Some? ==> r.value <= b.value
    ensures r.Some? ==> (a.Some? && r.value == a.value) || (b.Some? && r.value == b.value)
  {
    if a.None? then b
    else if b.None? then a
    else Some(if a.value <= b.value then a.value else b.value)
  }

  function AddOne(a: Option<nat>): Option<nat>
  {
    if a.Some? then Some(a.value + 1) else None
  }

  /** The fewest presses of `buttons[cursor..]`, each any number of times,
      taken in button order, that bring `state` to all zeros; None when there
      are none. A button listing no counter is never worth pressing. */
  function Fewest(buttons: seq<Button>, cursor: nat, state: seq<nat>): Option<nat>
    requires CountersInRange(buttons, |state|)
    decreases Sum(state), |buttons| - cursor
  {
    if state == Zeros(|state|) then Some(0)
    else if cursor >= |buttons| then None
    else
      var lights := buttons[cursor].lightsActivated;
      var lowered := Decrement(state, lights);
      if lights == {} || lowered.None? then Fewest(buttons, cursor + 1, state)
      else
        DecrementSum(state, lights);
        MinOption(AddOne(Fewest(buttons, cursor, lowered.value)), Fewest(buttons, cursor + 1, state))
  }

  lemma AmongNext(presses: seq<Button>, buttons: seq<Button>, cursor: nat)
    requires cursor < |buttons| && Among(presses, buttons, cursor + 1)
    ensures Among(presses, buttons, cursor)
  {
    assert buttons[cursor..] == [buttons[cursor]] + buttons[cursor + 1..];
  }

  /** `Fewest` is achieved: some presses of that length solve the state. */
  lemma {:induction false} FewestWitness(buttons: seq<Button>, cursor: nat, state: seq<nat>) returns (presses: seq<Button>)
    requires CountersInRange(buttons, |state|) && cursor <= |buttons|
    requires Fewest(buttons, cursor, state).Some?
    ensures |presses| == Fewest(buttons, cursor, state).value
    ensures Among(presses, buttons, cursor) && Solves(state, presses)
    decreases Sum(state), |buttons| - cursor
  {
    if state == Zeros(|state|) {
      presses := [];
    } else {
      var lights := buttons[cursor].lightsActivated;
      var lowered := Decrement(state, lights);
      if lights == {} || lowered.None? || Fewest(buttons, cursor, state) == Fewest(buttons, cursor + 1, state) {
        presses := FewestWitness(buttons, cursor + 1, state);
        AmongNext(presses, buttons, cursor);
      } else {
        DecrementSum(state, lights);
        var rest := FewestWitness(buttons, cursor, lowered.value);
        presses := [buttons[cursor]] + rest;
        forall i | 0 <= i < |state| ensures ButtonCount(presses, i) == state[i] {
          ButtonCountAppend([buttons[cursor]], rest, i);
          ButtonCountSingle(buttons[cursor], i);
        }
        assert Among(presses, buttons, cursor) by {
          forall k | 0 <= k < |presses| ensures presses[k] in buttons[cursor..] {
            if k > 0 {
              assert presses[k] == rest[k - 1];
            }
          }
        }
      }
    }
  }

  /** Removing one press takes one off each counter it lists. */
  lemma Removed(presses: seq<Button>, k: nat, i: nat)
    requires k < |presses|
    ensures ButtonCount(presses, i)
      == ButtonCount(presses[..k] + presses[k + 1..], i) + (if i in presses[k].lightsActivated then 1 else 0)
  {
    assert presses == presses[..k] + ([presses[k]] + presses[k + 1..]);
    ButtonCountAppend(presses[..k], [presses[k]] + presses[k + 1..], i);
    ButtonCountAppend([presses[k]], presses[k + 1..], i);
    ButtonCountSingle(presses[k], i);
    ButtonCountAppend(presses[..k], presses[k + 1..], i);
  }

  /** The presses without the one at `k`: still among the buttons, and
      short of that press on each counter it lists. */
  lemma WithoutPress(buttons: seq<Button>, cursor: nat, state: seq<nat>, presses: seq<Button>, k: nat)
      returns (rest: seq<Button>)
    requires cursor <= |buttons| && k < |presses|
    requires Among(presses, buttons, cursor) && Solves(state, presses)
    ensures |rest| == |presses| - 1 && Among(rest, buttons, cursor)
    ensures forall i :: 0 <= i < |state| ==>
      ButtonCount(rest, i) + (if i in presses[k].lightsActivated then 1 else 0) == state[i]
  {
    rest := presses[..k] + presses[k + 1..];
    forall i | 0 <= i < |state|
      ensures ButtonCount(rest, i) + (if i in presses[k].lightsActivated then 1 else 0) == state[i]
    {
      Removed(presses, k, i);
    }
    forall q | 0 <= q < |rest| ensures rest[q] in buttons[cursor..] {
      if q < k {
        assert rest[q] == presses[q];
      } else {
        assert rest[q] == presses[q + 1];
      }
    }
  }

  /** Presses short of one press of `lights` solve the lowered state. */
  lemma SolvesLowered(state: seq<nat>, lights: set<nat>, rest: seq<Button>)
    requires forall i | i in lights :: i < |state|
    requires forall i :: 0 <= i < |state| ==> ButtonCount(rest, i) + (if i in lights then 1 else 0) == state[i]
    ensures Decrement(state, lights).Some? && Solves(Decrement(state, lights).value, rest)
  {
  }

  /** No presses of `buttons[cursor..]`, in any order, solve the state with
      fewer than `Fewest` presses. */
  lemma {:induction false} FewestMinimal(buttons: seq<Button>, cursor: nat, state: seq<nat>, presses: seq<Button>)
    requires CountersInRange(buttons, |state|) && cursor <= |buttons|
    requires Among(presses, buttons, cursor) && Solves(state, presses)
    ensures Fewest(buttons, cursor, state).Some? && Fewest(buttons, cursor, state).value <= |presses|
    decreases Sum(state), |buttons| - cursor, |presses|
  {
    if |presses| == 0 {
      assert state == Zeros(|state|);
    } else if state != Zeros(|state|) {
      assert presses[0] in buttons[cursor..];
      var b := buttons[cursor];
      var lights := b.lightsActivated;
      var lowered := Decrement(state, lights);
      if b in presses {
        var k :| 0 <= k < |presses| && presses[k] == b;
        var rest := WithoutPress(buttons, cursor, state, presses, k);
        if lights == {} {
          assert Solves(state, rest);
          FewestMinimal(buttons, cursor, state, rest);
        } else {
          SolvesLowered(state, lights, rest);
          DecrementSum(state, lights);
          FewestMinimal(buttons, cursor, lowered.value, rest);
          FewestStep(buttons, cursor, state);
        }
      } else {
        assert Among(presses, buttons, cursor + 1) by {
          assert buttons[cursor..] == [b] + buttons[cursor + 1..];
        }
        FewestMinimal(buttons, cursor + 1, state, presses);
      }
    }
  }

  /** A solution exists only when every counter still above 0 is listed by
      one of the buttons left: the pruning by
      `buttons_are_available_for_missing_joltage` never loses one. */
  lemma FewestNeedsAvailable(buttons: seq<Button>, cursor: nat, state: seq<nat>)
    requires CountersInRange(buttons, |state|) && cursor <= |buttons|
    ensures Fewest(buttons, cursor, state).Some? ==> ButtonsAreAvailableForMissingJoltage(buttons[cursor..], state)
  {
    if Fewest(buttons, cursor, state).Some? {
      var presses := FewestWitness(buttons, cursor, state);
      forall i | 0 <= i < |state| && state[i] > 0
        ensures exists k :: 0 <= k < |buttons[cursor..]| && i in buttons[cursor..][k].lightsActivated
      {
        var k :| 0 <= k < |presses| && i in presses[k].lightsActivated;
        assert presses[k] in buttons[cursor..];
        var p :| 0 <= p < |buttons[cursor..]| && buttons[cursor..][p] == presses[k];
        assert i in buttons[cursor..][p].lightsActivated;
      }
    }
  }

  // ---------------------------------------------------------------------
  // The backtracking search

  /** `AsWritten` is the search as the source has it; `Corrected` goes on
      with the next button when the current one cannot be pressed. */
  datatype Variant = AsWritten | Corrected

  /** `explored_states`: the fewest presses seen at a (cursor, state). */
  type Memo = map<(nat, seq<nat>), nat>

  /** What a call of `backtrack` returns, with the new values of the two
      variables it updates through `&mut`. */
  datatype Outcome = Outcome(result: Option<nat>, best: nat, explored: Memo)

  /** The best count once the caller has folded the returned count in
      (`*maximum_n_buttons = min(new_n_buttons, *maximum_n_buttons)`). */
  function Improved(o: Outcome): nat
  {
    if o.result.Some? && o.result.value < o.best then o.result.value else o.best
  }

  predicate MemoHit(explored: Memo, cursor: nat, state: seq<nat>, n: nat)
  {
    (cursor, state) in explored && n >= explored[(cursor, state)]
  }

  /** The four reasons a branch is abandoned: no button left, no better than
      the best so far, no better than an earlier visit of the same (cursor,
      state), or (just after moving to a new button) a counter above 0 that
      no button left lists. */
  predicate DeadEnd(buttons: seq<Button>, state: seq<nat>, n: nat, cursor: nat, best: nat, justAdvanced: bool, explored: Memo)
  {
    cursor >= |buttons| || n >= best || MemoHit(explored, cursor, state, n)
    || (justAdvanced && !ButtonsAreAvailableForMissingJoltage(buttons[cursor..], state))
  }

  /** `backtrack` as a function of its arguments and of the two variables it
      updates: the two early returns here, the rest in `Expand`. */
  function Search(v: Variant, buttons: seq<Button>, state: seq<nat>, n: nat, cursor: nat, best: nat,
                  justAdvanced: bool, explored: Memo): Outcome
    requires CountersInRange(buttons, |state|)
    decreases Sum(state), |buttons| - cursor, if MemoHit(explored, cursor, state, n) then 0 else 1, 1
  {
    if state == Zeros(|state|) then Outcome(Some(n), best, explored)
    else if DeadEnd(buttons, state, n, cursor, best, justAdvanced, explored) then Outcome(None, best, explored)
    else Expand(v, buttons, state, n, cursor, best, explored)
  }

  /** The body of `backtrack` past its early returns: record the visit, press
      the button at the cursor (and stay on it), then move to the next button.
      A press with an empty button leaves the state as it is and is cut at
      once by the memo, hence the third component of the measure. */
  function Expand(v: Variant, buttons: seq<Button>, state: seq<nat>, n: nat, cursor: nat, best: nat,
                  explored: Memo): Outcome
    requires CountersInRange(buttons, |state|) && cursor < |buttons| && !MemoHit(explored, cursor, state, n)
    decreases Sum(state), |buttons| - cursor, 1, 0
  {
    var memo := explored[(cursor, state) := n];
    var lights := buttons[cursor].lightsActivated;
    var lowered := Decrement(state, lights);
    if lowered.None? && v == AsWritten then Outcome(None, best, memo)
    else
      DecrementSum(state, lights);
      assert lowered.Some? && lights == {} ==> lowered.value == state;
      var first :=
        if lowered.None? then Outcome(None, best, memo)
        else Search(v, buttons, lowered.value, n + 1, cursor, best, false, memo);
      var second := Search(v, buttons, state, n, cursor + 1, Improved(first), true, first.explored);
      var last := Improved(second);
      Outcome(if last < USIZE_MAX then Some(last) else None, last, second.explored)
  }

  /** `backtrack`: the two `&mut` variables are passed in and returned. */
  method Backtrack(v: Variant, currentState: seq<nat>, targetState: seq<nat>, currentN: nat, buttons: seq<Button>,
                   cursor: nat, maximum: nat, justAdvanced: bool, explored: Memo)
    returns (r: Option<nat>, newMaximum: nat, newExplored: Memo)
    requires targetState == Zeros(|currentState|) && CountersInRange(buttons, |currentState|)
    ensures Outcome(r, newMaximum, newExplored) == Search(v, buttons, currentState, currentN, cursor, maximum, justAdvanced, explored)
    decreases Sum(currentState), |buttons| - cursor, if MemoHit(explored, cursor, currentState, currentN) then 0 else 1, 1
  {
    newMaximum, newExplored := maximum, explored;
    if currentState == targetState {
      SearchEnds(v, buttons, currentState, currentN, cursor, maximum, justAdvanced, explored);
      return Some(currentN), newMaximum, newExplored;
    }
    if DeadEnd(buttons, currentState, currentN, cursor, newMaximum, justAdvanced, newExplored) {
      SearchEnds(v, buttons, currentState, currentN, cursor, maximum, justAdvanced, explored);
      return None, newMaximum, newExplored;
    }
    assert Search(v, buttons, currentState, currentN, cursor, maximum, justAdvanced, explored)
      == Expand(v, buttons, currentState, currentN, cursor, maximum, explored);
    r, newMaximum, newExplored := ExpandBacktrack(v, currentState, targetState, currentN, buttons, cursor, maximum, explored);
  }

  /** `backtrack` past the early returns: record the visit, press the button
      at the cursor, then move the cursor on. */
  method ExpandBacktrack(v: Variant, currentState: seq<nat>, targetState: seq<nat>, currentN: nat, buttons: seq<Button>,
                         cursor: nat, maximum: nat, explored: Memo)
    returns (r: Option<nat>, newMaximum: nat, newExplored: Memo)
    requires targetState == Zeros(|currentState|) && CountersInRange(buttons, |currentState|)
    requires cursor < |buttons| && !MemoHit(explored, cursor, currentState, currentN)
    ensures Outcome(r, newMaximum, newExplored) == Expand(v, buttons, currentState, currentN, cursor, maximum, explored)
    decreases Sum(currentState), |buttons| - cursor, 1, 0
  {
    newMaximum := maximum;
    newExplored := explored[(cursor, currentState) := currentN];
    ghost var memo := newExplored;
    var button := buttons[cursor];
    var newState := PressJoltage(currentState, button.lightsActivated);
    if newState.None? && v == AsWritten {
      ExpandGivesUp(buttons, currentState, currentN, cursor, maximum, explored);
      return None, newMaximum, newExplored;
    }
    ghost var first := Outcome(None, maximum, memo);
    if newState.Some? {
      DecrementSum(currentState, button.lightsActivated);
      assert button.lightsActivated == {} ==> newState.value == currentState;
      var found;
      found, newMaximum, newExplored :=
        Backtrack(v, newState.value, targetState, currentN + 1, buttons, cursor, newMaximum, false, newExplored);
      first := Outcome(found, newMaximum, newExplored);
      if found.Some? && found.value < newMaximum {
        newMaximum := found.value;
      }
    }
    var found;
    found, newMaximum, newExplored :=
      Backtrack(v, currentState, targetState, currentN, buttons, cursor + 1, newMaximum, true, newExplored);
    ghost var second := Outcome(found, newMaximum, newExplored);
    if found.Some? && found.value < newMaximum {
      newMaximum := found.value;
    }
    r := if newMaximum < USIZE_MAX then Some(newMaximum) else None;
    ExpandStep(v, buttons, currentState, currentN, cursor, maximum, explored, first, second);
  }

  /** The three ways `Search` returns without a recursive call. */
  lemma SearchEnds(v: Variant, buttons: seq<Button>, state: seq<nat>, n: nat, cursor: nat, best: nat,
                   justAdvanced: bool, explored: Memo)
    requires CountersInRange(buttons, |state|)
    ensures state == Zeros(|state|) ==> Search(v, buttons, state, n, cursor, best, justAdvanced, explored) == Outcome(Some(n), best, explored)
    ensures state != Zeros(|state|) && DeadEnd(buttons, state, n, cursor, best, justAdvanced, explored) ==>
      Search(v, buttons, state, n, cursor, best, justAdvanced, explored) == Outcome(None, best, explored)
    ensures state != Zeros(|state|) && !DeadEnd(buttons, state, n, cursor, best, justAdvanced, explored)
            && v == AsWritten && Decrement(state, buttons[cursor].lightsActivated).None? ==>
      Search(v, buttons, state, n, cursor, best, justAdvanced, explored) == Outcome(None, best, explored[(cursor, state) := n])
  {
    if state != Zeros(|state|) && !DeadEnd(buttons, state, n, cursor, best, justAdvanced, explored) {
      assert Search(v, buttons, state, n, cursor, best, justAdvanced, explored) == Expand(v, buttons, state, n, cursor, best, explored);
    }
  }

  /** One expansion of `Search`, from the outcomes of its two calls. */
  lemma SearchStep(v: Variant, buttons: seq<Button>, state: seq<nat>, n: nat, cursor: nat, best: nat,
                   justAdvanced: bool, explored: Memo, first: Outcome, second: Outcome)
    requires CountersInRange(buttons, |state|)
    requires state != Zeros(|state|) && !DeadEnd(buttons, state, n, cursor, best, justAdvanced, explored)
    requires var lowered := Decrement(state, buttons[cursor].lightsActivated);
      && (lowered.None? ==> v == Corrected)
      && first == (if lowered.None? then Outcome(None, best, explored[(cursor, state) := n])
                   else Search(v, buttons, lowered.value, n + 1, cursor, best, false, explored[(cursor, state) := n]))
      && second == Search(v, buttons, state, n, cursor + 1, Improved(first), true, first.explored)
    ensures Search(v, buttons, state, n, cursor, best, justAdvanced, explored)
      == Outcome(if Improved(second) < USIZE_MAX then Some(Improved(second)) else None, Improved(second), second.explored)
  {
    assert Search(v, buttons, state, n, cursor, best, justAdvanced, explored) == Expand(v, buttons, state, n, cursor, best, explored);
  }

  /** `Expand` from the outcomes of its two calls, and when it gives up. */
  lemma ExpandStep(v: Variant, buttons: seq<Button>, state: seq<nat>, n: nat, cursor: nat, best: nat,
                   explored: Memo, first: Outcome, second: Outcome)
    requires CountersInRange(buttons, |state|) && cursor < |buttons| && !MemoHit(explored, cursor, state, n)
    requires var lowered := Decrement(state, buttons[cursor].lightsActivated);
      && (lowered.None? ==> v == Corrected)
      && first == (if lowered.None? then Outcome(None, best, explored[(cursor, state) := n])
                   else Search(v, buttons, lowered.value, n + 1, cursor, best, false, explored[(cursor, state) := n]))
      && second == Search(v, buttons, state, n, cursor + 1, Improved(first), true, first.explored)
    ensures Expand(v, buttons, state, n, cursor, best, explored)
      == Outcome(if Improved(second) < USIZE_MAX then Some(Improved(second)) else None, Improved(second), second.explored)
  {
  }

  /** `Expand` when the press is refused as written. */
  lemma ExpandGivesUp(buttons: seq<Button>, state: seq<nat>, n: nat, cursor: nat, best: nat, explored: Memo)
    requires CountersInRange(buttons, |state|) && cursor < |buttons| && !MemoHit(explored, cursor, state, n)
    requires Decrement(state, buttons[cursor].lightsActivated).None?
    ensures Expand(AsWritten, buttons, state, n, cursor, best, explored) == Outcome(None, best, explored[(cursor, state) := n])
  {
  }

  /** `maximum_n_buttons` never increases, and neither does the count the
      caller folds in. */
  lemma {:induction false} SearchBestNeverIncreases(v: Variant, buttons: seq<Button>, state: seq<nat>, n: nat, cursor: nat,
                                                    best: nat, justAdvanced: bool, explored: Memo)
    requires CountersInRange(buttons, |state|)
    ensures Search(v, buttons, state, n, cursor, best, justAdvanced, explored).best <= best
    ensures Improved(Search(v, buttons, state, n, cursor, best, justAdvanced, explored)) <= best
    decreases Sum(state), |buttons| - cursor, if MemoHit(explored, cursor, state, n) then 0 else 1, 1
  {
    SearchEnds(v, buttons, state, n, cursor, best, justAdvanced, explored);
    if state != Zeros(|state|) && !DeadEnd(buttons, state, n, cursor, best, justAdvanced, explored)
       && !(v == AsWritten && Decrement(state, buttons[cursor].lightsActivated).None?) {
      BestNeverIncreasesStep(v, buttons, state, n, cursor, best, justAdvanced, explored);
    }
  }

  /** `SearchBestNeverIncreases` past the early returns. */
  lemma {:induction false} BestNeverIncreasesStep(v: Variant, buttons: seq<Button>, state: seq<nat>, n: nat, cursor: nat,
                                                  best: nat, justAdvanced: bool, explored: Memo)
    requires CountersInRange(buttons, |state|)
    requires state != Zeros(|state|) && !DeadEnd(buttons, state, n, cursor, best, justAdvanced, explored)
    requires !(v == AsWritten && Decrement(state, buttons[cursor].lightsActivated).None?)
    ensures Search(v, buttons, state, n, cursor, best, justAdvanced, explored).best <= best
    ensures Improved(Search(v, buttons, state, n, cursor, best, justAdvanced, explored)) <= best
    decreases Sum(state), |buttons| - cursor, 1, 0
  {
    var memo := explored[(cursor, state) := n];
    var lights := buttons[cursor].lightsActivated;
    var lowered := Decrement(state, lights);
    var first := if lowered.None? then Outcome(None, best, memo)
                 else Search(v, buttons, lowered.value, n + 1, cursor, best, false, memo);
    BestNeverIncreasesFirst(v, buttons, state, n, cursor, best, explored);
    var second := Search(v, buttons, state, n, cursor + 1, Improved(first), true, first.explored);
    SearchBestNeverIncreases(v, buttons, state, n, cursor + 1, Improved(first), true, first.explored);
    SearchStep(v, buttons, state, n, cursor, best, justAdvanced, explored, first, second);
    assert Improved(second) <= Improved(first);
  }

  /** The first of the two calls does not raise the best count either. */
  lemma {:induction false} BestNeverIncreasesFirst(v: Variant, buttons: seq<Button>, state: seq<nat>, n: nat, cursor: nat,
                                                   best: nat, explored: Memo)
    requires CountersInRange(buttons, |state|) && cursor < |buttons|
    ensures var memo := explored[(cursor, state) := n];
      var lowered := Decrement(state, buttons[cursor].lightsActivated);
      Improved(if lowered.None? then Outcome(None, best, memo)
               else Search(v, buttons, lowered.value, n + 1, cursor, best, false, memo)) <= best
    decreases Sum(state), |buttons| - cursor, 0, 2
  {
    var memo := explored[(cursor, state) := n];
    var lights := buttons[cursor].lightsActivated;
    var lowered := Decrement(state, lights);
    DecrementSum(state, lights);
    if lowered.Some? {
      assert lights == {} ==> lowered.value == state;
      SearchBestNeverIncreases(v, buttons, lowered.value, n + 1, cursor, best, false, memo);
    }
  }

  /** The ordered buttons list only counters the machine has. */
  lemma SortedCountersInRange(m: Machine)
    requires CountersInRange(m.buttons, |m.targetJoltage|)
    ensures CountersInRange(SortedButtons(m), |m.targetJoltage|)
  {
    SortedButtonsSpec(m);
    var sorted := SortedButtons(m);
    forall k, i | 0 <= k < |sorted| && i in sorted[k].lightsActivated ensures i < |m.targetJoltage| {
      assert sorted[k] in multiset(m.buttons);
    }
  }

  /** `find_joltage_backtrack`: the search from the target, with the ordered
      buttons, no best yet (`usize::MAX`) and an empty memo. */
  function BacktrackResult(v: Variant, m: Machine): Result<nat, ToggleSolutionError>
    requires CountersInRange(m.buttons, |m.targetJoltage|)
  {
    SortedCountersInRange(m);
    var o := Search(v, SortedButtons(m), m.targetJoltage, 0, 0, USIZE_MAX, false, map[]);
    if o.result.Some? then Ok(o.result.value) else Err(EmptySolutionToExplore)
  }

  method FindJoltageBacktrack(v: Variant, m: Machine) returns (r: Result<nat, ToggleSolutionError>)
    requires CountersInRange(m.buttons, |m.targetJoltage|)
    ensures r == BacktrackResult(v, m)
  {
    var sortedButtons := SortButtonsByJoltageCounterButtonNumber(m);
    SortedCountersInRange(m);
    var found, maximum, explored :=
      Backtrack(v, m.targetJoltage, Zeros(|m.targetJoltage|), 0, sortedButtons, 0, USIZE_MAX, false, map[]);
    r := if found.Some? then Ok(found.value) else Err(EmptySolutionToExplore);
  }

  // ---------------------------------------------------------------------
  // What the search returns

  /** Pressing the button at the cursor first, then `presses`. */
  lemma PressFirst(buttons: seq<Button>, cursor: nat, state: seq<nat>, presses: seq<Button>)
    requires cursor < |buttons| && CountersInRange(buttons, |state|)
    requires Decrement(state, buttons[cursor].lightsActivated).Some?
    requires Among(presses, buttons, cursor) && Solves(Decrement(state, buttons[cursor].lightsActivated).value, presses)
    ensures Among([buttons[cursor]] + presses, buttons, cursor) && Solves(state, [buttons[cursor]] + presses)
  {
    var all := [buttons[cursor]] + presses;
    forall i | 0 <= i < |state| ensures ButtonCount(all, i) == state[i] {
      ButtonCountAppend([buttons[cursor]], presses, i);
      ButtonCountSingle(buttons[cursor], i);
    }
    forall k | 0 <= k < |all| ensures all[k] in buttons[cursor..] {
      if k > 0 {
        assert all[k] == presses[k - 1];
      }
    }
  }

  /** A count below the best passed in is the length of the presses along
      the branch that reached all zeros: presses among the buttons from the
      cursor on that solve the state. */
  lemma {:induction false} SearchWitness(v: Variant, buttons: seq<Button>, state: seq<nat>, n: nat, cursor: nat,
                                         best: nat, justAdvanced: bool, explored: Memo)
      returns (presses: seq<Button>)
    requires CountersInRange(buttons, |state|) && cursor <= |buttons|
    ensures var o := Search(v, buttons, state, n, cursor, best, justAdvanced, explored);
      Improved(o) < best ==> n + |presses| == Improved(o) && Among(presses, buttons, cursor) && Solves(state, presses)
    decreases Sum(state), |buttons| - cursor, if MemoHit(explored, cursor, state, n) then 0 else 1
  {
    presses := [];
    SearchEnds(v, buttons, state, n, cursor, best, justAdvanced, explored);
    if state != Zeros(|state|) && !DeadEnd(buttons, state, n, cursor, best, justAdvanced, explored) {
      var memo := explored[(cursor, state) := n];
      var lights := buttons[cursor].lightsActivated;
      var lowered := Decrement(state, lights);
      if !(lowered.None? && v == AsWritten) {
        DecrementSum(state, lights);
        var first := if lowered.None? then Outcome(None, best, memo)
                     else Search(v, buttons, lowered.value, n + 1, cursor, best, false, memo);
        var before: seq<Button> := [];
        if lowered.Some? {
          assert lights == {} ==> lowered.value == state;
          before := SearchWitness(v, buttons, lowered.value, n + 1, cursor, best, false, memo);
        }
        var second := Search(v, buttons, state, n, cursor + 1, Improved(first), true, first.explored);
        var after := SearchWitness(v, buttons, state, n, cursor + 1, Improved(first), true, first.explored);
        SearchBestNeverIncreases(v, buttons, state, n, cursor + 1, Improved(first), true, first.explored);
        SearchStep(v, buttons, state, n, cursor, best, justAdvanced, explored, first, second);
        if Improved(second) < Improved(first) {
          presses := after;
          AmongNext(presses, buttons, cursor);
        } else if Improved(first) < best {
          PressFirst(buttons, cursor, state, before);
          presses := [buttons[cursor]] + before;
        }
      }
    }
  }

  /** The search from the root (no press yet, no best yet) reports the best
      count it reached, if any. */
  lemma SearchRoot(v: Variant, buttons: seq<Button>, state: seq<nat>, n: nat, cursor: nat, best: nat,
                   justAdvanced: bool, explored: Memo)
    requires CountersInRange(buttons, |state|) && n == 0 && best == USIZE_MAX
    ensures var o := Search(v, buttons, state, n, cursor, best, justAdvanced, explored);
      o.result == if Improved(o) < USIZE_MAX then Some(Improved(o)) else None
  {
    SearchEnds(v, buttons, state, n, cursor, best, justAdvanced, explored);
    if state != Zeros(|state|) && !DeadEnd(buttons, state, n, cursor, best, justAdvanced, explored) {
      var memo := explored[(cursor, state) := n];
      var lights := buttons[cursor].lightsActivated;
      var lowered := Decrement(state, lights);
      if !(lowered.None? && v == AsWritten) {
        DecrementSum(state, lights);
        var first := if lowered.None? then Outcome(None, best, memo)
                     else Search(v, buttons, lowered.value, n + 1, cursor, best, false, memo);
        var second := Search(v, buttons, state, n, cursor + 1, Improved(first), true, first.explored);
        SearchStep(v, buttons, state, n, cursor, best, justAdvanced, explored, first, second);
      }
    }
  }

  // The corrected search finds the fewest presses.

  /** `key` is at or below (cursor, state) in the order the search descends:
      a smaller total, or the same total and a cursor at least as far. */
  predicate AtMost(key: (nat, seq<nat>), cursor: nat, state: seq<nat>)
  {
    Sum(key.1) < Sum(state) || (Sum(key.1) == Sum(state) && key.0 >= cursor)
  }

  /** A best count no worse than `n` presses followed by the fewest. */
  predicate Covers(best: nat, n: nat, fewest: Option<nat>)
  {
    fewest.None? || best <= n + fewest.value
  }

  /** Every memo entry at or below (cursor, state) was explored to the end:
      the best count is no worse than what could be reached from it. */
  predicate Settled(buttons: seq<Button>, explored: Memo, best: nat, cursor: nat, state: seq<nat>)
    requires CountersInRange(buttons, |state|)
  {
    forall key | key in explored && |key.1| == |state| && AtMost(key, cursor, state) ::
      Covers(best, explored[key], Fewest(buttons, key.0, key.1))
  }

  /** The entries above (cursor, state) are the same in both memos. */
  predicate SameAbove(e1: Memo, e2: Memo, cursor: nat, state: seq<nat>)
  {
    (forall key | key in e1 && !AtMost(key, cursor, state) :: key in e2 && e2[key] == e1[key])
    && (forall key | key in e2 && !AtMost(key, cursor, state) :: key in e1)
  }

  lemma SettledLower(buttons: seq<Button>, explored: Memo, best: nat, lower: nat, cursor: nat, state: seq<nat>)
    requires CountersInRange(buttons, |state|) && lower <= best
    requires Settled(buttons, explored, best, cursor, state)
    ensures Settled(buttons, explored, lower, cursor, state)
  {
  }

  /** The memo the first call starts from is settled below the pressed state. */
  lemma SettledForPress(buttons: seq<Button>, explored: Memo, best: nat, cursor: nat, state: seq<nat>, n: nat, lowered: seq<nat>)
    requires CountersInRange(buttons, |state|) && |lowered| == |state| && Sum(lowered) < Sum(state)
    requires Settled(buttons, explored, best, cursor, state)
    ensures Settled(buttons, explored[(cursor, state) := n], best, cursor, lowered)
  {
  }

  /** The memo the second call starts from is settled below (cursor + 1, state). */
  lemma SettledForSkip(buttons: seq<Button>, explored: Memo, best: nat, cursor: nat, state: seq<nat>, n: nat,
                       pressed: bool, lowered: seq<nat>, after: Memo, improved: nat)
    requires CountersInRange(buttons, |state|) && |lowered| == |state| && improved <= best
    requires Settled(buttons, explored, best, cursor, state)
    requires pressed ==> (Sum(lowered) < Sum(state) && Settled(buttons, after, improved, cursor, lowered)
                          && SameAbove(explored[(cursor, state) := n], after, cursor, lowered))
    requires !pressed ==> after == explored[(cursor, state) := n]
    ensures Settled(buttons, after, improved, cursor + 1, state)
  {
    var memo := explored[(cursor, state) := n];
    forall key | key in after && |key.1| == |state| && AtMost(key, cursor + 1, state)
      ensures Covers(improved, after[key], Fewest(buttons, key.0, key.1))
    {
      if !(pressed && AtMost(key, cursor, lowered)) {
        assert key in memo && after[key] == memo[key];
        assert key != (cursor, state);
      }
    }
  }

  /** After both calls, the memo is settled below (cursor, state) itself. */
  lemma SettledAfterBoth(buttons: seq<Button>, explored: Memo, best: nat, cursor: nat, state: seq<nat>, n: nat,
                         pressed: bool, lowered: seq<nat>, middle: Memo, last: Memo, improved: nat)
    requires CountersInRange(buttons, |state|) && |lowered| == |state| && improved <= best
    requires Settled(buttons, explored, best, cursor, state)
    requires pressed ==> Sum(lowered) < Sum(state) && SameAbove(explored[(cursor, state) := n], middle, cursor, lowered)
    requires !pressed ==> middle == explored[(cursor, state) := n]
    requires Settled(buttons, last, improved, cursor + 1, state) && SameAbove(middle, last, cursor + 1, state)
    requires Covers(improved, n, Fewest(buttons, cursor, state))
    ensures Settled(buttons, last, improved, cursor, state)
    ensures SameAbove(explored, last, cursor, state)
  {
    var memo := explored[(cursor, state) := n];
    forall key | key in last && |key.1| == |state| && AtMost(key, cursor, state)
      ensures Covers(improved, last[key], Fewest(buttons, key.0, key.1))
    {
      if !AtMost(key, cursor + 1, state) {
        assert key in middle && last[key] == middle[key];
        assert !(pressed && AtMost(key, cursor, lowered));
        assert key in memo && middle[key] == memo[key];
      }
    }
  }

  /** The fewest presses from (cursor, state), once a press is possible. */
  lemma FewestStep(buttons: seq<Button>, cursor: nat, state: seq<nat>)
    requires CountersInRange(buttons, |state|) && cursor < |buttons| && state != Zeros(|state|)
    requires |buttons[cursor].lightsActivated| > 0
    ensures var lowered := Decrement(state, buttons[cursor].lightsActivated);
      Fewest(buttons, cursor, state)
        == if lowered.None? then Fewest(buttons, cursor + 1, state)
           else MinOption(AddOne(Fewest(buttons, cursor, lowered.value)), Fewest(buttons, cursor + 1, state))
  {
  }

  /** With every button listing some counter, the corrected search gets a
      best count no worse than the fewest presses from (cursor, state), as
      long as every memo entry below it was explored to the end; it leaves the
      memo settled and the entries above it as they were. */
  lemma {:induction false} SearchFewest(buttons: seq<Button>, state: seq<nat>, n: nat, cursor: nat,
                                        best: nat, justAdvanced: bool, explored: Memo)
    requires CountersInRange(buttons, |state|) && cursor <= |buttons| && NonEmptyButtons(buttons)
    requires Settled(buttons, explored, best, cursor, state)
    ensures var o := Search(Corrected, buttons, state, n, cursor, best, justAdvanced, explored);
      Covers(Improved(o), n, Fewest(buttons, cursor, state))
      && Settled(buttons, o.explored, Improved(o), cursor, state)
      && SameAbove(explored, o.explored, cursor, state)
    decreases Sum(state), |buttons| - cursor, if MemoHit(explored, cursor, state, n) then 0 else 1, 1
  {
    var o := Search(Corrected, buttons, state, n, cursor, best, justAdvanced, explored);
    SearchEnds(Corrected, buttons, state, n, cursor, best, justAdvanced, explored);
    if state == Zeros(|state|) {
      SettledLower(buttons, explored, best, Improved(o), cursor, state);
    } else if DeadEnd(buttons, state, n, cursor, best, justAdvanced, explored) {
      if cursor < |buttons| && justAdvanced && !ButtonsAreAvailableForMissingJoltage(buttons[cursor..], state) {
        FewestNeedsAvailable(buttons, cursor, state);
      }
    } else {
      SearchFewestStep(buttons, state, n, cursor, best, justAdvanced, explored);
    }
  }

  /** `SearchFewest` past the early returns: both calls, then the memo. */
  lemma {:induction false} SearchFewestStep(buttons: seq<Button>, state: seq<nat>, n: nat, cursor: nat,
                                            best: nat, justAdvanced: bool, explored: Memo)
    requires CountersInRange(buttons, |state|) && cursor <= |buttons| && NonEmptyButtons(buttons)
    requires Settled(buttons, explored, best, cursor, state)
    requires state != Zeros(|state|) && !DeadEnd(buttons, state, n, cursor, best, justAdvanced, explored)
    ensures var o := Search(Corrected, buttons, state, n, cursor, best, justAdvanced, explored);
      Covers(Improved(o), n, Fewest(buttons, cursor, state))
      && Settled(buttons, o.explored, Improved(o), cursor, state)
      && SameAbove(explored, o.explored, cursor, state)
    decreases Sum(state), |buttons| - cursor, 1, 0
  {
    var memo := explored[(cursor, state) := n];
    var lights := buttons[cursor].lightsActivated;
    var lowered := Decrement(state, lights);
    var pressedState := if lowered.Some? then lowered.value else state;
    var first := if lowered.None? then Outcome(None, best, memo)
                 else Search(Corrected, buttons, pressedState, n + 1, cursor, best, false, memo);
    SearchFewestFirst(buttons, state, n, cursor, best, explored);
    var second := Search(Corrected, buttons, state, n, cursor + 1, Improved(first), true, first.explored);
    SearchFewest(buttons, state, n, cursor + 1, Improved(first), true, first.explored);
    SearchBestNeverIncreases(Corrected, buttons, state, n, cursor + 1, Improved(first), true, first.explored);
    SearchStep(Corrected, buttons, state, n, cursor, best, justAdvanced, explored, first, second);
    FewestStep(buttons, cursor, state);
    SettledAfterBoth(buttons, explored, best, cursor, state, n, lowered.Some?, pressedState, first.explored,
                     second.explored, Improved(second));
  }

  /** The first of the two calls, pressing the button at the cursor: it
      leaves the memo settled below (cursor + 1, state). */
  lemma {:induction false} SearchFewestFirst(buttons: seq<Button>, state: seq<nat>, n: nat, cursor: nat,
                                             best: nat, explored: Memo)
    requires CountersInRange(buttons, |state|) && cursor < |buttons| && NonEmptyButtons(buttons)
    requires Settled(buttons, explored, best, cursor, state)
    ensures var memo := explored[(cursor, state) := n];
      var lowered := Decrement(state, buttons[cursor].lightsActivated);
      var first := if lowered.None? then Outcome(None, best, memo)
                   else Search(Corrected, buttons, lowered.value, n + 1, cursor, best, false, memo);
      && Improved(first) <= best
      && Settled(buttons, first.explored, Improved(first), cursor + 1, state)
      && (lowered.None? ==> first.explored == memo)
      && (lowered.Some? ==> Sum(lowered.value) < Sum(state)
                            && Covers(Improved(first), n + 1, Fewest(buttons, cursor, lowered.value))
                            && SameAbove(memo, first.explored, cursor, lowered.value))
    decreases Sum(state), |buttons| - cursor, 0
  {
    var memo := explored[(cursor, state) := n];
    var lights := buttons[cursor].lightsActivated;
    var lowered := Decrement(state, lights);
    DecrementSum(state, lights);
    var pressedState := if lowered.Some? then lowered.value else state;
    var first := if lowered.None? then Outcome(None, best, memo)
                 else Search(Corrected, buttons, pressedState, n + 1, cursor, best, false, memo);
    if lowered.Some? {
      SettledForPress(buttons, explored, best, cursor, state, n, pressedState);
      SearchFewest(buttons, pressedState, n + 1, cursor, best, false, memo);
      SearchBestNeverIncreases(Corrected, buttons, pressedState, n + 1, cursor, best, false, memo);
    }
    SettledForSkip(buttons, explored, best, cursor, state, n, lowered.Some?, pressedState, first.explored, Improved(first));
  }

  // ---------------------------------------------------------------------
  // `find_joltage_backtrack`

  /** The ordered buttons are the machine's, and keep listing some counter. */
  lemma SortedFromMachine(m: Machine)
    ensures forall b :: b in SortedButtons(m) ==> b in m.buttons
    ensures NonEmptyButtons(m.buttons) ==> NonEmptyButtons(SortedButtons(m))
  {
    SortedButtonsSpec(m);
    var sorted := SortedButtons(m);
    forall b | b in sorted ensures b in m.buttons {
      assert b in multiset(m.buttons);
    }
    forall k | 0 <= k < |sorted| && NonEmptyButtons(m.buttons) ensures |sorted[k].lightsActivated| > 0 {
      assert sorted[k] in m.buttons;
    }
  }

  /** A count `find_joltage_backtrack` returns, in either variant, is the
      length of some presses of the machine's buttons that bring every
      counter to its target. */
  lemma BacktrackWitness(v: Variant, m: Machine) returns (presses: seq<Button>)
    requires CountersInRange(m.buttons, |m.targetJoltage|)
    ensures BacktrackResult(v, m).Ok? ==>
      && |presses| == BacktrackResult(v, m).value
      && (forall k :: 0 <= k < |presses| ==> presses[k] in m.buttons)
      && Solves(m.targetJoltage, presses)
  {
    SortedCountersInRange(m);
    SortedFromMachine(m);
    var sorted := SortedButtons(m);
    var zero, none := 0, USIZE_MAX;
    SearchRoot(v, sorted, m.targetJoltage, zero, zero, none, false, map[]);
    presses := SearchWitness(v, sorted, m.targetJoltage, zero, zero, none, false, map[]);
    assert sorted[zero..] == sorted;
  }

  /** With every button listing some counter (as `Button::new` ensures), the
      corrected `find_joltage_backtrack` finds a count no larger than any
      presses of the machine's buttons that bring every counter to its target
      (and shorter than `usize::MAX`): with `BacktrackWitness`, the fewest. */
  lemma CorrectedBacktrackOptimal(m: Machine, presses: seq<Button>)
    requires CountersInRange(m.buttons, |m.targetJoltage|) && NonEmptyButtons(m.buttons)
    requires (forall k :: 0 <= k < |presses| ==> presses[k] in m.buttons) && Solves(m.targetJoltage, presses)
    requires |presses| < USIZE_MAX
    ensures BacktrackResult(Corrected, m).Ok? && BacktrackResult(Corrected, m).value <= |presses|
  {
    SortedCountersInRange(m);
    SortedFromMachine(m);
    SortedButtonsSpec(m);
    var sorted := SortedButtons(m);
    var zero, none := 0, USIZE_MAX;
    forall k | 0 <= k < |presses| ensures presses[k] in sorted[zero..] {
      var q :| 0 <= q < |m.buttons| && m.buttons[q] == presses[k];
      var i :| i in presses[k].lightsActivated;
      assert i < |m.targetJoltage|;
    }
    FewestMinimal(sorted, zero, m.targetJoltage, presses);
    SearchFewest(sorted, m.targetJoltage, zero, zero, none, false, map[]);
    SearchRoot(Corrected, sorted, m.targetJoltage, zero, zero, none, false, map[]);
  }

  // ---------------------------------------------------------------------
  // A press refused too early

  /** Two buttons numbered in order on two counters, the first acting on
      both and the second on counter 0 alone; targets 1 and 0. */
  predicate IsStuckMachine(m: Machine)
  {
    && |m.buttons| == 2 && |m.targetJoltage| == 2
    && m.buttons[0].index == 0 && m.buttons[0].lightsActivated == {0, 1}
    && m.buttons[1].index == 1 && m.buttons[1].lightsActivated == {0}
    && m.targetJoltage[0] == 1 && m.targetJoltage[1] == 0
  }

  /** The only ordering of a two-element sequence with distinct keys. */
  lemma SortTwo<T>(a: T, b: T, key: T -> int)
    requires key(a) < key(b)
    ensures SortByKey([a, b], key) == [a, b]
  {
    var r := SortByKey([a, b], key);
    assert r[0] in multiset([a, b]) && r[1] in multiset([a, b]);
    assert r == [r[0], r[1]];
  }

  lemma SortOne<T>(a: T, key: T -> int)
    ensures SortByKey([a], key) == [a]
  {
    var r := SortByKey([a], key);
    assert r[0] in multiset([a]);
  }

  lemma StuckCounts(b0: Button, b1: Button)
    requires b0.lightsActivated == {0, 1} && b1.lightsActivated == {0}
    ensures CountsMap([b0, b1]) == map[0 := 2, 1 := 1]
    ensures CountsMap([b1]) == map[0 := 1]
  {
    var both := [b0, b1];
    assert both[..1] == [b0] && [b0][..0] == [] && [b1][..0] == [];
    var counts := map[0 := 2, 1 := 1];
    forall j ensures j in counts <==> ButtonCount(both, j) > 0 {
      if j != 0 && j != 1 {
        assert forall k :: 0 <= k < |both| ==> j !in both[k].lightsActivated;
      }
    }
    CountsMapUnique(both, counts);
    var counts1 := map[0 := 1];
    forall j ensures j in counts1 <==> ButtonCount([b1], j) > 0 {
      if j != 0 {
        assert forall k :: 0 <= k < 1 ==> j !in [b1][k].lightsActivated;
      }
    }
    CountsMapUnique([b1], counts1);
  }

  /** A group of one button. */
  lemma GroupOne(buttons: seq<Button>, j: nat, b: Button)
    requires ExtractIf(buttons, j).0 == [b]
    ensures ExtractedGroup(buttons, j) == [b]
  {
    var g := ExtractedGroup(buttons, j);
    assert b in multiset(g);
    assert |g| == |multiset(g)| == 1;
  }

  lemma ExtractOne(b: Button, j: nat)
    ensures ExtractIf([b], j) == if j in b.lightsActivated then ([b], []) else ([], [b])
  {
    assert [b][..0] == [];
    var none: seq<Button> := [];
    assert ExtractIf(none, j) == (none, none);
    assert none + [b] == [b];
  }

  lemma ExtractTwo(a: Button, b: Button, j: nat)
    requires j in a.lightsActivated && j !in b.lightsActivated
    ensures ExtractIf([a, b], j) == ([a], [b])
  {
    assert [a, b][..1] == [a];
    ExtractOne(a, j);
    var none: seq<Button> := [];
    assert none + [b] == [b];
  }

  lemma StuckGroups(b0: Button, b1: Button)
    requires b0.lightsActivated == {0, 1} && b1.lightsActivated == {0}
    ensures ExtractIf([b0, b1], 1) == ([b0], [b1]) && ExtractedGroup([b0, b1], 1) == [b0]
    ensures ExtractIf([b1], 0) == ([b1], []) && ExtractedGroup([b1], 0) == [b1]
  {
    ExtractTwo(b0, b1, 1);
    GroupOne([b0, b1], 1, b0);
    ExtractOne(b1, 0);
    GroupOne([b1], 0, b1);
  }

  /** Counter 1 has fewer buttons than counter 0, so it is taken first. */
  lemma StuckKeys(target: seq<nat>)
    requires |target| == 2 && target[0] == 1 && target[1] == 0
    ensures PriorityKey(map[0 := 2, 1 := 1], target)(0) < PriorityKey(map[0 := 2, 1 := 1], target)(1)
  {
    var counts := map[0 := 2, 1 := 1];
    assert 0 in counts && counts[0] == 2 && 1 in counts && counts[1] == 1;
    assert PriorityKey(counts, target)(0) == -(2 * JOLTAGE_SPAN + 1);
    assert PriorityKey(counts, target)(1) == -(1 * JOLTAGE_SPAN + 0);
  }

  /** The first round of the ordering picks counter 1 and its button. */
  lemma PairParts<T>(s: seq<T>)
    requires |s| == 2
    ensures s == [s[0], s[1]] == [s[0]] + [s[1]]
  {
  }

  lemma InitOfPair<T>(a: T, b: T)
    ensures [a, b][..1] == [a]
  {
  }

  lemma StuckFirstRound(target: seq<nat>, b0: Button, b1: Button)
    requires |target| == 2 && target[0] == 1 && target[1] == 0
    requires b0.lightsActivated == {0, 1} && b1.lightsActivated == {0}
    ensures SortFrom(target, [0, 1], [b0, b1]) == [b0] + SortFrom(target, [0], [b1])
  {
    var first: seq<nat> := [0, 1];
    var key := PriorityKey(CountsMap([b0, b1]), target);
    assert SortByKey(first, key) == first by {
      StuckCounts(b0, b1);
      StuckKeys(target);
      SortTwo<nat>(0, 1, PriorityKey(map[0 := 2, 1 := 1], target));
    }
    StuckGroups(b0, b1);
    SortFromUnfold(target, first, [b0, b1], first, [b0], [b1]);
    InitOfPair<nat>(0, 1);
  }

  /** The second round picks counter 0 and the other button. */
  lemma StuckSecondRound(target: seq<nat>, b0: Button, b1: Button)
    requires b0.lightsActivated == {0, 1} && b1.lightsActivated == {0}
    ensures SortFrom(target, [0], [b1]) == [b1]
  {
    var rest: seq<nat> := [0];
    var none: seq<Button> := [];
    assert SortByKey(rest, PriorityKey(CountsMap([b1]), target)) == rest by {
      SortOne<nat>(0, PriorityKey(CountsMap([b1]), target));
    }
    StuckGroups(b0, b1);
    SortFromUnfold(target, rest, [b1], rest, [b1], none);
    assert rest[..0] == [];
    assert SortFrom(target, [], none) == [];
  }

  /** The ordering keeps the machine's buttons as they are: counter 1 (one
      button, target 0) is taken first and brings the first button. */
  lemma StuckMachineOrder(m: Machine)
    requires IsStuckMachine(m)
    ensures SortedButtons(m) == m.buttons
  {
    var b0, b1, target := m.buttons[0], m.buttons[1], m.targetJoltage;
    var counters := Range(|target|);
    StuckButtonsOrder(target, counters, b0, b1);
    PairParts(m.buttons);
  }

  lemma StuckButtonsOrder(target: seq<nat>, counters: seq<nat>, b0: Button, b1: Button)
    requires |target| == 2 && target[0] == 1 && target[1] == 0
    requires |counters| == 2 && counters[0] == 0 && counters[1] == 1
    requires b0.lightsActivated == {0, 1} && b1.lightsActivated == {0}
    ensures SortFrom(target, counters, [b0, b1]) == [b0, b1]
  {
    PairParts(counters);
    StuckFirstRound(target, b0, b1);
    StuckSecondRound(target, b0, b1);
    PairParts([b0, b1]);
  }

  /** Its two buttons act on counters it has, and on at least one each. */
  lemma StuckWellFormed(m: Machine)
    requires IsStuckMachine(m)
    ensures CountersInRange(m.buttons, |m.targetJoltage|) && NonEmptyButtons(m.buttons)
  {
    assert 0 in m.buttons[0].lightsActivated && 0 in m.buttons[1].lightsActivated;
  }

  /** One press of the second button reaches the target. */
  lemma StuckSolved(m: Machine)
    requires IsStuckMachine(m)
    ensures Solves(m.targetJoltage, [m.buttons[1]])
  {
    var b1 := m.buttons[1];
    assert [b1][..0] == [];
    assert ButtonCount([b1], 0) == 1 && ButtonCount([b1], 1) == 0;
  }

  /** As written, `backtrack` returns as soon as the press of the button at
      the cursor is refused, without trying the next button: when the first
      ordered button acts on a counter whose target is already 0, the
      as-written search reports nothing, whatever the other buttons. */
  lemma AsWrittenGivesUp(m: Machine, i: nat)
    requires CountersInRange(m.buttons, |m.targetJoltage|)
    requires m.targetJoltage != Zeros(|m.targetJoltage|) && |SortedButtons(m)| > 0
    requires i in SortedButtons(m)[0].lightsActivated && i < |m.targetJoltage| && m.targetJoltage[i] == 0
    ensures BacktrackResult(AsWritten, m) == Err(EmptySolutionToExplore)
  {
    SortedCountersInRange(m);
    var zero, none := 0, USIZE_MAX;
    SearchEnds(AsWritten, SortedButtons(m), m.targetJoltage, zero, zero, none, false, map[]);
  }

  /** On the machine above the as-written search reports nothing, although
      one press solves it (`StuckSolved`). */
  lemma StuckAsWritten(m: Machine)
    requires IsStuckMachine(m)
    ensures CountersInRange(m.buttons, |m.targetJoltage|)
    ensures BacktrackResult(AsWritten, m) == Err(EmptySolutionToExplore)
  {
    StuckWellFormed(m);
    assert m.targetJoltage != Zeros(2) by {
      assert m.targetJoltage[0] != Zeros(2)[0];
    }
    StuckMachineOrder(m);
    AsWrittenGivesUp(m, 1);
  }

  /** The corrected search moves on to the second button and finds the
      single press. */
  lemma StuckCorrected(m: Machine)
    requires IsStuckMachine(m)
    ensures CountersInRange(m.buttons, |m.targetJoltage|)
    ensures BacktrackResult(Corrected, m) == Ok(1)
  {
    var b1 := m.buttons[1];
    StuckWellFormed(m);
    StuckSolved(m);
    CorrectedBacktrackOptimal(m, [b1]);
    var presses := BacktrackWitness(Corrected, m);
    assert ButtonCount(presses, 0) == 1;
  }
}
