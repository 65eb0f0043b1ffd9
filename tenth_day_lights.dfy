/** Day 10, light mode: a breadth-first search over panels for the fewest
    presses that light the target, and the proof that what it returns is
    both a solution and a shortest one. */
module TenthDayLights {
  import opened Common
  import opened TenthDay

  /** Every light a button lists exists on the panel (the source indexes the
      light vector with it and would panic otherwise). */
  predicate LightsInRange(m: Machine)
  {
    forall k, i :: 0 <= k < |m.buttons| && i in m.buttons[k].lightsActivated ==> i < |m.targetLights|
  }

  /** A press in light mode: exactly the listed lights change. */
  function Toggle(state: seq<bool>, lights: set<nat>): (r: seq<bool>)
    ensures |r| == |state|
    ensures forall i :: 0 <= i < |state| ==> (r[i] != state[i] <==> i in lights)
  {
    seq(|state|, i requires 0 <= i < |state| => if i in lights then !state[i] else state[i])
  }

  /** Pressing the same button twice restores the panel. */
  lemma ToggleTwice(state: seq<bool>, lights: set<nat>)
    ensures Toggle(Toggle(state, lights), lights) == state
  {
  }

  /** The order of two presses does not matter. */
  lemma ToggleCommutes(state: seq<bool>, a: set<nat>, b: set<nat>)
    ensures Toggle(Toggle(state, a), b) == Toggle(Toggle(state, b), a)
  {
  }

  /** The press itself: flips each listed light of a copy of the panel, in
      whatever order the set yields them. */
  method PressLights(state: seq<bool>, lights: set<nat>) returns (r: seq<bool>)
    requires forall i | i in lights :: i < |state|
    ensures r == Toggle(state, lights)
  {
    r := state;
    var remaining := lights;
    while remaining != {}
      invariant remaining <= lights && |r| == |state|
      invariant forall i :: 0 <= i < |state| ==> r[i] == (if i in lights - remaining then !state[i] else state[i])
      decreases |remaining|
    {
      var i :| i in remaining;
      r := r[i := !r[i]];
      remaining := remaining - {i};
    }
  }

  function AllOff(n: nat): (r: seq<bool>)
    ensures |r| == n && forall i :: 0 <= i < n ==> !r[i]
  {
    seq(n, _ => false)
  }

  /** A queue entry of the breadth-first search: the button indices pressed
      so far and the panel they produce. */
  datatype Node = Node(combination: seq<nat>, lights: seq<bool>)

  /** The security bound on the number of expanded nodes. */
  const ITERATION_LIMIT: nat := 10_000_000

  /** What expanding one node gives: a press sequence that reaches the
      target, or the grown queue and set of seen panels. */
  datatype Expansion = Found(combination: seq<nat>) | Expanded(queue: seq<Node>, explored: set<seq<bool>>)

  /** The inner loop of the search, from button `j` on: every button but the
      last one pressed gives a successor; the first successor equal to the
      target ends the search, and unseen ones are queued. */
  function ExpandNode(m: Machine, node: Node, j: nat, queue: seq<Node>, explored: set<seq<bool>>): (r: Expansion)
    requires j <= |m.buttons|
    decreases |m.buttons| - j
  {
    if j == |m.buttons| then Expanded(queue, explored)
    else
      var button := m.buttons[j];
      if |node.combination| > 0 && node.combination[|node.combination| - 1] == button.index then
        ExpandNode(m, node, j + 1, queue, explored)
      else
        var combination := node.combination + [button.index];
        var state := Toggle(node.lights, button.lightsActivated);
        if state == m.targetLights then Found(combination)
        else if state !in explored then
          ExpandNode(m, node, j + 1, queue + [Node(combination, state)], explored + {state})
        else ExpandNode(m, node, j + 1, queue, explored)
  }

  /** The outer loop of the search after `i` expansions. */
  function LightSearch(m: Machine, queue: seq<Node>, explored: set<seq<bool>>, i: nat): (r: Result<seq<nat>, ToggleSolutionError>)
    decreases ITERATION_LIMIT - i
  {
    if i >= ITERATION_LIMIT then Err(IterationLimitReached(i))
    else if |queue| == 0 then Err(EmptySolutionToExplore)
    else
      match ExpandNode(m, queue[0], 0, queue[1..], explored)
      case Found(combination) => Ok(combination)
      case Expanded(q, e) => LightSearch(m, q, e, i + 1)
  }

  /** The search as the source starts it: one node with no presses and the
      panel all off, and nothing seen yet. */
  function FastestLightsSearch(m: Machine): Result<seq<nat>, ToggleSolutionError>
  {
    LightSearch(m, [Node([], AllOff(|m.targetLights|))], {}, 0)
  }

  /** The panel after pressing the buttons at the given positions, in
      order, starting from `state`. */
  function PressAll(m: Machine, state: seq<bool>, presses: seq<nat>): (r: seq<bool>)
    requires forall k :: 0 <= k < |presses| ==> presses[k] < |m.buttons|
    ensures |r| == |state|
    decreases |presses|
  {
    if |presses| == 0 then state
    else
      var n := |presses| - 1;
      Toggle(PressAll(m, state, presses[..n]), m.buttons[presses[n]].lightsActivated)
  }

  /** A press sequence that turns the all-off panel into the target. */
  predicate Solves(m: Machine, presses: seq<nat>)
  {
    (forall k :: 0 <= k < |presses| ==> presses[k] < |m.buttons|)
    && PressAll(m, AllOff(|m.targetLights|), presses) == m.targetLights
  }

  predicate NoImmediateRepeat(presses: seq<nat>)
  {
    forall k :: 0 < k < |presses| ==> presses[k - 1] != presses[k]
  }

  /** What the search knows of each queued node: its panel is what its
      presses produce, and no press repeats the one before it. */
  predicate ValidNode(m: Machine, node: Node)
  {
    (forall k :: 0 <= k < |node.combination| ==> node.combination[k] < |m.buttons|)
    && PressAll(m, AllOff(|m.targetLights|), node.combination) == node.lights
    && NoImmediateRepeat(node.combination)
  }

  /** Pressing one more button extends a valid node. */
  lemma ValidNodeStep(m: Machine, node: Node, j: nat)
    requires IndexedInOrder(m.buttons) && ValidNode(m, node) && j < |m.buttons|
    requires |node.combination| > 0 ==> node.combination[|node.combination| - 1] != j
    ensures ValidNode(m, Node(node.combination + [j], Toggle(node.lights, m.buttons[j].lightsActivated)))
  {
    var c := node.combination + [j];
    assert c[..|c| - 1] == node.combination;
  }

  lemma {:induction false} ExpandNodeSound(m: Machine, node: Node, j: nat, queue: seq<Node>, explored: set<seq<bool>>)
    requires IndexedInOrder(m.buttons) && j <= |m.buttons| && ValidNode(m, node)
    requires forall q | q in queue :: ValidNode(m, q)
    ensures ExpandNode(m, node, j, queue, explored).Found? ==>
      Solves(m, ExpandNode(m, node, j, queue, explored).combination)
      && NoImmediateRepeat(ExpandNode(m, node, j, queue, explored).combination)
    ensures ExpandNode(m, node, j, queue, explored).Expanded? ==>
      forall q | q in ExpandNode(m, node, j, queue, explored).queue :: ValidNode(m, q)
    decreases |m.buttons| - j
  {
    if j < |m.buttons| {
      var button := m.buttons[j];
      if |node.combination| > 0 && node.combination[|node.combination| - 1] == button.index {
        ExpandNodeSound(m, node, j + 1, queue, explored);
      } else {
        ValidNodeStep(m, node, j);
        var next := Node(node.combination + [button.index], Toggle(node.lights, button.lightsActivated));
        if next.lights != m.targetLights {
          if next.lights !in explored {
            ExpandNodeSound(m, node, j + 1, queue + [next], explored + {next.lights});
          } else {
            ExpandNodeSound(m, node, j + 1, queue, explored);
          }
        }
      }
    }
  }

  /** Every press sequence the search returns reaches the target and never
      presses the same button twice in a row. */
  lemma {:induction false} LightSearchSound(m: Machine, queue: seq<Node>, explored: set<seq<bool>>, i: nat)
    requires IndexedInOrder(m.buttons)
    requires forall q | q in queue :: ValidNode(m, q)
    ensures LightSearch(m, queue, explored, i).Ok? ==>
      Solves(m, LightSearch(m, queue, explored, i).value) && NoImmediateRepeat(LightSearch(m, queue, explored, i).value)
    decreases ITERATION_LIMIT - i
  {
    if i < ITERATION_LIMIT && |queue| > 0 {
      assert forall q | q in queue[1..] :: q in queue;
      ExpandNodeSound(m, queue[0], 0, queue[1..], explored);
      match ExpandNode(m, queue[0], 0, queue[1..], explored)
      case Found(_) =>
      case Expanded(q, e) => LightSearchSound(m, q, e, i + 1);
    }
  }

  /** The search only gives up on the bound after exactly that many
      expansions. */
  lemma {:induction false} LightSearchLimit(m: Machine, queue: seq<Node>, explored: set<seq<bool>>, i: nat)
    requires i <= ITERATION_LIMIT
    ensures LightSearch(m, queue, explored, i) == Err(IterationLimitReached(ITERATION_LIMIT)) ||
            LightSearch(m, queue, explored, i) == Err(EmptySolutionToExplore) ||
            LightSearch(m, queue, explored, i).Ok?
    decreases ITERATION_LIMIT - i
  {
    if i < ITERATION_LIMIT && |queue| > 0 {
      match ExpandNode(m, queue[0], 0, queue[1..], explored)
      case Found(_) =>
      case Expanded(q, e) => LightSearchLimit(m, q, e, i + 1);
    }
  }

  // ---------------------------------------------------------------------
  // The breadth-first search returns a shortest press sequence

  /** The panel the search starts from. */
  function Off(m: Machine): (r: seq<bool>)
    ensures |r| == |m.targetLights|
  {
    AllOff(|m.targetLights|)
  }

  /** Press positions that name buttons of the machine. */
  predicate InButtons(m: Machine, p: seq<nat>)
  {
    forall k :: 0 <= k < |p| ==> p[k] < |m.buttons|
  }

  /** A panel the search has met: one it recorded as seen, or the all-off
      panel it starts from (which it never records). */
  predicate Seen(m: Machine, explored: set<seq<bool>>, s: seq<bool>)
  {
    s in explored || s == Off(m)
  }

  /** Every press from panel `s` leads to a panel met. */
  predicate SuccessorsSeen(m: Machine, explored: set<seq<bool>>, s: seq<bool>)
  {
    forall x :: 0 <= x < |m.buttons| ==> Seen(m, explored, Toggle(s, m.buttons[x].lightsActivated))
  }

  predicate Queued(queue: seq<Node>, s: seq<bool>)
  {
    exists i :: 0 <= i < |queue| && queue[i].lights == s
  }

  predicate QueuedAt(queue: seq<Node>, depth: nat, s: seq<bool>)
  {
    exists i :: 0 <= i < |queue| && |queue[i].combination| == depth && queue[i].lights == s
  }

  /** The queue holds valid nodes with `depth` presses, then nodes with
      `depth + 1` presses. */
  predicate Layered(m: Machine, queue: seq<Node>, depth: nat)
  {
    && (forall i :: 0 <= i < |queue| ==> ValidNode(m, queue[i]) && depth <= |queue[i].combination| <= depth + 1)
    && (forall i, j :: 0 <= i < j < |queue| ==> |queue[i].combination| <= |queue[j].combination|)
  }

  /** Every panel at most `depth` presses away has been met. */
  ghost predicate MetWithin(m: Machine, explored: set<seq<bool>>, depth: nat)
  {
    forall p | InButtons(m, p) && |p| <= depth :: Seen(m, explored, PressAll(m, Off(m), p))
  }

  /** Every panel exactly `depth` presses away still waits in the queue at
      that depth, or all its successors have been met. */
  ghost predicate LevelDone(m: Machine, queue: seq<Node>, explored: set<seq<bool>>, depth: nat)
  {
    forall p | InButtons(m, p) && |p| == depth ::
      QueuedAt(queue, depth, PressAll(m, Off(m), p)) || SuccessorsSeen(m, explored, PressAll(m, Off(m), p))
  }

  /** Every panel met still waits in the queue, or all its successors have
      been met. */
  predicate MetDone(m: Machine, queue: seq<Node>, explored: set<seq<bool>>)
  {
    && (forall s {:trigger SuccessorsSeen(m, explored, s)} | s in explored :: Queued(queue, s) || SuccessorsSeen(m, explored, s))
    && (Queued(queue, Off(m)) || SuccessorsSeen(m, explored, Off(m)))
  }

  /** A queued panel other than all-off is reached by no shorter sequence. */
  ghost predicate FirstMet(m: Machine, queue: seq<Node>)
  {
    forall i, p | 0 <= i < |queue| && InButtons(m, p) && |p| < |queue[i].combination| && queue[i].lights != Off(m) ::
      PressAll(m, Off(m), p) != queue[i].lights
  }

  /** What the search knows when the head of its queue is `depth` presses
      deep; the target is never recorded, since meeting it ends the search. */
  ghost predicate BreadthFirst(m: Machine, queue: seq<Node>, explored: set<seq<bool>>, depth: nat)
  {
    && m.targetLights !in explored
    && Layered(m, queue, depth)
    && MetWithin(m, explored, depth)
    && LevelDone(m, queue, explored, depth)
    && MetDone(m, queue, explored)
    && FirstMet(m, queue)
  }

  /** Expanding `node` skips `button`: it was the last one pressed. */
  predicate Skips(node: Node, button: Button)
  {
    |node.combination| > 0 && node.combination[|node.combination| - 1] == button.index
  }

  /** What an expansion of `node` does to the queue and the recorded panels:
      the old queue stays in front, each node added is one press deeper and
      brings a panel newly recorded, each panel newly recorded comes with an
      added node, and the target is not among them. */
  predicate Grown(m: Machine, node: Node, queue: seq<Node>, explored: set<seq<bool>>,
                  queue': seq<Node>, explored': set<seq<bool>>)
  {
    && explored <= explored'
    && |queue| <= |queue'| && queue'[..|queue|] == queue
    && (forall i | |queue| <= i < |queue'| ::
          |queue'[i].combination| == |node.combination| + 1 && queue'[i].lights !in explored && queue'[i].lights in explored')
    && (forall s | s in explored' && s !in explored :: exists i :: |queue| <= i < |queue'| && queue'[i].lights == s)
    && (m.targetLights in explored' ==> m.targetLights in explored)
  }

  /** Every press from button `j` on that the expansion does not skip leads
      to a recorded panel. */
  predicate PressedFrom(m: Machine, node: Node, j: nat, explored: set<seq<bool>>)
  {
    forall x | j <= x < |m.buttons| ::
      Skips(node, m.buttons[x]) || Toggle(node.lights, m.buttons[x].lightsActivated) in explored
  }

  lemma GrownAfterAdd(m: Machine, node: Node, queue: seq<Node>, explored: set<seq<bool>>, next: Node,
                      queue': seq<Node>, explored': set<seq<bool>>)
    requires next.lights !in explored && next.lights != m.targetLights
    requires |next.combination| == |node.combination| + 1
    requires Grown(m, node, queue + [next], explored + {next.lights}, queue', explored')
    ensures Grown(m, node, queue, explored, queue', explored')
  {
    assert queue'[..|queue|] == (queue'[..|queue| + 1])[..|queue|];
    assert (queue + [next])[..|queue|] == queue;
    assert queue'[|queue|] == (queue'[..|queue| + 1])[|queue|];
    forall s | s in explored' && s !in explored
      ensures exists i :: |queue| <= i < |queue'| && queue'[i].lights == s
    {
      if s == next.lights {
        assert queue'[|queue|].lights == s;
      }
    }
  }

  /** One expansion: a found sequence is one press longer than the node and
      reaches the target; otherwise the queue and the recorded panels grow
      as `Grown` says and every press not skipped is recorded. */
  lemma {:induction false} ExpandNodeGrows(m: Machine, node: Node, j: nat, queue: seq<Node>, explored: set<seq<bool>>)
    requires j <= |m.buttons|
    ensures ExpandNode(m, node, j, queue, explored).Found? ==>
      exists x :: j <= x < |m.buttons|
        && ExpandNode(m, node, j, queue, explored).combination == node.combination + [m.buttons[x].index]
        && Toggle(node.lights, m.buttons[x].lightsActivated) == m.targetLights
    ensures ExpandNode(m, node, j, queue, explored).Expanded? ==>
      var r := ExpandNode(m, node, j, queue, explored);
      Grown(m, node, queue, explored, r.queue, r.explored) && PressedFrom(m, node, j, r.explored)
    decreases |m.buttons| - j
  {
    if j == |m.buttons| {
      assert queue[..|queue|] == queue;
    } else {
      var button := m.buttons[j];
      var state := Toggle(node.lights, button.lightsActivated);
      if Skips(node, button) {
        ExpandNodeGrows(m, node, j + 1, queue, explored);
      } else if state == m.targetLights {
      } else if state !in explored {
        var next := Node(node.combination + [button.index], state);
        ExpandNodeGrows(m, node, j + 1, queue + [next], explored + {state});
        var r := ExpandNode(m, node, j + 1, queue + [next], explored + {state});
        if r.Expanded? {
          GrownAfterAdd(m, node, queue, explored, next, r.queue, r.explored);
        }
      } else {
        ExpandNodeGrows(m, node, j + 1, queue, explored);
      }
    }
  }

  /** The sequence one press short of a node's reaches its panel minus the
      last press. */
  lemma PressParent(m: Machine, node: Node)
    requires ValidNode(m, node) && |node.combination| > 0
    ensures var c := node.combination;
      Toggle(node.lights, m.buttons[c[|c| - 1]].lightsActivated) == PressAll(m, Off(m), c[..|c| - 1])
  {
    var c := node.combination;
    ToggleTwice(PressAll(m, Off(m), c[..|c| - 1]), m.buttons[c[|c| - 1]].lightsActivated);
  }

  /** Once the head is expanded, all its successors have been met: the
      skipped one is the panel of its parent, at most `depth` presses away. */
  lemma HeadExpanded(m: Machine, node: Node, depth: nat, explored: set<seq<bool>>, explored': set<seq<bool>>)
    requires IndexedInOrder(m.buttons) && ValidNode(m, node) && |node.combination| == depth
    requires MetWithin(m, explored, depth)
    requires explored <= explored' && PressedFrom(m, node, 0, explored')
    ensures SuccessorsSeen(m, explored', node.lights)
  {
    forall x | 0 <= x < |m.buttons|
      ensures Seen(m, explored', Toggle(node.lights, m.buttons[x].lightsActivated))
    {
      if Skips(node, m.buttons[x]) {
        var c := node.combination;
        PressParent(m, node);
        assert InButtons(m, c[..|c| - 1]);
        assert Seen(m, explored, PressAll(m, Off(m), c[..|c| - 1]));
      }
    }
  }

  lemma ExpansionLayered(m: Machine, queue: seq<Node>, depth: nat, queue': seq<Node>, explored: set<seq<bool>>,
                         explored': set<seq<bool>>)
    requires Layered(m, queue, depth) && |queue| > 0 && |queue[0].combination| == depth
    requires Grown(m, queue[0], queue[1..], explored, queue', explored')
    requires forall q | q in queue' :: ValidNode(m, q)
    ensures Layered(m, queue', depth)
  {
    var n := |queue| - 1;
    assert forall i :: 0 <= i < n ==> queue'[i] == queue[i + 1];
    forall i | 0 <= i < |queue'| ensures ValidNode(m, queue'[i]) {
      assert queue'[i] in queue';
    }
  }

  /** A panel that waited or had all its successors met still does, once
      the head is expanded. */
  lemma WaitingKept(m: Machine, queue: seq<Node>, explored: set<seq<bool>>, queue': seq<Node>,
                    explored': set<seq<bool>>, s: seq<bool>)
    requires |queue| > 0 && explored <= explored' && SuccessorsSeen(m, explored', queue[0].lights)
    requires |queue| - 1 <= |queue'| && queue'[..|queue| - 1] == queue[1..]
    requires Queued(queue, s) || SuccessorsSeen(m, explored, s)
    ensures Queued(queue', s) || SuccessorsSeen(m, explored', s)
  {
    if Queued(queue, s) {
      var i :| 0 <= i < |queue| && queue[i].lights == s;
      if i > 0 {
        assert queue'[i - 1] == queue[i];
      }
    }
  }

  lemma ExpansionLevelDone(m: Machine, queue: seq<Node>, explored: set<seq<bool>>, depth: nat,
                           queue': seq<Node>, explored': set<seq<bool>>)
    requires LevelDone(m, queue, explored, depth)
    requires |queue| > 0 && explored <= explored' && SuccessorsSeen(m, explored', queue[0].lights)
    requires |queue| - 1 <= |queue'| && queue'[..|queue| - 1] == queue[1..]
    ensures LevelDone(m, queue', explored', depth)
  {
    forall p | InButtons(m, p) && |p| == depth
      ensures QueuedAt(queue', depth, PressAll(m, Off(m), p)) || SuccessorsSeen(m, explored', PressAll(m, Off(m), p))
    {
      var s := PressAll(m, Off(m), p);
      if QueuedAt(queue, depth, s) {
        var i :| 0 <= i < |queue| && |queue[i].combination| == depth && queue[i].lights == s;
        if i > 0 {
          assert queue'[i - 1] == queue[i];
        }
      }
    }
  }

  lemma ExpansionMetDone(m: Machine, queue: seq<Node>, explored: set<seq<bool>>, queue': seq<Node>,
                         explored': set<seq<bool>>)
    requires MetDone(m, queue, explored)
    requires |queue| > 0 && Grown(m, queue[0], queue[1..], explored, queue', explored')
    requires SuccessorsSeen(m, explored', queue[0].lights)
    ensures MetDone(m, queue', explored')
  {
    forall s | s in explored' ensures Queued(queue', s) || SuccessorsSeen(m, explored', s) {
      if s in explored {
        WaitingKept(m, queue, explored, queue', explored', s);
      } else {
        var i :| |queue| - 1 <= i < |queue'| && queue'[i].lights == s;
      }
    }
    WaitingKept(m, queue, explored, queue', explored', Off(m));
  }

  lemma ExpansionFrontier(m: Machine, queue: seq<Node>, explored: set<seq<bool>>, depth: nat,
                          queue': seq<Node>, explored': set<seq<bool>>)
    requires IndexedInOrder(m.buttons) && BreadthFirst(m, queue, explored, depth)
    requires |queue| > 0 && |queue[0].combination| == depth
    requires Grown(m, queue[0], queue[1..], explored, queue', explored') && PressedFrom(m, queue[0], 0, explored')
    ensures LevelDone(m, queue', explored', depth) && MetDone(m, queue', explored')
  {
    HeadExpanded(m, queue[0], depth, explored, explored');
    ExpansionLevelDone(m, queue, explored, depth, queue', explored');
    ExpansionMetDone(m, queue, explored, queue', explored');
  }

  lemma ExpansionFirstMet(m: Machine, queue: seq<Node>, explored: set<seq<bool>>, depth: nat,
                          queue': seq<Node>, explored': set<seq<bool>>)
    requires FirstMet(m, queue) && MetWithin(m, explored, depth)
    requires |queue| > 0 && |queue[0].combination| == depth
    requires Grown(m, queue[0], queue[1..], explored, queue', explored')
    ensures FirstMet(m, queue')
  {
    var n := |queue| - 1;
    assert forall i :: 0 <= i < n ==> queue'[i] == queue[i + 1];
  }

  /** Expanding the head of the queue keeps everything the search knows. */
  lemma ExpansionKeeps(m: Machine, queue: seq<Node>, explored: set<seq<bool>>, depth: nat,
                       queue': seq<Node>, explored': set<seq<bool>>)
    requires IndexedInOrder(m.buttons) && BreadthFirst(m, queue, explored, depth)
    requires |queue| > 0 && |queue[0].combination| == depth
    requires Grown(m, queue[0], queue[1..], explored, queue', explored') && PressedFrom(m, queue[0], 0, explored')
    requires forall q | q in queue' :: ValidNode(m, q)
    ensures BreadthFirst(m, queue', explored', depth)
  {
    ExpansionLayered(m, queue, depth, queue', explored, explored');
    ExpansionFrontier(m, queue, explored, depth, queue', explored');
    ExpansionFirstMet(m, queue, explored, depth, queue', explored');
  }

  lemma AllDeeper(m: Machine, queue: seq<Node>, depth: nat)
    requires Layered(m, queue, depth)
    requires |queue| == 0 || |queue[0].combination| == depth + 1
    ensures forall i :: 0 <= i < |queue| ==> |queue[i].combination| == depth + 1
  {
    forall i | 0 <= i < |queue| ensures |queue[i].combination| == depth + 1 {
      if i > 0 {
        assert |queue[0].combination| <= |queue[i].combination|;
      }
    }
  }

  lemma MetOneDeeper(m: Machine, queue: seq<Node>, explored: set<seq<bool>>, depth: nat)
    requires MetWithin(m, explored, depth) && LevelDone(m, queue, explored, depth)
    requires forall i :: 0 <= i < |queue| ==> |queue[i].combination| == depth + 1
    ensures MetWithin(m, explored, depth + 1)
  {
    forall p | InButtons(m, p) && |p| == depth + 1
      ensures Seen(m, explored, PressAll(m, Off(m), p))
    {
      var parent := p[..depth];
      assert InButtons(m, parent);
      assert !QueuedAt(queue, depth, PressAll(m, Off(m), parent));
    }
  }

  lemma LevelDoneDeeper(m: Machine, queue: seq<Node>, explored: set<seq<bool>>, depth: nat)
    requires MetWithin(m, explored, depth + 1) && MetDone(m, queue, explored)
    requires forall i :: 0 <= i < |queue| ==> |queue[i].combination| == depth + 1
    ensures LevelDone(m, queue, explored, depth + 1)
  {
    forall p | InButtons(m, p) && |p| == depth + 1
      ensures QueuedAt(queue, depth + 1, PressAll(m, Off(m), p)) || SuccessorsSeen(m, explored, PressAll(m, Off(m), p))
    {
      var s := PressAll(m, Off(m), p);
      assert Seen(m, explored, s);
      if Queued(queue, s) {
        var i :| 0 <= i < |queue| && queue[i].lights == s;
        assert |queue[i].combination| == depth + 1;
      }
    }
  }

  /** When no node of `depth` presses is left, the search knows everything
      one level deeper. */
  lemma LevelUp(m: Machine, queue: seq<Node>, explored: set<seq<bool>>, depth: nat)
    requires BreadthFirst(m, queue, explored, depth)
    requires |queue| == 0 || |queue[0].combination| == depth + 1
    ensures BreadthFirst(m, queue, explored, depth + 1)
  {
    AllDeeper(m, queue, depth);
    MetOneDeeper(m, queue, explored, depth);
    LevelDoneDeeper(m, queue, explored, depth);
  }

  /** The panel one press away from all-off. */
  lemma PressOne(m: Machine, x: nat)
    requires x < |m.buttons|
    ensures InButtons(m, [x]) && PressAll(m, Off(m), [x]) == Toggle(Off(m), m.buttons[x].lightsActivated)
  {
    assert [x][..0] == [];
  }

  /** A panel never met is more than `depth` presses away. */
  lemma BeyondMet(m: Machine, explored: set<seq<bool>>, depth: nat, p: seq<nat>)
    requires MetWithin(m, explored, depth) && InButtons(m, p)
    requires !Seen(m, explored, PressAll(m, Off(m), p))
    ensures |p| > depth
  {
  }

  /** With the target all off, no single press reaches it once the first
      expansion has recorded every panel one press away. */
  lemma NoSinglePress(m: Machine, explored: set<seq<bool>>, p: seq<nat>)
    requires forall z | 0 <= z < |m.buttons| :: Toggle(Off(m), m.buttons[z].lightsActivated) in explored
    requires m.targetLights !in explored && Solves(m, p) && |p| >= 1
    ensures |p| >= 2
  {
    var first := [p[0]];
    PressOne(m, p[0]);
    assert |p| == 1 ==> p == first;
  }

  /** With the target all off, it is only found from a node at most one
      press deep: a deeper node's panel is one press from all-off, and so
      was met first one press away. */
  lemma FoundShallow(m: Machine, queue: seq<Node>, explored: set<seq<bool>>, x: nat)
    requires forall z | 0 <= z < |m.buttons| :: Toggle(Off(m), m.buttons[z].lightsActivated) in explored
    requires m.targetLights !in explored && m.targetLights == Off(m) && FirstMet(m, queue)
    requires |queue| > 0 && x < |m.buttons| && Toggle(queue[0].lights, m.buttons[x].lightsActivated) == m.targetLights
    ensures |queue[0].combination| <= 1
  {
    var node := queue[0];
    var lights := m.buttons[x].lightsActivated;
    PressOne(m, x);
    ToggleTwice(node.lights, lights);
    assert node.lights == PressAll(m, Off(m), [x]);
    assert Toggle(Off(m), lights) in explored;
  }

  /** A sequence found while expanding a node `depth` presses deep is no
      longer than any other (of one press or more) that reaches the target. */
  lemma FoundIsShortest(m: Machine, queue: seq<Node>, explored: set<seq<bool>>, depth: nat, x: nat, p: seq<nat>)
    requires BreadthFirst(m, queue, explored, depth) && depth >= 1
    requires forall z | 0 <= z < |m.buttons| :: Toggle(Off(m), m.buttons[z].lightsActivated) in explored
    requires |queue| > 0 && |queue[0].combination| == depth
    requires x < |m.buttons| && Toggle(queue[0].lights, m.buttons[x].lightsActivated) == m.targetLights
    requires Solves(m, p) && |p| >= 1
    ensures depth + 1 <= |p|
  {
    if m.targetLights != Off(m) {
      BeyondMet(m, explored, depth, p);
    } else {
      NoSinglePress(m, explored, p);
      FoundShallow(m, queue, explored, x);
    }
  }

  /** Expanding the head, `depth` presses deep: a sequence found is no
      longer than any that reaches the target, and otherwise everything the
      search knows is kept. */
  lemma ExpandHead(m: Machine, queue: seq<Node>, explored: set<seq<bool>>, depth: nat, p: seq<nat>)
    requires IndexedInOrder(m.buttons) && BreadthFirst(m, queue, explored, depth) && depth >= 1
    requires forall z | 0 <= z < |m.buttons| :: Toggle(Off(m), m.buttons[z].lightsActivated) in explored
    requires |queue| > 0 && |queue[0].combination| == depth
    requires Solves(m, p) && |p| >= 1
    ensures var r := ExpandNode(m, queue[0], 0, queue[1..], explored);
      && (r.Found? ==> |r.combination| <= |p|)
      && (r.Expanded? ==> BreadthFirst(m, r.queue, r.explored, depth) && explored <= r.explored)
  {
    var node := queue[0];
    assert forall q | q in queue[1..] :: q in queue;
    assert ValidNode(m, node);
    ExpandNodeGrows(m, node, 0, queue[1..], explored);
    ExpandNodeSound(m, node, 0, queue[1..], explored);
    match ExpandNode(m, node, 0, queue[1..], explored)
    case Found(c) =>
      var x :| 0 <= x < |m.buttons| && c == node.combination + [m.buttons[x].index]
               && Toggle(node.lights, m.buttons[x].lightsActivated) == m.targetLights;
      FoundIsShortest(m, queue, explored, depth, x, p);
    case Expanded(q, e) =>
      ExpansionKeeps(m, queue, explored, depth, q, e);
  }

  /** Each expansion of the search after the first keeps the shortest
      answer within reach. */
  lemma {:induction false} LightSearchShortest(m: Machine, queue: seq<Node>, explored: set<seq<bool>>, i: nat,
                                               depth: nat, p: seq<nat>)
    requires IndexedInOrder(m.buttons) && BreadthFirst(m, queue, explored, depth) && depth >= 1
    requires forall z | 0 <= z < |m.buttons| :: Toggle(Off(m), m.buttons[z].lightsActivated) in explored
    requires Solves(m, p) && |p| >= 1
    ensures LightSearch(m, queue, explored, i).Ok? ==> |LightSearch(m, queue, explored, i).value| <= |p|
    decreases ITERATION_LIMIT - i, if |queue| > 0 && |queue[0].combination| > depth then 2 else 1
  {
    if i < ITERATION_LIMIT && |queue| > 0 {
      if |queue[0].combination| > depth {
        LevelUp(m, queue, explored, depth);
        LightSearchShortest(m, queue, explored, i, depth + 1, p);
      } else {
        ExpansionShortest(m, queue, explored, i, depth, p);
      }
    }
  }

  /** The same, when the head of the queue is the one expanded next. */
  lemma {:induction false} ExpansionShortest(m: Machine, queue: seq<Node>, explored: set<seq<bool>>, i: nat,
                                             depth: nat, p: seq<nat>)
    requires IndexedInOrder(m.buttons) && BreadthFirst(m, queue, explored, depth) && depth >= 1
    requires forall z | 0 <= z < |m.buttons| :: Toggle(Off(m), m.buttons[z].lightsActivated) in explored
    requires Solves(m, p) && |p| >= 1
    requires i < ITERATION_LIMIT && |queue| > 0 && |queue[0].combination| <= depth
    ensures LightSearch(m, queue, explored, i).Ok? ==> |LightSearch(m, queue, explored, i).value| <= |p|
    decreases ITERATION_LIMIT - i, 0
  {
    ExpandHead(m, queue, explored, depth, p);
    match ExpandNode(m, queue[0], 0, queue[1..], explored)
    case Found(c) =>
    case Expanded(q, e) =>
      LightSearchShortest(m, q, e, i + 1, depth, p);
  }

  lemma BreadthFirstStart(m: Machine)
    ensures BreadthFirst(m, [Node([], Off(m))], {}, 0)
  {
    var start := Node([], Off(m));
    assert [start][0].lights == Off(m) && |[start][0].combination| == 0;
    assert QueuedAt([start], 0, Off(m));
    forall p | InButtons(m, p) && |p| == 0
      ensures QueuedAt([start], 0, PressAll(m, Off(m), p))
    {
    }
  }

  /** The search returns a shortest press sequence: none of one press or
      more that reaches the target is shorter (the empty sequence is never
      considered, since the starting panel is not tested). */
  lemma FastestLightsSearchShortest(m: Machine, p: seq<nat>)
    requires IndexedInOrder(m.buttons) && Solves(m, p) && |p| >= 1
    ensures FastestLightsSearch(m).Ok? ==> |FastestLightsSearch(m).value| <= |p|
  {
    var start := Node([], Off(m));
    BreadthFirstStart(m);
    assert ValidNode(m, start);
    ExpandNodeGrows(m, start, 0, [], {});
    ExpandNodeSound(m, start, 0, [], {});
    assert [start][1..] == [];
    match ExpandNode(m, start, 0, [], {})
    case Found(c) =>
    case Expanded(q, e) =>
      ExpansionKeeps(m, [start], {}, 0, q, e);
      LevelUp(m, q, e, 0);
      LightSearchShortest(m, q, e, 1, 1, p);
  }

  lemma FastestLightsSearchSound(m: Machine)
    ensures IndexedInOrder(m.buttons) && FastestLightsSearch(m).Ok? ==>
      Solves(m, FastestLightsSearch(m).value) && NoImmediateRepeat(FastestLightsSearch(m).value)
    ensures IndexedInOrder(m.buttons) && FastestLightsSearch(m).Ok? ==>
      forall p | Solves(m, p) && |p| >= 1 :: |FastestLightsSearch(m).value| <= |p|
    ensures FastestLightsSearch(m).Err? && FastestLightsSearch(m).error.IterationLimitReached? ==>
      FastestLightsSearch(m).error.iterations == ITERATION_LIMIT
  {
    var start := Node([], AllOff(|m.targetLights|));
    if IndexedInOrder(m.buttons) {
      assert ValidNode(m, start);
      LightSearchSound(m, [start], {}, 0);
      forall p | Solves(m, p) && |p| >= 1
        ensures FastestLightsSearch(m).Ok? ==> |FastestLightsSearch(m).value| <= |p|
      {
        FastestLightsSearchShortest(m, p);
      }
    }
    LightSearchLimit(m, [start], {}, 0);
  }

  /** `find_fastest_way_to_toogle_light_panel`: a breadth-first search with a
      FIFO queue, a set of seen panels and an expansion counter. */
  method FindFastestWayToToggleLightPanel(m: Machine) returns (r: Result<seq<nat>, ToggleSolutionError>)
    requires LightsInRange(m)
    ensures r == FastestLightsSearch(m)
    ensures IndexedInOrder(m.buttons) && r.Ok? ==> Solves(m, r.value) && NoImmediateRepeat(r.value)
    ensures IndexedInOrder(m.buttons) && r.Ok? ==> forall p | Solves(m, p) && |p| >= 1 :: |r.value| <= |p|
    ensures r.Err? && r.error.IterationLimitReached? ==> r.error.iterations == ITERATION_LIMIT
  {
    var queue := [Node([], AllOff(|m.targetLights|))];
    var explored: set<seq<bool>> := {};
    var i := 0;
    while i < ITERATION_LIMIT
      invariant i <= ITERATION_LIMIT
      invariant forall q | q in queue :: |q.lights| == |m.targetLights|
      invariant LightSearch(m, queue, explored, i) == FastestLightsSearch(m)
      decreases ITERATION_LIMIT - i
    {
      if |queue| == 0 {
        FastestLightsSearchSound(m);
        return Err(EmptySolutionToExplore);
      }
      var node := queue[0];
      ghost var expansion := ExpandNode(m, node, 0, queue[1..], explored);
      assert forall q | q in queue[1..] :: q in queue;
      queue := queue[1..];
      var j := 0;
      while j < |m.buttons|
        invariant j <= |m.buttons|
        invariant forall q | q in queue :: |q.lights| == |m.targetLights|
        invariant ExpandNode(m, node, j, queue, explored) == expansion
        decreases |m.buttons| - j
      {
        var button := m.buttons[j];
        if !(|node.combination| > 0 && node.combination[|node.combination| - 1] == button.index) {
          var combination := node.combination + [button.index];
          var state := PressLights(node.lights, button.lightsActivated);
          if state == m.targetLights {
            FastestLightsSearchSound(m);
            return Ok(combination);
          } else if state !in explored {
            explored := explored + {state};
            queue := queue + [Node(combination, state)];
          }
        }
        j := j + 1;
      }
      i := i + 1;
    }
    r := Err(IterationLimitReached(i));
    FastestLightsSearchSound(m);
  }
}
