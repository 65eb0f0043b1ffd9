/** Day 10, the ordering of the example machine
    `[.##.] (3) (1,3) (2) (2,3) (0,2) (0,1) {3,5,4,7}`, worked out round by
    round: each round counts the buttons per counter, sorts the counters,
    takes the last one and moves its buttons, largest first. */
module TenthDayOrdering {
  import opened Common
  import opened TenthDay

  /** The joltage targets of the example machine. */
  const EXAMPLE_TARGET: seq<nat> := [3, 5, 4, 7]

  /** Keys strictly decreasing along the sequence. */
  predicate Decreasing<T>(s: seq<T>, key: T -> int)
  {
    forall i, j :: 0 <= i < j < |s| ==> key(s[i]) > key(s[j])
  }

  /** Keys strictly decreasing along `s`: sorting reverses it. */
  lemma {:induction false} SortDecreasing<T>(s: seq<T>, key: T -> int)
    requires Decreasing(s, key)
    ensures SortByKey(s, key) == Reversed(s)
    decreases |s|
  {
    if |s| > 0 {
      var n := |s| - 1;
      var init := s[..n];
      assert init + [s[n]] == s;
      assert Reversed(s) == [s[n]] + Reversed(init);
      DecreasingInit(s, key);
      SortDecreasing(init, key);
      SortByKeySnoc(init, s[n], key);
      DecreasingLastBelow(s, key);
      InsertByKeyFirst(Reversed(init), s[n], key);
    }
  }

  /** Dropping the last element keeps the keys strictly decreasing. */
  lemma DecreasingInit<T>(s: seq<T>, key: T -> int)
    requires |s| > 0 && Decreasing(s, key)
    ensures Decreasing(s[..|s| - 1], key)
  {
    var init := s[..|s| - 1];
    forall i, j | 0 <= i < j < |init| ensures key(init[i]) > key(init[j]) {
      assert init[i] == s[i] && init[j] == s[j];
    }
  }

  /** The last element has the smallest key. */
  lemma DecreasingLastBelow<T>(s: seq<T>, key: T -> int)
    requires |s| > 0 && Decreasing(s, key)
    ensures var r := Reversed(s[..|s| - 1]); forall i :: 0 <= i < |r| ==> key(s[|s| - 1]) < key(r[i])
  {
    var n := |s| - 1;
    var r := Reversed(s[..n]);
    forall i | 0 <= i < |r| ensures key(s[n]) < key(r[i]) {
      assert r[i] == s[n - 1 - i];
    }
  }

  /** Round one: counters 0 to 3 with 2, 2, 3 and 3 buttons sort as 3, 2, 1, 0. */
  lemma SortRound1(counts: map<nat, nat>)
    requires 0 in counts && 1 in counts && 2 in counts && 3 in counts
    requires counts[0] == 2 && counts[1] == 2 && counts[2] == 3 && counts[3] == 3
    ensures var js: seq<nat> := [0, 1, 2, 3]; SortByKey(js, PriorityKey(counts, EXAMPLE_TARGET)) == [3, 2, 1, 0]
  {
    var js: seq<nat> := [0, 1, 2, 3];
    DecreasingRound1(counts, js);
    SortDecreasing(js, PriorityKey(counts, EXAMPLE_TARGET));
    ReversedFour(js);
  }

  /** With those counts the keys of counters 0 to 3 strictly decrease. */
  lemma DecreasingRound1(counts: map<nat, nat>, js: seq<nat>)
    requires 0 in counts && 1 in counts && 2 in counts && 3 in counts
    requires counts[0] == 2 && counts[1] == 2 && counts[2] == 3 && counts[3] == 3
    requires js == [0, 1, 2, 3]
    ensures Decreasing(js, PriorityKey(counts, EXAMPLE_TARGET))
  {
    var key := PriorityKey(counts, EXAMPLE_TARGET);
    assert key(0) > key(1) > key(2) > key(3);
  }

  lemma ReversedFour(js: seq<nat>)
    requires js == [0, 1, 2, 3]
    ensures Reversed(js) == [3, 2, 1, 0]
  {
    var r := Reversed(js);
    assert r[0] == 3 && r[1] == 2 && r[2] == 1 && r[3] == 0;
  }

  /** `ExtractIf` on one more button at the end, from a known split of the rest. */
  lemma ExtractStep(s: seq<Button>, b: Button, j: nat, e0: seq<Button>, e1: seq<Button>, t: seq<Button>)
    requires ExtractIf(s, j) == (e0, e1) && t == s + [b]
    ensures ExtractIf(t, j) == if j in b.lightsActivated then (e0 + [b], e1) else (e0, e1 + [b])
  {
    assert t[..|s|] == s;
  }

  /** No button acts on `j`: nothing is extracted and all are kept. */
  lemma {:induction false} ExtractIfNone(s: seq<Button>, j: nat)
    requires forall b | b in s :: j !in b.lightsActivated
    ensures ExtractIf(s, j) == ([], s)
    decreases |s|
  {
    if |s| > 0 {
      var n := |s| - 1;
      assert forall b | b in s[..n] :: b in s;
      ExtractIfNone(s[..n], j);
      assert s == s[..n] + [s[n]];
    }
  }

  /** Two extracted buttons already in size order come out the other way round. */
  lemma GroupOfTwo(buttons: seq<Button>, j: nat)
    requires |ExtractIf(buttons, j).0| == 2
    requires |ExtractIf(buttons, j).0[0].lightsActivated| <= |ExtractIf(buttons, j).0[1].lightsActivated|
    ensures ExtractedGroup(buttons, j) == [ExtractIf(buttons, j).0[1], ExtractIf(buttons, j).0[0]]
  {
    var e := ExtractIf(buttons, j).0;
    SortedTwo(e);
    ReversedTwo(e);
    assert ExtractedGroup(buttons, j) == Reversed(SortByKey(e, ButtonSize));
  }

  lemma SortedTwo(e: seq<Button>)
    requires |e| == 2 && |e[0].lightsActivated| <= |e[1].lightsActivated|
    ensures SortByKey(e, ButtonSize) == e
  {
    assert SortedByKey(e, ButtonSize);
    SortByKeySorted(e, ButtonSize);
  }

  lemma ReversedTwo(e: seq<Button>)
    requires |e| == 2
    ensures Reversed(e) == [e[1], e[0]]
  {
    var r := Reversed(e);
    assert r[0] == e[1] && r[1] == e[0];
  }

  /** A single extracted button is its own group. */
  lemma GroupOfOne(buttons: seq<Button>, j: nat)
    requires |ExtractIf(buttons, j).0| == 1
    ensures ExtractedGroup(buttons, j) == ExtractIf(buttons, j).0
  {
    var e := ExtractIf(buttons, j).0;
    SortByKeySorted(e, ButtonSize);
    var r := Reversed(e);
    assert r[0] == e[0];
  }

  /** Round two: counters 3, 2, 1 with 3, 2 and 1 buttons are already in order. */
  lemma SortRound2(counts: map<nat, nat>)
    requires 1 in counts && 2 in counts && 3 in counts
    requires counts[1] == 1 && counts[2] == 2 && counts[3] == 3
    ensures var js: seq<nat> := [3, 2, 1]; SortByKey(js, PriorityKey(counts, EXAMPLE_TARGET)) == js
  {
    var js: seq<nat> := [3, 2, 1];
    var key := PriorityKey(counts, EXAMPLE_TARGET);
    assert key(3) <= key(2) <= key(1);
    assert SortedByKey(js, key);
    SortByKeySorted(js, key);
  }

  /** Round three: counters 3 and 2, two buttons each, where target 7 beats 4. */
  lemma SortRound3(counts: map<nat, nat>)
    requires 2 in counts && 3 in counts && counts[2] == 2 && counts[3] == 2
    ensures var js: seq<nat> := [3, 2]; SortByKey(js, PriorityKey(counts, EXAMPLE_TARGET)) == js
  {
    var js: seq<nat> := [3, 2];
    var key := PriorityKey(counts, EXAMPLE_TARGET);
    assert key(3) <= key(2);
    assert SortedByKey(js, key);
    SortByKeySorted(js, key);
  }

  /** How many of the six buttons act on each counter. */
  lemma CountsRound1(b0: Button, b1: Button, b2: Button, b3: Button, b4: Button, b5: Button)
    requires b0.lightsActivated == {3} && b1.lightsActivated == {1, 3} && b2.lightsActivated == {2}
    requires b3.lightsActivated == {2, 3} && b4.lightsActivated == {0, 2} && b5.lightsActivated == {0, 1}
    ensures var bs := [b0, b1, b2, b3, b4, b5];
      ButtonCount(bs, 0) == 2 && ButtonCount(bs, 1) == 2 && ButtonCount(bs, 2) == 3 && ButtonCount(bs, 3) == 3
  {
    var bs := [b0, b1, b2, b3, b4, b5];
    ButtonCountPrefix(bs, 0);
    ButtonCountPrefix(bs, 1);
    ButtonCountPrefix(bs, 2);
    ButtonCountPrefix(bs, 3);
    ButtonCountPrefix(bs, 4);
    ButtonCountPrefix(bs, 5);
    assert bs[..6] == bs;
  }

  /** The counts once counter 0 has taken its buttons. */
  lemma CountsRound2(b0: Button, b1: Button, b2: Button, b3: Button)
    requires b0.lightsActivated == {3} && b1.lightsActivated == {1, 3}
    requires b2.lightsActivated == {2} && b3.lightsActivated == {2, 3}
    ensures var bs := [b0, b1, b2, b3];
      ButtonCount(bs, 1) == 1 && ButtonCount(bs, 2) == 2 && ButtonCount(bs, 3) == 3
  {
    var bs := [b0, b1, b2, b3];
    ButtonCountPrefix(bs, 0);
    ButtonCountPrefix(bs, 1);
    ButtonCountPrefix(bs, 2);
    ButtonCountPrefix(bs, 3);
    assert bs[..4] == bs;
  }

  /** The counts once counter 1 has taken its button. */
  lemma CountsRound3(b0: Button, b2: Button, b3: Button)
    requires b0.lightsActivated == {3} && b2.lightsActivated == {2} && b3.lightsActivated == {2, 3}
    ensures var bs := [b0, b2, b3]; ButtonCount(bs, 2) == 2 && ButtonCount(bs, 3) == 2
  {
    var bs := [b0, b2, b3];
    ButtonCountPrefix(bs, 0);
    ButtonCountPrefix(bs, 1);
    ButtonCountPrefix(bs, 2);
    assert bs[..3] == bs;
  }

  /** Counter 0 takes the last two buttons. */
  lemma ExtractRound1(bs: seq<Button>)
    requires |bs| == 6
    requires 0 !in bs[0].lightsActivated && 0 !in bs[1].lightsActivated
    requires 0 !in bs[2].lightsActivated && 0 !in bs[3].lightsActivated
    requires 0 in bs[4].lightsActivated && 0 in bs[5].lightsActivated
    ensures ExtractIf(bs, 0) == ([bs[4], bs[5]], bs[..4])
  {
    ExtractNoneFour(bs, 0);
    assert bs[..5] == bs[..4] + [bs[4]];
    ExtractStep(bs[..4], bs[4], 0, [], bs[..4], bs[..5]);
    assert [] + [bs[4]] == [bs[4]];
    assert bs == bs[..5] + [bs[5]];
    ExtractStep(bs[..5], bs[5], 0, [bs[4]], bs[..4], bs);
    assert [bs[4]] + [bs[5]] == [bs[4], bs[5]];
  }

  lemma FirstFour(b0: Button, b1: Button, b2: Button, b3: Button, b4: Button, b5: Button)
    ensures [b0, b1, b2, b3, b4, b5][..4] == [b0, b1, b2, b3]
  {
  }

  /** None of the first four buttons acts on `j`. */
  lemma ExtractNoneFour(bs: seq<Button>, j: nat)
    requires |bs| >= 4
    requires j !in bs[0].lightsActivated && j !in bs[1].lightsActivated
    requires j !in bs[2].lightsActivated && j !in bs[3].lightsActivated
    ensures ExtractIf(bs[..4], j) == ([], bs[..4])
  {
    var s := bs[..4];
    forall b | b in s ensures j !in b.lightsActivated {
      var k :| 0 <= k < 4 && s[k] == b;
    }
    ExtractIfNone(s, j);
  }

  /** Counter 1 takes the second of the four remaining buttons. */
  lemma ExtractRound2(bs: seq<Button>)
    requires |bs| == 4
    requires 1 !in bs[0].lightsActivated && 1 in bs[1].lightsActivated
    requires 1 !in bs[2].lightsActivated && 1 !in bs[3].lightsActivated
    ensures ExtractIf(bs, 1) == ([bs[1]], [bs[0], bs[2], bs[3]])
  {
    assert bs[..0] == [];
    assert bs[..1] == bs[..0] + [bs[0]];
    assert [] + [bs[0]] == [bs[0]];
    assert bs[..2] == bs[..1] + [bs[1]];
    assert [] + [bs[1]] == [bs[1]];
    assert bs[..3] == bs[..2] + [bs[2]];
    assert [bs[0]] + [bs[2]] == [bs[0], bs[2]];
    assert bs == bs[..3] + [bs[3]];
    assert [bs[0], bs[2]] + [bs[3]] == [bs[0], bs[2], bs[3]];
    ExtractStep(bs[..0], bs[0], 1, [], [], bs[..1]);
    ExtractStep(bs[..1], bs[1], 1, [], [bs[0]], bs[..2]);
    ExtractStep(bs[..2], bs[2], 1, [bs[1]], [bs[0]], bs[..3]);
    ExtractStep(bs[..3], bs[3], 1, [bs[1]], [bs[0], bs[2]], bs);
  }

  /** Counter 2 takes the last two of the three remaining buttons. */
  lemma ExtractRound3(bs: seq<Button>)
    requires |bs| == 3
    requires 2 !in bs[0].lightsActivated && 2 in bs[1].lightsActivated && 2 in bs[2].lightsActivated
    ensures ExtractIf(bs, 2) == ([bs[1], bs[2]], [bs[0]])
  {
    assert bs[..0] == [];
    assert bs[..1] == bs[..0] + [bs[0]];
    assert [] + [bs[0]] == [bs[0]];
    assert bs[..2] == bs[..1] + [bs[1]];
    assert [] + [bs[1]] == [bs[1]];
    assert bs == bs[..2] + [bs[2]];
    assert [bs[1]] + [bs[2]] == [bs[1], bs[2]];
    ExtractStep(bs[..0], bs[0], 2, [], [], bs[..1]);
    ExtractStep(bs[..1], bs[1], 2, [], [bs[0]], bs[..2]);
    ExtractStep(bs[..2], bs[2], 2, [bs[1]], [bs[0]], bs);
  }

  /** Counter 3 takes the one remaining button. */
  lemma ExtractRound4(bs: seq<Button>)
    requires |bs| == 1 && 3 in bs[0].lightsActivated
    ensures ExtractIf(bs, 3) == ([bs[0]], [])
  {
    assert bs == [] + [bs[0]];
    ExtractStep([], bs[0], 3, [], [], bs);
  }

  /** The first round of the ordering: counter 0 brings the sixth and fifth button. */
  lemma Round1(b0: Button, b1: Button, b2: Button, b3: Button, b4: Button, b5: Button)
    requires b0.lightsActivated == {3} && b1.lightsActivated == {1, 3} && b2.lightsActivated == {2}
    requires b3.lightsActivated == {2, 3} && b4.lightsActivated == {0, 2} && b5.lightsActivated == {0, 1}
    ensures var js: seq<nat> := [0, 1, 2, 3]; var next: seq<nat> := [3, 2, 1];
      SortFrom(EXAMPLE_TARGET, js, [b0, b1, b2, b3, b4, b5]) == [b5, b4] + SortFrom(EXAMPLE_TARGET, next, [b0, b1, b2, b3])
  {
    var bs := [b0, b1, b2, b3, b4, b5];
    var js: seq<nat> := [0, 1, 2, 3];
    var sorted: seq<nat> := [3, 2, 1, 0];
    assert sorted[..3] == [3, 2, 1];
    CountsRound1(b0, b1, b2, b3, b4, b5);
    SortRound1(CountsMap(bs));
    ExtractRound1(bs);
    FirstFour(b0, b1, b2, b3, b4, b5);
    assert |{0, 2}| == 2 && |{0, 1}| == 2;
    GroupOfTwo(bs, 0);
    SortFromUnfold(EXAMPLE_TARGET, js, bs, sorted, [b5, b4], [b0, b1, b2, b3]);
  }

  /** The second round: counter 1 brings the second button. */
  lemma Round2(b0: Button, b1: Button, b2: Button, b3: Button)
    requires b0.lightsActivated == {3} && b1.lightsActivated == {1, 3}
    requires b2.lightsActivated == {2} && b3.lightsActivated == {2, 3}
    ensures var js: seq<nat> := [3, 2, 1]; var next: seq<nat> := [3, 2];
      SortFrom(EXAMPLE_TARGET, js, [b0, b1, b2, b3]) == [b1] + SortFrom(EXAMPLE_TARGET, next, [b0, b2, b3])
  {
    var bs := [b0, b1, b2, b3];
    var js: seq<nat> := [3, 2, 1];
    assert js[..2] == [3, 2];
    CountsRound2(b0, b1, b2, b3);
    SortRound2(CountsMap(bs));
    ExtractRound2(bs);
    GroupOfOne(bs, 1);
    SortFromUnfold(EXAMPLE_TARGET, js, bs, js, [b1], [b0, b2, b3]);
  }

  /** The third round: counter 2 brings the fourth and third button. */
  lemma Round3(b0: Button, b2: Button, b3: Button)
    requires b0.lightsActivated == {3} && b2.lightsActivated == {2} && b3.lightsActivated == {2, 3}
    ensures var js: seq<nat> := [3, 2]; var next: seq<nat> := [3];
      SortFrom(EXAMPLE_TARGET, js, [b0, b2, b3]) == [b3, b2] + SortFrom(EXAMPLE_TARGET, next, [b0])
  {
    var bs := [b0, b2, b3];
    var js: seq<nat> := [3, 2];
    assert js[..1] == [3];
    CountsRound3(b0, b2, b3);
    SortRound3(CountsMap(bs));
    ExtractRound3(bs);
    assert |{2}| == 1 && |{2, 3}| == 2;
    GroupOfTwo(bs, 2);
    SortFromUnfold(EXAMPLE_TARGET, js, bs, js, [b3, b2], [b0]);
  }

  /** The last round: counter 3 brings the first button, and nothing is left. */
  lemma Round4(b0: Button)
    requires b0.lightsActivated == {3}
    ensures var js: seq<nat> := [3]; SortFrom(EXAMPLE_TARGET, js, [b0]) == [b0]
  {
    var bs := [b0];
    var js: seq<nat> := [3];
    assert js[..0] == [];
    SortByKeySorted(js, PriorityKey(CountsMap(bs), EXAMPLE_TARGET));
    ExtractRound4(bs);
    GroupOfOne(bs, 3);
    SortFromUnfold(EXAMPLE_TARGET, js, bs, js, [b0], []);
  }

  /** The ordering test: whatever the indices, buttons acting on
      (3) (1,3) (2) (2,3) (0,2) (0,1) with targets {3,5,4,7} come out as the
      sixth, fifth, second, fourth, third and first. */
  lemma OrderingExample(m: Machine)
    requires m.targetJoltage == EXAMPLE_TARGET && |m.buttons| == 6
    requires m.buttons[0].lightsActivated == {3} && m.buttons[1].lightsActivated == {1, 3}
    requires m.buttons[2].lightsActivated == {2} && m.buttons[3].lightsActivated == {2, 3}
    requires m.buttons[4].lightsActivated == {0, 2} && m.buttons[5].lightsActivated == {0, 1}
    ensures SortedButtons(m) ==
      [m.buttons[5], m.buttons[4], m.buttons[1], m.buttons[3], m.buttons[2], m.buttons[0]]
  {
    var bs := m.buttons;
    var b0, b1, b2, b3, b4, b5 := bs[0], bs[1], bs[2], bs[3], bs[4], bs[5];
    assert bs == [b0, b1, b2, b3, b4, b5];
    var js: seq<nat> := [0, 1, 2, 3];
    assert Range(|m.targetJoltage|) == js;
    assert [b5, b4] + ([b1] + ([b3, b2] + [b0])) == [b5, b4, b1, b3, b2, b0];
    Round1(b0, b1, b2, b3, b4, b5);
    Round2(b0, b1, b2, b3);
    Round3(b0, b2, b3);
    Round4(b0);
  }
}
