/** Day 3: banks of batteries, one decimal digit (the joltage) per battery.
    Switching on exactly k batteries of a bank yields the number their digits
    spell, in bank order; the bank delivers the largest such number. */
module ThirdDay {
  import opened Common

  datatype Battery = Battery(position: nat, joltage: nat)

  /** `Ord for Battery`: joltage first; at equal joltage the battery with the
      smaller position is the greater one. */
  function Compare(a: Battery, b: Battery): Ordering
  {
    CompareInt(a.joltage, b.joltage).Then(CompareInt(b.position, a.position))
  }

  /** `PartialEq for Battery` compares (position, joltage), and `cmp` says
      `Equal` on exactly the same pairs, so `Eq` and `Ord` agree. */
  lemma CompareEqualIffSame(a: Battery, b: Battery)
    ensures Compare(a, b) == Equal <==> a == b
  {
  }

  /** Swapping the operands reverses the comparison. */
  lemma CompareAntisymmetric(a: Battery, b: Battery)
    ensures Compare(b, a) == Compare(a, b).Reverse()
  {
  }

  /** `cmp` is a total preorder: "not greater" chains. */
  lemma CompareTransitive(a: Battery, b: Battery, c: Battery)
    requires Compare(a, b) != Greater && Compare(b, c) != Greater
    ensures Compare(a, c) != Greater
  {
  }

  /** The greater of two batteries has the higher joltage, or the same
      joltage and the smaller position. */
  lemma CompareMeaning(a: Battery, b: Battery)
    ensures Compare(a, b) == Greater <==>
              a.joltage > b.joltage || (a.joltage == b.joltage && a.position < b.position)
  {
  }

  /** The orderings of the source's tests. */
  lemma CompareExamples()
    ensures Compare(Battery(0, 2), Battery(1, 3)) == Less
    ensures Compare(Battery(0, 4), Battery(1, 3)) == Greater
    ensures Compare(Battery(0, 3), Battery(1, 3)) == Greater
  {
  }

  datatype PowerBank = PowerBank(batteries: seq<Battery>)
  {
    /** The shape `PowerBank::new` builds: battery i sits at position i. */
    predicate Valid()
    {
      forall i :: 0 <= i < |batteries| ==> batteries[i].position == i
    }

    function Joltages(): (s: seq<nat>)
      ensures |s| == |batteries|
      ensures forall i :: 0 <= i < |s| ==> s[i] == batteries[i].joltage
    {
      seq(|batteries|, i requires 0 <= i < |batteries| => batteries[i].joltage)
    }
  }

  /** Every `usize` digit parse succeeds exactly on a decimal digit. */
  lemma DigitParse(c: char)
    ensures ParseUnsigned([c], USIZE_MAX).Some? <==> IsDigit(c)
    ensures IsDigit(c) ==> ParseUnsigned([c], USIZE_MAX) == Some(DigitValue(c))
  {
    if c == '+' {
      assert UnsignedDigits([c]) == [];
    } else {
      assert UnsignedDigits([c]) == [c];
      if IsDigit(c) {
        assert [c][..0] == [];
        assert DecimalValue([c]) == DigitValue(c);
      } else {
        assert !AllDigits([c]);
      }
    }
  }

  /** `PowerBank::new`: the battery of character i has position i and the
      digit's value as joltage; `unwrap` needs every character a digit. */
  function NewPowerBank(s: string): (bank: PowerBank)
    requires AllDigits(s)
    ensures bank.Valid() && |bank.batteries| == |s|
    ensures forall i :: 0 <= i < |s| ==> bank.batteries[i].joltage == DigitValue(s[i]) < 10
  {
    PowerBank(seq(|s|, i requires 0 <= i < |s| => Battery(i, DigitValue(s[i]))))
  }

  /** `Iterator::max` under `Compare`: the last of the greatest elements. */
  function MaxBattery(w: seq<Battery>): Battery
    requires |w| > 0
  {
    if |w| == 1 then w[0]
    else
      var init := MaxBattery(w[..|w| - 1]);
      var x := w[|w| - 1];
      if Compare(x, init) != Less then x else init
  }

  /** The fold returns an element of the window that no element exceeds. */
  lemma {:induction false} MaxBatteryIsGreatest(w: seq<Battery>)
    requires |w| > 0
    ensures exists i :: 0 <= i < |w| && w[i] == MaxBattery(w)
    ensures forall i :: 0 <= i < |w| ==> Compare(w[i], MaxBattery(w)) != Greater
  {
    if |w| > 1 {
      var init := w[..|w| - 1];
      MaxBatteryIsGreatest(init);
      var m := MaxBattery(init);
      var x := w[|w| - 1];
      var j :| 0 <= j < |init| && init[j] == m;
      assert w[j] == m;
      assert w[if Compare(x, m) != Less then |w| - 1 else j] == MaxBattery(w);
      forall i | 0 <= i < |w|
        ensures Compare(w[i], MaxBattery(w)) != Greater
      {
        if i < |w| - 1 {
          assert w[i] == init[i];
          if Compare(x, m) != Less {
            CompareAntisymmetric(x, m);
            CompareTransitive(w[i], m, x);
          }
        }
      }
    } else {
      assert w[0] == MaxBattery(w);
    }
  }

  // ---------------------------------------------------------------------
  // The reference: a greedy choice of digit positions

  /** The leftmost position of a largest digit of `s[lo..hi]`. */
  function LeftmostMax(s: seq<nat>, lo: nat, hi: nat): (p: nat)
    requires lo < hi <= |s|
    ensures lo <= p < hi
    decreases hi - lo
  {
    if lo + 1 == hi then lo
    else
      var m := LeftmostMax(s, lo + 1, hi);
      if s[lo] >= s[m] then lo else m
  }

  /** No digit of the window exceeds the chosen one, and every digit left of
      it is smaller. */
  lemma {:induction false} LeftmostMaxIsLeftmostGreatest(s: seq<nat>, lo: nat, hi: nat)
    requires lo < hi <= |s|
    ensures forall j :: lo <= j < hi ==> s[j] <= s[LeftmostMax(s, lo, hi)]
    ensures forall j :: lo <= j < LeftmostMax(s, lo, hi) ==> s[j] < s[LeftmostMax(s, lo, hi)]
    decreases hi - lo
  {
    if lo + 1 < hi {
      LeftmostMaxIsLeftmostGreatest(s, lo + 1, hi);
    }
  }

  /** The positions the bank switches on: each is the leftmost largest digit
      among those that still leave room for the remaining picks. */
  function GreedyPositions(s: seq<nat>, from: nat, k: nat): (ps: seq<nat>)
    requires from + k <= |s|
    ensures |ps| == k
    ensures IncreasingIn(ps, from, |s|)
    decreases k
  {
    if k == 0 then []
    else
      var p := LeftmostMax(s, from, |s| - k + 1);
      [p] + GreedyPositions(s, p + 1, k - 1)
  }

  predicate IncreasingIn(idx: seq<nat>, from: nat, n: nat)
  {
    (forall j :: 0 <= j < |idx| ==> from <= idx[j] < n)
    && (forall i, j :: 0 <= i < j < |idx| ==> idx[i] < idx[j])
  }

  /** The digits of `s` at the positions `idx`. */
  function Pick(s: seq<nat>, idx: seq<nat>): (d: seq<nat>)
    requires forall j :: 0 <= j < |idx| ==> idx[j] < |s|
    ensures |d| == |idx|
    ensures forall j :: 0 <= j < |idx| ==> d[j] == s[idx[j]]
  {
    seq(|idx|, j requires 0 <= j < |idx| => s[idx[j]])
  }

  /** The number a sequence of digits spells, most significant first. */
  function Val(ds: seq<nat>): nat
  {
    if |ds| == 0 then 0 else Place(ds[0], |ds| - 1) + Val(ds[1..])
  }

  function GreedyValue(s: seq<nat>, k: nat): nat
    requires k <= |s|
  {
    Val(Pick(s, GreedyPositions(s, 0, k)))
  }

  // ---------------------------------------------------------------------
  // The method

  /** `PowerBank::get_maximum_joltage`: `n_batteries - k + i` needs `k` at
      most the bank size. */
  method GetMaximumJoltage(bank: PowerBank, k: nat) returns (joltage: nat)
    requires bank.Valid() && k <= |bank.batteries|
    ensures joltage == GreedyValue(bank.Joltages(), k)
  {
    var n := |bank.batteries|;
    ghost var s := bank.Joltages();
    joltage := 0;
    var last: nat := 0;
    for i := 0 to k
      invariant last + (k - i) <= n
      invariant GreedyFold(s, k - i, last, joltage) == GreedyFold(s, k, 0, 0)
    {
      var best := WindowMaximum(bank, last, n - k + i + 1);
      assert n - (k - i) + 1 == n - k + i + 1;
      joltage := joltage + Place(best.joltage, k - i - 1);
      last := best.position + 1;
    }
    GreedyFoldValue(s, k, 0, 0);
  }

  /** The last `r` picks of the loop, with the cursor at `last` and `acc`
      accumulated: each pick adds the leftmost largest digit of its window,
      weighted by the places still to fill. */
  function GreedyFold(s: seq<nat>, r: nat, last: nat, acc: nat): nat
    requires last + r <= |s|
    decreases r
  {
    if r == 0 then acc
    else
      var p := LeftmostMax(s, last, |s| - r + 1);
      GreedyFold(s, r - 1, p + 1, acc + Place(s[p], r - 1))
  }

  /** `d * 10usize.pow(e)`: a digit weighted by its decimal place, written as
      repeated multiplication by ten. */
  function Place(d: nat, e: nat): nat
  {
    if e == 0 then d else 10 * Place(d, e - 1)
  }

  lemma {:induction false} PlaceIsProduct(d: nat, e: nat)
    ensures Place(d, e) == d * Pow(10, e)
  {
    if e > 0 {
      PlaceIsProduct(d, e - 1);
      assert d * (10 * Pow(10, e - 1)) == 10 * (d * Pow(10, e - 1));
    }
  }

  /** The loop adds to its accumulator exactly the number spelled by the
      greedy positions still to come. */
  lemma {:induction false} GreedyFoldValue(s: seq<nat>, r: nat, last: nat, acc: nat)
    requires last + r <= |s|
    ensures GreedyFold(s, r, last, acc) == acc + Val(Pick(s, GreedyPositions(s, last, r)))
    decreases r
  {
    if r > 0 {
      var p := LeftmostMax(s, last, |s| - r + 1);
      GreedyFoldValue(s, r - 1, p + 1, acc + Place(s[p], r - 1));
      PickedValue(s, last, r);
    } else {
      assert Pick(s, []) == [];
    }
  }

  /** The number spelled by greedy positions: the first digit in its place,
      then the rest. */
  lemma PickedValue(s: seq<nat>, from: nat, r: nat)
    requires 1 <= r && from + r <= |s|
    ensures var p := LeftmostMax(s, from, |s| - r + 1);
            Val(Pick(s, GreedyPositions(s, from, r)))
            == Place(s[p], r - 1) + Val(Pick(s, GreedyPositions(s, p + 1, r - 1)))
  {
    var p := LeftmostMax(s, from, |s| - r + 1);
    var rest := GreedyPositions(s, p + 1, r - 1);
    assert GreedyPositions(s, from, r) == [p] + rest;
    var digits := Pick(s, rest);
    assert Pick(s, [p] + rest) == [s[p]] + digits;
    assert ([s[p]] + digits)[1..] == digits;
    PlaceIsProduct(s[p], r - 1);
  }

  /** `self.batteries[lo..hi].iter().max().unwrap()`: the window is never
      empty, and its maximum is the reference choice. */
  method WindowMaximum(bank: PowerBank, lo: nat, hi: nat) returns (best: Battery)
    requires bank.Valid() && lo < hi <= |bank.batteries|
    ensures best.position == LeftmostMax(bank.Joltages(), lo, hi)
    ensures best.joltage == bank.Joltages()[best.position]
  {
    best := MaxBattery(bank.batteries[lo..hi]);
    WindowMax(bank, lo, hi);
  }


  /** In a bank built by `new`, the `Compare` maximum of a window is the
      leftmost largest digit of that window. */
  lemma WindowMax(bank: PowerBank, lo: nat, hi: nat)
    requires bank.Valid() && lo < hi <= |bank.batteries|
    ensures MaxBattery(bank.batteries[lo..hi]).position == LeftmostMax(bank.Joltages(), lo, hi)
    ensures MaxBattery(bank.batteries[lo..hi]).joltage == bank.Joltages()[LeftmostMax(bank.Joltages(), lo, hi)]
  {
    var w := bank.batteries[lo..hi];
    MaxBatteryIsGreatest(w);
    LeftmostMaxIsLeftmostGreatest(bank.Joltages(), lo, hi);
    var m := MaxBattery(w);
    var p := LeftmostMax(bank.Joltages(), lo, hi);
    var k :| 0 <= k < |w| && w[k] == m;
    assert m == bank.batteries[lo + k];
    assert bank.batteries[p] in w;
    assert Compare(bank.batteries[p], m) != Greater;
  }

  // ---------------------------------------------------------------------
  // What the greedy choice achieves

  /** Each search window `[from, n - k + 1)` is non-empty, and the chosen
      positions increase strictly and stay in the window. */
  lemma {:induction false} GreedyPositionsIncreasing(s: seq<nat>, from: nat, k: nat)
    requires from + k <= |s|
    ensures IncreasingIn(GreedyPositions(s, from, k), from, |s|)
    decreases k
  {
    if k > 0 {
      var p := LeftmostMax(s, from, |s| - k + 1);
      GreedyPositionsIncreasing(s, p + 1, k - 1);
    }
  }

  /** Strictly increasing positions leave gaps of at least one. */
  lemma {:induction false} IncreasingGap(idx: seq<nat>, from: nat, n: nat)
    requires IncreasingIn(idx, from, n) && |idx| > 0
    ensures idx[0] + |idx| <= n
    decreases |idx|
  {
    if |idx| > 1 {
      IncreasingGap(idx[1..], from, n);
    }
  }

  lemma {:induction false} ValBound(ds: seq<nat>)
    requires forall j :: 0 <= j < |ds| ==> ds[j] < 10
    ensures Val(ds) < Pow(10, |ds|)
  {
    if |ds| > 0 {
      ValBound(ds[1..]);
      var e := |ds| - 1;
      assert Pow(10, e + 1) == 10 * Pow(10, e);
      PlaceIsProduct(ds[0], e);
      LeadingDigit(ds[0], 9, Pow(10, e), Val(ds[1..]));
    }
  }

  /** A smaller leading digit loses, whatever follows it. */
  lemma LeadingDigit(x: nat, y: nat, p: nat, v: nat)
    requires x <= y && v < p
    ensures x * p + v < (y + 1) * p
  {
  }

  lemma ValMonotoneDigit(x: nat, y: nat, p: nat, v: nat, w: nat)
    requires x < y && v < p
    ensures x * p + v < y * p + w
  {
    LeadingDigit(x, y - 1, p, v);
  }

  /** Of two digit strings of the same length, the one with the smaller
      leading digit spells the smaller number. */
  lemma SmallerLeadLoses(a: seq<nat>, b: seq<nat>)
    requires |a| == |b| > 0 && a[0] < b[0]
    requires forall j :: 0 <= j < |a| ==> a[j] < 10
    ensures Val(a) < Val(b)
  {
    var e := |a| - 1;
    ValBound(a[1..]);
    PlaceIsProduct(a[0], e);
    PlaceIsProduct(b[0], e);
    ValMonotoneDigit(a[0], b[0], Pow(10, e), Val(a[1..]), Val(b[1..]));
  }

  /** The greedy positions spell the largest number among all choices of k
      positions in order: the promise of `get_maximum_joltage`. */
  lemma {:induction false} GreedyIsMaximum(s: seq<nat>, from: nat, k: nat, idx: seq<nat>)
    requires forall j :: 0 <= j < |s| ==> s[j] < 10
    requires from + k <= |s| && |idx| == k && IncreasingIn(idx, from, |s|)
    ensures Val(Pick(s, idx)) <= Val(Pick(s, GreedyPositions(s, from, k)))
    decreases k
  {
    if k > 0 {
      var g := GreedyPositions(s, from, k);
      var p := g[0];
      LeftmostMaxIsLeftmostGreatest(s, from, |s| - k + 1);
      IncreasingGap(idx, from, |s|);
      var mine, best := Pick(s, idx), Pick(s, g);
      if s[idx[0]] < s[p] {
        SmallerLeadLoses(mine, best);
      } else {
        assert idx[0] >= p;
        IncreasingTail(idx, from, |s|, p);
        GreedyIsMaximum(s, p + 1, k - 1, idx[1..]);
        assert mine[1..] == Pick(s, idx[1..]);
        assert best[1..] == Pick(s, g[1..]);
      }
    }
  }

  /** Dropping the first of strictly increasing positions leaves positions
      beyond it. */
  lemma IncreasingTail(idx: seq<nat>, from: nat, n: nat, p: nat)
    requires IncreasingIn(idx, from, n) && |idx| > 0 && idx[0] >= p
    ensures IncreasingIn(idx[1..], p + 1, n)
  {
    forall j | 0 <= j < |idx| - 1
      ensures p + 1 <= idx[1..][j]
    {
      assert idx[0] < idx[j + 1];
    }
  }

  /** The result has at most k digits. */
  lemma GreedyValueBound(s: seq<nat>, k: nat)
    requires forall j :: 0 <= j < |s| ==> s[j] < 10
    requires k <= |s|
    ensures GreedyValue(s, k) < Pow(10, k)
  {
    GreedyPositionsIncreasing(s, 0, k);
    ValBound(Pick(s, GreedyPositions(s, 0, k)));
  }

  /** On a parsed bank, the method's result is the largest k-digit number
      obtainable, attained by the greedy positions, and below 10^k. */
  lemma MaximumJoltageIsOptimal(line: string, k: nat, idx: seq<nat>)
    requires AllDigits(line) && k <= |line|
    requires |idx| == k && IncreasingIn(idx, 0, |line|)
    ensures Val(Pick(NewPowerBank(line).Joltages(), idx)) <= GreedyValue(NewPowerBank(line).Joltages(), k)
    ensures GreedyValue(NewPowerBank(line).Joltages(), k) < Pow(10, k)
  {
    var s := NewPowerBank(line).Joltages();
    GreedyIsMaximum(s, 0, k, idx);
    GreedyValueBound(s, k);
  }
}
