/** Day 2: product id ranges "start-end", and the detection of "silly" ids,
    whose decimal digits are one block repeated. The source decides this by
    divisibility, without converting the number to text; the model also
    states what the divisibility tests mean on the digits themselves. */
module SecondDay {
  import opened Common

  datatype IdRange = IdRange(start: nat, end: nat)

  datatype RangeError =
    | StartAndEndNotParsed(input: string)
    | InvalidBoundary

  /** `InputIdRange::new`: trim, split on '-', exactly two parts, each a `usize`. */
  function ParseRange(s: string): (r: Result<IdRange, RangeError>)
    ensures r == Err(StartAndEndNotParsed(s)) <==> |Split(Trim(s), '-')| != 2
    ensures r.Ok? <==> |Split(Trim(s), '-')| == 2
                       && ParseUnsigned(Split(Trim(s), '-')[0], USIZE_MAX).Some?
                       && ParseUnsigned(Split(Trim(s), '-')[1], USIZE_MAX).Some?
    ensures r.Ok? ==> Some(r.value.start) == ParseUnsigned(Split(Trim(s), '-')[0], USIZE_MAX)
                      && Some(r.value.end) == ParseUnsigned(Split(Trim(s), '-')[1], USIZE_MAX)
  {
    var parts := Split(Trim(s), '-');
    if |parts| != 2 then Err(StartAndEndNotParsed(s))
    else
      match (ParseUnsigned(parts[0], USIZE_MAX), ParseUnsigned(parts[1], USIZE_MAX))
      case (Some(a), Some(b)) => Ok(IdRange(a, b))
      case _ => Err(InvalidBoundary)
  }

  function FormatRange(r: IdRange): string
  {
    NatToString(r.start) + "-" + NatToString(r.end)
  }

  /** A range written as the puzzle writes it parses back to itself. */
  lemma ParseFormatRoundTrip(r: IdRange)
    requires r.start <= USIZE_MAX && r.end <= USIZE_MAX
    ensures ParseRange(FormatRange(r)) == Ok(r)
  {
    var a := NatToString(r.start);
    var b := NatToString(r.end);
    var s := FormatRange(r);
    assert forall k :: 0 <= k < |s| ==> !IsWhitespace(s[k]) by {
      forall k | 0 <= k < |s| ensures !IsWhitespace(s[k]) {
        if k < |a| { assert s[k] == a[k]; }
        else if k > |a| { assert s[k] == b[k - |a| - 1]; }
      }
    }
    TrimWithoutWhitespace(s);
    assert Join([a, b], '-') == s;
    assert forall k :: 0 <= k < |a| ==> a[k] != '-';
    assert forall k :: 0 <= k < |b| ==> b[k] != '-';
    SplitJoin([a, b], '-');
    ParseUnsignedOfNatToString(r.start, USIZE_MAX);
    ParseUnsignedOfNatToString(r.end, USIZE_MAX);
  }

  // ---------------------------------------------------------------------
  // The detectors, as written

  /** The digit count that `successors(.., n / 10).count()` computes. */
  function DigitCount(n: nat): (len: nat)
    ensures len >= 1
  {
    if n >= 10 then 1 + DigitCount(n / 10) else 1
  }

  /** The number written with `len` ones, as the source builds and parses it. */
  function AllOnes(len: nat): nat
  {
    DecimalValue(seq(len, _ => '1'))
  }

  /** `number_is_silly`. */
  function IsSilly(n: nat): bool
  {
    var len := DigitCount(n);
    if len % 2 != 0 then false else n % (Pow(10, len / 2) + 1) == 0
  }

  /** `number_is_silly_part_two`. */
  function IsSillyPartTwo(n: nat): bool
  {
    var len := DigitCount(n);
    if len == 1 then false
    else if len % 2 != 0 then n % AllOnes(len) == 0 || (len == 9 && n % 1001001 == 0)
    else
      n % (Pow(10, len / 2) + 1) == 0
      || (len == 6 && n % 10101 == 0)
      || (len == 10 && n % 101010101 == 0)
  }

  /** `get_silly_numbers`: the ids of `[start, end)` that the detector flags. */
  method GetSillyNumbers(range: IdRange, detector: nat -> bool) returns (out: seq<nat>)
    ensures StrictlyIncreasing(out)
    ensures forall x :: x in out <==> range.start <= x < range.end && detector(x)
  {
    out := [];
    var i := range.start;
    while i < range.end
      invariant i == range.start || range.start < i <= range.end
      invariant forall x :: x in out <==> range.start <= x < i && detector(x)
      invariant StrictlyIncreasing(out)
      invariant forall k :: 0 <= k < |out| ==> out[k] < i
    {
      if detector(i) {
        out := out + [i];
      }
      i := i + 1;
    }
  }

  // ---------------------------------------------------------------------
  // Digits, least significant first

  predicate IsDigitSeq(ds: seq<nat>) { forall i :: 0 <= i < |ds| ==> ds[i] < 10 }

  /** The `len` lowest decimal digits of `n`, least significant first. */
  function DigitsOf(n: nat, len: nat): (ds: seq<nat>)
    ensures |ds| == len && IsDigitSeq(ds)
  {
    if len == 0 then [] else [n % 10] + DigitsOf(n / 10, len - 1)
  }

  function ValueOf(ds: seq<nat>): nat
  {
    if |ds| == 0 then 0 else ds[0] + 10 * ValueOf(ds[1..])
  }

  /** A block of digits written `k` times, the first copy lowest. */
  function Repeat(block: seq<nat>, k: nat): (r: seq<nat>)
    ensures |r| == |block| * k
  {
    if k == 0 then [] else block + Repeat(block, k - 1)
  }

  /** Every digit equals the digit `b` places lower. */
  predicate Periodic(ds: seq<nat>, b: nat)
  {
    forall i :: b <= i < |ds| ==> ds[i] == ds[i - b]
  }

  /** `1 + 10^b + 10^2b + ... `, `k` terms: the multiplier that writes a
      `b`-digit block `k` times. */
  function RepMultiplier(b: nat, k: nat): nat
  {
    if k == 0 then 0 else 1 + Pow(10, b) * RepMultiplier(b, k - 1)
  }

  /** The reference meaning of a silly id: its digits are a block repeated
      at least twice. */
  predicate IsRepetition(n: nat)
  {
    var len := DigitCount(n);
    exists b :: 1 <= b < len && len % b == 0 && Periodic(DigitsOf(n, len), b)
  }

  /** The reference meaning of a part one silly id: a block written twice. */
  predicate IsDoubled(n: nat)
  {
    var len := DigitCount(n);
    len % 2 == 0 && Periodic(DigitsOf(n, len), len / 2)
  }

  // ---------------------------------------------------------------------
  // Arithmetic facts

  lemma MulAtLeast(d: int, m: int)
    requires d >= 1 && m > 0
    ensures d * m >= m
  {
  }

  lemma MulPredecessor(b: nat, k: nat)
    requires k >= 1
    ensures b * k == b * (k - 1) + b
    ensures k >= 2 ==> b * (k - 1) >= b
  {
  }

  /** Quotient and remainder are determined by `x == q * m + r`. */
  lemma ModUnique(x: int, m: int, q: int, r: int)
    requires m > 0 && 0 <= r < m && x == q * m + r
    ensures x / m == q && x % m == r
  {
    var q', r' := x / m, x % m;
    assert x == q' * m + r';
    assert (q - q') * m == r' - r;
    if q > q' {
      MulAtLeast(q - q', m);
    } else if q < q' {
      MulAtLeast(q' - q, m);
    }
  }

  lemma {:induction false} DigitCountBounds(n: nat)
    ensures n < Pow(10, DigitCount(n))
    ensures DigitCount(n) >= 2 ==> Pow(10, DigitCount(n) - 1) <= n
  {
    if n >= 10 {
      DigitCountBounds(n / 10);
    }
  }

  lemma {:induction false} ValueOfDigits(n: nat, len: nat)
    requires n < Pow(10, len)
    ensures ValueOf(DigitsOf(n, len)) == n
  {
    if len > 0 {
      ValueOfDigits(n / 10, len - 1);
      assert DigitsOf(n, len)[1..] == DigitsOf(n / 10, len - 1);
    }
  }

  /** Two digit sequences of one length and one value are equal. */
  lemma {:induction false} DigitsUnique(ds: seq<nat>, es: seq<nat>)
    requires IsDigitSeq(ds) && IsDigitSeq(es) && |ds| == |es|
    requires ValueOf(ds) == ValueOf(es)
    ensures ds == es
  {
    if |ds| > 0 {
      ModUnique(ValueOf(ds), 10, ValueOf(ds[1..]), ds[0]);
      ModUnique(ValueOf(es), 10, ValueOf(es[1..]), es[0]);
      DigitsUnique(ds[1..], es[1..]);
      assert ds == [ds[0]] + ds[1..];
      assert es == [es[0]] + es[1..];
    }
  }

  lemma {:induction false} ValueAppend(a: seq<nat>, c: seq<nat>)
    ensures ValueOf(a + c) == ValueOf(a) + Pow(10, |a|) * ValueOf(c)
  {
    if |a| > 0 {
      assert (a + c)[1..] == a[1..] + c;
      ValueAppend(a[1..], c);
      assert Pow(10, |a|) == 10 * Pow(10, |a| - 1);
      ShiftSum(ValueOf(a[1..]), Pow(10, |a| - 1), ValueOf(c));
    } else {
      assert a + c == c;
    }
  }

  lemma ShiftSum(x: int, p: int, y: int)
    ensures 10 * (x + p * y) == 10 * x + (10 * p) * y
  {
  }

  lemma Factor(v: int, p: int, m: int)
    ensures v + p * (v * m) == v * (1 + p * m)
  {
  }

  lemma {:induction false} ValueRepeat(block: seq<nat>, k: nat)
    ensures ValueOf(Repeat(block, k)) == ValueOf(block) * RepMultiplier(|block|, k)
  {
    if k > 0 {
      ValueRepeat(block, k - 1);
      ValueAppend(block, Repeat(block, k - 1));
      Factor(ValueOf(block), Pow(10, |block|), RepMultiplier(|block|, k - 1));
    }
  }

  lemma {:induction false} RepeatDigits(block: seq<nat>, k: nat)
    requires IsDigitSeq(block)
    ensures IsDigitSeq(Repeat(block, k))
  {
    if k > 0 {
      RepeatDigits(block, k - 1);
    }
  }

  lemma {:induction false} RepeatPeriodic(block: seq<nat>, k: nat)
    ensures Periodic(Repeat(block, k), |block|)
  {
    if k > 1 {
      RepeatPeriodic(block, k - 1);
      var r, tail := Repeat(block, k), Repeat(block, k - 1);
      assert tail == block + Repeat(block, k - 2);
      forall i | |block| <= i < |r| ensures r[i] == r[i - |block|] {
        if i < 2 * |block| {
          assert r[i] == tail[i - |block|] == block[i - |block|];
        } else {
          assert r[i] == tail[i - |block|];
          assert r[i - |block|] == tail[i - 2 * |block|];
        }
      }
    }
  }

  /** A digit sequence of `b * k` digits with period `b` is its first block
      written `k` times. */
  lemma {:induction false} PeriodicIsRepeat(ds: seq<nat>, b: nat, k: nat)
    requires b >= 1 && k >= 1 && |ds| == b * k && Periodic(ds, b)
    ensures ds == Repeat(ds[..b], k)
  {
    if k == 1 {
      assert ds[..b] == ds;
    } else {
      var tail := ds[b..];
      MulPredecessor(b, k);
      assert Periodic(tail, b) by {
        forall i | b <= i < |tail| ensures tail[i] == tail[i - b] {
          assert tail[i] == ds[i + b];
        }
      }
      PeriodicIsRepeat(tail, b, k - 1);
      assert tail[..b] == ds[..b] by {
        forall i | 0 <= i < b ensures tail[i] == ds[i] {
          assert tail[i] == ds[i + b];
        }
      }
      assert ds == ds[..b] + tail;
    }
  }

  lemma {:induction false} PeriodicMultiple(ds: seq<nat>, b: nat, j: nat)
    requires Periodic(ds, b) && j >= 1
    ensures Periodic(ds, j * b)
  {
    if j > 1 {
      PeriodicMultiple(ds, b, j - 1);
      forall i | j * b <= i < |ds| ensures ds[i] == ds[i - j * b] {
        assert ds[i] == ds[i - (j - 1) * b];
        assert ds[i - (j - 1) * b] == ds[i - (j - 1) * b - b];
      }
    }
  }

  lemma {:induction false} PowMonotone(e1: nat, e2: nat)
    requires e1 <= e2
    ensures Pow(10, e1) <= Pow(10, e2)
    decreases e2
  {
    if e1 < e2 {
      PowMonotone(e1, e2 - 1);
    }
  }

  lemma {:induction false} RepMultiplierLowerBound(b: nat, k: nat)
    requires k >= 1
    ensures Pow(10, b * (k - 1)) <= RepMultiplier(b, k)
  {
    if k > 1 {
      var e := b * (k - 2);
      var p, r, q := Pow(10, b), RepMultiplier(b, k - 1), Pow(10, e);
      RepMultiplierLowerBound(b, k - 1);
      assert q <= r;
      assert b * (k - 1) == e + b by {
        MulPredecessor(b, k - 1);
      }
      PowAdd(10, e, b);
      MulMonotone(r, q, p);
      assert RepMultiplier(b, k) == 1 + p * r;
    }
  }

  // ---------------------------------------------------------------------
  // What the divisibility tests mean

  /** A number of `b * k` digits that the block multiplier divides is a
      `b`-digit block written `k` times. */
  lemma DivisibleIsRepetition(n: nat, b: nat, k: nat)
    requires b >= 1 && k >= 1 && n < Pow(10, b * k)
    requires n % RepMultiplier(b, k) == 0
    ensures Periodic(DigitsOf(n, b * k), b)
  {
    var q := BlockOfMultiple(n, b, k);
    var block := DigitsOf(q, b);
    ValueOfDigits(q, b);
    ValueRepeat(block, k);
    RepeatDigits(block, k);
    ValueOfDigits(n, b * k);
    DigitsUnique(DigitsOf(n, b * k), Repeat(block, k));
    RepeatPeriodic(block, k);
  }

  /** The block of a multiple of the block multiplier fits in `b` digits. */
  lemma BlockOfMultiple(n: nat, b: nat, k: nat) returns (q: nat)
    requires b >= 1 && k >= 1 && n < Pow(10, b * k)
    requires n % RepMultiplier(b, k) == 0
    ensures q < Pow(10, b) && n == q * RepMultiplier(b, k)
  {
    var m := RepMultiplier(b, k);
    RepMultiplierLowerBound(b, k);
    var p, p1 := Pow(10, b), Pow(10, b * (k - 1));
    MulPredecessor(b, k);
    PowAdd(10, b * (k - 1), b);
    QuotientBelow(n, m, p, p1);
    q := n / m;
  }

  /** Dividing by at least `p1` a number below `p * p1` leaves a quotient
      below `p`. */
  lemma QuotientBelow(n: nat, m: nat, p: nat, p1: nat)
    requires 0 < p1 <= m && n < p1 * p && n % m == 0
    ensures n / m < p && n == (n / m) * m
  {
    var q := n / m;
    assert n == q * m + n % m;
    if q >= p {
      MulMonotone(q, p, m);
      MulMonotone(m, p1, p);
    }
  }

  lemma MulMonotone(a: int, c: int, x: int)
    requires a >= c && x >= 0
    ensures a * x >= c * x
  {
  }

  /** Conversely, a block written `k` times is divisible by the multiplier. */
  lemma RepetitionIsDivisible(n: nat, b: nat, k: nat)
    requires b >= 1 && k >= 1 && n < Pow(10, b * k)
    requires Periodic(DigitsOf(n, b * k), b)
    ensures n % RepMultiplier(b, k) == 0
  {
    var ds := DigitsOf(n, b * k);
    MulPredecessor(b, k);
    PeriodicIsRepeat(ds, b, k);
    ValueOfDigits(n, b * k);
    var block := ds[..b];
    ValueRepeat(block, k);
    RepMultiplierLowerBound(b, k);
    var m := RepMultiplier(b, k);
    assert n == ValueOf(block) * m;
    ModUnique(n, m, ValueOf(block), 0);
  }

  lemma {:induction false} AllOnesIsMultiplier(len: nat)
    ensures AllOnes(len) == RepMultiplier(1, len)
  {
    if len > 0 {
      AllOnesIsMultiplier(len - 1);
      var s := seq(len, _ => '1');
      assert s[..len - 1] == seq(len - 1, _ => '1');
    }
  }

  lemma TwoCopiesMultiplier(h: nat)
    ensures RepMultiplier(h, 2) == Pow(10, h) + 1
  {
    assert RepMultiplier(h, 1) == 1;
  }

  lemma ConstantMultipliers()
    ensures RepMultiplier(3, 3) == 1001001
    ensures RepMultiplier(2, 3) == 10101
    ensures RepMultiplier(2, 5) == 101010101
  {
    assert Pow(10, 3) == 1000;
    assert Pow(10, 2) == 100;
  }

  /** The comment of `number_is_silly`: a number of `2h` digits is a
      multiple of `10^h + 1` exactly when its upper `h` digits equal its
      lower `h` digits. */
  lemma SillyIffHalvesEqual(n: nat, h: nat)
    requires DigitCount(n) == 2 * h
    ensures n % (Pow(10, h) + 1) == 0 <==> n / Pow(10, h) == n % Pow(10, h)
  {
    var p := Pow(10, h);
    DigitCountBounds(n);
    PowAdd(10, h, h);
    assert h + h == DigitCount(n);
    HalvesTest(n, p);
  }

  /** Below `p * p`, divisibility by `p + 1` means quotient equals remainder. */
  lemma HalvesTest(n: nat, p: nat)
    requires p > 0 && n < p * p
    ensures n % (p + 1) == 0 <==> n / p == n % p
  {
    DivBelow(n, p);
    HalvesRemainder(n, n / p, n % p, p);
  }

  /** A number below `p * p` has a quotient by `p` below `p`. */
  lemma DivBelow(n: nat, p: nat)
    requires p > 0 && n < p * p
    ensures n == (n / p) * p + n % p && 0 <= n % p < p
    ensures n / p < p
  {
    var a := n / p;
    assert n == a * p + n % p;
    if a >= p {
      MulMonotone(a, p, p);
    }
  }

  lemma HalvesRemainder(n: int, a: int, b: int, p: int)
    requires n == a * p + b && 0 <= b < p && 0 <= a < p
    ensures n % (p + 1) == 0 <==> a == b
  {
    ShiftedDivision(a, b, p);
    if b >= a {
      ModUnique(n, p + 1, a, b - a);
    } else {
      ModUnique(n, p + 1, a - 1, p + 1 - (a - b));
    }
  }

  lemma ShiftedDivision(a: int, b: int, p: int)
    ensures a * p + b == a * (p + 1) + (b - a)
    ensures a * p + b == (a - 1) * (p + 1) + (p + 1 - (a - b))
  {
  }

  /** Part one flags exactly the ids written as one block twice. */
  lemma SillyIffDoubled(n: nat)
    ensures IsSilly(n) <==> IsDoubled(n)
  {
    var len := DigitCount(n);
    DigitCountBounds(n);
    if len % 2 == 0 {
      var h := len / 2;
      assert h * 2 == len;
      TwoCopiesMultiplier(h);
      if IsSilly(n) {
        DivisibleIsRepetition(n, h, 2);
      }
      if IsDoubled(n) {
        RepetitionIsDivisible(n, h, 2);
      }
    }
  }

  /** A number whose digit count is `b * k` and that the multiplier divides
      is a repetition. */
  lemma DivisibleWitness(n: nat, b: nat, k: nat)
    requires b >= 1 && k >= 2 && DigitCount(n) == b * k
    requires n % RepMultiplier(b, k) == 0
    ensures IsRepetition(n)
  {
    DigitCountBounds(n);
    DivisibleIsRepetition(n, b, k);
    MulPredecessor(b, k);
    ModUnique(b * k, b, k, 0);
  }

  /** A periodic number whose digit count is `b * k` is divisible by the
      multiplier. */
  lemma PeriodicDivisible(n: nat, b: nat, k: nat)
    requires b >= 1 && k >= 1 && DigitCount(n) == b * k
    requires Periodic(DigitsOf(n, b * k), b)
    ensures n % RepMultiplier(b, k) == 0
  {
    DigitCountBounds(n);
    RepetitionIsDivisible(n, b, k);
  }

  /** Everything part two flags is a repeated block, whatever its length. */
  lemma PartTwoSound(n: nat)
    requires IsSillyPartTwo(n)
    ensures IsRepetition(n)
  {
    var len := DigitCount(n);
    ConstantMultipliers();
    if len % 2 != 0 {
      AllOnesIsMultiplier(len);
      if n % AllOnes(len) == 0 {
        DivisibleWitness(n, 1, len);
      } else {
        DivisibleWitness(n, 3, 3);
      }
    } else {
      var h := len / 2;
      TwoCopiesMultiplier(h);
      if n % (Pow(10, h) + 1) == 0 {
        DivisibleWitness(n, h, 2);
      } else if len == 6 {
        DivisibleWitness(n, 2, 3);
      } else {
        DivisibleWitness(n, 2, 5);
      }
    }
  }

  /** Up to 11 digits, the length the source's comment relies on for the
      puzzle input, part two flags every repeated block. */
  lemma PartTwoCompleteUpToElevenDigits(n: nat)
    requires DigitCount(n) <= 11
    requires IsRepetition(n)
    ensures IsSillyPartTwo(n)
  {
    var len := DigitCount(n);
    var b :| 1 <= b < len && len % b == 0 && Periodic(DigitsOf(n, len), b);
    RepetitionCaught(n, b);
  }

  /** A number of at most eleven digits made of copies of a `b`-digit block
      is flagged by one of the tests. */
  lemma RepetitionCaught(n: nat, b: nat)
    requires DigitCount(n) <= 11 && 1 <= b < DigitCount(n) && DigitCount(n) % b == 0
    requires Periodic(DigitsOf(n, DigitCount(n)), b)
    ensures IsSillyPartTwo(n)
  {
    var len := DigitCount(n);
    var k := len / b;
    ExactQuotient(len, b);
    if k % 2 == 0 {
      EvenRepetition(n, b, k);
      SillyByHalves(n);
    } else if b == 1 {
      AllOnesIsMultiplier(len);
      PeriodicDivisible(n, 1, len);
      SillyByOnes(n);
    } else {
      OddRepetition(n, b, k);
    }
  }

  lemma ExactQuotient(len: nat, b: nat)
    requires b >= 1 && len % b == 0
    ensures len == (len / b) * b
  {
  }

  /** An odd number of copies of a block of two or more digits, within
      eleven digits, is caught by one of the three constant divisors. */
  lemma OddRepetition(n: nat, b: nat, k: nat)
    requires b >= 2 && k % 2 == 1 && DigitCount(n) == k * b && b < k * b <= 11
    requires Periodic(DigitsOf(n, k * b), b)
    ensures IsSillyPartTwo(n)
  {
    SmallOddFactors(b, k);
    ConstantMultipliers();
    PeriodicDivisible(n, b, k);
    if k == 3 && b == 2 {
      assert RepMultiplier(b, k) == 10101;
    } else if k == 3 {
      assert RepMultiplier(b, k) == 1001001;
    } else {
      assert RepMultiplier(b, k) == 101010101;
    }
  }

  /** The halves test of an even length flags the number on its own. */
  lemma SillyByHalves(n: nat)
    requires DigitCount(n) % 2 == 0 && n % (Pow(10, DigitCount(n) / 2) + 1) == 0
    ensures IsSillyPartTwo(n)
  {
  }

  /** The all-ones test of an odd length flags the number on its own. */
  lemma SillyByOnes(n: nat)
    requires DigitCount(n) >= 2 && DigitCount(n) % 2 == 1 && n % AllOnes(DigitCount(n)) == 0
    ensures IsSillyPartTwo(n)
  {
  }

  /** A block repeated an even number of times is two copies of a longer
      block, which the halves test catches. */
  lemma EvenRepetition(n: nat, b: nat, k: nat)
    requires b >= 1 && k >= 2 && k % 2 == 0 && DigitCount(n) == k * b
    requires Periodic(DigitsOf(n, k * b), b)
    ensures n % (Pow(10, DigitCount(n) / 2) + 1) == 0
  {
    var j := k / 2;
    var h := j * b;
    assert k * b == 2 * h by {
      assert k == 2 * j;
      MulAssocTwo(j, b);
    }
    PeriodicMultiple(DigitsOf(n, k * b), b, j);
    TwoCopiesMultiplier(h);
    PeriodicDivisible(n, h, 2);
  }

  lemma MulAssocTwo(j: nat, b: nat)
    ensures (2 * j) * b == 2 * (j * b)
  {
  }

  /** An odd number of copies, at least three, of a block of two or more
      digits fits in eleven digits only as 3 x 2, 3 x 3 or 5 x 2. */
  lemma SmallOddFactors(b: nat, k: nat)
    requires b >= 2 && k % 2 == 1 && k * b <= 11 && k * b > b
    ensures (k == 3 && (b == 2 || b == 3)) || (k == 5 && b == 2)
  {
    if k >= 7 {
      MulMonotone(b, 2, k);
    }
  }


  /** The multipliers of one-digit blocks that the examples need. */
  lemma OnesMultipliers()
    ensures RepMultiplier(1, 9) == 111111111
    ensures RepMultiplier(1, 11) == 11111111111
  {
    assert Pow(10, 1) == 10;
    assert RepMultiplier(1, 1) == 1;
    assert RepMultiplier(1, 2) == 11;
    assert RepMultiplier(1, 3) == 111;
    assert RepMultiplier(1, 4) == 1111;
    assert RepMultiplier(1, 5) == 11111;
    assert RepMultiplier(1, 6) == 111111;
    assert RepMultiplier(1, 7) == 1111111;
    assert RepMultiplier(1, 8) == 11111111;
    assert RepMultiplier(1, 9) == 111111111;
    assert RepMultiplier(1, 10) == 1111111111;
  }

  /** The 11-digit bound matters: three copies of a 4-digit block are not
      flagged. */
  lemma TwelveDigitsNotFlagged()
    ensures IsRepetition(100010001000)
    ensures !IsSillyPartTwo(100010001000)
  {
    var n := 100010001000;
    assert DigitCount(n) == 12;
    assert Pow(10, 6) == 1000000;
    assert RepMultiplier(4, 3) == 100010001 by {
      assert Pow(10, 4) == 10000;
    }
    DivisibleIsRepetition(n, 4, 3);
  }

  /** Ids of the source's tests: a 2-digit block written five times. */
  lemma TenDigitExample()
    ensures IsSillyPartTwo(1212121212)
  {
    assert DigitCount(1212121212) == 10;
    assert Pow(10, 5) == 100000;
  }

  /** Eleven ones. */
  lemma ElevenDigitExample()
    ensures IsSillyPartTwo(11111111111)
  {
    assert DigitCount(11111111111) == 11;
    AllOnesIsMultiplier(11);
    OnesMultipliers();
    SillyByOnes(11111111111);
  }

  /** A 3-digit block written three times. */
  lemma NineDigitExample()
    ensures IsSillyPartTwo(123123123)
  {
    assert DigitCount(123123123) == 9;
  }

  /** The same block with its last digit changed is not flagged. */
  lemma NineDigitCounterExample()
    ensures !IsSillyPartTwo(123123124)
  {
    assert DigitCount(123123124) == 9;
    AllOnesIsMultiplier(9);
    OnesMultipliers();
  }

  /** A 2-digit block written three times. */
  lemma SixDigitExample()
    ensures IsSillyPartTwo(121212)
  {
    assert DigitCount(121212) == 6;
  }

  /** A 3-digit block written three times and one digit more is not flagged. */
  lemma TenDigitCounterExample()
    ensures !IsSillyPartTwo(1231231231)
  {
    assert DigitCount(1231231231) == 10;
    assert Pow(10, 5) == 100000;
  }
}
