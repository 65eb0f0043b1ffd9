/** Shared vocabulary of the day modules: optional and fallible results, the
    fixed integer widths of the source, decimal text (the behaviour of
    `str::parse` for unsigned integers and of `to_string`), `str::split` on a
    character, `str::trim`, and the stable sort that `sort`/`sorted_by_key`
    perform. */
module Common {

  datatype Option<T> = None | Some(value: T)

  datatype Result<T, E> = Ok(value: T) | Err(error: E)

  /** `std::cmp::Ordering`. */
  datatype Ordering = Less | Equal | Greater
  {
    /** `Ordering::reverse`. */
    function Reverse(): Ordering
    {
      match this
      case Less => Greater
      case Equal => Equal
      case Greater => Less
    }

    /** `Ordering::then`: the second comparison breaks a tie of the first. */
    function Then(next: Ordering): Ordering
    {
      if this == Equal then next else this
    }
  }

  /** `Ord::cmp` on integers. */
  function CompareInt(a: int, b: int): (o: Ordering)
    ensures o == Less <==> a < b
    ensures o == Equal <==> a == b
    ensures o == Greater <==> a > b
  {
    if a < b then Less else if a == b then Equal else Greater
  }

  /** Largest value of the 64-bit `usize`. */
  const USIZE_MAX: nat := 0xFFFF_FFFF_FFFF_FFFF
  /** Largest value of `u16`. */
  const U16_MAX: nat := 0xFFFF
  /** Largest value of `i16`. */
  const I16_MAX: int := 0x7FFF

  // ---------------------------------------------------------------------
  // Decimal text

  predicate IsDigit(c: char) { '0' <= c <= '9' }

  predicate AllDigits(s: string) { forall i :: 0 <= i < |s| ==> IsDigit(s[i]) }

  function DigitValue(c: char): (d: nat)
    requires IsDigit(c)
    ensures d < 10
  {
    (c - '0') as nat
  }

  function DigitChar(d: nat): (c: char)
    requires d < 10
    ensures IsDigit(c) && DigitValue(c) == d
  {
    ('0' as int + d) as char
  }

  /** The value of a string of decimal digits, most significant first. */
  function DecimalValue(s: string): nat
    requires AllDigits(s)
  {
    if |s| == 0 then 0 else DecimalValue(s[..|s| - 1]) * 10 + DigitValue(s[|s| - 1])
  }

  /** The digits that `str::parse` reads: one leading '+' is accepted. */
  function UnsignedDigits(s: string): string
  {
    if |s| > 0 && s[0] == '+' then s[1..] else s
  }

  /** `str::parse::<uN>()`, where `max` is the largest value of the type:
      an optional '+', then one or more decimal digits, and a value that fits. */
  function ParseUnsigned(s: string, max: nat): (r: Option<nat>)
    ensures r.Some? <==> (|UnsignedDigits(s)| > 0 && AllDigits(UnsignedDigits(s))
                          && DecimalValue(UnsignedDigits(s)) <= max)
    ensures r.Some? ==> r.value <= max
  {
    var d := UnsignedDigits(s);
    if |d| > 0 && AllDigits(d) && DecimalValue(d) <= max then Some(DecimalValue(d)) else None
  }

  /** `usize::to_string`: decimal digits without leading zeros. */
  function NatToString(n: nat): (s: string)
    ensures |s| > 0 && AllDigits(s)
  {
    if n < 10 then [DigitChar(n)] else NatToString(n / 10) + [DigitChar(n % 10)]
  }

  lemma {:induction false} NatToStringValue(n: nat)
    ensures DecimalValue(NatToString(n)) == n
  {
    if n >= 10 {
      var s := NatToString(n);
      NatToStringValue(n / 10);
      assert s[..|s| - 1] == NatToString(n / 10);
    }
  }

  /** Printing a number and parsing it back gives the number. */
  lemma ParseUnsignedOfNatToString(n: nat, max: nat)
    requires n <= max
    ensures ParseUnsigned(NatToString(n), max) == Some(n)
  {
    NatToStringValue(n);
    assert NatToString(n)[0] != '+';
  }

  // ---------------------------------------------------------------------
  // Splitting and trimming

  /** `str::split(sep)` for a single character: always at least one piece,
      and `""` gives `[""]`. */
  function Split(s: string, sep: char): (r: seq<string>)
    ensures |r| >= 1
    ensures forall k :: 0 <= k < |r| ==> sep !in r[k]
  {
    if |s| == 0 then [""]
    else
      var rest := Split(s[1..], sep);
      if s[0] == sep then [""] + rest else [[s[0]] + rest[0]] + rest[1..]
  }

  /** The inverse of `Split`: the pieces glued back with the separator. */
  function Join(parts: seq<string>, sep: char): string
    requires |parts| >= 1
  {
    if |parts| == 1 then parts[0] else parts[0] + [sep] + Join(parts[1..], sep)
  }

  lemma {:induction false} JoinSplit(s: string, sep: char)
    ensures Join(Split(s, sep), sep) == s
  {
    if |s| > 0 {
      JoinSplit(s[1..], sep);
      var rest := Split(s[1..], sep);
      if s[0] != sep {
        var r := Split(s, sep);
        assert r[1..] == rest[1..];
        if |rest| > 1 {
          assert Join(r, sep) == [s[0]] + rest[0] + [sep] + Join(rest[1..], sep);
        }
      }
    }
  }

  lemma {:induction false} SplitNoSeparator(a: string, sep: char)
    requires sep !in a
    ensures Split(a, sep) == [a]
  {
    if |a| > 0 {
      SplitNoSeparator(a[1..], sep);
      assert [a[0]] + a[1..] == a;
    }
  }

  lemma {:induction false} SplitAfterPiece(a: string, sep: char, b: string)
    requires sep !in a
    ensures Split(a + [sep] + b, sep) == [a] + Split(b, sep)
  {
    if |a| == 0 {
      assert a + [sep] + b == [sep] + b;
      assert ([sep] + b)[1..] == b;
    } else {
      var s := a + [sep] + b;
      assert s[1..] == a[1..] + [sep] + b;
      SplitAfterPiece(a[1..], sep, b);
      assert [a[0]] + a[1..] == a;
    }
  }

  /** Splitting what `Join` glued gives back the pieces. */
  lemma {:induction false} SplitJoin(parts: seq<string>, sep: char)
    requires |parts| >= 1
    requires forall k :: 0 <= k < |parts| ==> sep !in parts[k]
    ensures Split(Join(parts, sep), sep) == parts
  {
    if |parts| == 1 {
      SplitNoSeparator(parts[0], sep);
    } else {
      SplitJoin(parts[1..], sep);
      SplitAfterPiece(parts[0], sep, Join(parts[1..], sep));
      assert [parts[0]] + parts[1..] == parts;
    }
  }

  /** White space as `char::is_whitespace` sees it: the characters with the
      Unicode White_Space property (tab to carriage return, space, next
      line, no-break space, the Ogham space mark, the general-punctuation
      spaces, the line and paragraph separators, and the ideographic
      space). */
  predicate IsWhitespace(c: char)
  {
    || '\t' <= c <= '\r' || c == ' ' || c == '\U{85}' || c == '\U{A0}' || c == '\U{1680}'
    || '\U{2000}' <= c <= '\U{200A}' || c == '\U{2028}' || c == '\U{2029}' || c == '\U{202F}'
    || c == '\U{205F}' || c == '\U{3000}'
  }

  function TrimStart(s: string): (r: string)
    ensures |r| <= |s| && r == s[|s| - |r|..]
    ensures |r| > 0 ==> !IsWhitespace(r[0])
    ensures forall i :: 0 <= i < |s| - |r| ==> IsWhitespace(s[i])
  {
    if |s| > 0 && IsWhitespace(s[0]) then TrimStart(s[1..]) else s
  }

  function TrimEnd(s: string): (r: string)
    ensures |r| <= |s| && r == s[..|r|]
    ensures |r| > 0 ==> !IsWhitespace(r[|r| - 1])
    ensures forall i :: |r| <= i < |s| ==> IsWhitespace(s[i])
  {
    if |s| > 0 && IsWhitespace(s[|s| - 1]) then TrimEnd(s[..|s| - 1]) else s
  }

  /** `str::trim`. */
  function Trim(s: string): string
  {
    TrimEnd(TrimStart(s))
  }

  /** A word without white space, padded with spaces on the right, trims
      back to the word. */
  lemma TrimPadded(t: string, n: nat)
    requires |t| > 0 && forall k :: 0 <= k < |t| ==> !IsWhitespace(t[k])
    ensures Trim(t + seq(n, _ => ' ')) == t
  {
    var s := t + seq(n, _ => ' ');
    assert TrimStart(s) == s;
    assert s[|t| - 1] == t[|t| - 1];
    assert TrimEnd(s) == s[..|t|];
  }

  /** `Trim` removes white space at both ends and nothing else. */
  lemma TrimIsSlice(s: string)
    ensures exists i, j :: 0 <= i <= j <= |s| && Trim(s) == s[i..j]
                           && (forall k :: 0 <= k < i ==> IsWhitespace(s[k]))
                           && (forall k :: j <= k < |s| ==> IsWhitespace(s[k]))
    ensures |Trim(s)| > 0 ==> !IsWhitespace(Trim(s)[0]) && !IsWhitespace(Trim(s)[|Trim(s)| - 1])
  {
    var t := TrimStart(s);
    var i := |s| - |t|;
    var r := TrimEnd(t);
    var j := i + |r|;
    assert r == s[i..j] by {
      assert t == s[i..];
      assert r == t[..|r|];
    }
    assert forall k :: 0 <= k < i ==> IsWhitespace(s[k]);
    assert forall k :: j <= k < |s| ==> IsWhitespace(s[k]) by {
      forall k | j <= k < |s|
        ensures IsWhitespace(s[k])
      {
        assert s[k] == t[k - i];
      }
    }
    assert Trim(s) == r;
    TrimBorders(s);
  }

  lemma TrimBorders(s: string)
    ensures |Trim(s)| > 0 ==> !IsWhitespace(Trim(s)[0]) && !IsWhitespace(Trim(s)[|Trim(s)| - 1])
  {
    var t := TrimStart(s);
    var r := TrimEnd(t);
    assert Trim(s) == r;
    if |r| > 0 {
      assert r == t[..|r|] && |t| > 0;
      assert r[0] == t[0];
      assert !IsWhitespace(t[0]);
      assert !IsWhitespace(r[|r| - 1]);
    }
  }

  lemma TrimWithoutWhitespace(s: string)
    requires forall k :: 0 <= k < |s| ==> !IsWhitespace(s[k])
    ensures Trim(s) == s
  {
  }

  // ---------------------------------------------------------------------
  // Stable sorting by a key (`sort`, `sort_by_key`, `sorted_by_key`)

  predicate SortedByKey<T>(s: seq<T>, key: T -> int)
  {
    forall i, j :: 0 <= i < j < |s| ==> key(s[i]) <= key(s[j])
  }

  /** Puts `x` after every element whose key is at most its own. */
  function InsertByKey<T>(s: seq<T>, x: T, key: T -> int): (r: seq<T>)
    requires SortedByKey(s, key)
    ensures SortedByKey(r, key)
    ensures forall y :: y in r ==> y == x || y in s
    ensures |r| == |s| + 1
  {
    if |s| == 0 || key(s[|s| - 1]) <= key(x) then s + [x]
    else
      var last := s[|s| - 1];
      var init := InsertByKey(s[..|s| - 1], x, key);
      assert s == s[..|s| - 1] + [last];
      assert forall k :: 0 <= k < |init| ==> key(init[k]) <= key(last) by {
        forall k | 0 <= k < |init| ensures key(init[k]) <= key(last) {
          assert init[k] in init;
          if init[k] != x {
            assert init[k] in s[..|s| - 1];
          }
        }
      }
      init + [last]
  }

  /** Inserting adds exactly one occurrence of `x`. */
  lemma {:induction false} InsertByKeyMultiset<T>(s: seq<T>, x: T, key: T -> int)
    requires SortedByKey(s, key)
    ensures multiset(InsertByKey(s, x, key)) == multiset(s) + multiset{x}
    decreases |s|
  {
    if |s| > 0 && key(s[|s| - 1]) > key(x) {
      var init := s[..|s| - 1];
      var last := s[|s| - 1];
      assert SortedByKey(init, key) by {
        forall i, j | 0 <= i < j < |init| ensures key(init[i]) <= key(init[j]) {
          assert init[i] == s[i] && init[j] == s[j];
        }
      }
      InsertByKeyMultiset(init, x, key);
      assert s == init + [last];
      assert InsertByKey(s, x, key) == InsertByKey(init, x, key) + [last];
    }
  }

  /** Stable insertion sort: equal keys keep their input order, as Rust's
      stable sort does. */
  function SortByKey<T>(s: seq<T>, key: T -> int): (r: seq<T>)
    ensures SortedByKey(r, key)
    ensures multiset(r) == multiset(s)
    ensures |r| == |s|
  {
    if |s| == 0 then []
    else
      assert s == s[..|s| - 1] + [s[|s| - 1]];
      InsertByKeyMultiset(SortByKey(s[..|s| - 1], key), s[|s| - 1], key);
      InsertByKey(SortByKey(s[..|s| - 1], key), s[|s| - 1], key)
  }

  /** Sorting one more element inserts it into the sorted rest. */
  lemma SortByKeySnoc<T>(s: seq<T>, x: T, key: T -> int)
    ensures SortByKey(s + [x], key) == InsertByKey(SortByKey(s, key), x, key)
  {
    assert (s + [x])[..|s|] == s;
  }

  /** The elements of `s` whose key is `v`, in their order in `s`. */
  function WithKey<T>(s: seq<T>, key: T -> int, v: int): seq<T>
    decreases |s|
  {
    if |s| == 0 then []
    else WithKey(s[..|s| - 1], key, v) + (if key(s[|s| - 1]) == v then [s[|s| - 1]] else [])
  }

  /** Inserting `x` puts it after every element with its key. */
  lemma {:induction false} InsertByKeyWithKey<T>(s: seq<T>, x: T, key: T -> int, v: int)
    requires SortedByKey(s, key)
    ensures WithKey(InsertByKey(s, x, key), key, v) == WithKey(s, key, v) + (if key(x) == v then [x] else [])
    decreases |s|
  {
    var r := InsertByKey(s, x, key);
    if |s| == 0 || key(s[|s| - 1]) <= key(x) {
      assert r[..|r| - 1] == s;
    } else {
      var init := s[..|s| - 1];
      var last := s[|s| - 1];
      SortedByKeyInit(s, key);
      InsertByKeyWithKey(init, x, key, v);
      assert r == InsertByKey(init, x, key) + [last];
      assert r[..|r| - 1] == InsertByKey(init, x, key);
    }
  }

  /** The sort is stable: the elements of each key come out in their input
      order. */
  lemma {:induction false} SortByKeyStable<T>(s: seq<T>, key: T -> int, v: int)
    ensures WithKey(SortByKey(s, key), key, v) == WithKey(s, key, v)
    decreases |s|
  {
    if |s| > 0 {
      var init := s[..|s| - 1];
      SortByKeyStable(init, key, v);
      InsertByKeyWithKey(SortByKey(init, key), s[|s| - 1], key, v);
    }
  }

  lemma SortedByKeyInit<T>(s: seq<T>, key: T -> int)
    requires |s| > 0 && SortedByKey(s, key)
    ensures SortedByKey(s[..|s| - 1], key)
    ensures |s| == 1 || key(s[|s| - 2]) <= key(s[|s| - 1])
  {
    var init := s[..|s| - 1];
    forall i, j | 0 <= i < j < |init| ensures key(init[i]) <= key(init[j]) {
      assert init[i] == s[i] && init[j] == s[j];
    }
  }

  lemma InsertByKeyLast<T>(s: seq<T>, x: T, key: T -> int)
    requires SortedByKey(s, key)
    requires |s| == 0 || key(s[|s| - 1]) <= key(x)
    ensures InsertByKey(s, x, key) == s + [x]
  {
  }

  /** An element whose key is below every key of `s` goes in front. */
  lemma {:induction false} InsertByKeyFirst<T>(s: seq<T>, x: T, key: T -> int)
    requires SortedByKey(s, key)
    requires forall i :: 0 <= i < |s| ==> key(x) < key(s[i])
    ensures InsertByKey(s, x, key) == [x] + s
    decreases |s|
  {
    if |s| > 0 {
      var init, last := s[..|s| - 1], s[|s| - 1];
      assert s == init + [last];
      ConcatAssoc([x], init, [last]);
      SortedByKeyInit(s, key);
      InsertByKeyFirst(init, x, key);
    }
  }

  /** Sorting a sequence already sorted by the key leaves it as it is. */
  lemma {:induction false} SortByKeySorted<T>(s: seq<T>, key: T -> int)
    requires SortedByKey(s, key)
    ensures SortByKey(s, key) == s
    decreases |s|
  {
    if |s| > 0 {
      var init := s[..|s| - 1];
      var last := s[|s| - 1];
      SortedByKeyInit(s, key);
      SortByKeySorted(init, key);
      assert |init| == 0 || init[|init| - 1] == s[|s| - 2];
      InsertByKeyLast(init, last, key);
      assert s == init + [last];
    }
  }

  // ---------------------------------------------------------------------
  // The ascending sequence of a finite set of naturals

  predicate StrictlyIncreasing(s: seq<nat>)
  {
    forall i, j :: 0 <= i < j < |s| ==> s[i] < s[j]
  }

  lemma {:induction false} MinWitness(s: set<nat>) returns (m: nat)
    requires s != {}
    ensures m in s && forall x :: x in s ==> m <= x
  {
    var y :| y in s;
    if s == {y} {
      m := y;
    } else {
      var m' := MinWitness(s - {y});
      m := if y < m' then y else m';
      forall x | x in s ensures m <= x {
        if x != y {
          assert x in s - {y};
        }
      }
    }
  }

  lemma MinExists(s: set<nat>)
    requires s != {}
    ensures exists m :: m in s && forall x :: x in s ==> m <= x
  {
    var m := MinWitness(s);
  }

  function SetMin(s: set<nat>): (m: nat)
    requires s != {}
    ensures m in s && forall x :: x in s ==> m <= x
  {
    MinExists(s);
    var m :| m in s && forall x :: x in s ==> m <= x;
    m
  }

  /** The elements of `s` in ascending order (`iter().sorted()`). */
  function SortedElements(s: set<nat>): (r: seq<nat>)
    ensures StrictlyIncreasing(r)
    ensures |r| == |s|
    ensures forall x :: x in r <==> x in s
    decreases |s|
  {
    if s == {} then []
    else
      var m := SetMin(s);
      var rest := SortedElements(s - {m});
      [m] + rest
  }

  // ---------------------------------------------------------------------
  // Sums

  function Sum(s: seq<nat>): nat
  {
    if |s| == 0 then 0 else Sum(s[..|s| - 1]) + s[|s| - 1]
  }

  function Product(s: seq<nat>): nat
  {
    if |s| == 0 then 1 else Product(s[..|s| - 1]) * s[|s| - 1]
  }

  lemma {:induction false} SumAppend(a: seq<nat>, b: seq<nat>)
    ensures Sum(a + b) == Sum(a) + Sum(b)
    decreases |b|
  {
    if |b| > 0 {
      assert (a + b)[..|a + b| - 1] == a + b[..|b| - 1];
      SumAppend(a, b[..|b| - 1]);
    } else {
      assert a + b == a;
    }
  }

  lemma {:induction false} ProductAppend(a: seq<nat>, b: seq<nat>)
    ensures Product(a + b) == Product(a) * Product(b)
    decreases |b|
  {
    if |b| > 0 {
      assert (a + b)[..|a + b| - 1] == a + b[..|b| - 1];
      ProductAppend(a, b[..|b| - 1]);
    } else {
      assert a + b == a;
    }
  }

  function Pow(b: nat, e: nat): (r: nat)
    ensures b > 0 ==> r > 0
  {
    if e == 0 then 1 else b * Pow(b, e - 1)
  }

  lemma {:induction false} PowAdd(b: nat, e1: nat, e2: nat)
    ensures Pow(b, e1 + e2) == Pow(b, e1) * Pow(b, e2)
    decreases e1
  {
    if e1 > 0 {
      PowAdd(b, e1 - 1, e2);
      assert Pow(b, e1 + e2) == b * Pow(b, e1 - 1 + e2);
      MulAssoc(b, Pow(b, e1 - 1), Pow(b, e2));
    }
  }

  lemma ConcatAssoc<T>(a: seq<T>, b: seq<T>, c: seq<T>)
    ensures a + (b + c) == (a + b) + c
  {
  }

  lemma MulAssoc(a: int, b: int, c: int)
    ensures a * (b * c) == (a * b) * c
  {
  }
}
