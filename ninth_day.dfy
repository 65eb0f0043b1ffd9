/** Day 9: red tiles on a grid, the rectangles they span, and the green
    intervals, row by row, of the figure they outline. */
module NinthDay {
  import opened Common

  datatype RedTile = RedTile(x: nat, y: nat)

  // ---------------------------------------------------------------------
  // Parsing

  /** `RedTile::from`: the first two comma-separated fields (later ones are
      ignored); the source panics on fewer than two fields or on a field
      that is not a `usize`, which is `None` here. */
  function ParseRedTile(s: string): (r: Option<RedTile>)
    ensures |Split(s, ',')| < 2 ==> r.None?
  {
    var fields := Split(s, ',');
    if |fields| < 2 then None
    else
      var x := ParseUnsigned(fields[0], USIZE_MAX);
      var y := ParseUnsigned(fields[1], USIZE_MAX);
      if x.None? || y.None? then None else Some(RedTile(x.value, y.value))
  }

  /** A tile as the input writes it. */
  function FormatRedTile(t: RedTile): string
  {
    NatToString(t.x) + [','] + NatToString(t.y)
  }

  /** Parsing a written tile gives it back, whatever follows a further comma. */
  lemma ParseFormatRedTile(t: RedTile, rest: string)
    requires t.x <= USIZE_MAX && t.y <= USIZE_MAX
    ensures ParseRedTile(FormatRedTile(t)) == Some(t)
    ensures ParseRedTile(FormatRedTile(t) + [','] + rest) == Some(t)
  {
    var sx, sy := NatToString(t.x), NatToString(t.y);
    assert ',' !in sx && ',' !in sy;
    ParseUnsignedOfNatToString(t.x, USIZE_MAX);
    ParseUnsignedOfNatToString(t.y, USIZE_MAX);
    SplitNoSeparator(sy, ',');
    SplitAfterPiece(sx, ',', sy);
    SplitAfterPiece(sy, ',', rest);
    assert sx + [','] + sy + [','] + rest == sx + [','] + (sy + [','] + rest);
    SplitAfterPiece(sx, ',', sy + [','] + rest);
  }

  /** `parse_input` on the lines of the file. */
  function ParseInput(lines: seq<string>): (r: Option<seq<RedTile>>)
    ensures r.Some? ==> |r.value| == |lines|
    ensures r.Some? ==> forall i :: 0 <= i < |lines| ==> ParseRedTile(lines[i]) == Some(r.value[i])
  {
    if |lines| == 0 then Some([])
    else
      var init := ParseInput(lines[..|lines| - 1]);
      var last := ParseRedTile(lines[|lines| - 1]);
      if init.None? || last.None? then None
      else
        var r := init.value + [last.value];
        assert forall i :: 0 <= i < |lines| - 1 ==> lines[..|lines| - 1][i] == lines[i] && r[i] == init.value[i];
        Some(r)
  }

  // ---------------------------------------------------------------------
  // Pairs of tiles and their rectangles

  /** The pairs `(i, j)` with `i < j < n` whose first index is `i`, from
      `(i, j)` on. */
  function RowPairs(i: nat, j: nat, n: nat): (r: seq<(nat, nat)>)
    ensures |r| == if j < n then n - j else 0
    ensures forall k :: 0 <= k < |r| ==> r[k] == (i, j + k)
    decreases n - j
  {
    if j >= n then [] else [(i, j)] + RowPairs(i, j + 1, n)
  }

  /** The pairs of indices `get_tile_combinations` keeps, rows `i` .. `n-1`
      of the product, in the product's order. */
  function PairsFrom(i: nat, n: nat): seq<(nat, nat)>
    decreases n - i
  {
    if i >= n then [] else RowPairs(i, i + 1, n) + PairsFrom(i + 1, n)
  }

  /** All the pairs `(i, j)` with `i < j < n`. */
  function PairIndices(n: nat): seq<(nat, nat)>
  {
    PairsFrom(0, n)
  }

  predicate LexLess(p: (nat, nat), q: (nat, nat))
  {
    p.0 < q.0 || (p.0 == q.0 && p.1 < q.1)
  }

  /** There are `m(m-1)/2` pairs in the last `m` rows. */
  lemma {:induction false} PairsFromLength(i: nat, n: nat)
    ensures 2 * |PairsFrom(i, n)| == if i < n then (n - i) * (n - i - 1) else 0
    decreases n - i
  {
    if i < n {
      PairsFromLength(i + 1, n);
      var m := n - i;
      assert 2 * |PairsFrom(i, n)| == 2 * (m - 1) + (m - 1) * (m - 2);
      assert 2 * (m - 1) + (m - 1) * (m - 2) == (m - 1) * m;
    }
  }

  /** A pair is kept exactly when its indices are increasing and its row is
      at least `i`. */
  lemma {:induction false} PairsFromMembers(i: nat, n: nat, p: (nat, nat))
    ensures p in PairsFrom(i, n) <==> i <= p.0 < p.1 < n
    decreases n - i
  {
    if i < n {
      PairsFromMembers(i + 1, n, p);
      var row := RowPairs(i, i + 1, n);
      if i == p.0 && p.0 < p.1 < n {
        assert row[p.1 - i - 1] == p;
      }
    }
  }

  /** The pairs come in strictly increasing lexicographic order. */
  lemma {:induction false} PairsFromOrdered(i: nat, n: nat)
    ensures forall k, l :: 0 <= k < l < |PairsFrom(i, n)| ==> LexLess(PairsFrom(i, n)[k], PairsFrom(i, n)[l])
    decreases n - i
  {
    if i < n {
      PairsFromOrdered(i + 1, n);
      var row, rest := RowPairs(i, i + 1, n), PairsFrom(i + 1, n);
      forall l | 0 <= l < |rest| ensures rest[l].0 > i {
        PairsFromMembers(i + 1, n, rest[l]);
      }
      var all := row + rest;
      forall k, l | 0 <= k < l < |all| ensures LexLess(all[k], all[l]) {
        if l < |row| {
        } else if k >= |row| {
          assert all[k] == rest[k - |row|] && all[l] == rest[l - |row|];
        } else {
          assert all[l] == rest[l - |row|];
        }
      }
    }
  }

  /** `get_tile_combinations`: the pair `(tiles[i], tiles[j])` for each
      `i < j`, in the order of `PairIndices`. */
  function TileCombinations(tiles: seq<RedTile>): (r: seq<(RedTile, RedTile)>)
    ensures |r| == |PairIndices(|tiles|)|
  {
    var pairs := PairIndices(|tiles|);
    PairIndicesBounded(|tiles|);
    seq(|pairs|, k requires 0 <= k < |pairs| => (tiles[pairs[k].0], tiles[pairs[k].1]))
  }

  lemma PairIndicesBounded(n: nat)
    ensures forall k :: 0 <= k < |PairIndices(n)| ==> PairIndices(n)[k].0 < PairIndices(n)[k].1 < n
  {
    forall k | 0 <= k < |PairIndices(n)| ensures PairIndices(n)[k].0 < PairIndices(n)[k].1 < n {
      PairsFromMembers(0, n, PairIndices(n)[k]);
    }
  }

  /** What `get_tile_combinations` promises: `n(n-1)/2` pairs, the `k`-th
      being the tiles at the `k`-th index pair, where the index pairs are
      exactly those with `i < j`, each once, in lexicographic order. */
  lemma TileCombinationsPairs(tiles: seq<RedTile>)
    ensures 2 * |TileCombinations(tiles)| == |tiles| * (|tiles| - 1)
    ensures forall k :: 0 <= k < |TileCombinations(tiles)| ==>
      var p := PairIndices(|tiles|)[k];
      p.0 < p.1 < |tiles| && TileCombinations(tiles)[k] == (tiles[p.0], tiles[p.1])
    ensures forall i, j :: 0 <= i < j < |tiles| ==> (i, j) in PairIndices(|tiles|)
    ensures forall k, l :: 0 <= k < l < |PairIndices(|tiles|)| ==>
      LexLess(PairIndices(|tiles|)[k], PairIndices(|tiles|)[l])
  {
    PairsFromLength(0, |tiles|);
    PairIndicesBounded(|tiles|);
    forall i, j | 0 <= i < j < |tiles| ensures (i, j) in PairIndices(|tiles|) {
      PairsFromMembers(0, |tiles|, (i, j));
    }
    PairsFromOrdered(0, |tiles|);
  }

  function Abs(d: int): nat
  {
    if d < 0 then -d else d
  }

  function Min(a: nat, b: nat): nat
  {
    if a <= b then a else b
  }

  function Max(a: nat, b: nat): nat
  {
    if a <= b then b else a
  }

  /** `calculate_area`: the number of tiles of the rectangle with corners
      `a` and `b`, both included. */
  function Area(a: RedTile, b: RedTile): (r: nat)
    ensures r >= 1
  {
    MulAtLeastOne(Abs(a.x - b.x) + 1, Abs(a.y - b.y) + 1);
    (Abs(a.x - b.x) + 1) * (Abs(a.y - b.y) + 1)
  }

  lemma MulAtLeastOne(a: nat, b: nat)
    requires a >= 1 && b >= 1
    ensures a * b >= 1
  {
  }

  /** The area does not depend on the order of the corners, and it is the
      product of the side lengths between the smaller and the larger
      coordinates, as `rectangle_is_within_figure` bounds them. */
  lemma AreaSymmetric(a: RedTile, b: RedTile)
    ensures Area(a, b) == Area(b, a)
    ensures Area(a, b) == (Max(a.x, b.x) - Min(a.x, b.x) + 1) * (Max(a.y, b.y) - Min(a.y, b.y) + 1)
  {
    assert Abs(a.x - b.x) == Abs(b.x - a.x) == Max(a.x, b.x) - Min(a.x, b.x);
    assert Abs(a.y - b.y) == Abs(b.y - a.y) == Max(a.y, b.y) - Min(a.y, b.y);
  }

  /** The largest area among the pairs (0 when there is none). */
  function MaxArea(pairs: seq<(RedTile, RedTile)>): (m: nat)
    ensures forall k :: 0 <= k < |pairs| ==> Area(pairs[k].0, pairs[k].1) <= m
    ensures |pairs| > 0 ==> exists k :: 0 <= k < |pairs| && Area(pairs[k].0, pairs[k].1) == m
  {
    if |pairs| == 0 then 0
    else
      var init := MaxArea(pairs[..|pairs| - 1]);
      var last := Area(pairs[|pairs| - 1].0, pairs[|pairs| - 1].1);
      assert forall k :: 0 <= k < |pairs| - 1 ==> pairs[..|pairs| - 1][k] == pairs[k];
      if last >= init then last else init
  }

  // ---------------------------------------------------------------------
  // Green intervals

  datatype GreenInterval = GreenInterval(start: nat, end: nat)

  datatype LineCreationError =
    | MissingPointForClosingGreenColumn
    | MissingInterval(interval: GreenInterval)
    | EmptyInput

  predicate Covers(interval: GreenInterval, x: nat)
  {
    interval.start <= x <= interval.end
  }

  /** What `find` over a set of intervals may return: one that covers `x`
      (the source takes the first in hash order), or `None` when none does. */
  predicate FoundIn(intervals: set<GreenInterval>, x: nat, r: Option<GreenInterval>)
  {
    match r
    case None => forall i :: i in intervals ==> !Covers(i, x)
    case Some(i) => i in intervals && Covers(i, x)
  }

  /** When at most one interval covers `x`, the search has one answer. */
  lemma FoundUnique(intervals: set<GreenInterval>, x: nat, r: Option<GreenInterval>, r': Option<GreenInterval>)
    requires forall i, j :: i in intervals && j in intervals && Covers(i, x) && Covers(j, x) ==> i == j
    requires FoundIn(intervals, x, r) && FoundIn(intervals, x, r')
    ensures r == r'
  {
  }

  /** The iterator `find` of `find_interval` and `find_in_current_interval`. */
  method FindIn(intervals: set<GreenInterval>, x: nat) returns (r: Option<GreenInterval>)
    ensures FoundIn(intervals, x, r)
  {
    if exists i :: i in intervals && Covers(i, x) {
      var i :| i in intervals && Covers(i, x);
      r := Some(i);
    } else {
      r := None;
    }
  }

  /** `find_equivalent_interval`, given what the two searches found. */
  function Equivalent(atStart: Option<GreenInterval>, atEnd: Option<GreenInterval>): Option<GreenInterval>
  {
    if atStart.Some? && atEnd.Some? && atStart.value == atEnd.value then atStart else None
  }

  /** The removals of `replace_value_by`, one after the other: the set left
      and the first interval that was missing, if any (the source stops
      there). */
  function RemoveEach(intervals: set<GreenInterval>, toReplace: seq<GreenInterval>): (r: (set<GreenInterval>, Option<GreenInterval>))
    ensures r.0 <= intervals
  {
    if |toReplace| == 0 then (intervals, None)
    else if toReplace[0] !in intervals then (intervals, Some(toReplace[0]))
    else RemoveEach(intervals - {toReplace[0]}, toReplace[1..])
  }

  /** Removing along `a + b` is removing along `a`, then along `b` unless
      `a` already stopped at a missing interval. */
  lemma {:induction false} RemoveEachConcat(intervals: set<GreenInterval>, a: seq<GreenInterval>, b: seq<GreenInterval>)
    ensures RemoveEach(intervals, a + b)
      == if RemoveEach(intervals, a).1.Some? then RemoveEach(intervals, a)
         else RemoveEach(RemoveEach(intervals, a).0, b)
    decreases |a|
  {
    if |a| == 0 {
      assert a + b == b;
    } else {
      assert (a + b)[0] == a[0] && (a + b)[1..] == a[1..] + b;
      if a[0] in intervals {
        RemoveEachConcat(intervals - {a[0]}, a[1..], b);
      }
    }
  }

  /** Exact-mode `replace_value_by` on the set of next intervals. */
  function ReplaceExact(intervals: set<GreenInterval>, toReplace: seq<GreenInterval>, replacement: seq<GreenInterval>)
    : Result<set<GreenInterval>, LineCreationError>
  {
    var removed := RemoveEach(intervals, toReplace);
    if removed.1.Some? then Err(MissingInterval(removed.1.value))
    else Ok(removed.0 + set i | i in replacement)
  }

  /** Replacing distinct intervals fails exactly when one of them is
      missing, and otherwise removes them all and adds the new ones. */
  lemma {:induction false} ReplaceExactSpec(intervals: set<GreenInterval>, toReplace: seq<GreenInterval>,
                                            replacement: seq<GreenInterval>)
    requires forall k, l :: 0 <= k < l < |toReplace| ==> toReplace[k] != toReplace[l]
    ensures ReplaceExact(intervals, toReplace, replacement).Err? <==>
      exists k :: 0 <= k < |toReplace| && toReplace[k] !in intervals
    ensures ReplaceExact(intervals, toReplace, replacement).Err? ==>
      ReplaceExact(intervals, toReplace, replacement).error.MissingInterval?
      && ReplaceExact(intervals, toReplace, replacement).error.interval in toReplace
      && ReplaceExact(intervals, toReplace, replacement).error.interval !in intervals
    ensures ReplaceExact(intervals, toReplace, replacement).Ok? ==>
      ReplaceExact(intervals, toReplace, replacement).value
        == (intervals - set i | i in toReplace) + set i | i in replacement
    decreases |toReplace|
  {
    RemoveEachSpec(intervals, toReplace);
  }

  lemma {:induction false} RemoveEachSpec(intervals: set<GreenInterval>, toReplace: seq<GreenInterval>)
    requires forall k, l :: 0 <= k < l < |toReplace| ==> toReplace[k] != toReplace[l]
    ensures RemoveEach(intervals, toReplace).1.Some? <==>
      exists k :: 0 <= k < |toReplace| && toReplace[k] !in intervals
    ensures RemoveEach(intervals, toReplace).1.Some? ==>
      RemoveEach(intervals, toReplace).1.value in toReplace
      && RemoveEach(intervals, toReplace).1.value !in intervals
    ensures RemoveEach(intervals, toReplace).1.None? ==>
      RemoveEach(intervals, toReplace).0 == intervals - set i | i in toReplace
    decreases |toReplace|
  {
    if |toReplace| > 0 && toReplace[0] in intervals {
      var rest := toReplace[1..];
      var smaller := intervals - {toReplace[0]};
      RemoveEachSpec(smaller, rest);
      forall k | 0 <= k < |rest| ensures rest[k] in smaller <==> rest[k] in intervals {
        assert rest[k] == toReplace[k + 1];
      }
      if RemoveEach(smaller, rest).1.None? {
        assert (set i | i in toReplace) == {toReplace[0]} + set i | i in rest;
      } else {
        var k :| 0 <= k < |rest| && rest[k] !in smaller;
        assert toReplace[k + 1] !in intervals;
      }
    }
  }

  /** The interval `extend_interval` puts in place of `original`. */
  function Extended(original: GreenInterval, extending: GreenInterval): GreenInterval
  {
    GreenInterval(Min(original.start, extending.end), Max(original.end, extending.end))
  }

  /** The pieces of `i` left outside a split at `opening` .. `closing`. */
  function SplitPieces(i: GreenInterval, opening: nat, closing: nat): seq<GreenInterval>
  {
    (if i.start != opening then [GreenInterval(i.start, opening)] else [])
    + (if i.end != closing then [GreenInterval(closing, i.end)] else [])
  }

  /** `LineGreenIntervals`: the intervals of a row and those the next row
      continues from. */
  class LineGreenIntervals {
    var currentIntervals: set<GreenInterval>
    var nextIntervals: set<GreenInterval>

    constructor(current: set<GreenInterval>, next: set<GreenInterval>)
      ensures currentIntervals == current && nextIntervals == next
    {
      currentIntervals := current;
      nextIntervals := next;
    }

    /** `find_interval`: searches the next intervals. */
    method FindInterval(x: nat) returns (r: Option<GreenInterval>)
      ensures FoundIn(nextIntervals, x, r)
    {
      r := FindIn(nextIntervals, x);
    }

    /** `find_in_current_interval`: searches the current intervals. */
    method FindInCurrentInterval(x: nat) returns (r: Option<GreenInterval>)
      ensures FoundIn(currentIntervals, x, r)
    {
      r := FindIn(currentIntervals, x);
    }

    /** `find_equivalent_interval`: the next interval found at both ends of
        `interval`, when the two searches find the same one. */
    method FindEquivalentInterval(interval: GreenInterval)
      returns (r: Option<GreenInterval>, ghost atStart: Option<GreenInterval>, ghost atEnd: Option<GreenInterval>)
      ensures FoundIn(nextIntervals, interval.start, atStart) && FoundIn(nextIntervals, interval.end, atEnd)
      ensures r == Equivalent(atStart, atEnd)
      ensures r.Some? ==> r.value in nextIntervals && Covers(r.value, interval.start) && Covers(r.value, interval.end)
    {
      var startInterval := FindInterval(interval.start);
      var endInterval := FindInterval(interval.end);
      atStart, atEnd := startInterval, endInterval;
      if startInterval.Some? && endInterval.Some? && startInterval.value == endInterval.value {
        r := startInterval;
      } else {
        r := None;
      }
    }

    /** `replace_value_by`: removes each interval of `toReplace` (in
        approximative mode, the next interval equivalent to it), stopping
        at the first that is missing, then adds those of `replacement`. `replaced`
        are the intervals removed, in approximative mode. */
    method ReplaceValueBy(toReplace: seq<GreenInterval>, replacement: seq<GreenInterval>, approximative: bool)
      returns (r: Result<(), LineCreationError>, ghost replaced: seq<GreenInterval>)
      modifies this
      ensures currentIntervals == old(currentIntervals)
      ensures !approximative ==>
        match ReplaceExact(old(nextIntervals), toReplace, replacement)
        case Ok(next) => r == Ok(()) && nextIntervals == next
        case Err(e) => r == Err(e) && nextIntervals == RemoveEach(old(nextIntervals), toReplace).0
      ensures approximative && r.Ok? ==>
        |replaced| == |toReplace|
        && (forall k :: 0 <= k < |toReplace| ==>
              Covers(replaced[k], toReplace[k].start) && Covers(replaced[k], toReplace[k].end))
        && ReplaceExact(old(nextIntervals), replaced, replacement) == Ok(nextIntervals)
    {
      ghost var start := nextIntervals;
      replaced := [];
      var k := 0;
      while k < |toReplace|
        invariant 0 <= k <= |toReplace| && |replaced| == k
        invariant currentIntervals == old(currentIntervals)
        invariant !approximative ==> replaced == toReplace[..k]
        invariant approximative ==> forall l :: 0 <= l < k ==>
          Covers(replaced[l], toReplace[l].start) && Covers(replaced[l], toReplace[l].end)
        invariant RemoveEach(start, replaced) == (nextIntervals, None)
      {
        var interval := toReplace[k];
        if approximative {
          var equivalent, _, _ := FindEquivalentInterval(interval);
          if equivalent.None? {
            r := Err(MissingInterval(interval));
            return;
          }
          interval := equivalent.value;
        }
        RemoveEachConcat(start, replaced, [interval]);
        if interval in nextIntervals {
          nextIntervals := nextIntervals - {interval};
          replaced := replaced + [interval];
        } else {
          if !approximative {
            assert toReplace == replaced + [interval] + toReplace[k + 1..];
            RemoveEachConcat(start, replaced + [interval], toReplace[k + 1..]);
          }
          r := Err(MissingInterval(interval));
          return;
        }
        k := k + 1;
      }
      assert !approximative ==> replaced == toReplace;
      nextIntervals := nextIntervals + set i | i in replacement;
      r := Ok(());
    }

    /** `insert`: adds to the next intervals. */
    method Insert(value: GreenInterval)
      modifies this
      ensures nextIntervals == old(nextIntervals) + {value}
      ensures currentIntervals == old(currentIntervals)
    {
      nextIntervals := nextIntervals + {value};
    }

    /** `extend_interval`: replaces `original` (in approximative mode, the
        next interval equivalent to it) by its extension to the end of
        `extending`. */
    method ExtendInterval(original: GreenInterval, extending: GreenInterval, approximative: bool)
      returns (r: Result<(), LineCreationError>, ghost atStart: Option<GreenInterval>, ghost atEnd: Option<GreenInterval>)
      modifies this
      ensures currentIntervals == old(currentIntervals)
      ensures approximative ==>
        FoundIn(old(nextIntervals), original.start, atStart) && FoundIn(old(nextIntervals), original.end, atEnd)
      ensures
        var resolved := if approximative then Equivalent(atStart, atEnd) else Some(original);
        match resolved
        case None => r == Err(MissingInterval(original)) && nextIntervals == old(nextIntervals)
        case Some(o) =>
          match ReplaceExact(old(nextIntervals), [o], [Extended(o, extending)])
          case Ok(next) => r == Ok(()) && nextIntervals == next
          case Err(e) => r == Err(e) && nextIntervals == old(nextIntervals)
    {
      var interval := original;
      atStart, atEnd := None, None;
      if approximative {
        var equivalent;
        equivalent, atStart, atEnd := FindEquivalentInterval(original);
        if equivalent.None? {
          r := Err(MissingInterval(original));
          return;
        }
        interval := equivalent.value;
      }
      ghost var replaced;
      r, replaced := ReplaceValueBy([interval], [Extended(interval, extending)], false);
    }

    /** `new_first_line`: the tiles of the first row, sorted by x, taken
        two by two as intervals. */
    static method NewFirstLine(lineTiles: seq<RedTile>) returns (r: Result<LineGreenIntervals, LineCreationError>)
      ensures r.Err? <==> |lineTiles| % 2 != 0
      ensures r.Err? ==> r.error == MissingPointForClosingGreenColumn
      ensures r.Ok? ==>
        (fresh(r.value)
         && r.value.currentIntervals == PairUp(LineXs(lineTiles)) && r.value.nextIntervals == PairUp(LineXs(lineTiles)))
    {
      if |lineTiles| % 2 != 0 {
        return Err(MissingPointForClosingGreenColumn);
      }
      var xs := LineXs(lineTiles);
      var intervals := {};
      var k := 0;
      while 2 * k < |xs|
        invariant 2 * k <= |xs|
        invariant intervals == PairUp(xs[..2 * k])
      {
        assert xs[..2 * k + 2][..2 * k] == xs[..2 * k];
        intervals := intervals + {GreenInterval(xs[2 * k], xs[2 * k + 1])};
        k := k + 1;
      }
      assert xs[..2 * k] == xs;
      var line := new LineGreenIntervals(intervals, intervals);
      r := Ok(line);
    }

    /** `new`: the tiles of a row, sorted by x, taken two by two against two
        working copies of the next intervals of the previous row; the result
        keeps the next intervals of both. `choices` are the searches' finds,
        up to the failing pair on an error. */
    static method New(lineTiles: seq<RedTile>, previousLine: LineGreenIntervals)
      returns (r: Result<LineGreenIntervals, LineCreationError>, ghost choices: seq<Choice>)
      ensures |lineTiles| % 2 != 0 ==> r == Err(MissingPointForClosingGreenColumn)
      ensures r.Ok? ==> fresh(r.value)
      ensures |lineTiles| % 2 == 0 ==>
        NewOutcome(Intervals(previousLine.nextIntervals, previousLine.nextIntervals), LineXs(lineTiles), choices,
                   if r.Ok? then Ok(Intervals(r.value.currentIntervals, r.value.nextIntervals)) else Err(r.error))
    {
      choices := [];
      if |lineTiles| % 2 != 0 {
        return Err(MissingPointForClosingGreenColumn), choices;
      }
      var xs := LineXs(lineTiles);
      ghost var start := Intervals(previousLine.nextIntervals, previousLine.nextIntervals);
      var current := new LineGreenIntervals(previousLine.currentIntervals, previousLine.nextIntervals);
      var next := new LineGreenIntervals(previousLine.currentIntervals, previousLine.nextIntervals);
      var k := 0;
      while 2 * k < |xs|
        invariant fresh(current) && fresh(next) && current != next
        invariant NewAlong(start, xs, k, choices, Intervals(current.nextIntervals, next.nextIntervals))
      {
        ghost var line := Intervals(current.nextIntervals, next.nextIntervals);
        var step;
        ghost var choice;
        step, choice := ApplyPair(current, next, xs[2 * k], xs[2 * k + 1]);
        NewAlongStep(start, xs, k, choices, line, choice);
        choices := choices + [choice];
        if step.Err? {
          assert NewOutcome(start, xs, choices, Err(step.error));
          return Err(step.error), choices;
        }
        k := k + 1;
      }
      NewAlongDone(start, xs, k, choices, Intervals(current.nextIntervals, next.nextIntervals));
      var line := new LineGreenIntervals(current.nextIntervals, next.nextIntervals);
      r := Ok(line);
    }
  }

  // ---------------------------------------------------------------------
  // `LineGreenIntervals::new`, one pair of tiles at a time

  /** The key `new` sorts the tiles of a row by. */
  function XKey(t: RedTile): int
  {
    t.x
  }

  /** The x coordinates of the tiles in the order given. */
  function Xs(tiles: seq<RedTile>): (r: seq<nat>)
    ensures |r| == |tiles|
    ensures forall k :: 0 <= k < |tiles| ==> r[k] == tiles[k].x
  {
    seq(|tiles|, k requires 0 <= k < |tiles| => tiles[k].x)
  }

  /** The x coordinates of a row's tiles in increasing order. */
  function LineXs(tiles: seq<RedTile>): (r: seq<nat>)
  {
    Xs(SortByKey(tiles, XKey))
  }

  /** The sorted coordinates are non-decreasing, as many as the tiles, and
      hold the x of every tile. */
  lemma LineXsSpec(tiles: seq<RedTile>)
    ensures NonDecreasing(LineXs(tiles)) && |LineXs(tiles)| == |tiles|
    ensures forall t :: t in tiles ==> t.x in LineXs(tiles)
  {
    var sorted := SortByKey(tiles, XKey);
    forall t | t in tiles ensures t.x in LineXs(tiles) {
      assert t in multiset(sorted);
      var k :| 0 <= k < |sorted| && sorted[k] == t;
      assert LineXs(tiles)[k] == t.x;
    }
  }

  /** The intervals `new_first_line` builds: `xs[0], xs[1]`, `xs[2], xs[3]`, ... */
  function PairUp(xs: seq<nat>): set<GreenInterval>
  {
    if |xs| < 2 then {} else PairUp(xs[..|xs| - 2]) + {GreenInterval(xs[|xs| - 2], xs[|xs| - 1])}
  }

  /** Over non-decreasing coordinates the first row's intervals are well
      formed, and every coordinate of an even count is an end of one. */
  lemma {:induction false} PairUpSpec(xs: seq<nat>)
    requires NonDecreasing(xs)
    ensures WellFormed(PairUp(xs))
    ensures |xs| % 2 == 0 ==> forall k :: 0 <= k < |xs| ==>
      exists i :: i in PairUp(xs) && (i.start == xs[k] || i.end == xs[k])
    decreases |xs|
  {
    if |xs| >= 2 {
      var prefix := xs[..|xs| - 2];
      NonDecreasingPrefix(xs, |xs| - 2);
      PairUpSpec(prefix);
      var last := GreenInterval(xs[|xs| - 2], xs[|xs| - 1]);
      assert last in PairUp(xs);
      if |xs| % 2 == 0 {
        forall k | 0 <= k < |xs| ensures exists i :: i in PairUp(xs) && (i.start == xs[k] || i.end == xs[k]) {
          if k < |xs| - 2 {
            assert xs[k] == prefix[k];
            var i :| i in PairUp(prefix) && (i.start == prefix[k] || i.end == prefix[k]);
            assert i in PairUp(xs);
          }
        }
      }
    }
  }

  /** One iteration of the loop of `new` on the two working copies. */
  method ApplyPair(current: LineGreenIntervals, next: LineGreenIntervals, opening: nat, closing: nat)
    returns (r: Result<(), LineCreationError>, ghost choice: Choice)
    requires current != next
    modifies current, next
    ensures var line := Intervals(old(current.nextIntervals), old(next.nextIntervals));
      ValidChoice(line, opening, closing, choice)
      && match PairStep(line, opening, closing, choice)
         case Ok(after) => r == Ok(()) && current.nextIntervals == after.current && next.nextIntervals == after.next
         case Err(e) => r == Err(e)
  {
    var atOpening := next.FindInterval(opening);
    var atClosing := next.FindInterval(closing);
    choice := Choice(atOpening, atClosing, None, None);
    ghost var replaced;
    match atOpening {
      case None =>
        match atClosing {
          case None =>
            var interval := GreenInterval(opening, closing);
            current.Insert(interval);
            next.Insert(interval);
            r := Ok(());
          case Some(c) =>
            var extended := GreenInterval(opening, c.end);
            r, replaced := current.ReplaceValueBy([c], [extended], false);
            if r.Ok? {
              r, replaced := next.ReplaceValueBy([c], [extended], false);
            }
        }
      case Some(o) =>
        match atClosing {
          case None =>
            var extending := GreenInterval(o.start, closing);
            ghost var atStart, atEnd;
            r, atStart, atEnd := current.ExtendInterval(o, extending, true);
            choice := Choice(atOpening, atClosing, atStart, atEnd);
            if r.Ok? {
              r, replaced := next.ReplaceValueBy([o], [extending], false);
            }
          case Some(c) =>
            if o == c {
              r, replaced := next.ReplaceValueBy([o], SplitPieces(o, opening, closing), false);
            } else {
              var merged := GreenInterval(o.start, c.end);
              r, replaced := current.ReplaceValueBy([o, c], [merged], false);
              if r.Ok? {
                r, replaced := next.ReplaceValueBy([o, c], [merged], false);
              }
            }
        }
    }
  }

  /** The two working sets of `new`: the next intervals of its `current`
      and of its `next` copies of the previous line. */
  datatype Intervals = Intervals(current: set<GreenInterval>, next: set<GreenInterval>)

  /** What the searches of one pair found: the next intervals covering the
      opening and the closing tile, and, when only the opening one is
      covered, what `extend_interval` found in the current copy at the two
      ends of that interval. */
  datatype Choice = Choice(atOpening: Option<GreenInterval>, atClosing: Option<GreenInterval>,
                           equivalentStart: Option<GreenInterval>, equivalentEnd: Option<GreenInterval>)

  /** The searches may have found these. */
  predicate ValidChoice(line: Intervals, opening: nat, closing: nat, choice: Choice)
  {
    FoundIn(line.next, opening, choice.atOpening) && FoundIn(line.next, closing, choice.atClosing)
    && if choice.atOpening.Some? && choice.atClosing.None? then
         FoundIn(line.current, choice.atOpening.value.start, choice.equivalentStart)
         && FoundIn(line.current, choice.atOpening.value.end, choice.equivalentEnd)
       else choice.equivalentStart.None? && choice.equivalentEnd.None?
  }

  /** The update of the current copy, then of the next copy; the first
      failure wins. */
  function Both(current: Result<set<GreenInterval>, LineCreationError>, next: Result<set<GreenInterval>, LineCreationError>)
    : Result<Intervals, LineCreationError>
  {
    if current.Err? then Err(current.error)
    else if next.Err? then Err(next.error)
    else Ok(Intervals(current.value, next.value))
  }

  /** One iteration of the loop of `new`, for the tiles at `opening` and
      `closing`: a new interval, an extension to the right or to the left,
      a split of the covering interval, or a merge of the two. */
  function PairStep(line: Intervals, opening: nat, closing: nat, choice: Choice): Result<Intervals, LineCreationError>
  {
    match choice.atOpening
    case None =>
      (match choice.atClosing
       case None =>
         var interval := GreenInterval(opening, closing);
         Ok(Intervals(line.current + {interval}, line.next + {interval}))
       case Some(c) =>
         var extended := GreenInterval(opening, c.end);
         Both(ReplaceExact(line.current, [c], [extended]), ReplaceExact(line.next, [c], [extended])))
    case Some(o) =>
      match choice.atClosing
      case None =>
        var extending := GreenInterval(o.start, closing);
        (match Equivalent(choice.equivalentStart, choice.equivalentEnd)
         case None => Err(MissingInterval(o))
         case Some(j) =>
           Both(ReplaceExact(line.current, [j], [Extended(j, extending)]), ReplaceExact(line.next, [o], [extending])))
      case Some(c) =>
        if o == c then Both(Ok(line.current), ReplaceExact(line.next, [o], SplitPieces(o, opening, closing)))
        else
          var merged := GreenInterval(o.start, c.end);
          Both(ReplaceExact(line.current, [o, c], [merged]), ReplaceExact(line.next, [o, c], [merged]))
  }

  /** Replacing one interval by one. */
  lemma ReplaceOne(intervals: set<GreenInterval>, x: GreenInterval, y: GreenInterval)
    ensures ReplaceExact(intervals, [x], [y]) == if x in intervals then Ok(intervals - {x} + {y}) else Err(MissingInterval(x))
  {
    assert [x][1..] == [];
    if x in intervals {
      assert RemoveEach(intervals, [x]) == RemoveEach(intervals - {x}, []) == (intervals - {x}, None);
    }
    assert (set p | p in [y]) == {y};
  }

  /** Replacing two distinct intervals by one. */
  lemma ReplaceTwo(intervals: set<GreenInterval>, x: GreenInterval, z: GreenInterval, y: GreenInterval)
    requires x != z
    ensures ReplaceExact(intervals, [x, z], [y])
      == if x !in intervals then Err(MissingInterval(x))
         else if z !in intervals then Err(MissingInterval(z))
         else Ok(intervals - {x, z} + {y})
  {
    assert [x, z][1..] == [z] && [z][1..] == [];
    if x in intervals {
      assert RemoveEach(intervals, [x, z]) == RemoveEach(intervals - {x}, [z]);
      if z in intervals {
        assert RemoveEach(intervals - {x}, [z]) == RemoveEach(intervals - {x} - {z}, []);
      }
    }
    assert (set p | p in [y]) == {y};
    assert intervals - {x} - {z} == intervals - {x, z};
  }

  /** A pair inside one next interval splits it in the next copy only. */
  lemma PairStepSplit(line: Intervals, opening: nat, closing: nat, choice: Choice, i: GreenInterval)
    requires ValidChoice(line, opening, closing, choice)
    requires choice.atOpening == Some(i) && choice.atClosing == Some(i)
    ensures PairStep(line, opening, closing, choice)
      == Ok(Intervals(line.current, (line.next - {i}) + set p | p in SplitPieces(i, opening, closing)))
  {
    ReplaceExactSpec(line.next, [i], SplitPieces(i, opening, closing));
    assert (set p | p in [i]) == {i};
  }

  /** A pair joining two next intervals merges them in both copies; the
      current copy must hold both. */
  lemma PairStepMerge(line: Intervals, opening: nat, closing: nat, choice: Choice, i: GreenInterval, j: GreenInterval)
    requires ValidChoice(line, opening, closing, choice)
    requires choice.atOpening == Some(i) && choice.atClosing == Some(j) && i != j
    ensures var merged := GreenInterval(i.start, j.end);
      i in line.current && j in line.current ==>
        PairStep(line, opening, closing, choice)
        == Ok(Intervals(line.current - {i, j} + {merged}, line.next - {i, j} + {merged}))
    ensures i !in line.current ==> PairStep(line, opening, closing, choice) == Err(MissingInterval(i))
    ensures i in line.current && j !in line.current ==> PairStep(line, opening, closing, choice) == Err(MissingInterval(j))
  {
    ReplaceTwo(line.current, i, j, GreenInterval(i.start, j.end));
    ReplaceTwo(line.next, i, j, GreenInterval(i.start, j.end));
  }

  /** A pair whose closing tile is in a next interval extends it to the
      left in both copies; the current copy must hold it. */
  lemma PairStepExtendLeft(line: Intervals, opening: nat, closing: nat, choice: Choice, j: GreenInterval)
    requires ValidChoice(line, opening, closing, choice)
    requires choice.atOpening.None? && choice.atClosing == Some(j)
    ensures var extended := GreenInterval(opening, j.end);
      j in line.current ==>
        PairStep(line, opening, closing, choice)
        == Ok(Intervals(line.current - {j} + {extended}, line.next - {j} + {extended}))
    ensures j !in line.current ==> PairStep(line, opening, closing, choice) == Err(MissingInterval(j))
  {
    ReplaceOne(line.current, j, GreenInterval(opening, j.end));
    ReplaceOne(line.next, j, GreenInterval(opening, j.end));
  }

  /** A pair whose opening tile is in a next interval `i` extends `i` to the
      right in the next copy, and in the current copy the interval holding
      both ends of `i`, which must exist. */
  lemma PairStepExtendRight(line: Intervals, opening: nat, closing: nat, choice: Choice, i: GreenInterval)
    requires ValidChoice(line, opening, closing, choice) && opening <= closing
    requires choice.atOpening == Some(i) && choice.atClosing.None?
    ensures match Equivalent(choice.equivalentStart, choice.equivalentEnd)
      case None => PairStep(line, opening, closing, choice) == Err(MissingInterval(i))
      case Some(k) =>
        PairStep(line, opening, closing, choice)
        == Ok(Intervals(line.current - {k} + {GreenInterval(k.start, Max(k.end, closing))},
                        line.next - {i} + {GreenInterval(i.start, closing)}))
  {
    match Equivalent(choice.equivalentStart, choice.equivalentEnd)
    case None =>
    case Some(k) =>
      assert k.start <= i.start <= opening;
      ExtendedStart(k, GreenInterval(i.start, closing));
      ReplaceOne(line.current, k, Extended(k, GreenInterval(i.start, closing)));
      ReplaceOne(line.next, i, GreenInterval(i.start, closing));
  }

  /** `extend_interval` starts the extension at `min(original.start,
      extending.end)`; when the extension ends after the original starts
      this is the original's start. */
  lemma ExtendedStart(original: GreenInterval, extending: GreenInterval)
    requires original.start <= extending.end
    ensures Extended(original, extending) == GreenInterval(original.start, Max(original.end, extending.end))
  {
  }

  /** The loop of `new` over the pairs `xs[0], xs[1]`, `xs[2], xs[3]`, ...,
      stopping at the first failure. */
  function LineAlong(line: Intervals, xs: seq<nat>, choices: seq<Choice>): Result<Intervals, LineCreationError>
    requires |xs| == 2 * |choices|
    decreases |choices|
  {
    if |choices| == 0 then Ok(line)
    else
      var n := |choices|;
      var before := LineAlong(line, xs[..2 * n - 2], choices[..n - 1]);
      if before.Err? then before else PairStep(before.value, xs[2 * n - 2], xs[2 * n - 1], choices[n - 1])
  }

  /** Each choice is one the searches may make in the state it is made in. */
  ghost predicate ValidAlong(line: Intervals, xs: seq<nat>, choices: seq<Choice>)
    requires |xs| == 2 * |choices|
    decreases |choices|
  {
    |choices| == 0
    || (var n := |choices|;
        ValidAlong(line, xs[..2 * n - 2], choices[..n - 1])
        && var before := LineAlong(line, xs[..2 * n - 2], choices[..n - 1]);
        before.Ok? && ValidChoice(before.value, xs[2 * n - 2], xs[2 * n - 1], choices[n - 1]))
  }

  /** One more pair extends both. */
  lemma LineAlongStep(line: Intervals, xs: seq<nat>, choices: seq<Choice>, choice: Choice, k: nat)
    requires 2 * k + 2 <= |xs| && |choices| == k
    ensures var xs' := xs[..2 * k + 2]; var choices' := choices + [choice];
      xs'[..2 * k] == xs[..2 * k] && choices'[..k] == choices
      && xs'[2 * k] == xs[2 * k] && xs'[2 * k + 1] == xs[2 * k + 1]
  {
  }

  /** The loop of `new` after `k` pairs, in state `line`. */
  ghost predicate NewAlong(start: Intervals, xs: seq<nat>, k: nat, choices: seq<Choice>, line: Intervals)
  {
    2 * k <= |xs| && |choices| == k
    && ValidAlong(start, xs[..2 * k], choices) && LineAlong(start, xs[..2 * k], choices) == Ok(line)
  }

  /** What `new` returns: the loop over all pairs, or the failure at the
      last pair tried. */
  ghost predicate NewOutcome(start: Intervals, xs: seq<nat>, choices: seq<Choice>,
                             outcome: Result<Intervals, LineCreationError>)
  {
    2 * |choices| <= |xs| && ValidAlong(start, xs[..2 * |choices|], choices)
    && LineAlong(start, xs[..2 * |choices|], choices) == outcome
    && (outcome.Ok? ==> 2 * |choices| == |xs|)
  }

  lemma NewAlongStep(start: Intervals, xs: seq<nat>, k: nat, choices: seq<Choice>, line: Intervals, choice: Choice)
    requires NewAlong(start, xs, k, choices, line) && 2 * k + 2 <= |xs|
    requires ValidChoice(line, xs[2 * k], xs[2 * k + 1], choice)
    ensures ValidAlong(start, xs[..2 * k + 2], choices + [choice])
    ensures LineAlong(start, xs[..2 * k + 2], choices + [choice]) == PairStep(line, xs[2 * k], xs[2 * k + 1], choice)
    ensures PairStep(line, xs[2 * k], xs[2 * k + 1], choice).Ok? ==>
      NewAlong(start, xs, k + 1, choices + [choice], PairStep(line, xs[2 * k], xs[2 * k + 1], choice).value)
    ensures PairStep(line, xs[2 * k], xs[2 * k + 1], choice).Err? ==>
      NewOutcome(start, xs, choices + [choice], PairStep(line, xs[2 * k], xs[2 * k + 1], choice))
  {
    LineAlongStep(start, xs, choices, choice, k);
    var xs', choices' := xs[..2 * k + 2], choices + [choice];
    var step := PairStep(line, xs[2 * k], xs[2 * k + 1], choice);
    assert LineAlong(start, xs', choices') == step;
    assert ValidAlong(start, xs', choices');
  }

  lemma NewAlongDone(start: Intervals, xs: seq<nat>, k: nat, choices: seq<Choice>, line: Intervals)
    requires NewAlong(start, xs, k, choices, line) && 2 * k >= |xs|
    ensures NewOutcome(start, xs, choices, Ok(line))
  {
    assert xs[..2 * k] == xs;
  }

  /** Every interval begins no later than it ends. */
  predicate WellFormed(intervals: set<GreenInterval>)
  {
    forall i :: i in intervals ==> i.start <= i.end
  }

  /** A line whose two sets are well formed, or a failure. */
  predicate WellFormedLine(r: Result<Intervals, LineCreationError>)
  {
    r.Ok? ==> WellFormed(r.value.current) && WellFormed(r.value.next)
  }

  lemma ReplaceExactWellFormed(intervals: set<GreenInterval>, toReplace: seq<GreenInterval>,
                               replacement: seq<GreenInterval>)
    requires WellFormed(intervals)
    requires forall k :: 0 <= k < |replacement| ==> replacement[k].start <= replacement[k].end
    ensures ReplaceExact(intervals, toReplace, replacement).Ok? ==>
      WellFormed(ReplaceExact(intervals, toReplace, replacement).value)
  {
  }

  /** A step over tiles in increasing order keeps every interval well formed. */
  lemma PairStepWellFormed(line: Intervals, opening: nat, closing: nat, choice: Choice)
    requires WellFormed(line.current) && WellFormed(line.next) && opening <= closing
    requires ValidChoice(line, opening, closing, choice)
    ensures WellFormedLine(PairStep(line, opening, closing, choice))
  {
    if choice.atOpening.None? && choice.atClosing.Some? {
      var c := choice.atClosing.value;
      ReplaceExactWellFormed(line.current, [c], [GreenInterval(opening, c.end)]);
      ReplaceExactWellFormed(line.next, [c], [GreenInterval(opening, c.end)]);
    } else if choice.atOpening.Some? && choice.atClosing.None? {
      var o := choice.atOpening.value;
      var extending := GreenInterval(o.start, closing);
      if Equivalent(choice.equivalentStart, choice.equivalentEnd).Some? {
        var j := Equivalent(choice.equivalentStart, choice.equivalentEnd).value;
        ReplaceExactWellFormed(line.current, [j], [Extended(j, extending)]);
        ReplaceExactWellFormed(line.next, [o], [extending]);
      }
    } else if choice.atOpening.Some? && choice.atClosing.Some? {
      var o, c := choice.atOpening.value, choice.atClosing.value;
      if o == c {
        ReplaceExactWellFormed(line.next, [o], SplitPieces(o, opening, closing));
      } else {
        ReplaceExactWellFormed(line.current, [o, c], [GreenInterval(o.start, c.end)]);
        ReplaceExactWellFormed(line.next, [o, c], [GreenInterval(o.start, c.end)]);
      }
    }
  }

  /** Over x coordinates in increasing order, `new` keeps every interval of
      both sets well formed. */
  lemma {:induction false} LineAlongWellFormed(line: Intervals, xs: seq<nat>, choices: seq<Choice>)
    requires |xs| == 2 * |choices| && NonDecreasing(xs)
    requires WellFormed(line.current) && WellFormed(line.next)
    requires ValidAlong(line, xs, choices)
    ensures WellFormedLine(LineAlong(line, xs, choices))
    decreases |choices|
  {
    if |choices| > 0 {
      var n := |choices|;
      var prefix := xs[..2 * n - 2];
      NonDecreasingPrefix(xs, 2 * n - 2);
      LineAlongWellFormed(line, prefix, choices[..n - 1]);
      var before := LineAlong(line, prefix, choices[..n - 1]);
      assert before.Ok?;
      var opening, closing := xs[2 * n - 2], xs[2 * n - 1];
      assert opening <= closing;
      PairStepWellFormed(before.value, opening, closing, choices[n - 1]);
      assert LineAlong(line, xs, choices) == PairStep(before.value, opening, closing, choices[n - 1]);
    } else {
      assert LineAlong(line, xs, choices) == Ok(line);
    }
  }

  lemma NonDecreasingPrefix(xs: seq<nat>, m: nat)
    requires NonDecreasing(xs) && m <= |xs|
    ensures NonDecreasing(xs[..m])
  {
    forall i, j | 0 <= i < j < m ensures xs[..m][i] <= xs[..m][j] {
      assert xs[..m][i] == xs[i] && xs[..m][j] == xs[j];
    }
  }

  predicate NonDecreasing(xs: seq<nat>)
  {
    forall i, j :: 0 <= i < j < |xs| ==> xs[i] <= xs[j]
  }

  /** The errors `new` can produce besides an odd row name an interval. */
  lemma {:induction false} LineAlongErrors(line: Intervals, xs: seq<nat>, choices: seq<Choice>)
    requires |xs| == 2 * |choices|
    ensures LineAlong(line, xs, choices).Err? ==> LineAlong(line, xs, choices).error.MissingInterval?
    decreases |choices|
  {
    if |choices| > 0 {
      var n := |choices|;
      LineAlongErrors(line, xs[..2 * n - 2], choices[..n - 1]);
    }
  }

  // ---------------------------------------------------------------------
  // `FigureIntervals`

  /** The rows holding a tile, in increasing order. */
  function Rows(tiles: seq<RedTile>): (r: seq<nat>)
    ensures StrictlyIncreasing(r)
    ensures forall y :: y in r <==> exists t :: t in tiles && t.y == y
  {
    SortedElements(set t | t in tiles :: t.y)
  }

  /** The tiles of row `y`. */
  function RowTiles(tiles: seq<RedTile>, y: nat): (r: seq<RedTile>)
    ensures forall t :: t in r <==> t in tiles && t.y == y
  {
    if |tiles| == 0 then []
    else
      var rest := RowTiles(tiles[..|tiles| - 1], y);
      assert tiles == tiles[..|tiles| - 1] + [tiles[|tiles| - 1]];
      if tiles[|tiles| - 1].y == y then rest + [tiles[|tiles| - 1]] else rest
  }

  lemma RowsNonEmpty(tiles: seq<RedTile>)
    requires |tiles| > 0
    ensures |Rows(tiles)| > 0
  {
    assert tiles[0].y in Rows(tiles);
  }

  /** The sorted x coordinates of each row, in the order of the rows. */
  function RowsXs(tiles: seq<RedTile>): (r: seq<seq<nat>>)
    ensures |r| == |Rows(tiles)|
    ensures forall k :: 0 <= k < |r| ==> r[k] == LineXs(RowTiles(tiles, Rows(tiles)[k]))
  {
    var rows := Rows(tiles);
    seq(|rows|, k requires 0 <= k < |rows| => LineXs(RowTiles(tiles, rows[k])))
  }

  function Previous(built: seq<Intervals>, k: nat): Option<Intervals>
    requires k <= |built|
  {
    if k == 0 then None else Some(built[k - 1])
  }

  /** A row built as `new_first_line` (no previous row) or `new` builds it. */
  ghost predicate BuiltRow(xs: seq<nat>, previous: Option<Intervals>, line: Intervals, choices: seq<Choice>)
  {
    |xs| % 2 == 0
    && match previous
       case None => line == Intervals(PairUp(xs), PairUp(xs))
       case Some(p) => NewOutcome(Intervals(p.next, p.next), xs, choices, Ok(line))
  }

  /** A row on which `new_first_line` or `new` fails with `e`. */
  ghost predicate FailedRow(xs: seq<nat>, previous: Option<Intervals>, choices: seq<Choice>, e: LineCreationError)
  {
    if |xs| % 2 != 0 then e == MissingPointForClosingGreenColumn
    else previous.Some? && NewOutcome(Intervals(previous.value.next, previous.value.next), xs, choices, Err(e))
  }

  /** The first `|built|` rows, each built from the one before. */
  ghost predicate BuiltAlong(rowXs: seq<seq<nat>>, built: seq<Intervals>, choices: seq<seq<Choice>>)
    decreases |built|
  {
    |built| == |choices| <= |rowXs|
    && (|built| == 0
        || (var n := |built|;
            BuiltAlong(rowXs, built[..n - 1], choices[..n - 1])
            && BuiltRow(rowXs[n - 1], Previous(built, n - 1), built[n - 1], choices[n - 1])))
  }

  /** Row by row: each row is built from the one before. */
  lemma {:induction false} BuiltAlongRows(rowXs: seq<seq<nat>>, built: seq<Intervals>, choices: seq<seq<Choice>>, k: nat)
    requires BuiltAlong(rowXs, built, choices) && k < |built|
    ensures BuiltRow(rowXs[k], Previous(built, k), built[k], choices[k])
    decreases |built|
  {
    var n := |built|;
    if k < n - 1 {
      BuiltAlongRows(rowXs, built[..n - 1], choices[..n - 1], k);
      assert Previous(built[..n - 1], k) == Previous(built, k);
    }
  }

  /** The map of lines holds row `rows[k]` with the intervals `built[k]`. */
  ghost predicate Holds(lines: map<nat, LineGreenIntervals>, rows: seq<nat>, built: seq<Intervals>)
    reads lines.Values
  {
    |rows| == |built|
    && (forall y :: y in lines <==> y in rows)
    && forall k :: 0 <= k < |rows| ==>
         rows[k] in lines && lines[rows[k]].currentIntervals == built[k].current
         && lines[rows[k]].nextIntervals == built[k].next
  }

  /** A failure of `new` is a failed row, and never `EmptyInput`. */
  lemma NewFailure(lineTiles: seq<RedTile>, previous: Intervals, choices: seq<Choice>, e: LineCreationError)
    requires |lineTiles| % 2 != 0 ==> e == MissingPointForClosingGreenColumn
    requires |lineTiles| % 2 == 0 ==>
      NewOutcome(Intervals(previous.next, previous.next), LineXs(lineTiles), choices, Err(e))
    ensures FailedRow(LineXs(lineTiles), Some(previous), choices, e) && !e.EmptyInput?
  {
    if |lineTiles| % 2 == 0 {
      var xs := LineXs(lineTiles);
      LineAlongErrors(Intervals(previous.next, previous.next), xs[..2 * |choices|], choices);
    }
  }

  /** A success of `new` is a built row. */
  lemma NewSuccess(lineTiles: seq<RedTile>, xs: seq<nat>, previous: Intervals, choices: seq<Choice>, row: Intervals)
    requires xs == LineXs(lineTiles) && |lineTiles| % 2 == 0
    requires NewOutcome(Intervals(previous.next, previous.next), xs, choices, Ok(row))
    ensures BuiltRow(xs, Some(previous), row, choices)
  {
  }

  lemma HoldsStep(lines: map<nat, LineGreenIntervals>, rows: seq<nat>, k: nat, built: seq<Intervals>,
                  line: LineGreenIntervals, row: Intervals)
    requires StrictlyIncreasing(rows) && k < |rows| && Holds(lines, rows[..k], built)
    requires line.currentIntervals == row.current && line.nextIntervals == row.next
    requires forall y :: y in lines ==> lines[y] != line
    ensures Holds(lines[rows[k] := line], rows[..k + 1], built + [row])
  {
    assert rows[k] !in rows[..k];
    assert rows[..k + 1] == rows[..k] + [rows[k]];
  }

  lemma BuiltAlongStep(rowXs: seq<seq<nat>>, built: seq<Intervals>, choices: seq<seq<Choice>>,
                       row: Intervals, rowChoices: seq<Choice>)
    requires BuiltAlong(rowXs, built, choices) && 0 < |built| < |rowXs|
    requires BuiltRow(rowXs[|built|], Some(built[|built| - 1]), row, rowChoices)
    ensures BuiltAlong(rowXs, built + [row], choices + [rowChoices])
  {
    var built', choices' := built + [row], choices + [rowChoices];
    assert built'[..|built|] == built && choices'[..|built|] == choices;
    assert Previous(built', |built|) == Some(built[|built| - 1]);
  }

  /** The loop of `FigureIntervals::new` after `k` rows, `previous` holding the last. */
  ghost predicate Building(rowXs: seq<seq<nat>>, rows: seq<nat>, k: nat, built: seq<Intervals>,
                           choices: seq<seq<Choice>>, lines: map<nat, LineGreenIntervals>, previous: LineGreenIntervals)
    reads lines.Values, previous
  {
    1 <= k <= |rows| && |built| == k && |rowXs| == |rows| && StrictlyIncreasing(rows)
    && BuiltAlong(rowXs, built, choices)
    && previous.currentIntervals == built[k - 1].current && previous.nextIntervals == built[k - 1].next
    && Holds(lines, rows[..k], built)
  }

  lemma BuildingFirst(rowXs: seq<seq<nat>>, rows: seq<nat>, built: seq<Intervals>, choices: seq<seq<Choice>>,
                      lines: map<nat, LineGreenIntervals>, first: LineGreenIntervals)
    requires |rowXs| == |rows| > 0 && StrictlyIncreasing(rows) && |rowXs[0]| % 2 == 0
    requires first.currentIntervals == PairUp(rowXs[0]) && first.nextIntervals == PairUp(rowXs[0])
    requires lines == map[rows[0] := first] && choices == [[]]
    requires built == [Intervals(first.currentIntervals, first.nextIntervals)]
    ensures Building(rowXs, rows, 1, built, choices, lines, first)
  {
    assert built[..0] == [] && choices[..0] == [];
    assert BuiltRow(rowXs[0], Previous(built, 0), built[0], choices[0]);
    assert rows[..1] == [rows[0]];
  }

  lemma BuildingStep(rowXs: seq<seq<nat>>, rows: seq<nat>, k: nat, built: seq<Intervals>,
                     choices: seq<seq<Choice>>, lines: map<nat, LineGreenIntervals>, previous: LineGreenIntervals,
                     lineTiles: seq<RedTile>, line: LineGreenIntervals, row: Intervals, rowChoices: seq<Choice>)
    requires Building(rowXs, rows, k, built, choices, lines, previous) && k < |rows|
    requires rowXs[k] == LineXs(lineTiles) && |lineTiles| % 2 == 0
    requires NewOutcome(Intervals(previous.nextIntervals, previous.nextIntervals), rowXs[k], rowChoices, Ok(row))
    requires line.currentIntervals == row.current && line.nextIntervals == row.next
    requires forall y :: y in lines ==> lines[y] != line
    ensures Building(rowXs, rows, k + 1, built + [row], choices + [rowChoices], lines[rows[k] := line], line)
  {
    NewSuccess(lineTiles, rowXs[k], built[k - 1], rowChoices, row);
    HoldsStep(lines, rows, k, built, line, row);
    BuiltAlongStep(rowXs, built, choices, row, rowChoices);
  }

  lemma BuildingDone(rowXs: seq<seq<nat>>, rows: seq<nat>, k: nat, built: seq<Intervals>,
                     choices: seq<seq<Choice>>, lines: map<nat, LineGreenIntervals>, previous: LineGreenIntervals)
    requires Building(rowXs, rows, k, built, choices, lines, previous) && k >= |rows|
    ensures BuiltAlong(rowXs, built, choices) && Holds(lines, rows, built)
  {
    assert rows[..k] == rows;
  }

  /** Some current interval of the row holds the columns `start..=end`. */
  predicate RowContains(intervals: set<GreenInterval>, start: nat, end: nat)
  {
    exists i :: i in intervals && Covers(i, start) && end <= i.end
  }

  /** Whichever current interval the search finds at `start` holds the
      columns `start..=end`. */
  predicate RowAccepts(intervals: set<GreenInterval>, start: nat, end: nat)
  {
    (exists i :: i in intervals && Covers(i, start))
    && forall i :: i in intervals && Covers(i, start) ==> end <= i.end
  }

  /** With at most one interval at `start`, both readings agree. */
  lemma RowContainsAccepts(intervals: set<GreenInterval>, start: nat, end: nat)
    requires forall i, j :: i in intervals && j in intervals && Covers(i, start) && Covers(j, start) ==> i == j
    ensures RowContains(intervals, start, end) <==> RowAccepts(intervals, start, end)
  {
    if RowContains(intervals, start, end) {
      var i :| i in intervals && Covers(i, start) && end <= i.end;
      assert forall j :: j in intervals && Covers(j, start) ==> j == i;
    }
  }

  /** `FigureIntervals`: the intervals of every row holding a tile. */
  class FigureIntervals {
    var lines: map<nat, LineGreenIntervals>

    constructor(lines: map<nat, LineGreenIntervals>)
      ensures this.lines == lines
    {
      this.lines := lines;
    }

    /** `FigureIntervals::new`: the first row by `new_first_line`, every
        further row, in increasing order, by `new` from the row before;
        `EmptyInput` without tiles. On an error, `failing` are the finds of
        the row that fails, after the rows `built`. */
    static method Build(tiles: seq<RedTile>)
      returns (r: Result<FigureIntervals, LineCreationError>, ghost built: seq<Intervals>,
               ghost choices: seq<seq<Choice>>, ghost failing: seq<Choice>)
      ensures r == Err(EmptyInput) <==> |tiles| == 0
      ensures BuiltAlong(RowsXs(tiles), built, choices)
      ensures r.Ok? ==> fresh(r.value) && Holds(r.value.lines, Rows(tiles), built)
      ensures r.Err? && |tiles| > 0 ==>
        |built| < |Rows(tiles)|
        && FailedRow(RowsXs(tiles)[|built|], Previous(built, |built|), failing, r.error)
    {
      var rows := Rows(tiles);
      ghost var rowXs := RowsXs(tiles);
      built, choices, failing := [], [], [];
      if |tiles| > 0 {
        RowsNonEmpty(tiles);
      }
      if |rows| == 0 {
        return Err(EmptyInput), built, choices, failing;
      }
      var first := LineGreenIntervals.NewFirstLine(RowTiles(tiles, rows[0]));
      if first.Err? {
        assert |rowXs[0]| % 2 != 0;
        return Err(first.error), built, choices, failing;
      }
      var lines: map<nat, LineGreenIntervals> := map[rows[0] := first.value];
      built := [Intervals(first.value.currentIntervals, first.value.nextIntervals)];
      choices := [[]];
      BuildingFirst(rowXs, rows, built, choices, lines, first.value);
      var rest;
      rest, built, choices, failing := BuildFrom(tiles, rows, rowXs, lines, built, choices, first.value);
      if rest.Err? {
        return Err(rest.error), built, choices, failing;
      }
      var figure := new FigureIntervals(rest.value);
      r := Ok(figure);
    }

    /** The loop of `FigureIntervals::new` over the rows after the first. */
    static method BuildFrom(tiles: seq<RedTile>, rows: seq<nat>, ghost rowXs: seq<seq<nat>>,
                            lines0: map<nat, LineGreenIntervals>, ghost built0: seq<Intervals>,
                            ghost choices0: seq<seq<Choice>>, first: LineGreenIntervals)
      returns (r: Result<map<nat, LineGreenIntervals>, LineCreationError>, ghost built: seq<Intervals>,
               ghost choices: seq<seq<Choice>>, ghost failing: seq<Choice>)
      requires Building(rowXs, rows, 1, built0, choices0, lines0, first)
      requires forall k :: 0 <= k < |rows| ==> rowXs[k] == LineXs(RowTiles(tiles, rows[k]))
      ensures BuiltAlong(rowXs, built, choices)
      ensures r.Ok? ==> Holds(r.value, rows, built)
      ensures r.Err? ==>
        0 < |built| < |rows| && !r.error.EmptyInput?
        && FailedRow(rowXs[|built|], Previous(built, |built|), failing, r.error)
    {
      var lines: map<nat, LineGreenIntervals> := lines0;
      built, choices, failing := built0, choices0, [];
      var previous := first;
      var k := 1;
      while k < |rows|
        invariant Building(rowXs, rows, k, built, choices, lines, previous)
      {
        var lineTiles := RowTiles(tiles, rows[k]);
        var line;
        ghost var lineChoices;
        line, lineChoices := LineGreenIntervals.New(lineTiles, previous);
        if line.Err? {
          NewFailure(lineTiles, built[k - 1], lineChoices, line.error);
          return Err(line.error), built, choices, lineChoices;
        }
        ghost var row := Intervals(line.value.currentIntervals, line.value.nextIntervals);
        BuildingStep(rowXs, rows, k, built, choices, lines, previous, lineTiles, line.value, row, lineChoices);
        lines := lines[rows[k] := line.value];
        built := built + [row];
        choices := choices + [lineChoices];
        previous := line.value;
        k := k + 1;
      }
      BuildingDone(rowXs, rows, k, built, choices, lines, previous);
      r := Ok(lines);
    }

    /** `rectangle_is_within_figure`: every row of the figure between the
        two tiles has, at the left column, a current interval reaching the
        right column. */
    method RectangleIsWithinFigure(a: RedTile, b: RedTile) returns (r: bool)
      ensures r ==> forall y :: Min(a.y, b.y) <= y <= Max(a.y, b.y) && y in lines ==>
        RowContains(lines[y].currentIntervals, Min(a.x, b.x), Max(a.x, b.x))
      ensures !r ==> exists y :: (Min(a.y, b.y) <= y <= Max(a.y, b.y) && y in lines
                                  && !RowAccepts(lines[y].currentIntervals, Min(a.x, b.x), Max(a.x, b.x)))
    {
      var startX, endX := Min(a.x, b.x), Max(a.x, b.x);
      var startY, endY := Min(a.y, b.y), Max(a.y, b.y);
      var y := startY;
      while y <= endY
        invariant startY <= y <= endY + 1
        invariant forall y' :: startY <= y' < y && y' in lines ==> RowContains(lines[y'].currentIntervals, startX, endX)
      {
        if y in lines {
          var interval := lines[y].FindInCurrentInterval(startX);
          if interval.None? || interval.value.end < endX {
            assert !RowAccepts(lines[y].currentIntervals, startX, endX);
            return false;
          }
          assert RowContains(lines[y].currentIntervals, startX, endX);
        }
        y := y + 1;
      }
      r := true;
    }
  }

  // ---------------------------------------------------------------------
  // The examples of the tests

  /** The tiles the tests build for a row: one at each x, on row `y`. */
  function CreateTiles(xs: seq<nat>, y: nat): (r: seq<RedTile>)
    ensures |r| == |xs| && forall k :: 0 <= k < |xs| ==> r[k] == RedTile(xs[k], y)
  {
    seq(|xs|, k requires 0 <= k < |xs| => RedTile(xs[k], y))
  }

  /** Tiles already in increasing x keep their order. */
  lemma CreateTilesXs(xs: seq<nat>, y: nat)
    requires NonDecreasing(xs)
    ensures LineXs(CreateTiles(xs, y)) == xs
  {
    SortByKeySorted(CreateTiles(xs, y), XKey);
  }

  lemma FoundOnly(intervals: set<GreenInterval>, x: nat, i: GreenInterval, r: Option<GreenInterval>)
    requires i in intervals && Covers(i, x)
    requires forall j :: j in intervals && j != i ==> !Covers(j, x)
    requires FoundIn(intervals, x, r)
    ensures r == Some(i)
  {
  }

  lemma FoundNone(intervals: set<GreenInterval>, x: nat, r: Option<GreenInterval>)
    requires forall j :: j in intervals ==> !Covers(j, x)
    requires FoundIn(intervals, x, r)
    ensures r == None
  {
  }

  /** The last pair of the loop of `new`, on the state the others leave. */
  lemma AlongLast(line: Intervals, xs: seq<nat>, choices: seq<Choice>)
    requires |xs| == 2 * |choices| && |choices| > 0 && ValidAlong(line, xs, choices)
    ensures var n := |choices|;
      var before := LineAlong(line, xs[..2 * n - 2], choices[..n - 1]);
      ValidAlong(line, xs[..2 * n - 2], choices[..n - 1]) && before.Ok?
      && ValidChoice(before.value, xs[2 * n - 2], xs[2 * n - 1], choices[n - 1])
      && LineAlong(line, xs, choices) == PairStep(before.value, xs[2 * n - 2], xs[2 * n - 1], choices[n - 1])
  {
  }

  /** The first pair of the loop of `new`. */
  lemma AlongOne(line: Intervals, xs: seq<nat>, choices: seq<Choice>)
    requires |xs| == 2 && |choices| == 1 && ValidAlong(line, xs, choices)
    ensures ValidChoice(line, xs[0], xs[1], choices[0])
    ensures LineAlong(line, xs, choices) == PairStep(line, xs[0], xs[1], choices[0])
  {
    AlongLast(line, xs, choices);
    assert xs[..0] == [] && choices[..0] == [];
  }

  /** `new_first_line` on tiles at x 1, 2, 5, 7. */
  lemma FirstLineExample()
    ensures LineXs(CreateTiles([1, 2, 5, 7], 0)) == [1, 2, 5, 7]
    ensures PairUp([1, 2, 5, 7]) == {GreenInterval(1, 2), GreenInterval(5, 7)}
  {
    CreateTilesXs([1, 2, 5, 7], 0);
    assert [1, 2, 5, 7][..2] == [1, 2];
    assert [1, 2][..0] == [];
  }

  /** `new` merges the two next intervals the pair joins. */
  lemma {:induction false} MergeExample(choices: seq<Choice>)
    requires |choices| == 1
    requires ValidAlong(Intervals({GreenInterval(1, 3), GreenInterval(5, 7)}, {GreenInterval(1, 3), GreenInterval(5, 7)}),
                        [3, 5], choices)
    ensures LineAlong(Intervals({GreenInterval(1, 3), GreenInterval(5, 7)}, {GreenInterval(1, 3), GreenInterval(5, 7)}),
                      [3, 5], choices)
         == Ok(Intervals({GreenInterval(1, 7)}, {GreenInterval(1, 7)}))
  {
    var line := Intervals({GreenInterval(1, 3), GreenInterval(5, 7)}, {GreenInterval(1, 3), GreenInterval(5, 7)});
    AlongOne(line, [3, 5], choices);
    var c := choices[0];
    FoundOnly(line.next, 3, GreenInterval(1, 3), c.atOpening);
    FoundOnly(line.next, 5, GreenInterval(5, 7), c.atClosing);
    PairStepMerge(line, 3, 5, c, GreenInterval(1, 3), GreenInterval(5, 7));
    assert line.next - {GreenInterval(1, 3), GreenInterval(5, 7)} + {GreenInterval(1, 7)} == {GreenInterval(1, 7)};
  }

  /** `new` splits the next interval holding the pair, and keeps the current one. */
  lemma {:induction false} SplitExample(choices: seq<Choice>)
    requires |choices| == 1
    requires ValidAlong(Intervals({GreenInterval(1, 9)}, {GreenInterval(1, 9)}), [3, 5], choices)
    ensures LineAlong(Intervals({GreenInterval(1, 9)}, {GreenInterval(1, 9)}), [3, 5], choices)
         == Ok(Intervals({GreenInterval(1, 9)}, {GreenInterval(1, 3), GreenInterval(5, 9)}))
  {
    var line := Intervals({GreenInterval(1, 9)}, {GreenInterval(1, 9)});
    AlongOne(line, [3, 5], choices);
    var c := choices[0];
    FoundOnly(line.next, 3, GreenInterval(1, 9), c.atOpening);
    FoundOnly(line.next, 5, GreenInterval(1, 9), c.atClosing);
    PairStepSplit(line, 3, 5, c, GreenInterval(1, 9));
    var pieces := SplitPieces(GreenInterval(1, 9), 3, 5);
    assert pieces == [GreenInterval(1, 3), GreenInterval(5, 9)];
    assert (set p | p in pieces) == {GreenInterval(1, 3), GreenInterval(5, 9)};
    assert line.next - {GreenInterval(1, 9)} == {};
    assert (line.next - {GreenInterval(1, 9)}) + (set p | p in pieces) == {GreenInterval(1, 3), GreenInterval(5, 9)};
  }

  /** `new` extends a next interval to the left and to the right. */
  lemma {:induction false} ExtendBothExample(choices: seq<Choice>)
    requires |choices| == 2
    requires ValidAlong(Intervals({GreenInterval(3, 7)}, {GreenInterval(3, 7)}), [1, 3, 7, 10], choices)
    ensures LineAlong(Intervals({GreenInterval(3, 7)}, {GreenInterval(3, 7)}), [1, 3, 7, 10], choices)
         == Ok(Intervals({GreenInterval(1, 10)}, {GreenInterval(1, 10)}))
  {
    var line := Intervals({GreenInterval(3, 7)}, {GreenInterval(3, 7)});
    var xs: seq<nat> := [1, 3, 7, 10];
    AlongLast(line, xs, choices);
    assert xs[..2] == [1, 3];
    AlongOne(line, xs[..2], choices[..1]);
    var c0, c1 := choices[0], choices[1];
    FoundNone(line.next, 1, c0.atOpening);
    FoundOnly(line.next, 3, GreenInterval(3, 7), c0.atClosing);
    PairStepExtendLeft(line, 1, 3, c0, GreenInterval(3, 7));
    var mid := Intervals({GreenInterval(1, 7)}, {GreenInterval(1, 7)});
    assert line.next - {GreenInterval(3, 7)} + {GreenInterval(1, 7)} == {GreenInterval(1, 7)};
    assert LineAlong(line, xs[..2], choices[..1]) == Ok(mid);
    FoundOnly(mid.next, 7, GreenInterval(1, 7), c1.atOpening);
    FoundNone(mid.next, 10, c1.atClosing);
    FoundOnly(mid.current, 1, GreenInterval(1, 7), c1.equivalentStart);
    FoundOnly(mid.current, 7, GreenInterval(1, 7), c1.equivalentEnd);
    PairStepExtendRight(mid, 7, 10, c1, GreenInterval(1, 7));
    assert mid.next - {GreenInterval(1, 7)} + {GreenInterval(1, 10)} == {GreenInterval(1, 10)};
  }

  /** `new` narrows a next interval from both sides. */
  lemma {:induction false} ReduceBothExample(choices: seq<Choice>)
    requires |choices| == 2
    requires ValidAlong(Intervals({GreenInterval(1, 10)}, {GreenInterval(1, 10)}), [1, 3, 7, 10], choices)
    ensures LineAlong(Intervals({GreenInterval(1, 10)}, {GreenInterval(1, 10)}), [1, 3, 7, 10], choices)
         == Ok(Intervals({GreenInterval(1, 10)}, {GreenInterval(3, 7)}))
  {
    var line := Intervals({GreenInterval(1, 10)}, {GreenInterval(1, 10)});
    var xs: seq<nat> := [1, 3, 7, 10];
    AlongLast(line, xs, choices);
    assert xs[..2] == [1, 3];
    AlongOne(line, xs[..2], choices[..1]);
    var c0, c1 := choices[0], choices[1];
    FoundOnly(line.next, 1, GreenInterval(1, 10), c0.atOpening);
    FoundOnly(line.next, 3, GreenInterval(1, 10), c0.atClosing);
    PairStepSplit(line, 1, 3, c0, GreenInterval(1, 10));
    assert SplitPieces(GreenInterval(1, 10), 1, 3) == [GreenInterval(3, 10)];
    var mid := Intervals({GreenInterval(1, 10)}, {GreenInterval(3, 10)});
    assert (line.next - {GreenInterval(1, 10)}) + (set p | p in [GreenInterval(3, 10)]) == mid.next;
    assert LineAlong(line, xs[..2], choices[..1]) == Ok(mid);
    FoundOnly(mid.next, 7, GreenInterval(3, 10), c1.atOpening);
    FoundOnly(mid.next, 10, GreenInterval(3, 10), c1.atClosing);
    PairStepSplit(mid, 7, 10, c1, GreenInterval(3, 10));
    assert SplitPieces(GreenInterval(3, 10), 7, 10) == [GreenInterval(3, 7)];
    assert (mid.next - {GreenInterval(3, 10)}) + (set p | p in [GreenInterval(3, 7)]) == {GreenInterval(3, 7)};
  }

  /** `new` splits a next interval, then extends what is left of it, and
      extends the current interval holding it. */
  lemma {:induction false} MoveRightExample(choices: seq<Choice>)
    requires |choices| == 2
    requires ValidAlong(Intervals({GreenInterval(3, 7)}, {GreenInterval(3, 7)}), [3, 5, 7, 9], choices)
    ensures LineAlong(Intervals({GreenInterval(3, 7)}, {GreenInterval(3, 7)}), [3, 5, 7, 9], choices)
         == Ok(Intervals({GreenInterval(3, 9)}, {GreenInterval(5, 9)}))
  {
    var line := Intervals({GreenInterval(3, 7)}, {GreenInterval(3, 7)});
    var xs: seq<nat> := [3, 5, 7, 9];
    AlongLast(line, xs, choices);
    assert xs[..2] == [3, 5];
    AlongOne(line, xs[..2], choices[..1]);
    var c0, c1 := choices[0], choices[1];
    FoundOnly(line.next, 3, GreenInterval(3, 7), c0.atOpening);
    FoundOnly(line.next, 5, GreenInterval(3, 7), c0.atClosing);
    PairStepSplit(line, 3, 5, c0, GreenInterval(3, 7));
    assert SplitPieces(GreenInterval(3, 7), 3, 5) == [GreenInterval(5, 7)];
    var mid := Intervals({GreenInterval(3, 7)}, {GreenInterval(5, 7)});
    assert (line.next - {GreenInterval(3, 7)}) + (set p | p in [GreenInterval(5, 7)]) == mid.next;
    assert LineAlong(line, xs[..2], choices[..1]) == Ok(mid);
    FoundOnly(mid.next, 7, GreenInterval(5, 7), c1.atOpening);
    FoundNone(mid.next, 9, c1.atClosing);
    FoundOnly(mid.current, 5, GreenInterval(3, 7), c1.equivalentStart);
    FoundOnly(mid.current, 7, GreenInterval(3, 7), c1.equivalentEnd);
    PairStepExtendRight(mid, 7, 9, c1, GreenInterval(5, 7));
    assert mid.current - {GreenInterval(3, 7)} + {GreenInterval(3, 9)} == {GreenInterval(3, 9)};
    assert mid.next - {GreenInterval(5, 7)} + {GreenInterval(5, 9)} == {GreenInterval(5, 9)};
  }

  /** `new` splits one next interval twice. */
  lemma {:induction false} TwoSplitsExample(choices: seq<Choice>)
    requires |choices| == 2
    requires ValidAlong(Intervals({GreenInterval(1, 15)}, {GreenInterval(1, 15)}), [3, 5, 7, 9], choices)
    ensures LineAlong(Intervals({GreenInterval(1, 15)}, {GreenInterval(1, 15)}), [3, 5, 7, 9], choices)
         == Ok(Intervals({GreenInterval(1, 15)}, {GreenInterval(1, 3), GreenInterval(5, 7), GreenInterval(9, 15)}))
  {
    var line := Intervals({GreenInterval(1, 15)}, {GreenInterval(1, 15)});
    var xs: seq<nat> := [3, 5, 7, 9];
    AlongLast(line, xs, choices);
    assert xs[..2] == [3, 5];
    AlongOne(line, xs[..2], choices[..1]);
    var c0, c1 := choices[0], choices[1];
    FoundOnly(line.next, 3, GreenInterval(1, 15), c0.atOpening);
    FoundOnly(line.next, 5, GreenInterval(1, 15), c0.atClosing);
    PairStepSplit(line, 3, 5, c0, GreenInterval(1, 15));
    assert SplitPieces(GreenInterval(1, 15), 3, 5) == [GreenInterval(1, 3), GreenInterval(5, 15)];
    var mid := Intervals({GreenInterval(1, 15)}, {GreenInterval(1, 3), GreenInterval(5, 15)});
    assert (line.next - {GreenInterval(1, 15)}) + (set p | p in [GreenInterval(1, 3), GreenInterval(5, 15)]) == mid.next;
    assert LineAlong(line, xs[..2], choices[..1]) == Ok(mid);
    FoundOnly(mid.next, 7, GreenInterval(5, 15), c1.atOpening);
    FoundOnly(mid.next, 9, GreenInterval(5, 15), c1.atClosing);
    PairStepSplit(mid, 7, 9, c1, GreenInterval(5, 15));
    assert SplitPieces(GreenInterval(5, 15), 7, 9) == [GreenInterval(5, 7), GreenInterval(9, 15)];
    assert (mid.next - {GreenInterval(5, 15)}) + (set p | p in [GreenInterval(5, 7), GreenInterval(9, 15)])
        == {GreenInterval(1, 3), GreenInterval(5, 7), GreenInterval(9, 15)};
  }

  /** `new` merges three next intervals into one, two at a time. */
  lemma {:induction false} TwoMergesExample(choices: seq<Choice>)
    requires |choices| == 2
    requires ValidAlong(Intervals({GreenInterval(1, 3), GreenInterval(6, 8), GreenInterval(12, 20)},
                                  {GreenInterval(1, 3), GreenInterval(6, 8), GreenInterval(12, 20)}),
                        [3, 6, 8, 12], choices)
    ensures LineAlong(Intervals({GreenInterval(1, 3), GreenInterval(6, 8), GreenInterval(12, 20)},
                                {GreenInterval(1, 3), GreenInterval(6, 8), GreenInterval(12, 20)}),
                      [3, 6, 8, 12], choices)
         == Ok(Intervals({GreenInterval(1, 20)}, {GreenInterval(1, 20)}))
  {
    var start := {GreenInterval(1, 3), GreenInterval(6, 8), GreenInterval(12, 20)};
    var line := Intervals(start, start);
    var xs: seq<nat> := [3, 6, 8, 12];
    AlongLast(line, xs, choices);
    assert xs[..2] == [3, 6];
    AlongOne(line, xs[..2], choices[..1]);
    var c0, c1 := choices[0], choices[1];
    FoundOnly(start, 3, GreenInterval(1, 3), c0.atOpening);
    FoundOnly(start, 6, GreenInterval(6, 8), c0.atClosing);
    PairStepMerge(line, 3, 6, c0, GreenInterval(1, 3), GreenInterval(6, 8));
    var middle := {GreenInterval(1, 8), GreenInterval(12, 20)};
    assert start - {GreenInterval(1, 3), GreenInterval(6, 8)} + {GreenInterval(1, 8)} == middle;
    var mid := Intervals(middle, middle);
    assert LineAlong(line, xs[..2], choices[..1]) == Ok(mid);
    FoundOnly(middle, 8, GreenInterval(1, 8), c1.atOpening);
    FoundOnly(middle, 12, GreenInterval(12, 20), c1.atClosing);
    PairStepMerge(mid, 8, 12, c1, GreenInterval(1, 8), GreenInterval(12, 20));
    assert middle - {GreenInterval(1, 8), GreenInterval(12, 20)} + {GreenInterval(1, 20)} == {GreenInterval(1, 20)};
  }

  /** The eight tiles of the example. */
  predicate IsExampleTiles(tiles: seq<RedTile>)
  {
    |tiles| == 8
    && tiles[0] == RedTile(7, 1) && tiles[1] == RedTile(11, 1) && tiles[2] == RedTile(11, 7)
    && tiles[3] == RedTile(9, 7) && tiles[4] == RedTile(9, 5) && tiles[5] == RedTile(2, 5)
    && tiles[6] == RedTile(2, 3) && tiles[7] == RedTile(7, 3)
  }

  /** No two tiles of the example span more than 50 tiles. */
  lemma ExampleAreasAtMost(tiles: seq<RedTile>, i: nat, j: nat)
    requires IsExampleTiles(tiles) && i < 8 && j < 8
    ensures Area(tiles[i], tiles[j]) <= 50
  {
    var a, b := tiles[i], tiles[j];
    assert 2 <= a.x <= 11 && 2 <= b.x <= 11 && 1 <= a.y <= 7 && 1 <= b.y <= 7;
  }

  lemma ExampleWidest(tiles: seq<RedTile>)
    requires IsExampleTiles(tiles)
    ensures Area(tiles[1], tiles[5]) == 50
  {
    var a, b := tiles[1], tiles[5];
    assert Abs(a.x - b.x) + 1 == 10 && Abs(a.y - b.y) + 1 == 5;
  }

  /** The largest area over all pairs is a bound every pair meets and one
      pair attains. */
  lemma MaxAreaOfCombinations(tiles: seq<RedTile>, bound: nat, i: nat, j: nat)
    requires forall i', j' :: 0 <= i' < j' < |tiles| ==> Area(tiles[i'], tiles[j']) <= bound
    requires i < j < |tiles| && Area(tiles[i], tiles[j]) == bound
    ensures MaxArea(TileCombinations(tiles)) == bound
  {
    var pairs, indices := TileCombinations(tiles), PairIndices(|tiles|);
    PairsFromMembers(0, |tiles|, (i, j));
    var l :| 0 <= l < |indices| && indices[l] == (i, j);
    assert pairs[l] == (tiles[i], tiles[j]);
    var m := MaxArea(pairs);
    var k :| 0 <= k < |pairs| && Area(pairs[k].0, pairs[k].1) == m;
    PairIndicesBounded(|tiles|);
    assert pairs[k] == (tiles[indices[k].0], tiles[indices[k].1]);
  }

  /** The largest rectangle of the example spans 50 tiles. */
  lemma ExampleMaxArea(tiles: seq<RedTile>)
    requires IsExampleTiles(tiles)
    ensures MaxArea(TileCombinations(tiles)) == 50
  {
    forall i, j | 0 <= i < j < |tiles| ensures Area(tiles[i], tiles[j]) <= 50 {
      ExampleAreasAtMost(tiles, i, j);
    }
    ExampleWidest(tiles);
    MaxAreaOfCombinations(tiles, 50, 1, 5);
  }
}
