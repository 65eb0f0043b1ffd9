/** Day 8: junction boxes in space. Every box starts in a circuit of its
    own; the closest pairs are connected one after the other, merging their
    circuits, for a fixed number of connections or until a single circuit
    holds every box. */
module EightDay {
  import opened Common

  datatype JunctionBoxCoordinates = JunctionBoxCoordinates(x: nat, y: nat, z: nat)

  datatype JunctionBox = JunctionBox(coordinates: JunctionBoxCoordinates, index: nat)

  // ---------------------------------------------------------------------
  // Distances and parsing

  /** `JunctionBoxCoordinates::distance`: the squared Euclidean distance. */
  function Distance(a: JunctionBoxCoordinates, b: JunctionBoxCoordinates): (d: int)
    ensures d >= 0
  {
    SquareNonNegative(a.x - b.x);
    SquareNonNegative(a.y - b.y);
    SquareNonNegative(a.z - b.z);
    (a.x - b.x) * (a.x - b.x) + (a.y - b.y) * (a.y - b.y) + (a.z - b.z) * (a.z - b.z)
  }

  lemma SquareNonNegative(d: int)
    ensures d * d >= 0
    ensures d * d == 0 <==> d == 0
  {
    if d != 0 {
      assert d * d > 0 by {
        if d > 0 { MulPositive(d, d); } else { MulPositive(-d, -d); }
      }
    }
  }

  lemma MulPositive(a: int, b: int)
    requires a > 0 && b > 0
    ensures a * b > 0
  {
  }

  lemma DistanceSymmetric(a: JunctionBoxCoordinates, b: JunctionBoxCoordinates)
    ensures Distance(a, b) == Distance(b, a)
  {
    NegSquare(a.x - b.x);
    NegSquare(a.y - b.y);
    NegSquare(a.z - b.z);
  }

  lemma NegSquare(d: int)
    ensures (-d) * (-d) == d * d
  {
  }

  /** Only a box's own position is at distance 0. */
  lemma DistanceZero(a: JunctionBoxCoordinates, b: JunctionBoxCoordinates)
    ensures Distance(a, b) == 0 <==> a == b
  {
    SquareNonNegative(a.x - b.x);
    SquareNonNegative(a.y - b.y);
    SquareNonNegative(a.z - b.z);
  }

  /** The source's distance test. */
  lemma DistanceExample(a: JunctionBoxCoordinates, b: JunctionBoxCoordinates, c: JunctionBoxCoordinates)
    requires a == JunctionBoxCoordinates(1, 0, 0) && b == JunctionBoxCoordinates(1, 0, 1)
    requires c == JunctionBoxCoordinates(1, 1, 1)
    ensures Distance(a, b) == 1 && Distance(b, a) == 1 && Distance(a, c) == 2
  {
    assert a.x - b.x == 0 && a.y - b.y == 0 && a.z - b.z == -1;
    assert a.x - c.x == 0 && a.y - c.y == -1 && a.z - c.z == -1;
    DistanceSymmetric(a, b);
  }

  /** Why `from_string_tuple` panics. */
  datatype CoordinatesError = NotThreeFields | InvalidCoordinate

  /** `JunctionBoxCoordinates::from_string_tuple`: exactly three
      comma-separated fields, each a `usize`. */
  function ParseCoordinates(s: string): (r: Result<JunctionBoxCoordinates, CoordinatesError>)
    ensures r.Err? && r.error == NotThreeFields <==> |Split(s, ',')| != 3
  {
    var fields := Split(s, ',');
    if |fields| != 3 then Err(NotThreeFields)
    else
      var x := ParseUnsigned(fields[0], USIZE_MAX);
      var y := ParseUnsigned(fields[1], USIZE_MAX);
      var z := ParseUnsigned(fields[2], USIZE_MAX);
      if x.None? || y.None? || z.None? then Err(InvalidCoordinate)
      else Ok(JunctionBoxCoordinates(x.value, y.value, z.value))
  }

  /** The coordinates as the input file writes them. */
  function FormatCoordinates(c: JunctionBoxCoordinates): string
  {
    NatToString(c.x) + [','] + NatToString(c.y) + [','] + NatToString(c.z)
  }

  /** Parsing a written line gives back its coordinates. */
  lemma ParseFormatCoordinates(c: JunctionBoxCoordinates)
    requires c.x <= USIZE_MAX && c.y <= USIZE_MAX && c.z <= USIZE_MAX
    ensures ParseCoordinates(FormatCoordinates(c)) == Ok(c)
  {
    var sx, sy, sz := NatToString(c.x), NatToString(c.y), NatToString(c.z);
    assert ',' !in sx && ',' !in sy && ',' !in sz;
    SplitNoSeparator(sz, ',');
    SplitAfterPiece(sy, ',', sz);
    assert sx + [','] + sy + [','] + sz == sx + [','] + (sy + [','] + sz);
    SplitAfterPiece(sx, ',', sy + [','] + sz);
    assert Split(FormatCoordinates(c), ',') == [sx, sy, sz];
    ParseUnsignedOfNatToString(c.x, USIZE_MAX);
    ParseUnsignedOfNatToString(c.y, USIZE_MAX);
    ParseUnsignedOfNatToString(c.z, USIZE_MAX);
  }

  /** `parse_input` on the lines of the file: line `i` becomes the box with
      index `i`; a line that does not parse is the source's panic. */
  function ParseInput(lines: seq<string>): (r: Result<seq<JunctionBox>, CoordinatesError>)
    ensures r.Ok? ==> |r.value| == |lines|
    ensures r.Ok? ==> forall i :: 0 <= i < |lines| ==>
      r.value[i].index == i && ParseCoordinates(lines[i]) == Ok(r.value[i].coordinates)
  {
    if |lines| == 0 then Ok([])
    else
      var init := ParseInput(lines[..|lines| - 1]);
      var last := ParseCoordinates(lines[|lines| - 1]);
      if init.Err? then Err(init.error)
      else if last.Err? then Err(last.error)
      else Ok(init.value + [JunctionBox(last.value, |lines| - 1)])
  }

  /** The input fails to parse exactly when one of its lines does. */
  lemma {:induction false} ParseInputFails(lines: seq<string>)
    ensures ParseInput(lines).Err? <==> exists i :: 0 <= i < |lines| && ParseCoordinates(lines[i]).Err?
  {
    if |lines| > 0 {
      var init := lines[..|lines| - 1];
      ParseInputFails(init);
      if ParseInput(init).Err? {
        var i :| 0 <= i < |init| && ParseCoordinates(init[i]).Err?;
        assert lines[i] == init[i];
      } else if ParseCoordinates(lines[|lines| - 1]).Ok? {
        assert ParseInput(lines).Ok?;
        forall i | 0 <= i < |lines| ensures ParseCoordinates(lines[i]).Ok? {
          if i < |init| {
            assert lines[i] == init[i];
          }
        }
      } else {
        assert ParseInput(lines).Err?;
      }
    }
  }

  // ---------------------------------------------------------------------
  // Circuits: a map from box index to circuit id

  /** `get_circuit_boxes`: the boxes whose circuit is `circuit`. */
  function CircuitBoxes(assignment: map<nat, nat>, circuit: nat): set<nat>
  {
    set k | k in assignment && assignment[k] == circuit
  }

  /** The circuits in use. */
  function Circuits(assignment: map<nat, nat>): set<nat>
  {
    assignment.Values
  }

  /** A circuit is in use exactly when some box belongs to it. */
  lemma CircuitsInUse(assignment: map<nat, nat>, circuit: nat)
    ensures circuit in Circuits(assignment) <==> CircuitBoxes(assignment, circuit) != {}
  {
    if circuit in Circuits(assignment) {
      var k :| k in assignment && assignment[k] == circuit;
      assert k in CircuitBoxes(assignment, circuit);
    }
  }

  /** `merge_circuits`: every box of circuit `b` moves to circuit `a`. */
  function Merged(assignment: map<nat, nat>, a: nat, b: nat): (r: map<nat, nat>)
    ensures r.Keys == assignment.Keys
  {
    map k | k in assignment :: if assignment[k] == b then a else assignment[k]
  }

  /** What merging does to each circuit: `a` gains the boxes of `b`, `b` is
      emptied, the others keep theirs; merging a circuit with itself changes
      nothing. */
  lemma MergedBoxes(assignment: map<nat, nat>, a: nat, b: nat, c: nat)
    ensures CircuitBoxes(Merged(assignment, a, b), a)
      == CircuitBoxes(assignment, a) + CircuitBoxes(assignment, b)
    ensures a != b ==> CircuitBoxes(Merged(assignment, a, b), b) == {}
    ensures c != a && c != b ==> CircuitBoxes(Merged(assignment, a, b), c) == CircuitBoxes(assignment, c)
  {
  }

  lemma MergedSelf(assignment: map<nat, nat>, a: nat)
    ensures Merged(assignment, a, a) == assignment
  {
  }

  /** Merging two circuits in use removes `b` from the circuits in use and
      no other: the number of circuits drops by one, or by none when they
      are the same. */
  lemma MergedCircuits(assignment: map<nat, nat>, a: nat, b: nat)
    requires a in Circuits(assignment)
    ensures Circuits(Merged(assignment, a, b)) == Circuits(assignment) - (if a == b then {} else {b})
  {
    var r := Merged(assignment, a, b);
    forall c | c in Circuits(assignment) - (if a == b then {} else {b})
      ensures c in Circuits(r)
    {
      var k :| k in assignment && assignment[k] == c;
      if c == a {
        var j :| j in assignment && assignment[j] == a;
        assert r[j] == a;
      } else {
        assert r[k] == c;
      }
    }
  }

  /** The two merged circuits end up as one: every box of either is now in
      the same circuit. */
  lemma MergedJoins(assignment: map<nat, nat>, x: nat, y: nat)
    requires x in assignment && y in assignment
    ensures Merged(assignment, assignment[x], assignment[y])[x]
      == Merged(assignment, assignment[x], assignment[y])[y]
  {
  }

  /** Boxes that share a circuit still share one after any merge. */
  lemma MergedKeepsTogether(assignment: map<nat, nat>, a: nat, b: nat, x: nat, y: nat)
    requires x in assignment && y in assignment && assignment[x] == assignment[y]
    ensures Merged(assignment, a, b)[x] == Merged(assignment, a, b)[y]
  {
  }

  /** `get_circuits_size`: the number of boxes of each circuit in use. */
  function CircuitSizes(assignment: map<nat, nat>): map<nat, nat>
  {
    map c | c in Circuits(assignment) :: |CircuitBoxes(assignment, c)|
  }

  /** One entry per circuit in use, each at least 1. */
  lemma CircuitSizesEntries(assignment: map<nat, nat>)
    ensures |CircuitSizes(assignment)| == |Circuits(assignment)|
    ensures forall c :: c in CircuitSizes(assignment) ==> CircuitSizes(assignment)[c] >= 1
  {
    assert CircuitSizes(assignment).Keys == Circuits(assignment);
    forall c | c in CircuitSizes(assignment) ensures CircuitSizes(assignment)[c] >= 1 {
      CircuitsInUse(assignment, c);
    }
  }

  /** The sizes of the circuits in `circuits`, added up. */
  function SizeTotal(assignment: map<nat, nat>, circuits: set<nat>): nat
    decreases circuits
  {
    if circuits == {} then 0
    else
      var c := SetMin(circuits);
      |CircuitBoxes(assignment, c)| + SizeTotal(assignment, circuits - {c})
  }

  /** The boxes whose circuit is among `circuits`. */
  function BoxesIn(assignment: map<nat, nat>, circuits: set<nat>): set<nat>
  {
    set k | k in assignment && assignment[k] in circuits
  }

  lemma {:induction false} SizeTotalCounts(assignment: map<nat, nat>, circuits: set<nat>)
    ensures SizeTotal(assignment, circuits) == |BoxesIn(assignment, circuits)|
    decreases circuits
  {
    if circuits != {} {
      var c := SetMin(circuits);
      SizeTotalCounts(assignment, circuits - {c});
      assert BoxesIn(assignment, circuits)
        == CircuitBoxes(assignment, c) + BoxesIn(assignment, circuits - {c});
      assert CircuitBoxes(assignment, c) !! BoxesIn(assignment, circuits - {c});
    } else {
      assert BoxesIn(assignment, circuits) == {};
    }
  }

  /** The sizes of all circuits add up to the number of boxes. */
  lemma CircuitSizesSum(assignment: map<nat, nat>)
    ensures SizeTotal(assignment, CircuitSizes(assignment).Keys) == |assignment|
  {
    assert CircuitSizes(assignment).Keys == Circuits(assignment);
    SizeTotalCounts(assignment, Circuits(assignment));
    assert BoxesIn(assignment, Circuits(assignment)) == assignment.Keys;
  }

  // ---------------------------------------------------------------------
  // `DistanceMapping`

  /** `DistanceMapping::set` on the map: the distance of two different boxes
      is stored under (larger index, smaller index); a box and itself are
      skipped. */
  function SetDistance(mapping: map<(nat, nat), int>, a: nat, b: nat, v: int): map<(nat, nat), int>
  {
    if a > b then mapping[(a, b) := v]
    else if a < b then mapping[(b, a) := v]
    else mapping
  }

  /** The stored distance of two boxes, whichever way round they are named. */
  function LookupDistance(mapping: map<(nat, nat), int>, a: nat, b: nat): Option<int>
  {
    var key := if a >= b then (a, b) else (b, a);
    if key in mapping then Some(mapping[key]) else None
  }

  /** Every key names the larger index first. */
  predicate KeysOrdered(mapping: map<(nat, nat), int>)
  {
    forall k :: k in mapping ==> k.0 > k.1
  }

  /** After `set(a, b, v)` with a != b the distance of a and b, asked either
      way round, is v; only the key (max, min) was written. */
  lemma SetDistanceLookup(mapping: map<(nat, nat), int>, a: nat, b: nat, v: int)
    ensures a != b ==> LookupDistance(SetDistance(mapping, a, b, v), a, b) == Some(v)
    ensures a != b ==> LookupDistance(SetDistance(mapping, a, b, v), b, a) == Some(v)
    ensures a != b ==>
      SetDistance(mapping, a, b, v).Keys == mapping.Keys + {if a > b then (a, b) else (b, a)}
    ensures forall k :: k in mapping && k != (a, b) && k != (b, a) ==>
      k in SetDistance(mapping, a, b, v) && SetDistance(mapping, a, b, v)[k] == mapping[k]
    ensures a == b ==> SetDistance(mapping, a, b, v) == mapping
  {
  }

  lemma SetDistanceKeepsOrdered(mapping: map<(nat, nat), int>, a: nat, b: nat, v: int)
    requires KeysOrdered(mapping)
    ensures KeysOrdered(SetDistance(mapping, a, b, v))
  {
  }

  class DistanceMapping {
    var mapping: map<(nat, nat), int>

    constructor()
      ensures mapping == map[]
    {
      mapping := map[];
    }

    /** `DistanceMapping::set`. */
    method Set(indexA: nat, indexB: nat, v: int)
      modifies this
      ensures mapping == SetDistance(old(mapping), indexA, indexB, v)
    {
      if indexA > indexB {
        mapping := mapping[(indexA, indexB) := v];
      } else if indexA < indexB {
        mapping := mapping[(indexB, indexA) := v];
      }
    }
  }

  // ---------------------------------------------------------------------
  // The order in which `build_connections` connects boxes

  datatype DistanceEntry = DistanceEntry(a: nat, b: nat, distance: int)

  /** The entries of the keys in `keys` that name two different boxes. */
  ghost function EntriesOf(mapping: map<(nat, nat), int>, keys: set<(nat, nat)>): set<DistanceEntry>
  {
    set k | k in keys && k in mapping && k.0 != k.1 :: DistanceEntry(k.0, k.1, mapping[k])
  }

  /** The entries `build_connections` walks through. */
  ghost function Entries(mapping: map<(nat, nat), int>): set<DistanceEntry>
  {
    EntriesOf(mapping, mapping.Keys)
  }

  predicate SortedByDistance(order: seq<DistanceEntry>)
  {
    forall i, j :: 0 <= i < j < |order| ==> order[i].distance <= order[j].distance
  }

  /** `sorted_by_key` over the filtered entries: each entry exactly once, by
      ascending distance; entries of equal distance may come in any order
      (the source takes them in hash order). */
  ghost predicate DistanceOrder(order: seq<DistanceEntry>, mapping: map<(nat, nat), int>)
  {
    SortedByDistance(order) && multiset(order) == multiset(Entries(mapping))
  }

  lemma EntriesOfAdd(mapping: map<(nat, nat), int>, keys: set<(nat, nat)>, k: (nat, nat))
    requires k in mapping && k !in keys
    ensures EntriesOf(mapping, keys + {k})
      == EntriesOf(mapping, keys) + (if k.0 != k.1 then {DistanceEntry(k.0, k.1, mapping[k])} else {})
    ensures DistanceEntry(k.0, k.1, mapping[k]) !in EntriesOf(mapping, keys)
  {
  }

  lemma MultisetOfAdd<T>(s: set<T>, x: T)
    requires x !in s
    ensures multiset(s + {x}) == multiset(s) + multiset{x}
  {
  }

  /** The iteration over the map and the sort by distance. */
  method SortedDistances(distances: DistanceMapping) returns (order: seq<DistanceEntry>)
    ensures DistanceOrder(order, distances.mapping)
  {
    var mapping := distances.mapping;
    var entries: seq<DistanceEntry> := [];
    var remaining := mapping.Keys;
    while remaining != {}
      invariant remaining <= mapping.Keys
      invariant multiset(entries) == multiset(EntriesOf(mapping, mapping.Keys - remaining))
      decreases remaining
    {
      var k :| k in remaining;
      ghost var visited := mapping.Keys - remaining;
      EntriesOfAdd(mapping, visited, k);
      assert mapping.Keys - (remaining - {k}) == visited + {k};
      if k.0 != k.1 {
        MultisetOfAdd(EntriesOf(mapping, visited), DistanceEntry(k.0, k.1, mapping[k]));
        entries := entries + [DistanceEntry(k.0, k.1, mapping[k])];
      }
      remaining := remaining - {k};
    }
    assert mapping.Keys - remaining == mapping.Keys;
    order := SortByKey(entries, (e: DistanceEntry) => e.distance);
  }

  /** Every box an entry names is a key of the circuit map, when every key
      of the distance map names boxes of the circuit map. */
  lemma DistanceOrderMapped(order: seq<DistanceEntry>, mapping: map<(nat, nat), int>, boxes: set<nat>)
    requires DistanceOrder(order, mapping)
    requires forall k :: k in mapping && k.0 != k.1 ==> k.0 in boxes && k.1 in boxes
    ensures Mapped(order, boxes)
  {
    forall e | e in order ensures e.a in boxes && e.b in boxes {
      assert e in multiset(Entries(mapping));
    }
  }

  /** Two orders by strictly ascending distance of the same entries are the
      same: when no two distances tie, the order is determined. */
  lemma {:induction false} SortedOrderUnique(s: seq<DistanceEntry>, t: seq<DistanceEntry>)
    requires SortedByDistance(s) && multiset(s) == multiset(t)
    requires forall i, j :: 0 <= i < j < |t| ==> t[i].distance < t[j].distance
    ensures s == t
    decreases |t|
  {
    assert |s| == |t| by {
      assert |multiset(s)| == |multiset(t)|;
    }
    if |t| > 0 {
      SortedHeadsEqual(s, t);
      assert s == [s[0]] + s[1..] && t == [t[0]] + t[1..];
      assert multiset(s[1..]) == multiset(t[1..]) by {
        assert multiset(s) == multiset([s[0]]) + multiset(s[1..]);
        assert multiset(t) == multiset([t[0]]) + multiset(t[1..]);
        MultisetCancel(multiset(s[1..]), multiset(t[1..]), multiset([s[0]]));
      }
      SortedOrderUnique(s[1..], t[1..]);
    }
  }

  lemma MultisetCancel<T>(a: multiset<T>, b: multiset<T>, x: multiset<T>)
    requires x + a == x + b
    ensures a == b
  {
    forall e ensures a[e] == b[e] {
      assert (x + a)[e] == (x + b)[e];
    }
  }

  lemma SortedHeadsEqual(s: seq<DistanceEntry>, t: seq<DistanceEntry>)
    requires SortedByDistance(s) && multiset(s) == multiset(t) && |s| > 0 && |t| > 0
    requires forall i, j :: 0 <= i < j < |t| ==> t[i].distance < t[j].distance
    ensures s[0] == t[0]
  {
    assert s[0] in multiset(t);
    var i :| 0 <= i < |t| && t[i] == s[0];
    assert t[0] in multiset(s);
    var j :| 0 <= j < |s| && s[j] == t[0];
    assert s[0].distance <= s[j].distance;
    assert i == 0;
  }

  // ---------------------------------------------------------------------
  // Connecting along the order

  /** Every box the entries name is one of `boxes`. */
  predicate Mapped(order: seq<DistanceEntry>, boxes: set<nat>)
  {
    forall e :: e in order ==> e.a in boxes && e.b in boxes
  }

  /** The circuits after connecting the pairs of `order` one after the
      other: each connection merges the circuit of the second box into that
      of the first. */
  function MergeAlong(assignment: map<nat, nat>, order: seq<DistanceEntry>): (r: map<nat, nat>)
    requires Mapped(order, assignment.Keys)
    ensures r.Keys == assignment.Keys
    decreases |order|
  {
    if |order| == 0 then assignment
    else
      var before := MergeAlong(assignment, order[..|order| - 1]);
      var e := order[|order| - 1];
      Merged(before, before[e.a], before[e.b])
  }

  /** One more connection extends the merged prefix by one entry. */
  lemma MergeAlongStep(assignment: map<nat, nat>, order: seq<DistanceEntry>, n: nat)
    requires Mapped(order, assignment.Keys) && n < |order|
    ensures Mapped(order[..n], assignment.Keys) && Mapped(order[..n + 1], assignment.Keys)
    ensures var before := MergeAlong(assignment, order[..n]);
      MergeAlong(assignment, order[..n + 1]) == Merged(before, before[order[n].a], before[order[n].b])
  {
    assert order[..n + 1][..n] == order[..n];
    assert order[..n + 1][n] == order[n];
  }

  /** More than one circuit is left after each of the first `n` connections. */
  ghost predicate SeveralCircuitsUpTo(assignment: map<nat, nat>, order: seq<DistanceEntry>, n: int)
    requires Mapped(order, assignment.Keys)
  {
    forall j :: 1 <= j <= n && j <= |order| ==> |Circuits(MergeAlong(assignment, order[..j]))| > 1
  }

  lemma SeveralCircuitsExtend(assignment: map<nat, nat>, order: seq<DistanceEntry>, n: nat)
    requires Mapped(order, assignment.Keys) && n < |order|
    requires SeveralCircuitsUpTo(assignment, order, n)
    requires |Circuits(MergeAlong(assignment, order[..n + 1]))| != 1
    ensures SeveralCircuitsUpTo(assignment, order, n + 1)
  {
    var after := MergeAlong(assignment, order[..n + 1]);
    assert |Circuits(after)| > 1 by {
      assert order[n].a in after;
      assert after[order[n].a] in Circuits(after);
    }
    forall j | 1 <= j <= n + 1 && j <= |order|
      ensures |Circuits(MergeAlong(assignment, order[..j]))| > 1
    {
      if j == n + 1 {
        assert order[..j] == order[..n + 1];
      }
    }
  }

  /** Connecting never adds a circuit, and each connection removes at most
      one. */
  lemma {:induction false} MergeAlongCircuits(assignment: map<nat, nat>, order: seq<DistanceEntry>)
    requires Mapped(order, assignment.Keys)
    ensures Circuits(MergeAlong(assignment, order)) <= Circuits(assignment)
    ensures |Circuits(MergeAlong(assignment, order))| + |order| >= |Circuits(assignment)|
    decreases |order|
  {
    if |order| > 0 {
      var init := order[..|order| - 1];
      var before := MergeAlong(assignment, init);
      var e := order[|order| - 1];
      MergeAlongCircuits(assignment, init);
      MergedCircuits(before, before[e.a], before[e.b]);
    }
  }

  /** Every pair that was connected shares a circuit afterwards. */
  lemma {:induction false} MergeAlongConnects(assignment: map<nat, nat>, order: seq<DistanceEntry>, i: nat)
    requires Mapped(order, assignment.Keys) && i < |order|
    ensures MergeAlong(assignment, order)[order[i].a] == MergeAlong(assignment, order)[order[i].b]
    decreases |order|
  {
    var init := order[..|order| - 1];
    var before := MergeAlong(assignment, init);
    var e := order[|order| - 1];
    if i == |order| - 1 {
      MergedJoins(before, e.a, e.b);
    } else {
      MergeAlongConnects(assignment, init, i);
      assert init[i] == order[i];
      MergedKeepsTogether(before, before[e.a], before[e.b], order[i].a, order[i].b);
    }
  }

  // ---------------------------------------------------------------------
  // The state of `CircuitMapping`

  /** `HashMap::from_iter` over the boxes keyed by index: a later box with
      the same index replaces an earlier one. */
  function Indices(boxes: seq<JunctionBox>): set<nat>
  {
    set i | 0 <= i < |boxes| :: boxes[i].index
  }

  /** The numbers below `n`. */
  function Below(n: nat): (r: set<nat>)
    ensures forall i: nat :: i in r <==> i < n
  {
    if n == 0 then {} else Below(n - 1) + {n - 1}
  }

  function BoxIndex(boxes: seq<JunctionBox>): (r: map<nat, JunctionBox>)
    ensures r.Keys == Indices(boxes)
    ensures forall k :: k in r ==> r[k].index == k && r[k] in boxes
  {
    if |boxes| == 0 then map[]
    else
      var last := boxes[|boxes| - 1];
      var init := BoxIndex(boxes[..|boxes| - 1]);
      assert forall k :: k in init ==> init[k] in boxes by {
        forall k | k in init ensures init[k] in boxes {
          var j :| 0 <= j < |boxes| - 1 && boxes[..|boxes| - 1][j] == init[k];
          assert boxes[j] == init[k];
        }
      }
      assert Indices(boxes) == Indices(boxes[..|boxes| - 1]) + {last.index} by {
        forall v | v in Indices(boxes)
          ensures v in Indices(boxes[..|boxes| - 1]) + {last.index}
        {
          var i :| 0 <= i < |boxes| && boxes[i].index == v;
          if i < |boxes| - 1 {
            assert boxes[..|boxes| - 1][i] == boxes[i];
          }
        }
      }
      init[last.index := last]
  }

  /** Every box in the circuit named by its own index. */
  function InitialCircuits(boxes: seq<JunctionBox>): (r: map<nat, nat>)
    ensures r.Keys == BoxIndex(boxes).Keys
    ensures forall k :: k in r ==> CircuitBoxes(r, k) == {k}
  {
    map k | k in BoxIndex(boxes) :: k
  }

  /** With boxes numbered by their position, as `parse_input` numbers them,
      the circuits are 0 .. n-1, one box each. */
  lemma InitialCircuitsOfNumbered(boxes: seq<JunctionBox>)
    requires forall i :: 0 <= i < |boxes| ==> boxes[i].index == i
    ensures InitialCircuits(boxes).Keys == Below(|boxes|)
    ensures Circuits(InitialCircuits(boxes)) == Below(|boxes|)
  {
    var m := InitialCircuits(boxes);
    assert m.Keys == Below(|boxes|) by {
      forall i: nat | i < |boxes| ensures i in Indices(boxes) {
        assert boxes[i].index == i;
      }
      forall v | v in Indices(boxes) ensures v < |boxes| {
        var i :| 0 <= i < |boxes| && boxes[i].index == v;
      }
    }
    forall c | c in Circuits(m) ensures c < |boxes| {
      var k :| k in m && m[k] == c;
    }
    forall i: nat | i < |boxes| ensures i in Circuits(m) {
      assert m[i] == i;
    }
  }

  /** Why `build_connections` panics: the sorted distances ran out, or a
      box of the last pair is missing from the box map. */
  datatype ConnectionsFailure = DistancesExhausted | MissingJunctionBox

  /** The result of `build_connections`: `None` after the allowed number of
      connections, the last pair connected when one circuit is left, or a
      panic. */
  datatype ConnectionsOutcome =
    | Stopped
    | LastPair(a: JunctionBox, b: JunctionBox)
    | Failed(failure: ConnectionsFailure)

  /** After `n` connections along `order` the assignment is `current`, and
      more than one circuit was left after each of them. */
  ghost predicate ConnectedAlong(start: map<nat, nat>, order: seq<DistanceEntry>, n: nat, current: map<nat, nat>)
  {
    Mapped(order, start.Keys) && n <= |order|
    && current == MergeAlong(start, order[..n])
    && SeveralCircuitsUpTo(start, order, n)
  }

  /** One more connection that leaves several circuits keeps `ConnectedAlong`. */
  lemma ConnectedAlongStep(start: map<nat, nat>, order: seq<DistanceEntry>, n: nat, current: map<nat, nat>,
                           next: map<nat, nat>)
    requires ConnectedAlong(start, order, n, current) && n < |order|
    requires order[n].a in current && order[n].b in current
    requires next == Merged(current, current[order[n].a], current[order[n].b])
    ensures next == MergeAlong(start, order[..n + 1])
    ensures SeveralCircuitsUpTo(start, order, n)
    ensures |Circuits(next)| != 1 ==> ConnectedAlong(start, order, n + 1, next)
  {
    MergeAlongStep(start, order, n);
    if |Circuits(next)| != 1 {
      SeveralCircuitsExtend(start, order, n);
    }
  }

  /** What `build_connections` promises about its outcome `r`, given the
      connections made (`made`), the final assignment and the box map. */
  ghost predicate ConnectionsResult(r: ConnectionsOutcome, start: map<nat, nat>, boxes: map<nat, JunctionBox>,
                                    order: seq<DistanceEntry>, made: nat, final: map<nat, nat>,
                                    nMaxConnections: Option<nat>)
    requires Mapped(order, start.Keys)
  {
    made <= |order|
    && final == MergeAlong(start, order[..made])
    && (nMaxConnections.Some? ==> made <= nMaxConnections.value)
    && SeveralCircuitsUpTo(start, order, made - 1)
    && (r.Stopped? ==>
          nMaxConnections.Some? && made == nMaxConnections.value
          && (made == 0 || |Circuits(final)| > 1))
    && (r == Failed(DistancesExhausted) ==>
          made == |order| && (nMaxConnections.None? || made < nMaxConnections.value)
          && (made == 0 || |Circuits(final)| > 1))
    && (r.LastPair? || r == Failed(MissingJunctionBox) ==>
          made >= 1 && |Circuits(final)| == 1)
    && (r.LastPair? ==>
          made >= 1 && order[made - 1].a in boxes && order[made - 1].b in boxes
          && r.a == boxes[order[made - 1].a] && r.b == boxes[order[made - 1].b])
    && (r == Failed(MissingJunctionBox) ==>
          made >= 1 && (order[made - 1].a !in boxes || order[made - 1].b !in boxes))
  }

  /** A loop that stops while several circuits are left. */
  lemma ConnectionsStopped(r: ConnectionsOutcome, start: map<nat, nat>, boxes: map<nat, JunctionBox>,
                           order: seq<DistanceEntry>, made: nat, final: map<nat, nat>,
                           nMaxConnections: Option<nat>)
    requires ConnectedAlong(start, order, made, final)
    requires nMaxConnections.Some? ==> made <= nMaxConnections.value
    requires r == Stopped ==> nMaxConnections.Some? && made == nMaxConnections.value
    requires r == Failed(DistancesExhausted) ==>
      made == |order| && (nMaxConnections.None? || made < nMaxConnections.value)
    requires r == Stopped || r == Failed(DistancesExhausted)
    ensures ConnectionsResult(r, start, boxes, order, made, final, nMaxConnections)
  {
    if made > 0 {
      assert |Circuits(MergeAlong(start, order[..made]))| > 1;
    }
  }

  /** A loop that stops with one circuit left. */
  lemma ConnectionsJoined(r: ConnectionsOutcome, start: map<nat, nat>, boxes: map<nat, JunctionBox>,
                          order: seq<DistanceEntry>, made: nat, final: map<nat, nat>,
                          nMaxConnections: Option<nat>)
    requires Mapped(order, start.Keys) && 1 <= made <= |order|
    requires final == MergeAlong(start, order[..made]) && |Circuits(final)| == 1
    requires SeveralCircuitsUpTo(start, order, made - 1)
    requires nMaxConnections.Some? ==> made <= nMaxConnections.value
    requires var e := order[made - 1];
      if e.a in boxes && e.b in boxes then r == LastPair(boxes[e.a], boxes[e.b])
      else r == Failed(MissingJunctionBox)
    ensures ConnectionsResult(r, start, boxes, order, made, final, nMaxConnections)
  {
  }

  /** `CircuitMapping`: each box's circuit, and the boxes by index. */
  class CircuitMapping {
    var junctionBoxToCircuit: map<nat, nat>
    var junctionBoxToJunctionBox: map<nat, JunctionBox>

    /** `CircuitMapping::new`. */
    constructor(boxes: seq<JunctionBox>)
      ensures junctionBoxToCircuit == InitialCircuits(boxes)
      ensures junctionBoxToJunctionBox == BoxIndex(boxes)
    {
      junctionBoxToCircuit := InitialCircuits(boxes);
      junctionBoxToJunctionBox := BoxIndex(boxes);
    }

    /** `get_circuit_of_junction_box`; the source panics on a box it does
        not know. */
    function GetCircuitOfJunctionBox(junctionBoxId: nat): (c: nat)
      reads this
      requires junctionBoxId in junctionBoxToCircuit
      ensures junctionBoxId in CircuitBoxes(junctionBoxToCircuit, c)
    {
      junctionBoxToCircuit[junctionBoxId]
    }

    /** `get_circuit_boxes`, as a set (the source lists them in hash order). */
    function GetCircuitBoxes(circuitId: nat): (r: set<nat>)
      reads this
      ensures r <= junctionBoxToCircuit.Keys
      ensures r == {} <==> circuitId !in Circuits(junctionBoxToCircuit)
    {
      CircuitsInUse(junctionBoxToCircuit, circuitId);
      CircuitBoxes(junctionBoxToCircuit, circuitId)
    }

    /** `get_circuit`: the circuit, when some box belongs to it. */
    function GetCircuit(circuitId: nat): (r: Option<nat>)
      reads this
      ensures r.Some? <==> CircuitBoxes(junctionBoxToCircuit, circuitId) != {}
      ensures r.Some? ==> r.value == circuitId
    {
      CircuitsInUse(junctionBoxToCircuit, circuitId);
      if circuitId in junctionBoxToCircuit.Values then Some(circuitId) else None
    }

    /** `merge_circuits`: every box of circuit `b` is reassigned to `a`; the
        source panics when no box is in circuit `a`. */
    method MergeCircuits(a: nat, b: nat)
      requires GetCircuit(a).Some?
      modifies this
      ensures junctionBoxToCircuit == Merged(old(junctionBoxToCircuit), a, b)
      ensures junctionBoxToJunctionBox == old(junctionBoxToJunctionBox)
    {
      var circuitA := GetCircuit(a).value;
      var moving := GetCircuitBoxes(b);
      ghost var start := junctionBoxToCircuit;
      var remaining := moving;
      while remaining != {}
        invariant remaining <= moving
        invariant junctionBoxToCircuit.Keys == start.Keys
        invariant forall k :: k in start ==>
          junctionBoxToCircuit[k] == (if start[k] == b && k !in remaining then a else start[k])
        invariant junctionBoxToJunctionBox == old(junctionBoxToJunctionBox)
        decreases remaining
      {
        var k :| k in remaining;
        junctionBoxToCircuit := junctionBoxToCircuit[k := circuitA];
        remaining := remaining - {k};
      }
      assert junctionBoxToCircuit == Merged(start, a, b);
    }

    /** `get_junction_box`; the source panics on an unknown index. */
    function GetJunctionBox(junctionBoxId: nat): JunctionBox
      reads this
      requires junctionBoxId in junctionBoxToJunctionBox
    {
      junctionBoxToJunctionBox[junctionBoxId]
    }

    /** `get_circuits_size`. */
    function GetCircuitsSize(): (r: map<nat, nat>)
      reads this
      ensures |r| == |Circuits(junctionBoxToCircuit)|
    {
      CircuitSizesEntries(junctionBoxToCircuit);
      CircuitSizes(junctionBoxToCircuit)
    }

    /** `build_connections`. `made` is the number of connections made and
        `order` the order the distances were taken in. */
    method BuildConnections(distances: DistanceMapping, nMaxConnections: Option<nat>)
      returns (r: ConnectionsOutcome, ghost order: seq<DistanceEntry>, ghost made: nat)
      requires forall k :: k in distances.mapping && k.0 != k.1 ==>
        k.0 in junctionBoxToCircuit && k.1 in junctionBoxToCircuit
      modifies this
      ensures DistanceOrder(order, distances.mapping)
      ensures Mapped(order, old(junctionBoxToCircuit).Keys)
      ensures junctionBoxToJunctionBox == old(junctionBoxToJunctionBox)
      ensures ConnectionsResult(r, old(junctionBoxToCircuit), junctionBoxToJunctionBox, order, made,
                                junctionBoxToCircuit, nMaxConnections)
    {
      var sorted := SortedDistances(distances);
      order := sorted;
      ghost var start := junctionBoxToCircuit;
      DistanceOrderMapped(order, distances.mapping, start.Keys);
      var nConnections := 0;
      assert order[..0] == [];
      while match nMaxConnections {
        case Some(maxConnections) => nConnections < maxConnections
        case None => true
      }
        invariant ConnectedAlong(start, order, nConnections, junctionBoxToCircuit)
        invariant nMaxConnections.Some? ==> nConnections <= nMaxConnections.value
        invariant junctionBoxToJunctionBox == old(junctionBoxToJunctionBox)
        decreases |order| - nConnections
      {
        if nConnections == |sorted| {
          r, made := Failed(DistancesExhausted), nConnections;
          ConnectionsStopped(r, start, junctionBoxToJunctionBox, order, made, junctionBoxToCircuit, nMaxConnections);
          return;
        }
        var e := sorted[nConnections];
        assert e in order;
        var circuitA := GetCircuitOfJunctionBox(e.a);
        var circuitB := GetCircuitOfJunctionBox(e.b);
        ghost var before := junctionBoxToCircuit;
        MergeCircuits(circuitA, circuitB);
        ConnectedAlongStep(start, order, nConnections, before, junctionBoxToCircuit);
        nConnections := nConnections + 1;
        if |GetCircuitsSize()| == 1 {
          made := nConnections;
          if e.a in junctionBoxToJunctionBox && e.b in junctionBoxToJunctionBox {
            r := LastPair(GetJunctionBox(e.a), GetJunctionBox(e.b));
          } else {
            r := Failed(MissingJunctionBox);
          }
          ConnectionsJoined(r, start, junctionBoxToJunctionBox, order, made, junctionBoxToCircuit, nMaxConnections);
          return;
        }
      }
      r, made := Stopped, nConnections;
      ConnectionsStopped(r, start, junctionBoxToJunctionBox, order, made, junctionBoxToCircuit, nMaxConnections);
    }
  }

  // ---------------------------------------------------------------------
  // The examples of the tests

  /** `test_merge_circuits` and `test_merge_circuits_multiple_updates`. */
  lemma MergeExample(assignment: map<nat, nat>)
    requires assignment == map[0 := 0, 1 := 2, 2 := 2, 3 := 3]
    ensures CircuitBoxes(Merged(assignment, 2, 0), 2) == {0, 1, 2}
    ensures CircuitBoxes(Merged(assignment, 0, 2), 0) == {0, 1, 2}
  {
    MergedBoxes(assignment, 2, 0, 2);
    MergedBoxes(assignment, 0, 2, 0);
    assert CircuitBoxes(assignment, 0) == {0};
    assert CircuitBoxes(assignment, 2) == {1, 2};
  }

  /** The five distances of `test_build_connections`. */
  ghost predicate IsExampleDistances(mapping: map<(nat, nat), int>)
  {
    mapping == map[(0, 1) := 10, (0, 2) := 1, (0, 3) := 5, (1, 2) := 2, (3, 4) := 3]
  }

  /** Their order by distance. */
  function ExampleOrder(): seq<DistanceEntry>
  {
    [DistanceEntry(0, 2, 1), DistanceEntry(1, 2, 2), DistanceEntry(3, 4, 3),
     DistanceEntry(0, 3, 5), DistanceEntry(0, 1, 10)]
  }

  /** The same order, entry by entry. */
  ghost predicate IsExampleOrder(order: seq<DistanceEntry>)
  {
    |order| == 5 && order[0] == DistanceEntry(0, 2, 1) && order[1] == DistanceEntry(1, 2, 2)
    && order[2] == DistanceEntry(3, 4, 3) && order[3] == DistanceEntry(0, 3, 5)
    && order[4] == DistanceEntry(0, 1, 10)
  }

  lemma ExampleEntries(mapping: map<(nat, nat), int>)
    requires IsExampleDistances(mapping)
    ensures multiset(Entries(mapping)) == multiset(ExampleOrder())
  {
    var e0, e1, e2, e3, e4 := DistanceEntry(0, 2, 1), DistanceEntry(1, 2, 2), DistanceEntry(3, 4, 3),
      DistanceEntry(0, 3, 5), DistanceEntry(0, 1, 10);
    var entries := {e0, e1, e2, e3, e4};
    assert Entries(mapping) == entries by {
      assert mapping.Keys == {(0, 1), (0, 2), (0, 3), (1, 2), (3, 4)};
      assert e0 in Entries(mapping) by { assert (0, 2) in mapping; }
      assert e1 in Entries(mapping) by { assert (1, 2) in mapping; }
      assert e2 in Entries(mapping) by { assert (3, 4) in mapping; }
      assert e3 in Entries(mapping) by { assert (0, 3) in mapping; }
      assert e4 in Entries(mapping) by { assert (0, 1) in mapping; }
    }
    assert ExampleOrder() == [e0, e1, e2, e3, e4];
    forall e ensures multiset(entries)[e] == multiset([e0, e1, e2, e3, e4])[e] {
    }
  }

  /** No two distances tie, so the order is determined. */
  lemma ExampleDistanceOrder(order: seq<DistanceEntry>, mapping: map<(nat, nat), int>)
    requires IsExampleDistances(mapping) && DistanceOrder(order, mapping)
    ensures order == ExampleOrder() && IsExampleOrder(order)
  {
    ExampleEntries(mapping);
    SortedOrderUnique(order, ExampleOrder());
  }

  /** The five boxes of `test_build_connections`, each its own circuit. */
  ghost predicate IsExampleCircuits(assignment: map<nat, nat>)
  {
    assignment == map[0 := 0, 1 := 1, 2 := 2, 3 := 3, 4 := 4]
  }

  /** Five boxes 0 .. 4 in circuits `v0` .. `v4`. */
  ghost predicate Assigns(m: map<nat, nat>, v0: nat, v1: nat, v2: nat, v3: nat, v4: nat)
  {
    m.Keys == {0, 1, 2, 3, 4} && m[0] == v0 && m[1] == v1 && m[2] == v2 && m[3] == v3 && m[4] == v4
  }

  /** One merge of the example. */
  lemma ExampleMerge(m: map<nat, nat>, w0: nat, w1: nat, w2: nat, w3: nat, w4: nat, a: nat, b: nat,
                     v0: nat, v1: nat, v2: nat, v3: nat, v4: nat)
    requires Assigns(m, w0, w1, w2, w3, w4)
    requires v0 == (if w0 == b then a else w0) && v1 == (if w1 == b then a else w1)
    requires v2 == (if w2 == b then a else w2) && v3 == (if w3 == b then a else w3)
    requires v4 == (if w4 == b then a else w4)
    ensures Assigns(Merged(m, a, b), v0, v1, v2, v3, v4)
  {
  }

  /** The circuits after each of the first three connections. */
  lemma ExampleMerges(start: map<nat, nat>, order: seq<DistanceEntry>)
    requires IsExampleCircuits(start) && IsExampleOrder(order)
    ensures Mapped(order, start.Keys)
    ensures Assigns(MergeAlong(start, order[..1]), 0, 1, 0, 3, 4)
    ensures Assigns(MergeAlong(start, order[..2]), 1, 1, 1, 3, 4)
    ensures Assigns(MergeAlong(start, order[..3]), 1, 1, 1, 3, 3)
  {
    assert Assigns(start, 0, 1, 2, 3, 4);
    assert Mapped(order, start.Keys);
    assert order[..0] == [];
    MergeAlongStep(start, order, 0);
    ExampleMerge(start, 0, 1, 2, 3, 4, 0, 2, 0, 1, 0, 3, 4);
    MergeAlongStep(start, order, 1);
    ExampleMerge(MergeAlong(start, order[..1]), 0, 1, 0, 3, 4, 1, 0, 1, 1, 1, 3, 4);
    MergeAlongStep(start, order, 2);
    ExampleMerge(MergeAlong(start, order[..2]), 1, 1, 1, 3, 4, 3, 4, 1, 1, 1, 3, 3);
  }

  /** Two boxes in different circuits: more than one circuit is in use. */
  lemma TwoCircuits(assignment: map<nat, nat>, x: nat, y: nat)
    requires x in assignment && y in assignment && assignment[x] != assignment[y]
    ensures |Circuits(assignment)| > 1
  {
    var circuits := Circuits(assignment);
    assert assignment[x] in circuits;
    assert assignment[y] in circuits - {assignment[x]};
    assert |circuits - {assignment[x]}| == |circuits| - 1;
  }

  /** The circuits after the third connection of the example. */
  lemma ExampleFinalCircuits(final: map<nat, nat>)
    requires Assigns(final, 1, 1, 1, 3, 3)
    ensures CircuitBoxes(final, 1) == {0, 1, 2} && CircuitBoxes(final, 3) == {3, 4}
    ensures CircuitBoxes(final, 0) == {} && CircuitBoxes(final, 2) == {} && CircuitBoxes(final, 4) == {}
  {
  }

  /** With five entries, at most three connections and several circuits
      after each of the first three, the loop stops after the third. */
  lemma StopsAtThree(r: ConnectionsOutcome, start: map<nat, nat>, boxes: map<nat, JunctionBox>,
                     order: seq<DistanceEntry>, made: nat, final: map<nat, nat>)
    requires Mapped(order, start.Keys) && |order| == 5
    requires ConnectionsResult(r, start, boxes, order, made, final, Some(3))
    requires |Circuits(MergeAlong(start, order[..1]))| > 1
    requires |Circuits(MergeAlong(start, order[..2]))| > 1
    requires |Circuits(MergeAlong(start, order[..3]))| > 1
    ensures r == Stopped && made == 3
  {
    assert made <= 3 && final == MergeAlong(start, order[..made]);
    assert made >= 1 ==> |Circuits(final)| > 1 by {
      assert made == 0 || made == 1 || made == 2 || made == 3;
    }
    match r {
      case Stopped =>
      case LastPair(_, _) =>
        assert false;
      case Failed(failure) =>
        if failure == DistancesExhausted {
          assert false;
        }
        assert false;
    }
  }

  /** More than one circuit after each of the first three connections of
      the example. */
  lemma ExampleSeveral(start: map<nat, nat>, order: seq<DistanceEntry>)
    requires IsExampleCircuits(start) && IsExampleOrder(order)
    ensures Mapped(order, start.Keys)
    ensures |Circuits(MergeAlong(start, order[..1]))| > 1
    ensures |Circuits(MergeAlong(start, order[..2]))| > 1
    ensures |Circuits(MergeAlong(start, order[..3]))| > 1
  {
    ExampleMerges(start, order);
    TwoCircuits(MergeAlong(start, order[..1]), 1, 3);
    TwoCircuits(MergeAlong(start, order[..2]), 1, 3);
    TwoCircuits(MergeAlong(start, order[..3]), 1, 3);
  }

  /** `test_build_connections`: with at most three connections the loop
      stops after the third, and circuit 1 holds boxes 0, 1 and 2, circuit 3
      boxes 3 and 4, while circuits 0, 2 and 4 are empty. */
  lemma BuildConnectionsExample(r: ConnectionsOutcome, start: map<nat, nat>, boxes: map<nat, JunctionBox>,
                                mapping: map<(nat, nat), int>, order: seq<DistanceEntry>, made: nat,
                                final: map<nat, nat>)
    requires IsExampleCircuits(start) && IsExampleDistances(mapping) && DistanceOrder(order, mapping)
    requires Mapped(order, start.Keys)
    requires ConnectionsResult(r, start, boxes, order, made, final, Some(3))
    ensures r == Stopped && made == 3
    ensures CircuitBoxes(final, 1) == {0, 1, 2} && CircuitBoxes(final, 3) == {3, 4}
    ensures CircuitBoxes(final, 0) == {} && CircuitBoxes(final, 2) == {} && CircuitBoxes(final, 4) == {}
  {
    assert IsExampleOrder(order) by {
      ExampleDistanceOrder(order, mapping);
    }
    ExampleSeveral(start, order);
    StopsAtThree(r, start, boxes, order, made, final);
    assert Assigns(final, 1, 1, 1, 3, 3) by {
      ExampleMerges(start, order);
    }
    ExampleFinalCircuits(final);
  }
}
