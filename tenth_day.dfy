/** Day 10: the factory machines. A machine has a panel of lights, a row of
    buttons and a list of joltage counters. In light mode a button flips the
    lights it lists; in joltage mode it lowers the counters it lists by one.
    The solvers look for the fewest presses that reach the target. */
module TenthDay {
  import opened Common

  /** A button and the positions (lights or counters) it acts on. */
  datatype Button = Button(index: nat, lightsActivated: set<nat>)

  datatype Machine = Machine(targetLights: seq<bool>, buttons: seq<Button>, targetJoltage: seq<nat>)

  /** Why a machine line does not parse. */
  datatype MachineError =
    | InvalidLight(light: char)
    | InvalidButton(text: string)
    | InvalidJoltage(text: string)

  // ---------------------------------------------------------------------
  // Parsing

  /** Each comma-separated piece parsed as a `usize`. */
  function ParseAll(pieces: seq<string>): (r: seq<Option<nat>>)
    ensures |r| == |pieces| && forall k :: 0 <= k < |pieces| ==> r[k] == ParseUnsigned(pieces[k], USIZE_MAX)
  {
    seq(|pieces|, k requires 0 <= k < |pieces| => ParseUnsigned(pieces[k], USIZE_MAX))
  }

  /** Collecting parse results into a set: the first failure fails the
      whole collection. */
  function Collect(opts: seq<Option<nat>>): (r: Option<set<nat>>)
    ensures r.Some? <==> forall k :: 0 <= k < |opts| ==> opts[k].Some?
    decreases |opts|
  {
    if |opts| == 0 then Some({})
    else
      var init := opts[..|opts| - 1];
      assert forall k :: 0 <= k < |init| ==> init[k] == opts[k];
      var before := Collect(init);
      var last := opts[|opts| - 1];
      if before.Some? && last.Some? then Some(before.value + {last.value}) else None
  }

  /** The collected set holds exactly the values of the results. */
  lemma {:induction false} CollectMembers(opts: seq<Option<nat>>, i: nat)
    requires Collect(opts).Some?
    ensures i in Collect(opts).value <==> exists k :: 0 <= k < |opts| && opts[k] == Some(i)
    decreases |opts|
  {
    if |opts| > 0 {
      var n := |opts| - 1;
      var init := opts[..n];
      CollectMembers(init, i);
      assert forall k :: 0 <= k < n ==> init[k] == opts[k];
    }
  }

  /** Results that are all present collect to the set of their values. */
  lemma {:induction false} CollectValues(opts: seq<Option<nat>>, xs: seq<nat>)
    requires |opts| == |xs| && forall k :: 0 <= k < |opts| ==> opts[k] == Some(xs[k])
    ensures Collect(opts) == Some(Elements(xs))
    decreases |opts|
  {
    if |opts| > 0 {
      var n := |opts| - 1;
      var init, values := opts[..n], xs[..n];
      forall k | 0 <= k < n ensures init[k] == Some(values[k]) {
        assert init[k] == opts[k] && values[k] == xs[k];
      }
      CollectValues(init, values);
      assert Collect(init) == Some(Elements(values));
      assert opts[n] == Some(xs[n]);
      assert Elements(xs) == Elements(values) + {xs[n]};
    }
  }

  /** One `usize` per comma-separated piece; any piece that does not parse
      fails the whole button. */
  function ParseIndices(pieces: seq<string>): (r: Option<set<nat>>)
    ensures r.Some? <==> forall k :: 0 <= k < |pieces| ==> ParseUnsigned(pieces[k], USIZE_MAX).Some?
  {
    Collect(ParseAll(pieces))
  }

  /** The parsed set holds exactly the values of the pieces. */
  lemma ParseIndicesMembers(pieces: seq<string>, i: nat)
    requires ParseIndices(pieces).Some?
    ensures i in ParseIndices(pieces).value <==>
      exists k :: 0 <= k < |pieces| && ParseUnsigned(pieces[k], USIZE_MAX) == Some(i)
  {
    CollectMembers(ParseAll(pieces), i);
  }

  /** `Button::new`: the text between the parentheses, split on ','. */
  function ButtonNew(index: nat, input: string): (r: Result<Button, MachineError>)
    ensures r.Ok? <==> ParseIndices(Split(input, ',')).Some?
    ensures r.Ok? ==> r.value == Button(index, ParseIndices(Split(input, ',')).value)
    ensures r.Err? ==> r.error == InvalidButton(input)
  {
    match ParseIndices(Split(input, ','))
    case None => Err(InvalidButton(input))
    case Some(lights) => Ok(Button(index, lights))
  }

  /** A parsed button always acts on something: the empty text does not
      parse, and neither does an empty piece. */
  lemma ButtonNewNonEmpty(index: nat, input: string)
    ensures ButtonNew(index, input).Ok? ==> |ButtonNew(index, input).value.lightsActivated| > 0
    ensures input == "" ==> ButtonNew(index, input).Err?
  {
    var pieces := Split(input, ',');
    if ButtonNew(index, input).Ok? {
      var i := ParseUnsigned(pieces[0], USIZE_MAX).value;
      ParseIndicesMembers(pieces, i);
      assert i in ButtonNew(index, input).value.lightsActivated;
    }
    if input == "" {
      assert pieces == [""];
      assert ParseUnsigned(pieces[0], USIZE_MAX).None?;
    }
  }

  /** The button text for a list of indices, as the puzzle writes it. */
  function FormatIndices(xs: seq<nat>): (s: string)
    requires |xs| > 0
  {
    Join(seq(|xs|, k requires 0 <= k < |xs| => NatToString(xs[k])), ',')
  }

  /** Parsing the printed indices gives back exactly their set. */
  lemma ButtonNewOfFormat(index: nat, xs: seq<nat>)
    requires |xs| > 0 && forall k :: 0 <= k < |xs| ==> xs[k] <= USIZE_MAX
    ensures ButtonNew(index, FormatIndices(xs)) == Ok(Button(index, Elements(xs)))
  {
    var parts := seq(|xs|, k requires 0 <= k < |xs| => NatToString(xs[k]));
    forall k | 0 <= k < |parts| ensures ',' !in parts[k] && ParseUnsigned(parts[k], USIZE_MAX) == Some(xs[k]) {
      ParseUnsignedOfNatToString(xs[k], USIZE_MAX);
      assert AllDigits(parts[k]);
    }
    SplitJoin(parts, ',');
    CollectValues(ParseAll(parts), xs);
  }

  /** The set of the values in a sequence. */
  function Elements(xs: seq<nat>): (r: set<nat>)
    ensures forall x :: x in r <==> x in xs
    decreases |xs|
  {
    if |xs| == 0 then {}
    else
      var n := |xs| - 1;
      assert xs == xs[..n] + [xs[n]];
      Elements(xs[..n]) + {xs[n]}
  }

  /** The light pattern: '.' is off, '#' is on, anything else is an error
      naming the first offending character. */
  function ParseLights(s: string): (r: Result<seq<bool>, MachineError>)
    ensures r.Ok? <==> forall k :: 0 <= k < |s| ==> s[k] == '.' || s[k] == '#'
    ensures r.Ok? ==> |r.value| == |s| && forall k :: 0 <= k < |s| ==> r.value[k] == (s[k] == '#')
    ensures r.Err? ==> exists k :: 0 <= k < |s| && s[k] != '.' && s[k] != '#' && r.error == InvalidLight(s[k])
                                   && forall j :: 0 <= j < k ==> s[j] == '.' || s[j] == '#'
    decreases |s|
  {
    if |s| == 0 then Ok([])
    else if s[0] != '.' && s[0] != '#' then Err(InvalidLight(s[0]))
    else
      var rest := ParseLights(s[1..]);
      assert forall k :: 1 <= k < |s| ==> s[1..][k - 1] == s[k];
      if rest.Err? then
        ghost var k :| 0 <= k < |s[1..]| && s[1..][k] != '.' && s[1..][k] != '#' && rest.error == InvalidLight(s[1..][k])
                       && forall j :: 0 <= j < k ==> s[1..][j] == '.' || s[1..][j] == '#';
        assert s[k + 1] == s[1..][k];
        rest
      else Ok([s[0] == '#'] + rest.value)
  }

  /** `str::trim_start_matches` with a set of characters. */
  function TrimStartMatches(s: string, cs: set<char>): (r: string)
    ensures exists i :: 0 <= i <= |s| && r == s[i..] && forall j :: 0 <= j < i ==> s[j] in cs
    ensures |r| > 0 ==> r[0] !in cs
    decreases |s|
  {
    if |s| > 0 && s[0] in cs then
      var r := TrimStartMatches(s[1..], cs);
      ghost var i :| 0 <= i <= |s[1..]| && r == s[1..][i..] && forall j :: 0 <= j < i ==> s[1..][j] in cs;
      assert r == s[i + 1..];
      assert forall j :: 0 <= j < i + 1 ==> s[j] in cs by {
        forall j | 0 <= j < i + 1 ensures s[j] in cs {
          if j > 0 { assert s[j] == s[1..][j - 1]; }
        }
      }
      r
    else
      assert s == s[0..];
      s
  }

  /** `str::trim_end_matches` with a set of characters. */
  function TrimEndMatches(s: string, cs: set<char>): (r: string)
    ensures exists i :: 0 <= i <= |s| && r == s[..i] && forall j :: i <= j < |s| ==> s[j] in cs
    ensures |r| > 0 ==> r[|r| - 1] !in cs
    decreases |s|
  {
    if |s| > 0 && s[|s| - 1] in cs then
      var init := s[..|s| - 1];
      var r := TrimEndMatches(init, cs);
      ghost var i :| 0 <= i <= |init| && r == init[..i] && forall j :: i <= j < |init| ==> init[j] in cs;
      assert r == s[..i];
      assert forall j :: i <= j < |s| ==> s[j] in cs by {
        forall j | i <= j < |s| ensures s[j] in cs {
          if j < |s| - 1 { assert s[j] == init[j]; }
        }
      }
      r
    else
      assert s == s[..|s|];
      s
  }

  /** `str::trim_matches`: strips the characters of `cs` from both ends. */
  function TrimMatches(s: string, cs: set<char>): string
  {
    TrimEndMatches(TrimStartMatches(s, cs), cs)
  }

  const Parentheses: set<char> := {'(', ')'}
  const Braces: set<char> := {'{', '}'}

  /** Wrapping a text that does not start or end with a delimiter and
      trimming it again gives the text back. */
  lemma TrimMatchesWrapped(t: string, open: char, close: char, cs: set<char>)
    requires open in cs && close in cs
    requires |t| > 0 ==> t[0] !in cs && t[|t| - 1] !in cs
    ensures TrimMatches([open] + t + [close], cs) == t
  {
    var s := [open] + t + [close];
    var start := TrimStartMatches(s, cs);
    assert s[1..] == t + [close];
    if |t| > 0 {
      assert (t + [close])[0] == t[0];
      assert start == t + [close];
      assert start[..|start| - 1] == t;
    } else {
      assert TrimStartMatches(s[1..], cs) == TrimStartMatches([close], cs);
      assert [close][1..] == [];
      assert start == [];
    }
  }

  /** `collect::<Result<Vec<_>, _>>()` over numbered pieces: every piece
      parsed in order, and the first error stops the collection. */
  function CollectResults<T>(pieces: seq<string>, parse: (nat, string) -> Result<T, MachineError>): (r: Result<seq<T>, MachineError>)
    ensures r.Ok? <==> forall k :: 0 <= k < |pieces| ==> parse(k, pieces[k]).Ok?
    ensures r.Ok? ==> (|r.value| == |pieces| &&
      forall k :: 0 <= k < |pieces| ==> parse(k, pieces[k]) == Ok(r.value[k]))
    ensures r.Err? ==> exists k :: 0 <= k < |pieces| && parse(k, pieces[k]) == Err(r.error)
                                   && forall j :: 0 <= j < k ==> parse(j, pieces[j]).Ok?
    decreases |pieces|
  {
    if |pieces| == 0 then Ok([])
    else
      var n := |pieces| - 1;
      var init := pieces[..n];
      assert forall k :: 0 <= k < n ==> init[k] == pieces[k];
      var before := CollectResults(init, parse);
      var last := parse(n, pieces[n]);
      if before.Err? then before
      else if last.Err? then Err(last.error)
      else
        var r := before.value + [last.value];
        assert forall k :: 0 <= k < n ==> r[k] == before.value[k];
        Ok(r)
  }

  /** The button written as the `k`-th piece, between its parentheses. */
  function PieceButton(k: nat, piece: string): Result<Button, MachineError>
  {
    ButtonNew(k, TrimMatches(piece, Parentheses))
  }

  /** A joltage piece: a `u16`. */
  function PieceJoltage(k: nat, piece: string): Result<nat, MachineError>
  {
    match ParseUnsigned(piece, U16_MAX)
    case None => Err(InvalidJoltage(piece))
    case Some(v) => Ok(v)
  }

  /** The buttons of a machine, numbered from 0 in the order they are
      written. */
  function ParseButtons(pieces: seq<string>): Result<seq<Button>, MachineError>
  {
    CollectResults(pieces, PieceButton)
  }

  /** The target joltages, one per comma-separated piece. */
  function ParseJoltages(pieces: seq<string>): Result<seq<nat>, MachineError>
  {
    CollectResults(pieces, PieceJoltage)
  }

  predicate IndexedInOrder(buttons: seq<Button>)
  {
    forall k :: 0 <= k < |buttons| ==> buttons[k].index == k
  }

  predicate NonEmptyButtons(buttons: seq<Button>)
  {
    forall k :: 0 <= k < |buttons| ==> |buttons[k].lightsActivated| > 0
  }

  /** Parsed buttons are numbered by position and act on something. */
  lemma ParsedButtons(pieces: seq<string>)
    ensures ParseButtons(pieces).Ok? ==>
      var buttons := ParseButtons(pieces).value;
      IndexedInOrder(buttons) && NonEmptyButtons(buttons)
  {
    if ParseButtons(pieces).Ok? {
      var buttons := ParseButtons(pieces).value;
      forall k | 0 <= k < |buttons| ensures buttons[k].index == k && |buttons[k].lightsActivated| > 0 {
        assert PieceButton(k, pieces[k]) == Ok(buttons[k]);
        ButtonNewNonEmpty(k, TrimMatches(pieces[k], Parentheses));
      }
    }
  }

  /** Parsed joltages fit in a `u16`. */
  lemma ParsedJoltages(pieces: seq<string>)
    ensures ParseJoltages(pieces).Ok? ==>
      forall k :: 0 <= k < |ParseJoltages(pieces).value| ==> ParseJoltages(pieces).value[k] <= U16_MAX
  {
    if ParseJoltages(pieces).Ok? {
      var joltages := ParseJoltages(pieces).value;
      forall k | 0 <= k < |joltages| ensures joltages[k] <= U16_MAX {
        assert PieceJoltage(k, pieces[k]) == Ok(joltages[k]);
      }
    }
  }

  /** `Machine::new`, from the three parts of the line: the light pattern
      between the brackets, the space-separated buttons and the joltages
      between the braces. An error in an earlier part wins. */
  function MachineNew(lights: string, buttons: string, joltages: string): (r: Result<Machine, MachineError>)
    ensures r.Ok? <==> ParseLights(lights).Ok? && ParseButtons(Split(buttons, ' ')).Ok?
                       && ParseJoltages(Split(TrimMatches(joltages, Braces), ',')).Ok?
    ensures r.Ok? ==> r.value.targetLights == ParseLights(lights).value
    ensures r.Ok? ==> |r.value.buttons| == |Split(buttons, ' ')| >= 1
    ensures r.Ok? ==> IndexedInOrder(r.value.buttons) && NonEmptyButtons(r.value.buttons)
    ensures r.Ok? ==> forall k :: 0 <= k < |r.value.targetJoltage| ==> r.value.targetJoltage[k] <= U16_MAX
    ensures ParseLights(lights).Err? ==> r == Err(ParseLights(lights).error)
  {
    match ParseLights(lights)
    case Err(e) => Err(e)
    case Ok(targetLights) =>
      var pieces := Split(buttons, ' ');
      ParsedButtons(pieces);
      match ParseButtons(pieces)
      case Err(e) => Err(e)
      case Ok(parsed) =>
        var joltagePieces := Split(TrimMatches(joltages, Braces), ',');
        ParsedJoltages(joltagePieces);
        match ParseJoltages(joltagePieces)
        case Err(e) => Err(e)
        case Ok(targetJoltage) => Ok(Machine(targetLights, parsed, targetJoltage))
  }

  /** How a search of either mode gives up. */
  datatype ToggleSolutionError = IterationLimitReached(iterations: nat) | EmptySolutionToExplore

  // ---------------------------------------------------------------------
  // Joltage mode: a press lowers the counters it lists

  /** Every counter a button lists exists (the source indexes the state
      with it and would panic otherwise). */
  predicate CountersInRange(buttons: seq<Button>, n: nat)
  {
    forall k, i :: 0 <= k < |buttons| && i in buttons[k].lightsActivated ==> i < n
  }

  /** A press in joltage mode: refused when a listed counter is already 0,
      otherwise each listed counter goes down by one. */
  function Decrement(state: seq<nat>, counters: set<nat>): (r: Option<seq<nat>>)
    requires forall i | i in counters :: i < |state|
    ensures r.None? <==> exists i | i in counters :: state[i] == 0
    ensures r.Some? ==> (|r.value| == |state| &&
      forall i :: 0 <= i < |state| ==> r.value[i] + (if i in counters then 1 else 0) == state[i])
  {
    if exists i | i in counters :: state[i] == 0 then None
    else Some(seq(|state|, i requires 0 <= i < |state| => if i in counters then state[i] - 1 else state[i]))
  }

  /** A press takes exactly one unit per listed counter off the total. */
  lemma DecrementSum(state: seq<nat>, counters: set<nat>)
    requires forall i | i in counters :: i < |state|
    ensures Decrement(state, counters).Some? ==> Sum(Decrement(state, counters).value) + |counters| == Sum(state)
  {
    if Decrement(state, counters).Some? {
      SumLowered(state, Decrement(state, counters).value, counters);
    }
  }

  lemma {:induction false} SumLowered(a: seq<nat>, b: seq<nat>, lowered: set<nat>)
    requires |a| == |b| && forall i | i in lowered :: i < |a|
    requires forall i :: 0 <= i < |a| ==> a[i] == b[i] + (if i in lowered then 1 else 0)
    ensures Sum(a) == Sum(b) + |lowered|
    decreases |a|
  {
    if |a| == 0 {
      assert lowered == {};
    } else {
      var n := |a| - 1;
      SumLowered(a[..n], b[..n], lowered - {n});
      if n in lowered {
        assert |lowered - {n}| == |lowered| - 1;
      } else {
        assert lowered - {n} == lowered;
      }
    }
  }

  /** The press as `backtrack` does it: lowers the counters of a copy one at
      a time, in set order, and gives up at the first one at 0. */
  method PressJoltage(state: seq<nat>, counters: set<nat>) returns (r: Option<seq<nat>>)
    requires forall i | i in counters :: i < |state|
    ensures r == Decrement(state, counters)
  {
    var newState := state;
    var remaining := counters;
    while remaining != {}
      invariant remaining <= counters && |newState| == |state|
      invariant forall i :: 0 <= i < |state| ==> newState[i] + (if i in counters - remaining then 1 else 0) == state[i]
      decreases |remaining|
    {
      var i :| i in remaining;
      if newState[i] == 0 {
        return None;
      }
      newState := newState[i := newState[i] - 1];
      remaining := remaining - {i};
    }
    assert !exists i | i in counters :: state[i] == 0;
    assert newState == seq(|state|, i requires 0 <= i < |state| => if i in counters then state[i] - 1 else state[i]);
    return Some(newState);
  }

  /** The number of buttons that act on counter `j`. */
  function ButtonCount(buttons: seq<Button>, j: nat): (c: nat)
    ensures c <= |buttons|
    ensures c > 0 <==> exists k :: 0 <= k < |buttons| && j in buttons[k].lightsActivated
    decreases |buttons|
  {
    if |buttons| == 0 then 0
    else
      var n := |buttons| - 1;
      assert forall k :: 0 <= k < n ==> buttons[..n][k] == buttons[k];
      ButtonCount(buttons[..n], j) + (if j in buttons[n].lightsActivated then 1 else 0)
  }

  /** One more button adds one to the count of each counter it acts on. */
  lemma ButtonCountPrefix(buttons: seq<Button>, k: nat)
    requires k < |buttons|
    ensures forall j ::
      ButtonCount(buttons[..k + 1], j) == ButtonCount(buttons[..k], j) + (if j in buttons[k].lightsActivated then 1 else 0)
  {
    assert buttons[..k + 1][..k] == buttons[..k];
  }

  /** `count_joltage_counter_number_of_buttons`: a map from each counter some
      button acts on to the number of such buttons. */
  method CountJoltageCounterNumberOfButtons(buttons: seq<Button>) returns (counts: map<nat, nat>)
    ensures forall j :: j in counts <==> ButtonCount(buttons, j) > 0
    ensures forall j | j in counts :: counts[j] == ButtonCount(buttons, j)
  {
    counts := map[];
    var k := 0;
    while k < |buttons|
      invariant k <= |buttons| && CountedAs(counts, buttons[..k])
    {
      var next := CountLights(counts, buttons[k].lightsActivated);
      CountedStep(buttons, k, counts, next);
      counts := next;
      k := k + 1;
    }
    assert buttons[..k] == buttons;
  }

  /** `counts` maps exactly the counters some button acts on to the number
      of such buttons. */
  ghost predicate CountedAs(counts: map<nat, nat>, buttons: seq<Button>)
  {
    && (forall j :: j in counts <==> ButtonCount(buttons, j) > 0)
    && (forall j | j in counts :: counts[j] == ButtonCount(buttons, j))
  }

  lemma CountedStep(buttons: seq<Button>, k: nat, counts: map<nat, nat>, next: map<nat, nat>)
    requires k < |buttons| && CountedAs(counts, buttons[..k])
    requires var lights := buttons[k].lightsActivated;
      && (forall j :: j in next <==> j in counts || j in lights)
      && (forall j | j in next :: next[j] == (if j in counts then counts[j] else 0) + (if j in lights then 1 else 0))
    ensures CountedAs(next, buttons[..k + 1])
  {
    ButtonCountPrefix(buttons, k);
  }

  /** The inner loop of the count: one more for each counter in `lights`,
      inserting it at 1 when it is new. */
  method CountLights(counts: map<nat, nat>, lights: set<nat>) returns (r: map<nat, nat>)
    ensures forall j :: j in r <==> j in counts || j in lights
    ensures forall j | j in r :: r[j] == (if j in counts then counts[j] else 0) + (if j in lights then 1 else 0)
  {
    r := counts;
    var remaining := lights;
    while remaining != {}
      invariant remaining <= lights
      invariant forall j :: j in r <==> j in counts || j in lights - remaining
      invariant forall j | j in r :: r[j] == (if j in counts then counts[j] else 0) + (if j in lights - remaining then 1 else 0)
      decreases |remaining|
    {
      var j :| j in remaining;
      r := r[j := (if j in r then r[j] else 0) + 1];
      remaining := remaining - {j};
    }
  }

  /** The same map as a value, for the specification of the ordering. */
  function CountsMap(buttons: seq<Button>): (counts: map<nat, nat>)
    ensures forall j :: j in counts <==> ButtonCount(buttons, j) > 0
    ensures forall j | j in counts :: counts[j] == ButtonCount(buttons, j)
  {
    var touched := set k, i | 0 <= k < |buttons| && i in buttons[k].lightsActivated :: i;
    map j | j in touched :: ButtonCount(buttons, j)
  }

  /** The two properties determine the map. */
  lemma CountsMapUnique(buttons: seq<Button>, counts: map<nat, nat>)
    requires forall j :: j in counts <==> ButtonCount(buttons, j) > 0
    requires forall j | j in counts :: counts[j] == ButtonCount(buttons, j)
    ensures counts == CountsMap(buttons)
  {
  }

  /** `buttons_are_available_for_missing_joltage`: the counters still above
      0 are all among those the remaining buttons act on. */
  function ButtonsAreAvailableForMissingJoltage(remaining: seq<Button>, state: seq<nat>): (r: bool)
    ensures r <==> forall i :: 0 <= i < |state| && state[i] > 0 ==>
      exists k :: 0 <= k < |remaining| && i in remaining[k].lightsActivated
  {
    var missing := set i | 0 <= i < |state| && state[i] > 0;
    var pushable := set k, i | 0 <= k < |remaining| && i in remaining[k].lightsActivated :: i;
    assert forall i :: i in pushable <==> exists k :: 0 <= k < |remaining| && i in remaining[k].lightsActivated;
    assert forall i :: i in missing <==> 0 <= i < |state| && state[i] > 0;
    assert pushable * missing == missing <==> missing <= pushable;
    pushable * missing == missing
  }

  // ---------------------------------------------------------------------
  // The button ordering used by the backtracking search

  /** One more than the largest `u16`: the targets fit below one step of the
      button count in the priority key. */
  const JOLTAGE_SPAN: nat := U16_MAX + 1

  /** The comparison `sort_by` uses on counter indices, turned into a key for
      an ascending stable sort: counters with more buttons, and at equal
      counts a higher target, come first; a counter no button acts on counts
      as below any button count (`None` before `Some`). */
  function PriorityKey(counts: map<nat, nat>, target: seq<nat>): nat -> int
  {
    (j: nat) => -((if j in counts then counts[j] else 0) * JOLTAGE_SPAN + (if j < |target| then target[j] else 0))
  }

  /** The key orders counters by (button count, target), both descending. */
  lemma PriorityKeyOrder(counts: map<nat, nat>, target: seq<nat>, a: nat, b: nat)
    requires a < |target| && b < |target| && target[a] <= U16_MAX && target[b] <= U16_MAX
    ensures var ca, cb := (if a in counts then counts[a] else 0), (if b in counts then counts[b] else 0);
      PriorityKey(counts, target)(a) < PriorityKey(counts, target)(b) <==>
        ca > cb || (ca == cb && target[a] > target[b])
  {
    var ca, cb := (if a in counts then counts[a] else 0), (if b in counts then counts[b] else 0);
    if ca > cb {
      MulMonotone(cb + 1, ca, JOLTAGE_SPAN);
    } else if ca < cb {
      MulMonotone(ca + 1, cb, JOLTAGE_SPAN);
    }
  }

  lemma MulMonotone(a: nat, b: nat, c: nat)
    requires a <= b
    ensures a * c <= b * c
  {
  }

  /** `extract_if`: the buttons acting on counter `j`, taken out in order,
      and the others, kept in order. */
  function ExtractIf(buttons: seq<Button>, j: nat): (r: (seq<Button>, seq<Button>))
    ensures multiset(r.0) + multiset(r.1) == multiset(buttons)
    ensures forall b | b in r.0 :: j in b.lightsActivated
    ensures forall b | b in r.1 :: j !in b.lightsActivated
    decreases |buttons|
  {
    if |buttons| == 0 then ([], [])
    else
      var n := |buttons| - 1;
      assert buttons == buttons[..n] + [buttons[n]];
      var (extracted, kept) := ExtractIf(buttons[..n], j);
      if j in buttons[n].lightsActivated then (extracted + [buttons[n]], kept) else (extracted, kept + [buttons[n]])
  }

  function Reversed<T>(s: seq<T>): (r: seq<T>)
    ensures |r| == |s| && multiset(r) == multiset(s)
    ensures forall i :: 0 <= i < |s| ==> r[i] == s[|s| - 1 - i]
    decreases |s|
  {
    if |s| == 0 then []
    else
      var n := |s| - 1;
      assert s == s[..n] + [s[n]];
      [s[n]] + Reversed(s[..n])
  }

  /** Reversing a sequence sorted by size gives one with sizes decreasing. */
  lemma ReversedSorted(s: seq<Button>)
    requires SortedByKey(s, ButtonSize)
    ensures forall a, b :: 0 <= a < b < |s| ==>
      |Reversed(s)[a].lightsActivated| >= |Reversed(s)[b].lightsActivated|
  {
    var r := Reversed(s);
    forall a, b | 0 <= a < b < |s| ensures |r[a].lightsActivated| >= |r[b].lightsActivated| {
      assert r[a] == s[|s| - 1 - a] && r[b] == s[|s| - 1 - b];
      assert ButtonSize(s[|s| - 1 - b]) <= ButtonSize(s[|s| - 1 - a]);
    }
  }

  function ButtonSize(b: Button): int
  {
    |b.lightsActivated|
  }

  /** The buttons acting on `j`, sorted by size and then reversed: largest
      first, and among equal sizes the later one first. */
  function ExtractedGroup(buttons: seq<Button>, j: nat): (g: seq<Button>)
    ensures multiset(g) == multiset(ExtractIf(buttons, j).0)
    ensures forall b | b in g :: j in b.lightsActivated
    ensures forall a, b :: 0 <= a < b < |g| ==> |g[a].lightsActivated| >= |g[b].lightsActivated|
  {
    var extracted := ExtractIf(buttons, j).0;
    var sorted := SortByKey(extracted, ButtonSize);
    ReversedSorted(sorted);
    var g := Reversed(sorted);
    assert multiset(g) == multiset(extracted);
    assert forall b | b in g :: b in extracted by {
      forall b | b in g ensures b in extracted {
        assert b in multiset(g);
      }
    }
    g
  }

  /** The ordering loop from the given counters and remaining buttons: sort
      the counters, take the last one (fewest buttons, then lowest target),
      emit its buttons and go on with the rest. */
  function SortFrom(target: seq<nat>, joltages: seq<nat>, buttons: seq<Button>): seq<Button>
    decreases |joltages|, 1
  {
    if |joltages| == 0 || |buttons| == 0 then [] else SortRound(target, joltages, buttons)
  }

  /** One round of the loop: the group of the counter taken next, then the
      ordering of what is left. */
  function SortRound(target: seq<nat>, joltages: seq<nat>, buttons: seq<Button>): seq<Button>
    requires |joltages| > 0
    decreases |joltages|, 0
  {
    var sorted := SortByKey(joltages, PriorityKey(CountsMap(buttons), target));
    var j := sorted[|sorted| - 1];
    ExtractedGroup(buttons, j) + SortFrom(target, sorted[..|sorted| - 1], ExtractIf(buttons, j).1)
  }

  /** One round of the ordering, from the values it computes. */
  lemma SortFromUnfold(target: seq<nat>, joltages: seq<nat>, buttons: seq<Button>, sorted: seq<nat>,
                       group: seq<Button>, rest: seq<Button>)
    requires |joltages| > 0 && |buttons| > 0
    requires sorted == SortByKey(joltages, PriorityKey(CountsMap(buttons), target))
    requires group == ExtractedGroup(buttons, sorted[|sorted| - 1])
    requires rest == ExtractIf(buttons, sorted[|sorted| - 1]).1
    ensures SortFrom(target, joltages, buttons) == group + SortFrom(target, sorted[..|sorted| - 1], rest)
  {
    assert SortFrom(target, joltages, buttons) == SortRound(target, joltages, buttons);
  }

  function Range(n: nat): (r: seq<nat>)
    ensures |r| == n && forall i :: 0 <= i < n ==> r[i] == i
  {
    seq(n, i => i)
  }

  function SortedButtons(m: Machine): seq<Button>
  {
    SortFrom(m.targetJoltage, Range(|m.targetJoltage|), m.buttons)
  }

  /** `sort_buttons_by_joltage_counter_button_number`. */
  method SortButtonsByJoltageCounterButtonNumber(m: Machine) returns (finalButtons: seq<Button>)
    ensures finalButtons == SortedButtons(m)
    ensures multiset(finalButtons) <= multiset(m.buttons)
    ensures forall k, i :: 0 <= k < |m.buttons| && i in m.buttons[k].lightsActivated && i < |m.targetJoltage| ==>
      m.buttons[k] in finalButtons
  {
    finalButtons := [];
    var joltages := Range(|m.targetJoltage|);
    var buttons := m.buttons;
    while |joltages| > 0 && |buttons| > 0
      invariant finalButtons + SortFrom(m.targetJoltage, joltages, buttons) == SortedButtons(m)
      decreases |joltages|
    {
      ghost var done := finalButtons;
      var group;
      group, joltages, buttons := ExtractPriorityGroup(m.targetJoltage, joltages, buttons);
      finalButtons := finalButtons + group;
      ConcatAssoc(done, group, SortFrom(m.targetJoltage, joltages, buttons));
    }
    SortedButtonsSpec(m);
  }

  /** One round of the ordering loop: count, sort the remaining counters,
      take the last one and move the buttons acting on it, largest first. */
  method ExtractPriorityGroup(target: seq<nat>, joltages: seq<nat>, buttons: seq<Button>)
    returns (group: seq<Button>, nextJoltages: seq<nat>, nextButtons: seq<Button>)
    requires |joltages| > 0 && |buttons| > 0
    ensures |nextJoltages| == |joltages| - 1
    ensures SortFrom(target, joltages, buttons) == group + SortFrom(target, nextJoltages, nextButtons)
  {
    var counts := CountJoltageCounterNumberOfButtons(buttons);
    var sorted := SortByKey(joltages, PriorityKey(counts, target));
    var j := sorted[|sorted| - 1];
    nextJoltages := sorted[..|sorted| - 1];
    var extracted := ExtractIf(buttons, j);
    group := Reversed(SortByKey(extracted.0, ButtonSize));
    nextButtons := extracted.1;
    SortFromRound(target, joltages, buttons, counts, sorted, extracted, group);
  }

  /** One round of the ordering loop, from the values the loop computes. */
  lemma SortFromRound(target: seq<nat>, joltages: seq<nat>, buttons: seq<Button>, counts: map<nat, nat>,
                      sorted: seq<nat>, extracted: (seq<Button>, seq<Button>), group: seq<Button>)
    requires |joltages| > 0 && |buttons| > 0
    requires forall j :: j in counts <==> ButtonCount(buttons, j) > 0
    requires forall j | j in counts :: counts[j] == ButtonCount(buttons, j)
    requires sorted == SortByKey(joltages, PriorityKey(counts, target))
    requires extracted == ExtractIf(buttons, sorted[|sorted| - 1])
    requires group == Reversed(SortByKey(extracted.0, ButtonSize))
    ensures SortFrom(target, joltages, buttons) == group + SortFrom(target, sorted[..|sorted| - 1], extracted.1)
  {
    CountsMapUnique(buttons, counts);
    SortFromUnfold(target, joltages, buttons, sorted, group, extracted.1);
  }

  /** No button comes out more often than it goes in. */
  lemma {:induction false} SortFromSubset(target: seq<nat>, joltages: seq<nat>, buttons: seq<Button>)
    ensures multiset(SortFrom(target, joltages, buttons)) <= multiset(buttons)
    decreases |joltages|
  {
    if |joltages| > 0 && |buttons| > 0 {
      var sorted := SortByKey(joltages, PriorityKey(CountsMap(buttons), target));
      var j := sorted[|sorted| - 1];
      SortFromUnfold(target, joltages, buttons, sorted, ExtractedGroup(buttons, j), ExtractIf(buttons, j).1);
      SortFromSubset(target, sorted[..|sorted| - 1], ExtractIf(buttons, j).1);
    }
  }

  /** Every button acting on one of the counters comes out. */
  lemma {:induction false} SortFromCovers(target: seq<nat>, joltages: seq<nat>, buttons: seq<Button>, b: Button, i: nat)
    requires b in buttons && i in b.lightsActivated && i in joltages
    ensures b in SortFrom(target, joltages, buttons)
    decreases |joltages|
  {
    var sorted := SortByKey(joltages, PriorityKey(CountsMap(buttons), target));
    var n := |sorted| - 1;
    var j := sorted[n];
    SortFromUnfold(target, joltages, buttons, sorted, ExtractedGroup(buttons, j), ExtractIf(buttons, j).1);
    if j in b.lightsActivated {
      ExtractedGroupHas(buttons, j, b);
    } else {
      ExtractIfKeeps(buttons, j, b);
      SortedInit(joltages, sorted, i);
      SortFromCovers(target, sorted[..n], ExtractIf(buttons, j).1, b, i);
    }
  }

  lemma ExtractedGroupHas(buttons: seq<Button>, j: nat, b: Button)
    requires b in buttons && j in b.lightsActivated
    ensures b in ExtractedGroup(buttons, j)
  {
    var split := ExtractIf(buttons, j);
    assert b in multiset(buttons);
    assert b !in split.1;
    assert b in multiset(split.0);
    assert b in multiset(ExtractedGroup(buttons, j));
  }

  lemma ExtractIfKeeps(buttons: seq<Button>, j: nat, b: Button)
    requires b in buttons && j !in b.lightsActivated
    ensures b in ExtractIf(buttons, j).1
  {
    var split := ExtractIf(buttons, j);
    assert b in multiset(buttons);
    assert b !in split.0;
    assert b in multiset(split.1);
  }

  /** An element other than the last of a permutation is in its prefix. */
  lemma SortedInit(joltages: seq<nat>, sorted: seq<nat>, i: nat)
    requires multiset(sorted) == multiset(joltages) && |sorted| > 0
    requires i in joltages && i != sorted[|sorted| - 1]
    ensures i in sorted[..|sorted| - 1]
  {
    assert i in multiset(sorted);
    assert sorted == sorted[..|sorted| - 1] + [sorted[|sorted| - 1]];
  }

  /** When every button acts on one of the counters, the ordering is a
      permutation of the buttons. */
  lemma {:induction false} SortFromPermutation(target: seq<nat>, joltages: seq<nat>, buttons: seq<Button>)
    requires forall b | b in buttons :: exists i :: i in b.lightsActivated && i in joltages
    ensures multiset(SortFrom(target, joltages, buttons)) == multiset(buttons)
    decreases |joltages|
  {
    if |buttons| > 0 {
      var b0 := buttons[0];
      var i0 :| i0 in b0.lightsActivated && i0 in joltages;
      var sorted := SortByKey(joltages, PriorityKey(CountsMap(buttons), target));
      var n := |sorted| - 1;
      var j := sorted[n];
      var kept := ExtractIf(buttons, j).1;
      SortFromUnfold(target, joltages, buttons, sorted, ExtractedGroup(buttons, j), kept);
      KeptCovered(buttons, joltages, sorted, j);
      SortFromPermutation(target, sorted[..n], kept);
      assert multiset(ExtractedGroup(buttons, j)) + multiset(kept) == multiset(buttons);
    }
  }

  /** The buttons left after extracting the last counter still act on one
      of the remaining counters. */
  lemma KeptCovered(buttons: seq<Button>, joltages: seq<nat>, sorted: seq<nat>, j: nat)
    requires multiset(sorted) == multiset(joltages) && |sorted| > 0 && j == sorted[|sorted| - 1]
    requires forall b | b in buttons :: exists i :: i in b.lightsActivated && i in joltages
    ensures forall b | b in ExtractIf(buttons, j).1 :: exists i :: i in b.lightsActivated && i in sorted[..|sorted| - 1]
  {
    var kept := ExtractIf(buttons, j).1;
    forall b | b in kept ensures exists i :: i in b.lightsActivated && i in sorted[..|sorted| - 1] {
      assert b in multiset(buttons);
      var i :| i in b.lightsActivated && i in joltages;
      SortedInit(joltages, sorted, i);
    }
  }

  lemma SortedButtonsSpec(m: Machine)
    ensures multiset(SortedButtons(m)) <= multiset(m.buttons)
    ensures forall k, i :: 0 <= k < |m.buttons| && i in m.buttons[k].lightsActivated && i < |m.targetJoltage| ==>
      m.buttons[k] in SortedButtons(m)
  {
    var js := Range(|m.targetJoltage|);
    SortFromSubset(m.targetJoltage, js, m.buttons);
    forall k, i | 0 <= k < |m.buttons| && i in m.buttons[k].lightsActivated && i < |m.targetJoltage|
      ensures m.buttons[k] in SortedButtons(m)
    {
      assert js[i] == i;
      SortFromCovers(m.targetJoltage, js, m.buttons, m.buttons[k], i);
    }
  }

  /** When every button acts on some counter, the
      ordering is a permutation of the machine's buttons. */
  lemma SortedButtonsPermutation(m: Machine)
    requires forall k :: 0 <= k < |m.buttons| ==> exists i :: i in m.buttons[k].lightsActivated && i < |m.targetJoltage|
    ensures multiset(SortedButtons(m)) == multiset(m.buttons)
  {
    var js := Range(|m.targetJoltage|);
    forall b | b in m.buttons ensures exists i :: i in b.lightsActivated && i in js {
      var k :| 0 <= k < |m.buttons| && m.buttons[k] == b;
      var i :| i in m.buttons[k].lightsActivated && i < |m.targetJoltage|;
      assert js[i] == i;
    }
    SortFromPermutation(m.targetJoltage, js, m.buttons);
  }
}
