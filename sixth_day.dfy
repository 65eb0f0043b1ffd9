/** Day 6: a worksheet of squid maths problems laid out in columns. The last
    line holds the operators; the operator positions split every line into
    problems, and each problem is read either row by row (part one) or
    column by column (part two), then summed or multiplied. */
module SixthDay {
  import opened Common

  datatype Operator = Addition | Multiplication

  datatype OperatorParsingError = InvalidOperatorCharacter(got: string)

  datatype SquidProblemParsingError =
    | InvalidOperatorInstruction(cause: OperatorParsingError)
    | InvalidFiguresInstructions
    | EmptyInstruction

  datatype SquidProblem = SquidProblem(figures: seq<nat>, operator: Operator)

  /** `Operator::try_from`. */
  function OperatorTryFrom(s: string): (r: Result<Operator, OperatorParsingError>)
    ensures r == Ok(Addition) <==> s == "+"
    ensures r == Ok(Multiplication) <==> s == "*"
    ensures r.Err? <==> s != "+" && s != "*"
    ensures r.Err? ==> r.error == InvalidOperatorCharacter(s)
  {
    if s == "+" then Ok(Addition)
    else if s == "*" then Ok(Multiplication)
    else Err(InvalidOperatorCharacter(s))
  }

  function OperatorSymbol(op: Operator): string
  {
    match op
    case Addition => "+"
    case Multiplication => "*"
  }

  // ---------------------------------------------------------------------
  // Transposition

  /** What `transpose` needs to never call `unwrap` on an exhausted row. */
  predicate Transposable<T>(v: seq<seq<T>>)
  {
    |v| == 0 || forall j :: 0 <= j < |v| ==> |v[0]| <= |v[j]|
  }

  /** `transpose`: row `i` of the result is column `i` of `v`, for the
      `v[0].len()` columns of the first row. */
  function Transpose<T>(v: seq<seq<T>>): (r: seq<seq<T>>)
    requires Transposable(v)
    ensures |v| == 0 ==> r == []
    ensures |v| > 0 ==> |r| == |v[0]|
    ensures forall i :: 0 <= i < |r| ==> |r[i]| == |v|
    ensures forall i, j :: 0 <= i < |r| && 0 <= j < |v| ==> r[i][j] == v[j][i]
  {
    if |v| == 0 then []
    else seq(|v[0]|, i requires 0 <= i < |v[0]| => seq(|v|, j requires 0 <= j < |v| => v[j][i]))
  }

  /** Transposing a rectangle with non-empty rows twice gives it back. */
  lemma TransposeTwice<T>(v: seq<seq<T>>)
    requires |v| > 0 && |v[0]| > 0 && forall j :: 0 <= j < |v| ==> |v[j]| == |v[0]|
    ensures Transposable(Transpose(v)) && Transpose(Transpose(v)) == v
  {
    var t := Transpose(v);
    var u := Transpose(t);
    assert |u| == |v|;
    forall j | 0 <= j < |v| ensures u[j] == v[j] {
      assert |u[j]| == |v[j]|;
    }
  }

  // ---------------------------------------------------------------------
  // Solving

  /** `SquidProblem::solve`. */
  function Solve(p: SquidProblem): nat
  {
    match p.operator
    case Addition => Sum(p.figures)
    case Multiplication => Product(p.figures)
  }

  /** Solving distributes over splitting the figures: a sum of sums or a
      product of products, with 0 and 1 for no figures. */
  lemma SolveSplits(a: seq<nat>, b: seq<nat>, op: Operator)
    ensures Solve(SquidProblem(a + b, op)) ==
            match op
            case Addition => Solve(SquidProblem(a, op)) + Solve(SquidProblem(b, op))
            case Multiplication => Solve(SquidProblem(a, op)) * Solve(SquidProblem(b, op))
    ensures Solve(SquidProblem([], op)) == (if op == Addition then 0 else 1)
  {
    SumAppend(a, b);
    ProductAppend(a, b);
  }

  lemma SolveExample()
    ensures Solve(SquidProblem([123, 45, 6], Multiplication)) == 33210
    ensures Solve(SquidProblem([328, 64, 98], Addition)) == 490
  {
    assert [123, 45, 6][..2] == [123, 45];
    assert [123, 45][..1] == [123] && [123][..0] == [];
    assert [328, 64, 98][..2] == [328, 64];
    assert [328, 64][..1] == [328] && [328][..0] == [];
  }

  // ---------------------------------------------------------------------
  // Splitting the lines into problems

  predicate IsOperatorChar(c: char)
  {
    c == '+' || c == '*'
  }

  /** The split columns of the first `|line|` characters. */
  function SplitColumns(line: string): seq<nat>
  {
    if |line| == 0 then []
    else
      var i := |line| - 1;
      SplitColumns(line[..i]) + (if i > 0 && IsOperatorChar(line[i]) then [i - 1] else [])
  }

  /** The split columns are the ascending positions just before an
      operator that is not the first character. */
  lemma {:induction false} SplitColumnsMeaning(line: string)
    ensures StrictlyIncreasing(SplitColumns(line))
    ensures forall x: nat :: x in SplitColumns(line) <==> x + 1 < |line| && IsOperatorChar(line[x + 1])
  {
    if |line| > 0 {
      var i := |line| - 1;
      var init := line[..i];
      SplitColumnsMeaning(init);
      var before := SplitColumns(init);
      var added: seq<nat> := if i > 0 && IsOperatorChar(line[i]) then [i - 1] else [];
      assert SplitColumns(line) == before + added;
      forall x | x in before ensures x + 1 < i && line[x + 1] == init[x + 1] {
      }
      forall a, b | 0 <= a < b < |before + added| ensures (before + added)[a] < (before + added)[b] {
        if b >= |before| {
          assert before[a] in before;
        }
      }
      forall x: nat ensures x in before + added <==> x + 1 < |line| && IsOperatorChar(line[x + 1]) {
        if x + 1 < i {
          assert line[x + 1] == init[x + 1];
        }
      }
    }
  }

  /** `get_split_columns_index`. */
  method GetSplitColumnsIndex(operatorLine: string) returns (output: seq<nat>)
    ensures output == SplitColumns(operatorLine)
  {
    output := [];
    for index := 0 to |operatorLine|
      invariant output == SplitColumns(operatorLine[..index])
    {
      var character := operatorLine[index];
      assert operatorLine[..index + 1][..index] == operatorLine[..index];
      if index > 0 && (character == '+' || character == '*') {
        output := output + [index - 1];
      }
    }
    assert operatorLine[..|operatorLine|] == operatorLine;
  }

  /** One more character of the operator line. */
  lemma SplitColumnsStep(line: string, k: nat)
    requires k < |line|
    ensures SplitColumns(line[..k + 1]) ==
            SplitColumns(line[..k]) + (if k > 0 && IsOperatorChar(line[k]) then [k - 1] else [])
  {
    assert line[..k + 1][..k] == line[..k];
  }

  lemma SplitColumnsExample()
    ensures SplitColumns("+  *   + *") == [2, 6, 8]
  {
    var s := "+  *   + *";
    SplitColumnsExampleStart(s);
    assert SplitColumns(s[..6]) == [2] by {
      SplitColumnsStep(s, 5);
    }
    assert SplitColumns(s[..7]) == [2] by {
      SplitColumnsStep(s, 6);
    }
    assert SplitColumns(s[..8]) == [2, 6] by {
      SplitColumnsStep(s, 7);
    }
    assert SplitColumns(s[..9]) == [2, 6] by {
      SplitColumnsStep(s, 8);
    }
    assert SplitColumns(s[..10]) == [2, 6, 8] by {
      SplitColumnsStep(s, 9);
    }
    assert s[..10] == s;
  }

  lemma SplitColumnsExampleStart(s: string)
    requires s == "+  *   + *"
    ensures SplitColumns(s[..5]) == [2]
  {
    assert s[..0] == [];
    assert SplitColumns(s[..1]) == [] by {
      SplitColumnsStep(s, 0);
    }
    assert SplitColumns(s[..2]) == [] by {
      SplitColumnsStep(s, 1);
    }
    assert SplitColumns(s[..3]) == [] by {
      SplitColumnsStep(s, 2);
    }
    assert SplitColumns(s[..4]) == [2] by {
      SplitColumnsStep(s, 3);
    }
    assert SplitColumns(s[..5]) == [2] by {
      SplitColumnsStep(s, 4);
    }
  }

  /** The cut positions `split_problems_line` can slice at from `start`:
      ascending, each one at least the previous plus one, and the last
      piece within the line. */
  predicate ValidCuts(indexes: seq<nat>, start: nat, n: nat)
    decreases |indexes|
  {
    start <= n && (|indexes| > 0 ==> start <= indexes[0] < n && ValidCuts(indexes[1..], indexes[0] + 1, n))
  }

  /** The pieces between the cuts, from `start`. */
  function Pieces(line: string, indexes: seq<nat>, start: nat): (r: seq<string>)
    requires ValidCuts(indexes, start, |line|)
    ensures |r| == |indexes| + 1
    decreases |indexes|
  {
    if |indexes| == 0 then [line[start..]]
    else [line[start..indexes[0]]] + Pieces(line, indexes[1..], indexes[0] + 1)
  }

  /** The characters at the cuts, which no piece keeps. */
  function Dropped(line: string, indexes: seq<nat>, start: nat): (r: string)
    requires ValidCuts(indexes, start, |line|)
    ensures |r| == |indexes|
    decreases |indexes|
  {
    if |indexes| == 0 then [] else [line[indexes[0]]] + Dropped(line, indexes[1..], indexes[0] + 1)
  }

  /** The pieces glued back with the characters at the cuts. */
  function Interleave(pieces: seq<string>, separators: string): string
    requires |pieces| == |separators| + 1
    decreases |separators|
  {
    if |separators| == 0 then pieces[0]
    else pieces[0] + [separators[0]] + Interleave(pieces[1..], separators[1..])
  }

  /** Splitting loses exactly the characters at the cuts. */
  lemma {:induction false} PiecesRoundTrip(line: string, indexes: seq<nat>, start: nat)
    requires ValidCuts(indexes, start, |line|)
    ensures Interleave(Pieces(line, indexes, start), Dropped(line, indexes, start)) == line[start..]
    decreases |indexes|
  {
    if |indexes| > 0 {
      var c := indexes[0];
      PiecesRoundTrip(line, indexes[1..], c + 1);
      InterleaveFirst(Pieces(line, indexes, start), Dropped(line, indexes, start));
      SliceAround(line, start, c);
    }
  }

  lemma InterleaveFirst(pieces: seq<string>, separators: string)
    requires |pieces| == |separators| + 1 && |separators| > 0
    ensures Interleave(pieces, separators) == pieces[0] + [separators[0]] + Interleave(pieces[1..], separators[1..])
  {
  }

  lemma SliceAround(line: string, start: nat, c: nat)
    requires start <= c < |line|
    ensures line[start..] == line[start..c] + [line[c]] + line[c + 1..]
  {
  }

  /** `split_problems_line`, with the cuts as character positions. The source
      slices at byte offsets; the two agree on lines of one-byte characters. */
  method SplitProblemsLine(line: string, indexesToSplit: seq<nat>) returns (output: seq<string>)
    requires ValidCuts(indexesToSplit, 0, |line|)
    ensures output == Pieces(line, indexesToSplit, 0)
  {
    output := [];
    var startIndex := 0;
    for k := 0 to |indexesToSplit|
      invariant ValidCuts(indexesToSplit[k..], startIndex, |line|)
      invariant output + Pieces(line, indexesToSplit[k..], startIndex) == Pieces(line, indexesToSplit, 0)
    {
      var endIndex := indexesToSplit[k];
      assert indexesToSplit[k..][1..] == indexesToSplit[k + 1..];
      output := output + [line[startIndex..endIndex]];
      startIndex := endIndex + 1;
    }
    assert indexesToSplit[|indexesToSplit|..] == [];
    assert Pieces(line, [], startIndex) == [line[startIndex..]];
    assert line[startIndex..|line|] == line[startIndex..];
    output := output + [line[startIndex..|line|]];
  }

  lemma SplitProblemsLineExample()
    ensures ValidCuts([2, 7, 9], 0, |"12 134  2 23  "|)
    ensures Pieces("12 134  2 23  ", [2, 7, 9], 0) == ["12", "134 ", "2", "23  "]
  {
    var line := "12 134  2 23  ";
    assert [2, 7, 9][1..] == [7, 9] && [7, 9][1..] == [9] && [9][1..] == [];
    assert line[10..] == "23  " && line[8..9] == "2" && line[3..7] == "134 " && line[0..2] == "12";
    assert Pieces(line, [], 10) == ["23  "];
    assert Pieces(line, [9], 8) == ["2", "23  "];
    assert Pieces(line, [7, 9], 3) == ["134 ", "2", "23  "];
  }

  // ---------------------------------------------------------------------
  // Parsing a problem, part one

  /** Every figure line of a problem is a `usize` once trimmed, as the
      panicking unwrap of both parsers demands. */
  predicate FiguresParse(figures: seq<string>)
  {
    forall k :: 0 <= k < |figures| ==> ParseUnsigned(Trim(figures[k]), USIZE_MAX).Some?
  }

  function ParseFigures(figures: seq<string>): (r: seq<nat>)
    requires FiguresParse(figures)
    ensures |r| == |figures|
    ensures forall k :: 0 <= k < |r| ==> Some(r[k]) == ParseUnsigned(Trim(figures[k]), USIZE_MAX)
  {
    seq(|figures|, k requires 0 <= k < |figures| => ParseUnsigned(Trim(figures[k]), USIZE_MAX).value)
  }

  /** `parse_first`: all lines but the last are figures, the trimmed last
      line is the operator. */
  function ParseFirst(instructions: seq<string>): (r: Result<SquidProblem, SquidProblemParsingError>)
    requires |instructions| > 0 ==> FiguresParse(instructions[..|instructions| - 1])
    ensures r == Err(EmptyInstruction) <==> |instructions| == 0
    ensures |instructions| > 0 ==>
              (r.Ok? <==> OperatorTryFrom(Trim(instructions[|instructions| - 1])).Ok?)
    ensures r.Ok? ==> Ok(r.value.operator) == OperatorTryFrom(Trim(instructions[|instructions| - 1]))
    ensures r.Ok? ==> r.value.figures == ParseFigures(instructions[..|instructions| - 1])
  {
    if |instructions| == 0 then Err(EmptyInstruction)
    else
      var figures := ParseFigures(instructions[..|instructions| - 1]);
      match OperatorTryFrom(Trim(instructions[|instructions| - 1]))
      case Ok(op) => Ok(SquidProblem(figures, op))
      case Err(e) => Err(InvalidOperatorInstruction(e))
  }

  /** A problem written one figure per line, operator last. */
  function FormatFirst(p: SquidProblem): seq<string>
  {
    seq(|p.figures|, k requires 0 <= k < |p.figures| => NatToString(p.figures[k])) + [OperatorSymbol(p.operator)]
  }

  /** Every problem with `usize` figures survives writing and parsing. */
  lemma ParseFirstRoundTrip(p: SquidProblem)
    requires forall k :: 0 <= k < |p.figures| ==> p.figures[k] <= USIZE_MAX
    ensures |FormatFirst(p)| > 0 && FiguresParse(FormatFirst(p)[..|p.figures|])
    ensures ParseFirst(FormatFirst(p)) == Ok(p)
  {
    var lines := FormatFirst(p);
    var figures := lines[..|p.figures|];
    forall k | 0 <= k < |figures|
      ensures ParseUnsigned(Trim(figures[k]), USIZE_MAX) == Some(p.figures[k])
    {
      assert figures[k] == NatToString(p.figures[k]);
      NoWhitespaceInNumeral(p.figures[k]);
      TrimWithoutWhitespace(figures[k]);
      ParseUnsignedOfNatToString(p.figures[k], USIZE_MAX);
    }
    assert lines[|lines| - 1] == OperatorSymbol(p.operator);
    assert Trim(OperatorSymbol(p.operator)) == OperatorSymbol(p.operator) by {
      TrimWithoutWhitespace(OperatorSymbol(p.operator));
    }
    assert ParseFigures(figures) == p.figures;
  }

  lemma NoWhitespaceInNumeral(n: nat)
    ensures forall k :: 0 <= k < |NatToString(n)| ==> !IsWhitespace(NatToString(n)[k])
  {
    var s := NatToString(n);
    forall k | 0 <= k < |s| ensures !IsWhitespace(s[k]) {
      assert IsDigit(s[k]);
    }
  }

  // ---------------------------------------------------------------------
  // Parsing a problem, part two

  /** The length of the longest line. */
  function MaxWidth(lines: seq<string>): (m: nat)
    requires |lines| > 0
    ensures forall j :: 0 <= j < |lines| ==> |lines[j]| <= m
    ensures exists j :: 0 <= j < |lines| && |lines[j]| == m
  {
    if |lines| == 1 then |lines[0]|
    else
      var m := MaxWidth(lines[..|lines| - 1]);
      assert forall j :: 0 <= j < |lines| - 1 ==> lines[..|lines| - 1][j] == lines[j];
      if |lines[|lines| - 1]| > m then |lines[|lines| - 1]| else m
  }

  /** `format!("{:width$}", s)`: a string padded with spaces on the right. */
  function PadRight(s: string, width: nat): (r: string)
    ensures |r| == if |s| < width then width else |s|
    ensures forall k :: 0 <= k < |r| ==> r[k] == if k < |s| then s[k] else ' '
  {
    if |s| < width then s + seq(width - |s|, _ => ' ') else s
  }

  /** The figure lines of a part two problem, padded to one width and read
      column by column. */
  function Columns(instructions: seq<string>): (r: seq<string>)
    requires |instructions| >= 2
    ensures |r| == MaxWidth(instructions[..|instructions| - 1])
    ensures forall k, j :: 0 <= k < |r| && 0 <= j < |instructions| - 1 ==>
              |r[k]| == |instructions| - 1
              && r[k][j] == if k < |instructions[j]| then instructions[j][k] else ' '
  {
    var figures := instructions[..|instructions| - 1];
    var width := MaxWidth(figures);
    var padded := seq(|figures|, j requires 0 <= j < |figures| => PadRight(figures[j], width));
    Transpose(padded)
  }

  /** `parse_second`: one figure per column of the padded figure lines. It
      needs at least one figure line (the `max` and `len() - 1` would fail
      otherwise) and every column to be a `usize` once trimmed. */
  function ParseSecond(instructions: seq<string>): (r: Result<SquidProblem, SquidProblemParsingError>)
    requires |instructions| >= 2 && FiguresParse(Columns(instructions))
    ensures r.Ok? <==> OperatorTryFrom(Trim(instructions[|instructions| - 1])).Ok?
    ensures r.Err? ==> r.error.InvalidOperatorInstruction?
    ensures r.Ok? ==> Ok(r.value.operator) == OperatorTryFrom(Trim(instructions[|instructions| - 1]))
    ensures r.Ok? ==> |r.value.figures| == MaxWidth(instructions[..|instructions| - 1])
    ensures r.Ok? ==> r.value.figures == ParseFigures(Columns(instructions))
  {
    var figures := ParseFigures(Columns(instructions));
    match OperatorTryFrom(Trim(instructions[|instructions| - 1]))
    case Ok(op) => Ok(SquidProblem(figures, op))
    case Err(e) => Err(InvalidOperatorInstruction(e))
  }

  lemma ExampleColumns()
    ensures Columns(["123", " 45", "  6", "*  "]) == ["1  ", "24 ", "356"]
  {
    var ins := ["123", " 45", "  6", "*  "];
    assert ins[..3] == ["123", " 45", "  6"];
    var c := Columns(ins);
    assert MaxWidth(ins[..3]) == 3;
    assert c[0] == "1  " && c[1] == "24 " && c[2] == "356";
  }

  /** The trimmed columns and operator line of the puzzle's example. */
  lemma ExampleTrims()
    ensures Trim("1  ") == "1" && Trim("24 ") == "24" && Trim("356") == "356" && Trim("*  ") == "*"
  {
    TrimOne();
    TrimTwentyFour();
    TrimThreeFiftySix();
    TrimOperator();
  }

  // One literal trim per lemma: the unfoldings of several at once are costly.

  lemma TrimOne()
    ensures Trim("1  ") == "1"
  {
    TrimPadded("1", 2);
    assert "1" + seq(2, _ => ' ') == "1  ";
  }

  lemma TrimTwentyFour()
    ensures Trim("24 ") == "24"
  {
    TrimPadded("24", 1);
    assert "24" + seq(1, _ => ' ') == "24 ";
  }

  lemma TrimThreeFiftySix()
    ensures Trim("356") == "356"
  {
    TrimPadded("356", 0);
    assert "356" + seq(0, _ => ' ') == "356";
  }

  lemma TrimOperator()
    ensures Trim("*  ") == "*"
  {
    TrimPadded("*", 2);
    assert "*" + seq(2, _ => ' ') == "*  ";
  }

  lemma ExampleFigures()
    ensures FiguresParse(["1  ", "24 ", "356"])
    ensures ParseFigures(["1  ", "24 ", "356"]) == [1, 24, 356]
  {
    ExampleTrims();
    ExampleParses();
    ThreeFigures("1  ", "24 ", "356", 1, 24, 356);
  }

  lemma ThreeFigures(a: string, b: string, c: string, x: nat, y: nat, z: nat)
    requires ParseUnsigned(Trim(a), USIZE_MAX) == Some(x)
    requires ParseUnsigned(Trim(b), USIZE_MAX) == Some(y)
    requires ParseUnsigned(Trim(c), USIZE_MAX) == Some(z)
    ensures FiguresParse([a, b, c]) && ParseFigures([a, b, c]) == [x, y, z]
  {
    var figures := [a, b, c];
    forall k | 0 <= k < 3 ensures ParseUnsigned(Trim(figures[k]), USIZE_MAX).Some? {
      assert figures[k] == if k == 0 then a else if k == 1 then b else c;
    }
    var r := ParseFigures(figures);
    assert r[0] == x && r[1] == y && r[2] == z by {
      assert figures[0] == a && figures[1] == b && figures[2] == c;
    }
  }

  lemma ExampleParses()
    ensures ParseUnsigned("1", USIZE_MAX) == Some(1)
    ensures ParseUnsigned("24", USIZE_MAX) == Some(24)
    ensures ParseUnsigned("356", USIZE_MAX) == Some(356)
  {
    assert DecimalValue("24") == 24 by {
      assert "24"[..1] == "2";
    }
    assert DecimalValue("356") == 356 by {
      assert "356"[..2] == "35" && "35"[..1] == "3";
    }
  }

  /** Part two of the puzzle's first problem: the columns of "123", " 45"
      and "  6" read "1  ", "24 " and "356". */
  lemma ParseSecondExample()
    ensures FiguresParse(Columns(["123", " 45", "  6", "*  "]))
    ensures ParseSecond(["123", " 45", "  6", "*  "]) == Ok(SquidProblem([1, 24, 356], Multiplication))
  {
    ExampleColumns();
    ExampleFigures();
    ExampleTrims();
  }
}
