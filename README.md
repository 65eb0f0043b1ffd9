# Advent of Code 2025 solvers, modelled in Dafny

This project models the eleven daily puzzle solvers of the repository and
proves properties of each one. Every solver parses a small text input and
runs one isolated algorithm:

- **Day 1.** A dial of 100 positions counts how often it lands on 0 and how often it passes 0.
- **Day 2.** Ids whose digits repeat one block are detected by divisibility.
- **Day 3.** A greedy pick finds the largest k-digit subsequence of a bank of batteries.
- **Day 4.** Rolls of paper on a grid are removed round by round while few enough neighbours surround them.
- **Day 5.** Ingredient ids are classified against inclusive ranges, and the union of the ranges is counted.
- **Day 6.** Worksheet columns are split, transposed, and summed or multiplied.
- **Day 7.** Tachyon beams split on a manifold, classically and in the many-timelines variant.
- **Day 8.** Junction boxes are merged into circuits in order of increasing distance.
- **Day 9.** Red tiles bound a figure, whose green rows are swept as intervals to find the largest rectangle inside it.
- **Day 10.** Machines with buttons are solved in two modes:
  - a breadth-first search toggles the lights;
  - a branch-and-bound backtracking search and an iterative-deepening A\* search bring the joltage counters down to zero.
  - A greedy heuristic orders the buttons for the backtracking search.
- **Day 11.** A device network is parsed; its simple paths are enumerated; Kahn's algorithm sorts it topologically; and paths through it are counted by dynamic programming.

Each day is one module (`FirstDay` ... `EleventhDay`). Day 10 is split over five modules:

- `TenthDay`: parsing, counting and ordering;
- `TenthDayLights`: light mode, its breadth-first search, and the proof that the search returns a shortest combination;
- `TenthDayJoltage`: the backtracking search;
- `TenthDayIdaStar`: the A\* variant;
- `TenthDayOrdering`: the button ordering of the day 10 test machine, round by round.

`Common` holds the decimal parsing and printing, `str::split`/`trim`, the stable sort and a few arithmetic lemmas.

Code that updates state step by step is modelled as methods with loops:

- the dial, the removal rounds and the two-cursor walks;
- the circuit map and the interval sweep;
- the queue of the breadth-first search;
- the searches with their `&mut` tables;
- Kahn's algorithm.

Each such method is proved against a function of its inputs, and the function's properties are proved as lemmas. Code written as expressions is modelled as functions.

Hash-set and hash-map iteration order is never fixed in the model. Methods pick elements with `:|`, so what they promise holds for every order. Where a specification function needs an order, it takes the order as a parameter or makes an arbitrary choice, and the lemmas hold for every one.

Machine integers are mathematical integers. Where a cast or a fixed width matters (`i16` on day 1, `u16` joltages, `usize::MAX` as a sentinel) it is written out or required as a range precondition.

## Model

| member | source | states |
|---|---|---|
| Common.CompareInt | src/third_day/mod.rs:15-16 | `Ord::cmp` on integers: `Less`, `Equal` and `Greater` exactly when the first is smaller, equal or larger |
| Common.ParseUnsigned | src/fifth_day/mod.rs:31 | `str::parse` into an unsigned type succeeds iff the text is an optional '+' and at least one digit whose value fits the type |
| Common.ParseUnsignedOfNatToString | src/second_day/mod.rs:30-31 | parsing a printed number that fits gives the number back (round trip) |
| Common.NatToStringValue | src/first_day/mod.rs:36 | the printed digits denote the number |
| Common.Split | src/second_day/mod.rs:99 | `str::split` on one character gives at least one piece, none holding the separator |
| Common.JoinSplit | src/eight_day/mod.rs:36 | joining the pieces with the separator gives back the text |
| Common.SplitJoin | src/tenth_day/mod.rs:28 | splitting pieces that were joined, none with a separator, gives back the pieces |
| Common.TrimIsSlice | src/sixth_day/mod.rs:108 | `str::trim` removes the characters with the Unicode White_Space property at both ends and nothing else |
| Common.TrimPadded | src/sixth_day/mod.rs:127-138 | a word padded on the right with spaces trims back to the word |
| Common.SortByKey | src/fifth_day/mod.rs:82-83 | the result is sorted by the key and is a permutation of the input |
| Common.InsertByKeyMultiset | src/fifth_day/mod.rs:82-83 | inserting adds exactly one occurrence of the element |
| Common.InsertByKeyWithKey | src/fifth_day/mod.rs:82-83 | an inserted element comes after every element with its key, which keep their order |
| Common.SortByKeyStable | src/fifth_day/mod.rs:82-83 | the sort is stable: for every key the elements with that key come out in their input order |
| Common.SortByKeySorted | src/fifth_day/mod.rs:82-83 | sorting an already sorted sequence leaves it as it is |
| Common.SortedElements | src/seventh_day/mod.rs:118-119 | `iter().sorted()` on a set: strictly increasing, with exactly the set's elements |
| FirstDay.ParseInstruction | src/first_day/mod.rs:27-41 | the slice `[0..1]` panics exactly on an empty line or a first character of more than one UTF-8 byte; otherwise "L" and "R" give the direction and any other first character is `InvalidDirection` carrying it, and the rest must parse as a `usize` distance, else `InvalidDistance` |
| FirstDay.ParseFormatRoundTrip | src/first_day/mod.rs:27-41 | parsing the text of any instruction with a `usize` distance gives that instruction back |
| FirstDay.AsI16 | src/first_day/mod.rs:62-65 | the `as i16` cast lands in the `i16` range and keeps every value up to `i16::MAX` |
| FirstDay.RustRem100 | src/first_day/mod.rs:81 | Rust's `% 100` lies strictly between -100 and 100, agrees with the Euclidean remainder on non-negative dividends and is never positive for non-positive ones |
| FirstDay.RemCongruent | src/first_day/mod.rs:81 | Rust's `% 100` differs from its dividend by a multiple of 100 |
| FirstDay.Rotation | src/first_day/mod.rs:60-85 | after a rotation the position is in 0..99, the landed counter grows by one exactly when the position is 0, and the passed counter grows by the branch-wise increment |
| FirstDay.Dial.constructor | src/first_day/mod.rs:52-58 | a new dial stands at the starting position with both counters at 0 |
| FirstDay.Dial.Rotate | src/first_day/mod.rs:60-85 | the new counters and position are `Rotation` of the old ones, whenever the `i16` arithmetic does not overflow |
| FirstDay.PassIncrementCountsZeroClicks | src/first_day/mod.rs:68-78 | for a dial in 0..99 the passings added by one rotation are exactly the clicks 1..distance at which the dial points at 0, the final one included |
| FirstDay.RotationReading | src/first_day/mod.rs:80-84 | the final position is the start moved by the distance modulo 100, and the landed counter grows exactly when that reading is 0 |
| FirstDay.OneLeftFromZeroExample | src/first_day/tests.rs:4-13 | one click left from 0 ends on 99 without passing 0 |
| FirstDay.LeftFromZeroExample | src/first_day/tests.rs:15-25 | 501 clicks left from 0 end on 99 having passed 0 five times |
| FirstDay.OneTurnRightFromZeroExample | src/first_day/tests.rs:28-37 | 110 clicks right from 0 end on 10 having passed 0 once |
| FirstDay.RightFromZeroExample | src/first_day/tests.rs:39-49 | 210 clicks right from 0 end on 10 having passed 0 twice |
| FirstDay.SmallRightExample | src/first_day/tests.rs:52-61 | 9 clicks right from 90 end on 99 without passing 0 |
| FirstDay.SmallLeftExample | src/first_day/tests.rs:64-73 | 9 clicks left from 90 end on 81 without passing 0 |
| FirstDay.LandOnZeroExample | src/first_day/tests.rs:76-88 | 99 clicks right from 1 land on 0 with one passing |
| FirstDay.LeaveZeroExample | src/first_day/tests.rs:89-91 | leaving 0 by two clicks left ends on 98 and adds no passing |
| SecondDay.ParseRange | src/second_day/mod.rs:26-38 | the trimmed text splits on '-' into exactly two pieces, else `StartAndEndNotParsed` carrying the input; with two pieces it succeeds exactly when both parse as `usize`, and then holds those values |
| SecondDay.ParseFormatRoundTrip | src/second_day/mod.rs:26-38 | a range of `usize` bounds written "start-end" parses back to itself |
| SecondDay.DigitCount | src/second_day/mod.rs:47 | the `successors(..).count()` digit count is at least 1 |
| SecondDay.GetSillyNumbers | src/second_day/mod.rs:57-65 | the output is strictly increasing and holds exactly the ids of `start..end` (end excluded) that the detector flags |
| SecondDay.DigitCountBounds | src/second_day/mod.rs:47 | a number lies below 10 to the power of its digit count, and from two digits on at or above 10 to that count less one |
| SecondDay.DivisibleIsRepetition | src/second_day/mod.rs:41-44 | a number of `b * k` digits that `1 + 10^b + ... + 10^(b(k-1))` divides has digits of period `b` |
| SecondDay.RepetitionIsDivisible | src/second_day/mod.rs:41-44 | conversely, `b * k` digits of period `b` make a number that multiplier divides |
| SecondDay.AllOnesIsMultiplier | src/second_day/mod.rs:77-80 | the all-ones number the source builds as text and parses is the multiplier of a one-digit block |
| SecondDay.ConstantMultipliers | src/second_day/mod.rs:81-92 | 1001001, 10101 and 101010101 are the multipliers of a 3-digit block three times, a 2-digit block three times and a 2-digit block five times |
| SecondDay.SillyIffHalvesEqual | src/second_day/mod.rs:41-53 | for `2h` digits, divisibility by `10^h + 1` holds exactly when the upper half equals the lower half |
| SecondDay.SillyIffDoubled | src/second_day/mod.rs:46-55 | `number_is_silly` flags exactly the ids whose digits are one block written twice |
| SecondDay.PartTwoSound | src/second_day/mod.rs:72-94 | every id `number_is_silly_part_two` flags is one block written at least twice, whatever its length |
| SecondDay.PartTwoCompleteUpToElevenDigits | src/second_day/mod.rs:81-84 | every id of at most eleven digits that repeats a block is flagged, the bound the comment relies on |
| SecondDay.RepetitionCaught | src/second_day/mod.rs:72-94 | a block length dividing the digit count is caught by one of the branch's tests, up to eleven digits |
| SecondDay.TwelveDigitsNotFlagged | src/second_day/mod.rs:81-84 | the eleven-digit bound matters: 100010001000 repeats a block but is not flagged |
| SecondDay.TenDigitExample | src/second_day/tests.rs:3-6 | 1212121212 is flagged |
| SecondDay.TenDigitCounterExample | src/second_day/tests.rs:8-11 | 1231231231 is not flagged |
| SecondDay.ElevenDigitExample | src/second_day/tests.rs:13-16 | 11111111111 is flagged |
| SecondDay.NineDigitExample | src/second_day/tests.rs:18-21 | 123123123 is flagged |
| SecondDay.NineDigitCounterExample | src/second_day/tests.rs:23-26 | 123123124 is not flagged |
| SecondDay.SixDigitExample | src/second_day/tests.rs:33-36 | 121212 is flagged |
| ThirdDay.CompareEqualIffSame | src/third_day/mod.rs:12-24 | `cmp` answers `Equal` exactly when `eq` holds, that is on equal position and joltage |
| ThirdDay.CompareAntisymmetric | src/third_day/mod.rs:12-18 | swapping the operands of `cmp` reverses its answer |
| ThirdDay.CompareTransitive | src/third_day/mod.rs:12-18 | "not greater" under `cmp` is transitive, so `max` is well defined |
| ThirdDay.CompareMeaning | src/third_day/mod.rs:12-18 | a battery is greater when its joltage is higher, or at equal joltage when it sits further left |
| ThirdDay.CompareExamples | src/third_day/tests.rs:3-40 | the three orderings of the source's tests |
| ThirdDay.DigitParse | src/third_day/mod.rs:45 | parsing one character as `usize` succeeds exactly on a decimal digit, giving its value |
| ThirdDay.NewPowerBank | src/third_day/mod.rs:38-49 | on a line of digits, battery `i` has position `i` and the joltage of character `i` |
| ThirdDay.MaxBatteryIsGreatest | src/third_day/mod.rs:58-62 | `Iterator::max` returns an element of the window that no element exceeds |
| ThirdDay.LeftmostMaxIsLeftmostGreatest | src/third_day/mod.rs:58-62 | the reference choice is a largest digit of the window with only smaller digits to its left |
| ThirdDay.GreedyPositions | src/third_day/mod.rs:57-66 | the greedy choice gives `k` strictly increasing positions within the line |
| ThirdDay.GetMaximumJoltage | src/third_day/mod.rs:51-68 | the result is the number spelled by the greedy positions, for `k` at most the bank's length |
| ThirdDay.WindowMaximum | src/third_day/mod.rs:58-62 | the maximum of a window is the leftmost largest digit of it |
| ThirdDay.WindowMax | src/third_day/mod.rs:58-62 | on a bank built by `new` the `cmp` maximum is that leftmost largest digit |
| ThirdDay.GreedyFoldValue | src/third_day/mod.rs:63-65 | the loop's accumulated digit-times-power terms add up to the number the chosen digits spell |
| ThirdDay.GreedyIsMaximum | src/third_day/mod.rs:51-68 | no choice of `k` increasing positions spells a larger number than the greedy one |
| ThirdDay.GreedyValueBound | src/third_day/mod.rs:51-68 | the result has at most `k` digits |
| ThirdDay.MaximumJoltageIsOptimal | src/third_day/mod.rs:51-68 | on a parsed line the result is the largest `k`-digit number obtainable by switching on `k` batteries in order |
| FourthDay.AdjacentIffNeighbour | src/fourth_day/mod.rs:13-22 | the guarded conjunction holds exactly for a different cell at most one step away in each coordinate |
| FourthDay.AdjacentIrreflexive | src/fourth_day/mod.rs:14 | no roll is adjacent to itself |
| FourthDay.AdjacentSymmetric | src/fourth_day/mod.rs:13-22 | adjacency does not depend on the order of the two rolls |
| FourthDay.EightNeighbours | src/fourth_day/mod.rs:13-22 | each of the up to eight neighbouring cells is adjacent, on the grid's edges too |
| FourthDay.TwoStepsApart | src/fourth_day/mod.rs:13-22 | a roll two or more steps away in either coordinate is not adjacent |
| FourthDay.AdjacencyExamples | src/fourth_day/tests.rs:3-77 | the eleven adjacency verdicts of the source's tests |
| FourthDay.AdjacentCountIsSetSize | src/fourth_day/mod.rs:31-41 | on a list without repeats, the neighbour count is the number of adjacent rolls |
| FourthDay.AdjacentCountPrefix | src/fourth_day/mod.rs:33-39 | counting over a prefix never exceeds counting over the whole list, so breaking off early loses no verdict |
| FourthDay.Accessible | src/fourth_day/mod.rs:25-47 | the accessible rolls are no more than the rolls examined |
| FourthDay.AccessibleMembers | src/fourth_day/mod.rs:25-47 | a roll is listed exactly when it is one of the rolls and at most `max` rolls are adjacent to it |
| FourthDay.BruteForceAccessibleRolls | src/fourth_day/mod.rs:25-47 | the output is the rolls, in order, with at most `maximum_adjacent_rolls` adjacent rolls, despite the early `break` |
| FourthDay.RemoveRollsMembers | src/fourth_day/mod.rs:49-53 | after the removal a roll is kept exactly when it was there and is not listed as available |
| FourthDay.RemoveRollsConcat | src/fourth_day/mod.rs:49-53 | removal works piece by piece, so the kept rolls stay in their order |
| FourthDay.RemoveNothing | src/fourth_day/mod.rs:49-53 | removing no roll keeps every roll |
| FourthDay.RemoveAccessibleLength | src/fourth_day/mod.rs:59-61 | removing the accessible rolls shortens the list by exactly their number |
| FourthDay.RemovalTotalIsRemovedCount | src/fourth_day/mod.rs:55-64 | the total removed plus the surviving rolls is the initial count, and no survivor is accessible |
| FourthDay.CountAccessibleRollsWithIterativeRemoval | src/fourth_day/mod.rs:55-64 | the method returns the total of the round-by-round removal, ending when a round finds no accessible roll |
| FifthDay.FromInputRange | src/fifth_day/mod.rs:59-66 | the conversion keeps both bounds |
| FifthDay.RangeLeIsTotalOrder | src/fifth_day/mod.rs:9-13 | the derived order (by start, then end) is reflexive, total, antisymmetric and transitive |
| FifthDay.InsertRange | src/fifth_day/mod.rs:82 | inserting into a sorted list keeps it sorted and adds exactly the one range |
| FifthDay.SortRanges | src/fifth_day/mod.rs:82 | `ranges.sort()` returns a sorted permutation of the ranges |
| FifthDay.SortIds | src/fifth_day/mod.rs:83 | `ids.sort()` returns an ascending permutation of the ids |
| FifthDay.InSomeRangePermutation | src/fifth_day/mod.rs:80-82 | whether an id is in some range does not depend on the order of the ranges |
| FifthDay.SeparateSpoiledAndFreshIngredients | src/fifth_day/mod.rs:74-109 | every id lands in exactly one list (as a multiset), the fresh ones are exactly those in some range, and both lists are ascending |
| FifthDay.WalkStep | src/fifth_day/mod.rs:90-106 | one turn of the walk places the next id or passes the current range, keeping the walk's invariant and making progress |
| FifthDay.IntervalMembers | src/fifth_day/mod.rs:121-133 | the ids of `start..=end` are exactly those between the bounds |
| FifthDay.IntervalSize | src/fifth_day/mod.rs:129-132 | `start..=end` holds `end - start + 1` ids |
| FifthDay.CoveredMembers | src/fifth_day/mod.rs:111-138 | an id is covered exactly when some range holds it |
| FifthDay.ContainedStep | src/fifth_day/mod.rs:120-123 | a range ending no later than the previous one adds no id and keeps the sweep invariant |
| FifthDay.OverlapStep | src/fifth_day/mod.rs:124-130 | a range overlapping the previous end adds exactly the ids above that end, as the count does |
| FifthDay.DisjointStep | src/fifth_day/mod.rs:131-134 | a range starting above the previous end adds all of its ids, as the count does |
| FifthDay.CountNumberOfFreshIngredients | src/fifth_day/mod.rs:111-138 | the count is the number of distinct ids covered by the ranges, id 0 aside (the `0..=0` seed hides it) |
| FifthDay.CoveredPermutation | src/fifth_day/mod.rs:113-114 | the covered ids do not depend on the order of the ranges |
| FifthDay.CountWithoutZero | src/fifth_day/mod.rs:117 | without a range reaching 0 the count is exactly the number of covered ids |
| FifthDay.CoveredOfTwo | src/fifth_day/tests.rs:3-10 | two ranges one above the other count both sizes |
| FifthDay.CoveredOfOverlapping | src/fifth_day/tests.rs:12-46 | a second range overlapping or inside the first counts from the first start to the larger end |
| FifthDay.CountExamples | src/fifth_day/tests.rs:3-46 | the five counts of the source's tests: 5, 6, 6, 7 and 6 |
| SixthDay.OperatorTryFrom | src/sixth_day/mod.rs:14-25 | `"+"` and `"*"` are the only operators; any other string is an error that carries it |
| SixthDay.Transpose | src/sixth_day/mod.rs:27-42 | row `i` of the result is column `i` of the input, so sizes swap; an empty input stays empty |
| SixthDay.TransposeTwice | src/sixth_day/mod.rs:27-42 | transposing a rectangle twice gives it back |
| SixthDay.SolveSplits | src/sixth_day/mod.rs:67-72 | solving is a sum or a product: it splits over concatenated figures, with 0 and 1 for no figures |
| SixthDay.SolveExample | src/sixth_day/mod.rs:67-72 | the puzzle's problems `123 * 45 * 6` and `328 + 64 + 98` give 33210 and 490 |
| SixthDay.SplitColumnsMeaning | src/sixth_day/mod.rs:76-85 | the split columns are strictly ascending and are exactly the positions just before an operator that is not first |
| SixthDay.GetSplitColumnsIndex | src/sixth_day/mod.rs:76-85 | the loop computes the split columns of the whole operator line |
| SixthDay.SplitColumnsExample | src/sixth_day/tests.rs:3-7 | `"+  *   + *"` splits at 2, 6 and 8 |
| SixthDay.Pieces | src/sixth_day/mod.rs:87-97 | one more piece than cuts |
| SixthDay.PiecesRoundTrip | src/sixth_day/mod.rs:87-97 | the pieces glued back with the characters at the cuts give the line: splitting drops exactly the cut characters |
| SixthDay.SplitProblemsLine | src/sixth_day/mod.rs:87-97 | the loop returns the pieces between the cuts, for increasing cuts inside the line, the cuts taken as character positions |
| SixthDay.SplitProblemsLineExample | src/sixth_day/tests.rs:9-15 | `"12 134  2 23  "` cut at 2, 7 and 9 gives `"12"`, `"134 "`, `"2"` and `"23  "` |
| SixthDay.ParseFigures | src/sixth_day/mod.rs:104-112 | each figure is the `usize` its trimmed line reads |
| SixthDay.ParseFirst | src/sixth_day/mod.rs:100-116 | no line is `EmptyInstruction`; otherwise the figures are the trimmed lines but the last and the operator is the trimmed last line, whose error is passed on |
| SixthDay.ParseFirstRoundTrip | src/sixth_day/mod.rs:100-116 | every problem with `usize` figures, written one figure per line with its operator last, parses back to itself |
| SixthDay.MaxWidth | src/sixth_day/mod.rs:119-123 | the width is the length of the longest figure line |
| SixthDay.PadRight | src/sixth_day/mod.rs:127 | `{:width$}` keeps the string and pads it with spaces on the right up to the width |
| SixthDay.Columns | src/sixth_day/mod.rs:124-132 | column `k` holds character `k` of every padded figure line, a space past its end |
| SixthDay.ParseSecond | src/sixth_day/mod.rs:118-146 | one figure per column of the padded figure lines, read and trimmed; fails only on the operator |
| SixthDay.ParseSecondExample | src/sixth_day/mod.rs:118-146 | the puzzle's first problem read by columns is `1 * 24 * 356` |
| SeventhDay.AdvancedMembers | src/seventh_day/mod.rs:89-105 | a column is lit below a line exactly when a beam passes straight down it or a split beam lands on it from a neighbouring column |
| SeventhDay.AdvancedWithoutHits | src/seventh_day/mod.rs:89-105 | a line with no splitter under any beam leaves the beams where they are |
| SeventhDay.AdvancedAddOne | src/seventh_day/mod.rs:92-100 | each beam contributes its own column, or the two beside it when it hits a splitter, independently of the others |
| SeventhDay.AdvanceBeams | src/seventh_day/mod.rs:89-105 | in any hash order the new beams are the advanced columns and the split count grows by the number of beams standing on a splitter |
| SeventhDay.Run | src/seventh_day/mod.rs:36-47 | the run's split count is the total over all lines of beams hitting splitters |
| SeventhDay.SplitCountBound | src/seventh_day/mod.rs:36-47 | a run splits at most once per splitter |
| SeventhDay.AdvanceExample | src/seventh_day/tests.rs:7-21 | beams 1, 3 and 8 under splitters 1 and 3 become 0, 2, 4 and 8, with 2 splits |
| SeventhDay.SplitBeamMembers | src/seventh_day/mod.rs:147-170 | a split gives two timelines with the beam's count, the column replaced by its left, resp. right, neighbour |
| SeventhDay.SplitBeamExample | src/seventh_day/tests.rs:23-43 | splitting columns 1, 3, 8 at 1 gives 0, 3, 8 and 2, 3, 8 |
| SeventhDay.StepAll | src/seventh_day/mod.rs:178-190 | one position doubles the timelines when it meets a splitter and keeps their number otherwise |
| SeventhDay.StepAllMember | src/seventh_day/mod.rs:178-190 | every new timeline comes from one of the old ones |
| SeventhDay.QuanticAdvance | src/seventh_day/mod.rs:172-193 | for the hash order taken, one timeline per choice of side at each hit splitter (two to the number of hits), each keeping the count and lying between the beams that pass straight and all advanced columns |
| SeventhDay.QuanticAdvanceExample | src/seventh_day/tests.rs:45-75 | beams 1, 3, 8 with count 2 under splitters 1 and 3 give the four timelines of the test |
| SeventhDay.Timelines | src/seventh_day/mod.rs:48-77 | a single beam has at least one timeline |
| SeventhDay.TimelinesBound | src/seventh_day/mod.rs:48-77 | each line at most doubles the timelines |
| SeventhDay.RunInRangeIffQuantic | src/seventh_day/mod.rs:94-150 | the classical and the quantic runs avoid the `0 - 1` underflow under the same condition |
| SeventhDay.NoSplitterAtZero | src/seventh_day/mod.rs:94-150 | without a splitter in column 0 no run underflows |
| SeventhDay.ChunkBy | src/seventh_day/mod.rs:60-68 | regrouping never adds beams and keeps the columns of the last one |
| SeventhDay.ChunkByAdjacentDiffer | src/seventh_day/mod.rs:60-68 | after regrouping no two neighbouring beams share their columns |
| SeventhDay.ChunkByColumns | src/seventh_day/mod.rs:60-68 | every regrouped beam has the columns of some input beam |
| SeventhDay.ChunkByTotal | src/seventh_day/mod.rs:62-67 | regrouping keeps the total number of timelines |
| SeventhDay.ChunkByWeighted | src/seventh_day/mod.rs:60-68 | regrouping keeps the timelines still to come |
| SeventhDay.AccumulateBeam | src/seventh_day/mod.rs:53-58 | advancing one more beam keeps the timelines to come equal to those of the beams already advanced |
| SeventhDay.RunQuantic | src/seventh_day/mod.rs:48-77 | whatever the hash order, the total is the number of timelines of the single starting beam |
| SeventhDay.RunQuanticExample | src/seventh_day/tests.rs:77-120 | the source's example manifold has 40 timelines |
| SeventhDay.Cmp | src/seventh_day/mod.rs:114-138 | the loop computes the prefix comparison of the sorted columns |
| SeventhDay.BeamOrderNotTransitive | src/seventh_day/mod.rs:114-138 | the source's order calls {1,2} equal to {1} and {1} equal to {1,3} yet puts {1,2} below {1,3} |
| SeventhDay.LexCompareEqual | src/seventh_day/mod.rs:117-135 | the lexicographic comparison says `Equal` only for equal sequences |
| SeventhDay.LexCompareReverse | src/seventh_day/mod.rs:117-135 | swapping the arguments reverses the lexicographic comparison |
| SeventhDay.LexCompareTransitive | src/seventh_day/mod.rs:117-135 | the lexicographic comparison is transitive |
| SeventhDay.BeamTotalOrderEqual | src/seventh_day/mod.rs:114-138 | the corrected order says `Equal` exactly for equal beams and is antisymmetric |
| SeventhDay.BeamTotalOrderTransitive | src/seventh_day/mod.rs:114-138 | the corrected order is transitive |
| EightDay.Distance | src/eight_day/mod.rs:29-33 | the squared Euclidean distance is never negative |
| EightDay.DistanceSymmetric | src/eight_day/mod.rs:29-33 | the distance does not depend on the order of the two boxes |
| EightDay.DistanceZero | src/eight_day/mod.rs:29-33 | only a box's own position is at distance 0 |
| EightDay.DistanceExample | src/eight_day/tests.rs:8-16 | the three distances of the source's test: 1, 1 and 2 |
| EightDay.ParseCoordinates | src/eight_day/mod.rs:35-49 | a line without exactly three comma-separated fields is refused |
| EightDay.ParseFormatCoordinates | src/eight_day/mod.rs:35-49 | every box with `usize` coordinates, written `x,y,z`, parses back to itself |
| EightDay.ParseInput | src/eight_day/mod.rs:10-19 | line `i` becomes the box with index `i` and the coordinates the line reads |
| EightDay.ParseInputFails | src/eight_day/mod.rs:10-19 | the input fails exactly when one of its lines does |
| EightDay.CircuitsInUse | src/eight_day/mod.rs:95-109 | a circuit is in use exactly when some box belongs to it |
| EightDay.Merged | src/eight_day/mod.rs:111-122 | merging reassigns boxes and never adds or drops one |
| EightDay.MergedBoxes | src/eight_day/mod.rs:111-122 | circuit `a` gains the boxes of `b`, `b` is emptied, every other circuit keeps its boxes |
| EightDay.MergedSelf | src/eight_day/mod.rs:111-122 | merging a circuit with itself changes nothing |
| EightDay.MergedCircuits | src/eight_day/mod.rs:111-122 | merging removes `b` from the circuits in use and no other |
| EightDay.MergedJoins | src/eight_day/mod.rs:152-155 | after merging the circuits of two boxes they share a circuit |
| EightDay.MergedKeepsTogether | src/eight_day/mod.rs:111-122 | boxes that share a circuit still share one after any merge |
| EightDay.CircuitSizesEntries | src/eight_day/mod.rs:163-165 | one size per circuit in use, each at least 1 |
| EightDay.CircuitSizesSum | src/eight_day/mod.rs:163-165 | the circuit sizes add up to the number of boxes |
| EightDay.SetDistanceLookup | src/eight_day/mod.rs:174-188 | after `set(a, b, v)` with distinct boxes the distance reads `v` either way round, only the key (larger, smaller) was written, and `set(a, a, v)` changes nothing |
| EightDay.SetDistanceKeepsOrdered | src/eight_day/mod.rs:175 | every key stays ordered larger first |
| EightDay.DistanceMapping.Set | src/eight_day/mod.rs:174-188 | the method writes the map that `SetDistance` describes |
| EightDay.SortedDistances | src/eight_day/mod.rs:139-143 | the entries between distinct boxes, each once, by ascending distance |
| EightDay.SortedOrderUnique | src/eight_day/mod.rs:143 | without ties in distance the order is determined |
| EightDay.MergeAlong | src/eight_day/mod.rs:145-159 | connecting pairs one after the other keeps the set of boxes |
| EightDay.MergeAlongCircuits | src/eight_day/mod.rs:145-159 | connecting never creates a circuit, and each connection removes at most one |
| EightDay.MergeAlongConnects | src/eight_day/mod.rs:152-155 | every connected pair shares a circuit afterwards |
| EightDay.InitialCircuitsOfNumbered | src/eight_day/mod.rs:69-87 | with boxes numbered as `parse_input` numbers them, the circuits are 0 to n-1, one box each |
| EightDay.CircuitMapping.constructor | src/eight_day/mod.rs:69-87 | every box starts alone in the circuit named by its index, and is found by its index |
| EightDay.CircuitMapping.GetCircuitOfJunctionBox | src/eight_day/mod.rs:89-93 | the circuit returned holds the box |
| EightDay.CircuitMapping.GetCircuitBoxes | src/eight_day/mod.rs:95-102 | known boxes only, and none exactly when the circuit is not in use |
| EightDay.CircuitMapping.GetCircuit | src/eight_day/mod.rs:104-109 | the circuit is found exactly when some box belongs to it |
| EightDay.CircuitMapping.MergeCircuits | src/eight_day/mod.rs:111-122 | the boxes of `b` move to `a`, the box index is untouched |
| EightDay.CircuitMapping.GetCircuitsSize | src/eight_day/mod.rs:163-165 | one entry per circuit in use |
| EightDay.CircuitMapping.BuildConnections | src/eight_day/mod.rs:130-161 | the distances are taken by ascending distance and the circuits are those after the connections made; it stops after the limit with several circuits left, returns the last pair when one circuit is left, and reports the distances running out as the source's panic |
| EightDay.MergeExample | src/eight_day/tests.rs:18-58 | merging circuits 2 and 0 either way round gathers boxes 0, 1 and 2 |
| EightDay.BuildConnectionsExample | src/eight_day/tests.rs:60-162 | with at most three connections, circuit 1 holds boxes 0, 1, 2, circuit 3 boxes 3, 4, and circuits 0, 2, 4 are empty |
| NinthDay.ParseRedTile | src/ninth_day/mod.rs:27-39 | a line with fewer than two comma-separated fields is refused |
| NinthDay.ParseFormatRedTile | src/ninth_day/mod.rs:27-39 | every tile with `usize` coordinates, written `x,y`, parses back to itself, whatever follows a further comma |
| NinthDay.ParseInput | src/ninth_day/mod.rs:41-43 | one tile per line, the tile the line reads |
| NinthDay.RowPairs | src/ninth_day/mod.rs:46-53 | the pairs of a row come in the order of their second index |
| NinthDay.PairsFromLength | src/ninth_day/mod.rs:45-55 | `m` tiles give `m(m-1)/2` pairs |
| NinthDay.PairsFromMembers | src/ninth_day/mod.rs:48 | an index pair is listed exactly when its indices increase |
| NinthDay.PairsFromOrdered | src/ninth_day/mod.rs:46 | the pairs come in strictly increasing lexicographic order, each once |
| NinthDay.TileCombinations | src/ninth_day/mod.rs:45-55 | one combination per index pair |
| NinthDay.TileCombinationsPairs | src/ninth_day/mod.rs:45-55 | `n(n-1)/2` combinations, the `k`-th being the tiles at the `k`-th index pair, which are all pairs `i < j`, each once, in lexicographic order |
| NinthDay.PairIndicesBounded | src/ninth_day/mod.rs:48 | every index pair is increasing and within the tiles |
| NinthDay.Area | src/ninth_day/mod.rs:57-61 | a rectangle holds at least one tile |
| NinthDay.AreaSymmetric | src/ninth_day/mod.rs:57-61 | the area does not depend on the order of the corners and is the product of the side lengths between the smaller and the larger coordinates |
| NinthDay.MaxArea | src/ninth_day/mod.rs:369-373 | the largest area is met by every pair and attained by one |
| NinthDay.FoundUnique | src/ninth_day/mod.rs:223-233 | when at most one interval holds `x`, every hash order finds the same one |
| NinthDay.FindIn | src/ninth_day/mod.rs:223-233 | the search finds an interval holding `x` when there is one, and nothing otherwise |
| NinthDay.RemoveEach | src/ninth_day/mod.rs:257-270 | removing only ever shrinks the set |
| NinthDay.RemoveEachConcat | src/ninth_day/mod.rs:257-270 | removing along two lists is removing along the first, then, unless it stopped, along the second |
| NinthDay.RemoveEachSpec | src/ninth_day/mod.rs:257-270 | removal stops exactly when one of the intervals is missing, naming one; otherwise it removes them all |
| NinthDay.ReplaceExactSpec | src/ninth_day/mod.rs:250-273 | replacing fails exactly when an interval to replace is missing, with `MissingInterval` of it; otherwise the old ones are removed and the new ones added |
| NinthDay.LineGreenIntervals.constructor | src/ninth_day/mod.rs:79-84 | a line holds the current and the next intervals it is given |
| NinthDay.LineGreenIntervals.FindInterval | src/ninth_day/mod.rs:223-227 | the search runs over the next intervals |
| NinthDay.LineGreenIntervals.FindInCurrentInterval | src/ninth_day/mod.rs:229-233 | the search runs over the current intervals |
| NinthDay.LineGreenIntervals.FindEquivalentInterval | src/ninth_day/mod.rs:235-248 | the next interval found at both ends, when both searches find the same one; it then holds both ends |
| NinthDay.LineGreenIntervals.ReplaceValueBy | src/ninth_day/mod.rs:250-273 | the exact mode replaces as `ReplaceExact` says and stops at the first missing interval; the approximate mode replaces the intervals holding both ends of each; the current intervals are untouched |
| NinthDay.LineGreenIntervals.Insert | src/ninth_day/mod.rs:275-277 | the interval is added to the next intervals only |
| NinthDay.LineGreenIntervals.ExtendInterval | src/ninth_day/mod.rs:279-302 | the original (or its equivalent) is replaced by the extension from `min(start, extending end)` to the larger end; a missing one is `MissingInterval` and changes nothing |
| NinthDay.LineGreenIntervals.NewFirstLine | src/ninth_day/mod.rs:96-112 | an odd row fails; otherwise both sets are the row's tiles, sorted by x, paired two by two |
| NinthDay.LineGreenIntervals.New | src/ninth_day/mod.rs:114-221 | an odd row fails; otherwise the result is that of the loop over the pairs of the sorted row, against two copies of the previous next intervals, for the hash-order finds taken |
| NinthDay.Xs | src/ninth_day/mod.rs:98 | the x coordinates of the tiles, in order |
| NinthDay.LineXsSpec | src/ninth_day/mod.rs:98-119 | the sorted coordinates are non-decreasing and hold the x of every tile |
| NinthDay.PairUpSpec | src/ninth_day/mod.rs:100-107 | sorted coordinates pair into well-formed intervals, and every coordinate of an even row ends one |
| NinthDay.ApplyPair | src/ninth_day/mod.rs:125-214 | one turn of the loop changes the two copies as `PairStep` says, for the finds taken |
| NinthDay.ReplaceOne | src/ninth_day/mod.rs:250-273 | replacing one interval by one, or `MissingInterval` of it |
| NinthDay.ReplaceTwo | src/ninth_day/mod.rs:250-273 | replacing two intervals fails on the first missing, in order |
| NinthDay.PairStepSplit | src/ninth_day/mod.rs:173-194 | a pair inside one next interval splits it in the next copy only |
| NinthDay.PairStepMerge | src/ninth_day/mod.rs:195-212 | a pair joining two next intervals merges them in both copies, or fails on the first the current copy lacks |
| NinthDay.PairStepExtendLeft | src/ninth_day/mod.rs:156-172 | a closing tile inside a next interval extends it to the left in both copies, or fails when the current copy lacks it |
| NinthDay.PairStepExtendRight | src/ninth_day/mod.rs:138-154 | an opening tile inside a next interval extends it to the right, and the current interval holding both its ends, which must exist |
| NinthDay.ExtendedStart | src/ninth_day/mod.rs:293-296 | the extension keeps the original start whenever the extension ends after it |
| NinthDay.PairStepWellFormed | src/ninth_day/mod.rs:125-214 | a pair taken in increasing order keeps every interval of both copies well formed |
| NinthDay.LineAlongWellFormed | src/ninth_day/mod.rs:114-221 | over sorted coordinates every interval `new` builds is well formed |
| NinthDay.ReplaceExactWellFormed | src/ninth_day/mod.rs:250-273 | replacing by well-formed intervals keeps a set well formed |
| NinthDay.LineAlongErrors | src/ninth_day/mod.rs:114-221 | every error of the pair loop is `MissingInterval` |
| NinthDay.Rows | src/ninth_day/mod.rs:313-322 | the rows holding a tile, strictly increasing |
| NinthDay.RowTiles | src/ninth_day/mod.rs:317-319 | a row's tiles are exactly the tiles with its y |
| NinthDay.RowsNonEmpty | src/ninth_day/mod.rs:324-326 | with tiles there is a first row |
| NinthDay.RowsXs | src/ninth_day/mod.rs:313-322 | each row's sorted x coordinates, in row order |
| NinthDay.BuiltAlongRows | src/ninth_day/mod.rs:331-338 | every row built was built from the one before |
| NinthDay.NewFailure | src/ninth_day/mod.rs:335 | a failure of `new` is a failed row and never `EmptyInput` |
| NinthDay.NewSuccess | src/ninth_day/mod.rs:335-337 | a success of `new` is a built row |
| NinthDay.BuildingStep | src/ninth_day/mod.rs:334-338 | one more row keeps the loop's invariant |
| NinthDay.FigureIntervals.Build | src/ninth_day/mod.rs:311-343 | `EmptyInput` exactly without tiles; otherwise every row is built from the one before and stored under its y, or the first failing row's error is returned |
| NinthDay.FigureIntervals.BuildFrom | src/ninth_day/mod.rs:333-342 | the rows after the first are built in order, or the first failing one stops the loop |
| NinthDay.RowContainsAccepts | src/ninth_day/mod.rs:352-359 | with at most one interval at the left column, the check does not depend on the hash order |
| NinthDay.FigureIntervals.RectangleIsWithinFigure | src/ninth_day/mod.rs:345-363 | true only when every stored row between the corners has a current interval from the left column reaching the right one; false only when some row's found interval does not reach it |
| NinthDay.CreateTilesXs | src/ninth_day/tests.rs:57-59 | the tests' tiles keep their x order |
| NinthDay.FirstLineExample | src/ninth_day/tests.rs:61-75 | tiles at 1, 2, 5, 7 give the intervals 1-2 and 5-7 |
| NinthDay.MergeExample | src/ninth_day/tests.rs:76-98 | tiles at 3, 5 under 1-3 and 5-7 merge them into 1-7 |
| NinthDay.SplitExample | src/ninth_day/tests.rs:99-120 | tiles at 3, 5 under 1-9 split the next intervals into 1-3 and 5-9 and keep the current one |
| NinthDay.ReduceBothExample | src/ninth_day/tests.rs:121-137 | tiles at 1, 3, 7, 10 under 1-10 narrow the next interval to 3-7 |
| NinthDay.ExtendBothExample | src/ninth_day/tests.rs:138-157 | tiles at 1, 3, 7, 10 under 3-7 extend it to 1-10 in both copies |
| NinthDay.MoveRightExample | src/ninth_day/tests.rs:164-189 | tiles at 3, 5, 7, 9 under 3-7 give 3-9 now and 5-9 next |
| NinthDay.TwoSplitsExample | src/ninth_day/tests.rs:190-198 | tiles at 3, 5, 7, 9 under 1-15 split the next interval into 1-3, 5-7 and 9-15 |
| NinthDay.TwoMergesExample | src/ninth_day/tests.rs:226-233 | tiles at 3, 6, 8, 12 merge 1-3, 6-8 and 12-20 into 1-20 in both copies |
| NinthDay.MaxAreaOfCombinations | src/ninth_day/mod.rs:369-373 | a bound every pair meets and one pair attains is the largest area |
| NinthDay.ExampleMaxArea | src/ninth_day/tests.rs:20-29 | the largest rectangle of the example spans 50 tiles |
| TenthDay.ParseAll | src/tenth_day/mod.rs:28-29 | each comma-separated piece becomes its own `usize` parse result, in order |
| TenthDay.Collect | src/tenth_day/mod.rs:30 | collecting into a set succeeds exactly when every piece parsed |
| TenthDay.CollectMembers | src/tenth_day/mod.rs:30 | the collected set holds exactly the parsed values |
| TenthDay.ParseIndices | src/tenth_day/mod.rs:27-30 | a button's indices parse exactly when every piece is a `usize` |
| TenthDay.ParseIndicesMembers | src/tenth_day/mod.rs:27-30 | an index is in the parsed set iff some piece parses to it |
| TenthDay.ButtonNew | src/tenth_day/mod.rs:26-35 | `Button::new` succeeds iff every piece parses, keeps the given index, and otherwise reports the invalid text |
| TenthDay.ButtonNewNonEmpty | src/tenth_day/mod.rs:26-35 | a parsed button always acts on at least one counter; the empty text is rejected |
| TenthDay.ButtonNewOfFormat | src/tenth_day/mod.rs:26-35 | parsing printed indices gives back exactly their set (round trip) |
| TenthDay.ParseLights | src/tenth_day/mod.rs:50-57 | the pattern parses iff it only holds '.' and '#', '#' meaning on; otherwise the first bad character is reported |
| TenthDay.TrimStartMatches | src/tenth_day/mod.rs:61-64 | removes the longest prefix made of the given characters |
| TenthDay.TrimEndMatches | src/tenth_day/mod.rs:61-64 | removes the longest suffix made of the given characters |
| TenthDay.TrimMatchesWrapped | src/tenth_day/mod.rs:61-64 | trimming a delimited text gives back the text between the delimiters |
| TenthDay.CollectResults | src/tenth_day/mod.rs:58-62 | collecting numbered results succeeds iff each piece parses, in order; otherwise it reports the first error |
| TenthDay.ParsedButtons | src/tenth_day/mod.rs:58-62 | parsed buttons are numbered by position and each acts on something |
| TenthDay.ParsedJoltages | src/tenth_day/mod.rs:63-67 | parsed joltages fit in a `u16` |
| TenthDay.MachineNew | src/tenth_day/mod.rs:45-73 | `Machine::new` succeeds iff the lights, buttons and joltages all parse; it keeps the light pattern and a numbered, non-empty button list; the lights' error wins |
| TenthDayLights.Toggle | src/tenth_day/mod.rs:98-102 | a press changes exactly the listed lights |
| TenthDayLights.ToggleTwice | src/tenth_day/mod.rs:90-95 | pressing the same button twice restores the panel, which is why the search never repeats the last button |
| TenthDayLights.ToggleCommutes | src/tenth_day/mod.rs:98-102 | the order of two presses does not matter |
| TenthDayLights.PressLights | src/tenth_day/mod.rs:98-102 | the in-place flips over the set give exactly `Toggle` |
| TenthDayLights.ValidNodeStep | src/tenth_day/mod.rs:96-102 | extending a queued node by one press keeps its panel equal to the panel its presses reach |
| TenthDayLights.ExpandNodeSound | src/tenth_day/mod.rs:89-110 | expanding a node finds only combinations that reach the target and never repeat a button in a row, and queues only consistent nodes |
| TenthDayLights.LightSearchSound | src/tenth_day/mod.rs:84-113 | every combination the breadth-first search returns lights the target and has no immediate repeat |
| TenthDayLights.LightSearchLimit | src/tenth_day/mod.rs:82-113 | the search ends with a solution, an empty queue, or the limit error carrying 10 000 000 |
| TenthDayLights.FastestLightsSearchSound | src/tenth_day/mod.rs:75-114 | the search from the all-off panel returns only solving combinations, none longer than any solving sequence of one press or more, and the limit error reports the limit |
| TenthDayLights.FindFastestWayToToggleLightPanel | src/tenth_day/mod.rs:75-114 | the queue-and-seen-set loop computes the search, whose results solve the machine with the fewest presses |
| TenthDayLights.ExpandNodeGrows | src/tenth_day/mod.rs:88-110 | one pass over the buttons either finds the target one press past the node, or appends one-press-deeper nodes exactly for the newly seen panels, records every press it does not skip, and never records the target |
| TenthDayLights.ExpansionKeeps | src/tenth_day/mod.rs:84-111 | expanding the head of the queue keeps the breadth-first invariant: the queue is in layers, every panel within the current depth has been met, each met panel waits in the queue or has all its successors met, and no queued panel is reachable in fewer presses |
| TenthDayLights.LevelUp | src/tenth_day/mod.rs:84-111 | once no node of the current depth is queued, the invariant holds one press deeper |
| TenthDayLights.FoundIsShortest | src/tenth_day/mod.rs:103-104 | a target found from a node `depth` presses deep is no closer than `depth + 1` presses, also when the target is the all-off panel the search never tests |
| TenthDayLights.ExpandHead | src/tenth_day/mod.rs:84-111 | expanding the head either finds a sequence no longer than any solution or keeps the invariant |
| TenthDayLights.LightSearchShortest | src/tenth_day/mod.rs:83-113 | from any state meeting the invariant, a combination the search returns is no longer than any solving sequence |
| TenthDayLights.ExpansionShortest | src/tenth_day/mod.rs:84-112 | the same when the head of the queue is expanded next |
| TenthDayLights.BreadthFirstStart | src/tenth_day/mod.rs:77-79 | the starting queue and empty seen set meet the invariant at depth 0 |
| TenthDayLights.FastestLightsSearchShortest | src/tenth_day/mod.rs:75-114 | the combination the search returns is no longer than any sequence of one press or more that lights the target |
| TenthDay.Decrement | src/tenth_day/mod.rs:166-173 | a joltage press is refused iff a listed counter is at 0; otherwise each listed counter goes down by one and the others stay |
| TenthDay.DecrementSum | src/tenth_day/mod.rs:166-173 | a press takes exactly one unit per listed counter off the total |
| TenthDay.PressJoltage | src/tenth_day/mod.rs:166-173 | the in-place loop with its early return gives exactly `Decrement` |
| TenthDay.ButtonCount | src/tenth_day/mod.rs:257-278 | the count of buttons on a counter is positive iff some button acts on it |
| TenthDay.ButtonCountPrefix | src/tenth_day/mod.rs:259-276 | each further button adds one to the count of every counter it acts on |
| TenthDay.CountJoltageCounterNumberOfButtons | src/tenth_day/mod.rs:257-278 | the map holds exactly the counters some button acts on, each with its number of buttons |
| TenthDay.CountLights | src/tenth_day/mod.rs:267-276 | one more for each listed counter, inserted at 1 when new, the rest unchanged |
| TenthDay.CountsMapUnique | src/tenth_day/mod.rs:257-278 | those two properties determine the map |
| TenthDay.ButtonsAreAvailableForMissingJoltage | src/tenth_day/mod.rs:280-304 | true iff every counter still above 0 is listed by one of the remaining buttons |
| TenthDay.PriorityKeyOrder | src/tenth_day/mod.rs:233-238 | the comparator sorts counters by button count, then target, both descending, so the last is the one with fewest buttons and lowest target |
| TenthDay.ExtractIf | src/tenth_day/mod.rs:242-247 | `extract_if` splits the buttons into those acting on the counter and the rest, a permutation of the whole |
| TenthDay.Reversed | src/tenth_day/mod.rs:249 | the reverse holds the same buttons, mirrored |
| TenthDay.ReversedSorted | src/tenth_day/mod.rs:248-249 | sorting by size and reversing gives sizes in decreasing order |
| TenthDay.ExtractedGroup | src/tenth_day/mod.rs:242-250 | the group moved out holds the buttons acting on the counter, largest first |
| TenthDay.SortFromRound | src/tenth_day/mod.rs:231-250 | one round of the loop appends the group of the priority counter and goes on with the rest |
| TenthDay.ExtractPriorityGroup | src/tenth_day/mod.rs:231-250 | one round of the loop, computed in place, agrees with the ordering and uses up one counter |
| TenthDay.SortButtonsByJoltageCounterButtonNumber | src/tenth_day/mod.rs:222-254 | the loop builds the ordering; no button comes out twice and every button on a counter comes out |
| TenthDay.SortFromSubset | src/tenth_day/mod.rs:227-253 | the ordering never invents or repeats buttons |
| TenthDay.SortFromCovers | src/tenth_day/mod.rs:227-253 | every button acting on a counter still to be handled is placed |
| TenthDay.SortFromPermutation | src/tenth_day/mod.rs:227-253 | when every button acts on some counter, the ordering is a permutation |
| TenthDay.SortedButtonsSpec | src/tenth_day/mod.rs:222-254 | the machine's ordering is a sub-multiset that keeps every button acting on a counter |
| TenthDay.SortedButtonsPermutation | src/tenth_day/mod.rs:222-254 | when every button acts on some counter, the machine's ordering is a permutation of its buttons |
| TenthDayOrdering.SortDecreasing | src/tenth_day/mod.rs:233-238 | counters whose keys strictly decrease along the list come out of the stable sort in reverse |
| TenthDayOrdering.OrderingExample | src/tenth_day/tests.rs:38-73 | buttons acting on (3) (1,3) (2) (2,3) (0,2) (0,1) with targets {3,5,4,7} are ordered as the sixth, fifth, second, fourth, third and first, the test's `[5,4,1,3,2,0]` |
| TenthDayJoltage.Zeros | src/tenth_day/mod.rs:118 | the target state is all zeros |
| TenthDayJoltage.ApplyPressesSolves | src/tenth_day/mod.rs:166-177 | presses applied one by one reach all zeros iff they press each counter exactly its target times, in any order |
| TenthDayJoltage.MinOption | src/tenth_day/mod.rs:184-196 | the `min` fold: present iff one side is, and no larger than either |
| TenthDayJoltage.FewestWitness | src/tenth_day/mod.rs:125-203 | the reference minimum is reached by some presses of the buttons from the cursor on |
| TenthDayJoltage.FewestMinimal | src/tenth_day/mod.rs:125-203 | no solving presses from the cursor on are fewer than the reference minimum |
| TenthDayJoltage.FewestNeedsAvailable | src/tenth_day/mod.rs:149-152 | the availability pruning never cuts off a solution |
| TenthDayJoltage.Backtrack | src/tenth_day/mod.rs:125-203 | `backtrack`, with its two `&mut` values threaded through, computes the search function |
| TenthDayJoltage.ExpandBacktrack | src/tenth_day/mod.rs:156-202 | past the early returns: memoise, press, then skip to the next button, as the search function does |
| TenthDayJoltage.SearchEnds | src/tenth_day/mod.rs:137-169 | success reports the presses so far, a dead end reports none, and a refused press as written gives up with the visit memoised |
| TenthDayJoltage.SearchStep | src/tenth_day/mod.rs:174-202 | an expansion folds both calls' counts into the best and reports it when below `usize::MAX` |
| TenthDayJoltage.ExpandGivesUp | src/tenth_day/mod.rs:166-170 | as written, a refused press ends the expansion without trying the next button |
| TenthDayJoltage.SearchBestNeverIncreases | src/tenth_day/mod.rs:184-196 | `maximum_n_buttons` never increases, nor does the count the caller folds in |
| TenthDayJoltage.SortedCountersInRange | src/tenth_day/mod.rs:222-254 | the ordered buttons only list counters the machine has |
| TenthDayJoltage.FindJoltageBacktrack | src/tenth_day/mod.rs:116-220 | the method computes the backtrack result: the count, or `EmptySolutionToExplore` when none is found |
| TenthDayJoltage.SearchWitness | src/tenth_day/mod.rs:137-203 | a count below the best passed in is the length of solving presses from the cursor on |
| TenthDayJoltage.SearchRoot | src/tenth_day/mod.rs:198-214 | from the root the search reports its best count iff it found one |
| TenthDayJoltage.SearchFewest | src/tenth_day/mod.rs:125-203 | the corrected search reaches the reference minimum from the cursor, given a settled memo |
| TenthDayJoltage.SortedFromMachine | src/tenth_day/mod.rs:222-254 | the ordered buttons are the machine's, and still each list some counter |
| TenthDayJoltage.BacktrackWitness | src/tenth_day/mod.rs:116-220 | a count either variant returns is the length of presses of the machine's buttons that reach every target |
| TenthDayJoltage.CorrectedBacktrackOptimal | src/tenth_day/mod.rs:116-220 | the corrected search finds a count no larger than any solving presses: the fewest |
| TenthDayJoltage.StuckMachineOrder | src/tenth_day/mod.rs:222-254 | on the two-button machine, the ordering keeps the buttons as they are |
| TenthDayJoltage.StuckSolved | src/tenth_day/mod.rs:166-173 | one press of the second button solves that machine |
| TenthDayJoltage.AsWrittenGivesUp | src/tenth_day/mod.rs:166-170 | as written, when the first ordered button acts on a counter already at 0, nothing is found, whatever the other buttons |
| TenthDayJoltage.StuckAsWritten | src/tenth_day/mod.rs:166-170 | as written, the search reports `EmptySolutionToExplore` on that machine |
| TenthDayJoltage.StuckCorrected | src/tenth_day/mod.rs:166-214 | the corrected search finds the single press |
| TenthDayIdaStar.Heuristic | src/tenth_day/ida_star.rs:10-12 | the estimate is the largest counter, 0 for no counters |
| TenthDayIdaStar.HeuristicBound | src/tenth_day/ida_star.rs:10-12 | the estimate is at most the total, and 0 exactly at the target |
| TenthDayIdaStar.HeuristicAdmissible | src/tenth_day/ida_star.rs:10-12 | the estimate never exceeds the number of presses of any solution |
| TenthDayIdaStar.Apply | src/tenth_day/ida_star.rs:14-24 | `apply` gives exactly the joltage press `Decrement` |
| TenthDayIdaStar.DepthFirstSearch | src/tenth_day/ida_star.rs:31-83 | the recursive method, with the table and the path threaded through, computes the search function |
| TenthDayIdaStar.SearchButtons | src/tenth_day/ida_star.rs:55-81 | the button loop, started with `usize::MAX`, computes the loop function |
| TenthDayIdaStar.PressButton | src/tenth_day/ida_star.rs:57-77 | one round of the loop either ends it with the search's result or carries it on |
| TenthDayIdaStar.DfsLoopSkip | src/tenth_day/ida_star.rs:57-60 | a refused press, or one back onto the path, is skipped |
| TenthDayIdaStar.DfsLoopCall | src/tenth_day/ida_star.rs:61-77 | otherwise a success ends the loop and a failure lowers the next bound |
| TenthDayIdaStar.OverBound | src/tenth_day/ida_star.rs:41-44 | a state over the bound fails with its estimate |
| TenthDayIdaStar.DfsEnters | src/tenth_day/ida_star.rs:47-81 | a state within the bound, not the target and not pruned, is recorded, put on the path, searched and then removed from the path |
| TenthDayIdaStar.DfsWitness | src/tenth_day/ida_star.rs:31-83 | a success reports a cost within the bound that is the cost of presses reaching the target |
| TenthDayIdaStar.DfsCorrectedBound | src/tenth_day/ida_star.rs:41-81 | in the corrected variant a failure reports `usize::MAX` or a next bound above the current one and no larger than the cost so far plus the counters left, so the deepening terminates |
| TenthDayIdaStar.DfsRestoresPath | src/tenth_day/ida_star.rs:54-80 | a failing search leaves the path as it found it |
| TenthDayIdaStar.DfsTableLowers | src/tenth_day/ida_star.rs:48-53 | the table only gains states and only lowers their costs |
| TenthDayIdaStar.FindJoltageIdaStar | src/tenth_day/ida_star.rs:85-124 | the corrected iterative-deepening loop computes the result function |
| TenthDayIdaStar.IdaCorrectedWitness | src/tenth_day/ida_star.rs:96-124 | a count the corrected loop returns is at least the first estimate and is the length of solving presses |
| TenthDayIdaStar.IdaAsWrittenWitness | src/tenth_day/ida_star.rs:96-124 | the same for the loop as written, whenever it ends |
| TenthDayIdaStar.LoopingFirstProbe | src/tenth_day/ida_star.rs:41-108 | on buttons {0}, {1} and target [1,1], the first probe fails with estimate 2 and leaves the target in the table |
| TenthDayIdaStar.LoopingAsWrittenAgain | src/tenth_day/ida_star.rs:48-121 | from then on, as written, the kept table prunes the start and the bound stays 2 |
| TenthDayIdaStar.LoopingAsWritten | src/tenth_day/ida_star.rs:48-121 | as written the loop never returns on that machine, for any number of probes |
| TenthDayIdaStar.LoopingSecondProbe | src/tenth_day/ida_star.rs:31-83 | the corrected second probe finds the two presses |
| TenthDayIdaStar.LoopingCorrected | src/tenth_day/ida_star.rs:85-124 | the corrected loop returns 2 on that machine |
| EleventhDay.SplitOnSeparatorPieces | src/eleventh_day/mod.rs:27-34 | splitting on `": "` gives a second piece iff the separator occurs |
| EleventhDay.SplitWithoutColon | src/eleventh_day/mod.rs:27 | a text without `':'` is a single piece |
| EleventhDay.SplitAfterName | src/eleventh_day/mod.rs:27-31 | a name without `':'` followed by the separator comes out as the first piece |
| EleventhDay.DeviceNewOfFormat | src/eleventh_day/mod.rs:26-39 | `Device::new` reads a formatted line back into its name and set of outputs (round trip) |
| EleventhDay.DeviceNewFails | src/eleventh_day/mod.rs:32-34 | `Device::new` fails (the `expect`) exactly on a line without the separator |
| EleventhDay.CollectedWellKeyed | src/eleventh_day/mod.rs:43-47 | collecting the lines by name stores each device under its own name |
| EleventhDay.ParseInputSpec | src/eleventh_day/mod.rs:42-73 | after `parse_input` every output is a device, the parsed devices are kept as they were, and each added device has no outputs and is some device's output |
| EleventhDay.FindPathsSound | src/eleventh_day/mod.rs:90-146 | every node set `find_paths` reports is that of a simple path from `from` to `to` avoiding the path so far, and holds the required nodes |
| EleventhDay.FindPathsComplete | src/eleventh_day/mod.rs:90-146 | every such simple path whose nodes hold the required ones is reported |
| EleventhDay.ChildPathsFrom | src/eleventh_day/mod.rs:119-138 | each path gathered below a device was found below one of its outputs |
| EleventhDay.ChildPathsHas | src/eleventh_day/mod.rs:119-138 | each path found below an output is gathered |
| EleventhDay.SimplePathsAre | src/eleventh_day/mod.rs:90-146 | the paths the recursion explores are exactly the simple paths from `from` to `to` that avoid the path so far |
| EleventhDay.FindPathsCounts | src/eleventh_day/mod.rs:90-146 | `find_paths` reports the node set of each of those paths once, when it holds the required nodes, and nothing else: the same multiset |
| EleventhDay.ChildPathsCounts | src/eleventh_day/mod.rs:119-138 | the node sets gathered below the outputs are those of the paths stepping onto one of them, each path once |
| EleventhDay.FindPathsMultiplicity | src/eleventh_day/mod.rs:90-146 | a node set holding the required nodes is reported as many times as there are simple paths with exactly those nodes, and any other not at all |
| EleventhDay.FindPathsTotal | src/eleventh_day/mod.rs:253-266 | the number of entries part one counts is the number of simple paths holding the required nodes, and with nothing required the number of simple paths |
| EleventhDay.PredecessorsAdd | src/eleventh_day/mod.rs:164-167 | adding a device adds one to the in-degree of each of its outputs |
| EleventhDay.GraphNew | src/eleventh_day/mod.rs:154-171 | `Graph::new` lists each device's outputs, each once, under the device, and gives every output its number of predecessors |
| EleventhDay.AddDevice | src/eleventh_day/mod.rs:157-169 | one device's outputs added keeps the edges and in-degrees those of the devices done so far |
| EleventhDay.StartNodes | src/eleventh_day/mod.rs:178-182 | the start nodes are exactly the devices without an in-degree, each once |
| EleventhDay.DegreesStep | src/eleventh_day/mod.rs:189-195 | popping an edge lowers the output's in-degree by one, to zero exactly when all its predecessors are sorted |
| EleventhDay.StartStep | src/eleventh_day/mod.rs:195-201 | an output is pushed onto the start nodes exactly when its last predecessor is sorted |
| EleventhDay.PopEdges | src/eleventh_day/mod.rs:188-203 | the inner loop empties the device's edge list and updates in-degrees and start nodes as the pops dictate |
| EleventhDay.Release | src/eleventh_day/mod.rs:187-204 | a device just sorted releases all its edges, keeping in-degrees and start nodes correct for the sorted devices |
| EleventhDay.SortStep | src/eleventh_day/mod.rs:183-205 | one turn sorts the last start node, keeps the loop invariant and sorts one more device |
| EleventhDay.ForwardPush | src/eleventh_day/mod.rs:184-185 | sorting a device after all its predecessors keeps the sorted devices in topological order |
| EleventhDay.EndsSorted | src/eleventh_day/mod.rs:206-210 | with no start node left and every edge released, the sorted devices are in topological order |
| EleventhDay.EndsOnCycle | src/eleventh_day/mod.rs:206-207 | with no start node left and some edge still there, no topological order exists |
| EleventhDay.NoOrder | src/eleventh_day/mod.rs:206-207 | devices that each have a predecessor among themselves admit no topological order |
| EleventhDay.TopologicalSort | src/eleventh_day/mod.rs:175-211 | Kahn's algorithm returns a topological order of all the devices, and `GraphIsNotADag` exactly when none exists |
| EleventhDay.AddWays | src/eleventh_day/mod.rs:218-221 | each output's count goes up by the device's count, inserted at 0 when new |
| EleventhDay.FindNPaths | src/eleventh_day/mod.rs:213-228 | the loop computes `NPaths`, the count passed forward along the order, 0 for a name never reached |
| EleventhDay.WaysValue | src/eleventh_day/mod.rs:214-222 | each count is 1 for the start plus what the devices so far passed on |
| EleventhDay.ContribStable | src/eleventh_day/mod.rs:216-222 | along a topological order nothing after a device adds to its count |
| EleventhDay.FindNPathsCounts | src/eleventh_day/mod.rs:213-228 | along a topological order the count for every device equals the reference recurrence `PathCount`: 1 at the start, plus the counts of the earlier devices that output to it |
| EleventhDay.NPathsOutside | src/eleventh_day/mod.rs:223-227 | a name that is no device is reached only by the empty path from itself |
| EleventhDay.Reaching | src/eleventh_day/mod.rs:213-228 | paths between two different names run from an earlier device to a later one in the order |
| EleventhDay.OneWay | src/eleventh_day/mod.rs:242-247 | in a DAG two different devices are not connected both ways, so at most one branch counts |
| EleventhDay.SelfPaths | src/eleventh_day/mod.rs:213-228 | from a name to itself there is exactly the empty path |
| EleventhDay.FindNPathsWithTwoSteps | src/eleventh_day/mod.rs:230-248 | the method computes the two-step count from the three path counts of the chosen order |
| EleventhDay.TwoStepEitherOrder | src/eleventh_day/mod.rs:239-247 | in a DAG the two-step count is the sum over both visiting orders, and the paths through the step when both steps are the same |

## Left out

- The interactive menu, every `pub fn main`, `IngredientDatabase::from_path`, file reading, `println!`, `dbg!` and `SystemTime` timing: these are input, output and timing only. In the model, the parsers take the text of a line, or the lines, as parameters.
- The `parallel_map` over day 10 machines is concurrency; each machine's search is modelled on its own.
- The regular expression of `Machine::new` is a foreign library, and so is day 10 `parse_input`'s `lines()`. `TenthDay.MachineNew` takes the three captured parts of the line. A line that does not match the pattern (the source's `expect`) is not modelled.
- `Display` implementations are formatting only.
- Hash iteration order is not modelled as any particular order. It decides:
  - the order of the paths `find_paths` returns, which the model keeps as a multiset; `EleventhDay.FindPathsCounts` and the lemmas beside it hold for any order;
  - the order of the edge and start-node lists in `Graph::new` and `topological_sort`;
  - the order of tied distances in `build_connections`;
  - which interval `find_interval` returns;
  - the beam order of the quantic `advance`.
- Fixed-width overflow is not modelled:
  - `usize` additions and products: sums and products on day 6, areas on day 9, path counts on day 11, press counts on day 10;
  - `isize` and `i64` intermediate values.
  
  Where a cast changes a value, it is written out (the `i16` cast of day 1); elsewhere the model uses mathematical integers.
- FirstDay.ParseInstruction: the panic of the byte slice on an empty line or a multi-byte first character is modelled as the extra error `SlicePanic`, which the source does not have.
- SixthDay.MaxWidth: counts characters, where the source's `figure.len()` counts UTF-8 bytes while `format!` pads to a width in characters. The two agree on lines of one-byte characters only. A figure line holding a multi-byte character (for instance Unicode white space, which `trim` strips) is padded differently by the source.
- ThirdDay.NewPowerBank: requires every character to be a decimal digit, where the source's `unwrap` panics.
- ThirdDay.GetMaximumJoltage: requires `k` to be at most the number of batteries, where the source's `n_batteries - k` underflows a `usize` and panics.
- SixthDay.SplitProblemsLine: requires the cut positions to be increasing and inside the line, where the source's slicing would panic. It also cuts at character positions, while `line[start_index..end_index]` slices UTF-8 bytes; the cut positions come from `chars().enumerate()` and so count characters. The two agree on lines of one-byte characters only. On a line holding a multi-byte character the source returns other pieces, or panics when a cut falls inside a character (for instance "\u{A0} 12" cut at 2 gives "\u{A0}" and "12" in the source, and "\u{A0} " and "2" here; cut at 1, the source panics).
- SixthDay.ParseFirst: requires every line but the last to trim to a `usize`, where the source's `expect` panics.
- SixthDay.ParseSecond: requires at least one figure line, where the source's `len() - 1` underflows on an empty list and `max().expect` panics on the operator line alone. It also requires every padded column to trim to a `usize`, where the source's `expect` panics.
- TenthDayLights.FindFastestWayToToggleLightPanel: requires every light a button lists to exist on the panel (`LightsInRange`), where the source's `new_state[light_index]` panics. Parsing does not check it.
- TenthDayIdaStar and TenthDayJoltage: the methods and functions of the joltage searches (`DepthFirstSearch`, `SearchButtons`, `PressButton`, `FindJoltageIdaStar`, `Backtrack`, `FindJoltageBacktrack` and their specification functions) require every counter a button lists to exist (`CountersInRange`), where the source's indexing panics. Parsing does not check it. The A\* members and the optimality lemmas of the backtracking search also require every button to list some counter (`NonEmptyButtons`), which parsing guarantees (`TenthDay.ButtonNewNonEmpty`).
- FirstDay.Dial.Rotate: requires that the `i16` subtraction or addition does not overflow, and that `abs()` does not meet `i16::MIN`; the source would panic in a debug build.
- SeventhDay.AdvanceBeams: requires that no beam at position 0 hits a splitter, where the source's `p - 1` underflows. `SeventhDay.Run` and `SeventhDay.RunQuantic` require the same on every line.
- SixthDay.Transpose: requires every row to be at least as long as the first, where the source would index out of bounds.
- FifthDay.CountNumberOfFreshIngredients: requires every range to have start at most end. With a reversed range that is not skipped, the source's `end - start` underflows a `usize` and panics.
- EightDay.CircuitMapping.GetCircuitOfJunctionBox and EightDay.CircuitMapping.MergeCircuits: require the box to be in the mapping and circuit `a` to be in use, where the source's `expect` panics (src/eight_day/mod.rs:89-93 and 112-114). Every call inside `build_connections` meets both, as `EightDay.CircuitMapping.BuildConnections` proves. The panics themselves are not modelled.
- EleventhDay.GraphNew and EleventhDay.TopologicalSort: require every device to be stored under its own name, and `TopologicalSort` also that every output is a device; `parse_input` guarantees both (`EleventhDay.ParseInputSpec`). The source's `expect` on a missing in-degree or device is not modelled.
- EightDay.CircuitMapping.BuildConnections: requires every distance to be between known boxes, as `CircuitMapping::new` and the distance table of the same boxes guarantee.
- TenthDayIdaStar.FindJoltageIdaStar: requires at least one button; the source stops with a panic (the `expect` on the largest button) otherwise. `max_button_power` is computed but never used by `heuristic`, so it is not modelled.
- `ida_star.rs` is not declared as a module in the repository, so it is never compiled. It is modelled from its text. The loop as written (`IdaAsWritten`) is bounded by a fuel parameter, because it need not end (see "## Findings"); fuel running out is reported as `None`.
- TenthDayIdaStar.IdaCorrectedWitness: proves that a returned count is achieved, but not that it is the fewest. Optimality of the A\* variant is not proved.
- As written, the breadth-first search never tests the initial all-off panel. A machine whose target is all off is therefore answered only after some presses. The model follows the code.
- TenthDay.PriorityKeyOrder: the ordering follows the code. The code takes the counter with the fewest buttons and, among those, the lowest target. The comment at src/tenth_day/mod.rs:223-225 speaks of the number of buttons only and does not say how ties break; the code breaks them by the lower target, and the ordering test (`TenthDayOrdering.OrderingExample`) agrees: counter 0, target 3, goes before counter 1, target 5, though both have two buttons.
- SecondDay.GetSillyNumbers: excludes `end`, as the source's `start..end` does.
- Test fixtures not proved:
  - the 20-box examples of day 8, with answers 40 and 25272, because their 190 distances are too large to unfold; `EightDay` proves the merging it exercises for all inputs;
  - the second example of day 9 (24): the selection of part two is made in `main`, which is not modelled; also the input-data test and the remaining parametrised cases of the line tests;
  - the day 10 examples: the sum 7 of fewest light presses (that the search returns a fewest count is proved for all machines) and the sum 33 of fewest joltage presses (only the corrected backtracking search is proved to return a fewest count, and the search as written misses answers, see "## Findings"); and the parse of the ordering test's line (its ordering `[5,4,1,3,2,0]` itself is proved by `TenthDayOrdering.OrderingExample`, for any machine with the test's light sets and targets);
  - the day 11 examples: 5 paths and 2 paths (the count of entries is proved to be the number of simple paths, and the dynamic-programming count to equal the reference path-count recurrence `PathCount`, for all networks; that this recurrence counts the paths themselves is not proved).
- Performance: whether memoisation, the availability prune or the ordering speed the searches up is not modelled. Only their effect on the results is.

## Findings

| source | as written | input that shows it | evidently intended | confidence | as-written member | corrected member |
|---|---|---|---|---|---|---|
| src/seventh_day/mod.rs:114-138 | `Ord::cmp` of quantic beams answers `Equal` when one sorted position list is a prefix of the other, so the order is not transitive | {1,2} = {1} and {1} = {1,3}, but {1,2} < {1,3} | a total order, for example lexicographic on the sorted positions, then the timeline count | not executed | SeventhDay.BeamOrderNotTransitive | SeventhDay.BeamTotalOrderTransitive |
| src/tenth_day/mod.rs:166-173 | when the press of the button at the cursor is refused, `backtrack` returns `None` at once instead of moving on to the next button | two counters with targets [1, 0]; button 0 acts on {0, 1} and button 1 on {0}; one press of button 1 solves it, but the search reports `EmptySolutionToExplore` | skip to the next button, as the second recursive call does | not executed | TenthDayJoltage.StuckAsWritten | TenthDayJoltage.CorrectedBacktrackOptimal |
| src/tenth_day/ida_star.rs:48-98 | the transposition table is kept between probes, and a prune reports the current bound; after a failing probe the next probe prunes the start itself, so the bound never grows and the loop never returns | buttons {0} and {1}, target [1, 1]: the first probe (bound 1) fails with 2, and every later probe fails with 2 | clear the table with the path before each probe, and leave the next bound unchanged on a prune (report `usize::MAX`) | not executed | TenthDayIdaStar.LoopingAsWritten | TenthDayIdaStar.LoopingCorrected |
