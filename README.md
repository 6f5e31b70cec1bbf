# Advent of Code 2022 solvers, modelled in Dafny

This project models eighteen solvers for the 2022 Advent of Code puzzles, one
Rust `dayN/src/lib.rs` per day. Each solver reads a puzzle input as text and
answers one or both parts. Every day is a Dafny module `DayN` in `dayN.dfy`.
Four shared modules support them:

- `Wrappers` (`wrappers.dfy`): the `Option` type. The solvers panic on malformed
  input (`unwrap`, `panic!`, `unreachable!`); the model returns `None` there.
- `Text` (`text.dfy`): the parts of Rust's `str` the solvers use: `lines`,
  `split`, `split_once`, `strip_prefix`, `trim`, `split_whitespace`, and decimal
  integer parsing and printing, with round-trip lemmas.
- `Arith` (`arith.dfy`): absolute value, `signum`, and the minimum and maximum of
  two integers, shared by the grid and geometry days.
- `Grids` (`grids.dfy`): row-major indexing of a rectangular grid, shared by the
  tree grid of day 8 and the height map of day 12.

The model follows each file's own form:

- Pure code (range checks, score tables, parsers, the packet ordering, the valve
  search) becomes datatypes, functions and lemmas.
- Code that mutates state becomes imperative Dafny:
  - the sand cave of day 14 and the rocks of day 17 are classes;
  - the breadth-first search of day 12 updates an array;
  - crate moves, rope simulation, monkey rounds, the CPU loop, the directory
    walk, the flood fill and the row scans are methods with loop invariants.
- Each method is proved against a specification function or predicate, and
  lemmas state what the source promises about that specification:
  - round trips of printing and parsing;
  - invariants the simulations keep;
  - optimality of the searches;
  - the unit tests' expected values where they can be checked by proof.

## Model

| member | source | states |
|---|---|---|
| Day1.ParseLine | day1/src/lib.rs:51-56 | a line that is blank after trimming gives `None`; any other line gives its decimal value, and a line that is not a number is the `unwrap` panic (`None`) |
| Day1.ParseLines | day1/src/lib.rs:51-57 | the input parses iff every line does, and then the result has one entry per line, each that line's parse |
| Day1.Groups | day1/src/lib.rs:60 | `split(Option::is_none)` always yields at least one group |
| Day1.GroupsCount | day1/src/lib.rs:60-65 | there is exactly one group more than there are `None` separators |
| Day1.GroupsSum | day1/src/lib.rs:59-66 | the groups together hold every parsed number: the sum of the group sums is the sum of all numbers |
| Day1.Totals | day1/src/lib.rs:59-66 | one total per group, in order, each the sum of its group; as many totals as separators plus one; the totals add up to the sum of all numbers |
| Day1.TotalsSum | day1/src/lib.rs:62-64 | a list whose k-th entry is the sum of the k-th group adds up to the sum over all groups |
| Day2.ShapeScore | day2/src/lib.rs:9-15 | a shape scores between 1 and 3 |
| Day2.OutcomeScore | day2/src/lib.rs:62-68 | an outcome scores 0, 3 or 6 |
| Day2.OutcomeVs | day2/src/lib.rs:17-31 | equal shapes draw, and only they; `Day2.OutcomeVsIsCyclicRule` and `Day2.OutcomeVsSwap` state the rest of the table |
| Day2.OutcomeVsIsCyclicRule | day2/src/lib.rs:17-31 | the outcome table is the cyclic rule: a win iff my shape is one above theirs mod 3, a loss iff one below, and a draw iff the shapes are equal |
| Day2.OutcomeVsSwap | day2/src/lib.rs:17-31 | a beats b iff b loses to a, and draws are symmetric |
| Day2.ScoreVs | day2/src/lib.rs:33-35 | a round scores between 1 and 9 |
| Day2.ToThrowForOutcome | day2/src/lib.rs:37-51 | the throw chosen for an outcome reaches that outcome against their shape |
| Day2.ToThrowForOutcomeUnique | day2/src/lib.rs:37-51 | it is the only shape that does |
| Day2.ParseLineP1 | day2/src/lib.rs:74-92 | no contract of its own; characterised by `Day2.ParseLineP1RoundTrip` (a line reads back as the two shapes it was written from) and `Day2.ParseLineRejectsBadLetter` (a first letter other than A, B or C is the panic) |
| Day2.ParseLineP1RoundTrip | day2/src/lib.rs:74-92 | a part-1 line "A Y" style reads back as the two shapes it was written from |
| Day2.ParseLineP2 | day2/src/lib.rs:122-141 | no contract of its own; characterised by `Day2.ParseLineP2RoundTrip` (a line reads back as their shape and the outcome) and `Day2.ParseLineRejectsBadLetter` |
| Day2.ParseLineP2RoundTrip | day2/src/lib.rs:122-141 | a part-2 line reads back as their shape and the outcome it was written from |
| Day2.ParseLineRejectsBadLetter | day2/src/lib.rs:79-133 | a first letter other than A, B or C is the panic (`None`) in both parsers |
| Day2.ScoreLine | day2/src/lib.rs:152-155 | the part-2 score of a line is the part-1 score of the throw that reaches the outcome |
| Day2.ScoreLineExamples | day2/src/lib.rs:157-165 | the three example rounds score 4, 1 and 7 |
| Day2.TotalP1Bounds | day2/src/lib.rs:102-107 | the total of n rounds lies between n and 9n |
| Day2.SolveP1 | day2/src/lib.rs:102-107 | an answer exactly when every line parses, between 1 and 9 points per round |
| Day2.Chosen | day2/src/lib.rs:167-174 | a part-2 round becomes their shape and the throw that reaches its outcome, round by round |
| Day2.TotalP2IsP1 | day2/src/lib.rs:152-174 | the part-2 total is the part-1 total of the throws the outcomes call for |
| Day2.SolveP2 | day2/src/lib.rs:167-174 | an answer exactly when every line parses; it is the part-1 score of the chosen throws, between 1 and 9 points per round |
| Day2.ExampleTotals | day2/src/lib.rs:168-183 | the example rounds total 15 in part 1 and 12 in part 2 |
| Day3.Priority | day3/src/lib.rs:3-9 | lower-case letters score 1..26 and upper-case letters 27..52; a character below 'A' underflows the subtraction (`None`); lower case is ASCII only (Left out, Day3.Priority) |
| Day3.PriorityInjective | day3/src/lib.rs:3-9 | different letters have different priorities |
| Day3.PriorityOnto | day3/src/lib.rs:3-9 | every priority 1..52 belongs to some letter |
| Day3.CharSet | day3/src/lib.rs:35-36 | a character is in the collected set iff it occurs in the string |
| Day3.Least | day3/src/lib.rs:41 | the first element a `BTreeSet` yields is in the set and no greater than any other element |
| Day3.Compartments | day3/src/lib.rs:31-38 | defined iff the length is even (the length assertion); the two sets are the characters of the front and back halves |
| Day3.DupeItem | day3/src/lib.rs:40-42 | defined iff the compartments share a character; then it is the least shared character |
| Day3.DupeItemExample | day3/src/lib.rs:43-52 | {a,b,c} and {c,d,e} share 'c' |
| Day3.SumP1 | day3/src/lib.rs:54-63 | the total is defined iff every line scores |
| Day3.SumP1Bound | day3/src/lib.rs:54-63 | rucksacks of letters total at most 52 per line |
| Day3.SolveP1 | day3/src/lib.rs:54-63 | an answer exactly when every trimmed line scores |
| Day3.Flatten | day3/src/lib.rs:85-96 | a list of groups holds three rucksacks per group |
| Day3.Groups | day3/src/lib.rs:85-96 | succeeds iff the number of rucksacks is a multiple of three (otherwise the `unwrap` panic); the groups, flattened, are the rucksacks in order |
| Day3.FlattenIndex | day3/src/lib.rs:88-93 | group j holds rucksacks 3j, 3j+1 and 3j+2 |
| Day3.BadgeForGroup | day3/src/lib.rs:98-107 | defined iff the three rucksacks share a character; then it is the least such character |
| Day3.SumP2 | day3/src/lib.rs:109-116 | the total is defined iff every group has a badge with a priority |
| Day3.SolveP2 | day3/src/lib.rs:109-116 | a line count that is not a multiple of three fails; otherwise the result, present or not, is the badge total of the grouping of the rucksacks in order |
| Day3.FlattenInjective | day3/src/lib.rs:85-96 | two groupings of the same rucksacks are the same, so the grouping `Day3.SolveP2` sums is unique |
| Day3.KnapsackSets | day3/src/lib.rs:81-83 | one character set per line, in order |
| Day4.ParseAssignment | day4/src/lib.rs:10-16 | an assignment parses only from exactly two '-'-separated parts |
| Day4.ParsePair | day4/src/lib.rs:27-32 | a pair parses only from at least two ','-separated parts |
| Day4.ParseAssignmentRoundTrip | day4/src/lib.rs:10-16 | printing `begin-end` and parsing it back gives the assignment |
| Day4.ParsePairRoundTrip | day4/src/lib.rs:27-32 | printing `a-b,c-d` and parsing it back gives the pair |
| Day4.ParseAssignmentRejectsThirdPart | day4/src/lib.rs:14 | a third '-' part fails the assertion (`None`) |
| Day4.IsCompletelyRedundant | day4/src/lib.rs:36-41 | for non-empty ranges: one range starts no later and ends no earlier than the other |
| Day4.IsPartlyRedundant | day4/src/lib.rs:43-48 | for non-empty ranges: each range starts no later than the other ends |
| Day4.CoversIffEnds | day4/src/lib.rs:37-40 | a non-empty range lies inside another iff both its ends do |
| Day4.CompletelyRedundantMeansCovers | day4/src/lib.rs:36-41 | for non-empty ranges, `is_completely_redundant` holds iff one range contains every section of the other |
| Day4.PartlyRedundantMeansOverlaps | day4/src/lib.rs:43-48 | for non-empty ranges, `is_partly_redundant` holds iff some section is in both ranges |
| Day4.RedundancySymmetric | day4/src/lib.rs:36-48 | both predicates ignore the order of the pair, and complete redundancy implies partial redundancy |
| Day4.CountCompletely | day4/src/lib.rs:54-58 | part 1 counts at most one per pair |
| Day4.CountPartly | day4/src/lib.rs:75-79 | part 2 counts at most one per pair |
| Day4.CountCompletelyAtMostPartly | day4/src/lib.rs:54-79 | part 1's count never exceeds part 2's |
| Day4.SolveP1 | day4/src/lib.rs:54-58 | an answer exactly when every line parses, at most one per pair |
| Day4.SolveP2 | day4/src/lib.rs:75-79 | an answer exactly when every line parses, at most one per pair and never less than part 1 |
| Day4.ExampleCounts | day4/src/lib.rs:60-90 | the six example pairs count 2 and 4 |
| Day5.Moved | day5/src/lib.rs:54-65 | a move leaves as many stacks as before |
| Day5.MovedKeepsCrates | day5/src/lib.rs:54-65 | a move changes no stack but `src` and `dst`; `src` loses `count` crates, `dst` gains `count`, and the total number of crates is kept |
| Day5.MovedOne | day5/src/lib.rs:54-65 | moving a single crate is the same with either crane |
| Day5.MovedStep | day5/src/lib.rs:55-58 | moving one more crate one at a time is one more pop from `src` and push onto `dst` |
| Day5.CanMove | day5/src/lib.rs:61-65 | what `execute9001` demands never admits an instruction `execute` rejects |
| Day5.PopPushSame | day5/src/lib.rs:55-58 | popping a crate from a stack and pushing it back onto the same stack leaves the stacks as they were |
| Day5.Executed | day5/src/lib.rs:54-59 | a move by `execute` that does not panic keeps the number of stacks and of crates; a move of no crates, or onto the same stack, changes nothing |
| Day5.ExecutedStep | day5/src/lib.rs:55-58 | when `execute` can move one more crate, it can move the fewer, and the extra crate is one more pop from `src` and push onto `dst` |
| Day5.Stacks.Execute | day5/src/lib.rs:54-59 | it panics exactly where `execute` does (an index out of range, or a `pop` from an empty stack on one of `count` iterations); the new stacks are the old ones with `count` crates popped from `src` and pushed onto `dst` one at a time |
| Day5.Stacks.Execute9001 | day5/src/lib.rs:61-65 | given `count` crates on `src` (otherwise the length subtraction underflows), the top `count` crates move onto `dst` as one block, in order |
| Day5.Stacks.Message | day5/src/lib.rs:67-73 | the message is the top crate of every stack, in order |
| Day5.Tops | day5/src/lib.rs:67-73 | one character per stack, each that stack's top crate |
| Day5.ParseCells | day5/src/lib.rs:20-36 | a row parses into exactly one cell per stack, and every crate in it is an ASCII letter (see Left out, Day5.ParseCells) |
| Day5.ParseCellsRoundTrip | day5/src/lib.rs:20-36 | drawing a row of cells (blanks or `[X]`, separated by spaces) and reading it back gives the row |
| Day5.ParseRows | day5/src/lib.rs:19-37 | one parsed row per diagram line, each with one cell per stack |
| Day5.PushRow | day5/src/lib.rs:21-36 | pushing a row adds its crate, if any, on top of each stack and changes nothing else |
| Day5.ParseStacks | day5/src/lib.rs:11-39 | `Stacks::from_str` yields exactly the stacks the diagram describes: their number from the labels on the last line, each stack its column read bottom-up |
| Day5.ParseBody | day5/src/lib.rs:19-37 | reading the rows from the bottom and pushing each crate gives the columns of the diagram, or fails iff some row fails |
| Day5.ParseInstruction | day5/src/lib.rs:85-94 | no contract of its own; characterised by `Day5.ParseInstructionRoundTrip` (`move N from S to D` reads back as the instruction) and `Day5.ParseInput` (a bad instruction line is a panic) |
| Day5.ParseInstructionRoundTrip | day5/src/lib.rs:85-94 | the text `move N from S to D` parses back to the instruction |
| Day5.ParseInput | day5/src/lib.rs:97-106 | the input splits into exactly the diagram and the instructions around one blank line; a missing or third part, or a bad diagram or instruction, is a panic (`None`) |
| Day5.Run | day5/src/lib.rs:113-140 | running instructions, with each crane's own panics, keeps the total number of crates |
| Day5.RunLength | day5/src/lib.rs:113-140 | running instructions keeps the number of stacks |
| Day5.Answer | day5/src/lib.rs:111-142 | no answer for an unparsable input; an answer has one character per stack of the drawing |
| Day5.RunAll | day5/src/lib.rs:111-142 | running the parsed instructions on a `Stacks` with the chosen crane and reading the message gives the specified answer; an instruction that crane panics on, or an empty final stack, is a panic (`None`) |
| Day5.SolveP1 | day5/src/lib.rs:111-117 | the message after running every instruction with `execute`, which panics only where the source's one-crate-at-a-time loop does |
| Day5.SolveP2 | day5/src/lib.rs:136-142 | the message after running every instruction with `execute9001` |
| Day5.ExampleRow1 | day5/src/lib.rs:41-51 | the example's top row reads as an empty stack, D, and an empty stack |
| Day5.ExampleRow2 | day5/src/lib.rs:41-51 | the middle row reads as N, C and an empty stack |
| Day5.ExampleRow3 | day5/src/lib.rs:41-51 | the bottom row reads as Z, M and P, so the stacks are [Z,N], [M,C,D], [P] |
| Day5.ExampleRunP1 | day5/src/lib.rs:118-130 | the example ends as [C], [M], [P,D,N,Z] with `execute`, and the message is "CMZ" |
| Day5.ExampleRunP2 | day5/src/lib.rs:143-155 | the example ends as [M], [C], [P,Z,N,D] with `execute9001`, and the message is "MCD" |
| Day5.CranesDiffer | day5/src/lib.rs:54-65 | two crates moved from a one-crate stack onto itself, or no crate moved between missing stacks, are carried out by `execute` and panic in `execute9001` |
| Day6.WindowSize | day6/src/lib.rs:6-9 | the set of the (up to) four characters at a position has four elements exactly when there are four characters there and they are pairwise different, both directions |
| Day6.SmallWindow | day6/src/lib.rs:6-9 | a window cut short by the end of the stream has fewer distinct characters than positions, so it never counts as a marker |
| Day6.MarkerEndUnique | day6/src/lib.rs:4-15 | at most one position is the end of the first marker, so the answer is determined by the stream |
| Day6.Solve | day6/src/lib.rs:4-15 | when the stream holds some run of four distinct characters, the result is four past the start of the first such run: that run is distinct and no earlier start is |
| Day6.Example1 | day6/src/lib.rs:17-21 | the first example stream has its first marker end at 5 |
| Day6.Example2 | day6/src/lib.rs:17-21 | the second example stream has its first marker end at 6 |
| Day6.Example3 | day6/src/lib.rs:17-21 | the third example stream has its first marker end at 10 |
| Day6.Example4 | day6/src/lib.rs:17-21 | the fourth example stream has its first marker end at 11 |
| Day7.ParseCommand | day7/src/lib.rs:50-72 | only a line whose first token is `$` can be a command |
| Day7.ParseDirStat | day7/src/lib.rs:121-134 | a successful parse is always a directory entry |
| Day7.ParseFileStat | day7/src/lib.rs:151-162 | a successful parse is always a file entry |
| Day7.ParseOutput | day7/src/lib.rs:89-99 | no contract of its own; characterised by `Day7.ParseDirStat` and `Day7.ParseFileStat` (each success is an entry of its kind), `Day7.ParseLine` and `Day7.ParseLineRoundTrip` |
| Day7.ParseLine | day7/src/lib.rs:9-18 | a line parses exactly when it parses as a command or as an output entry |
| Day7.ParseCdRoundTrip | day7/src/lib.rs:50-64 | `$ cd NAME` reads back as a change into NAME for every space-free name |
| Day7.ParseLsRoundTrip | day7/src/lib.rs:65-70 | `$ ls` reads back as the listing command |
| Day7.ParseDirStatRoundTrip | day7/src/lib.rs:121-134 | `dir NAME` reads back as a directory entry named NAME |
| Day7.ParseFileStatRoundTrip | day7/src/lib.rs:151-162 | the decimal size, a space and a name read back as a file entry with that size and name |
| Day7.ParseLineRoundTrip | day7/src/lib.rs:9-18 | every well-formed log line printed as terminal text parses back to itself |
| Day7.ParseLineRejectsExtraToken | day7/src/lib.rs:65-70 | `$ ls` followed by another token is not a valid line |
| Day7.ParseFileLineExample | day7/src/lib.rs:21-42 | the first line of the parse test is a file of size 232179 |
| Day7.ParseDirLineExample | day7/src/lib.rs:21-42 | the second line of the parse test is directory `bshmsns` |
| Day7.ParseCdLineExample | day7/src/lib.rs:21-42 | the third line of the parse test changes to the root |
| Day7.ParseLog | day7/src/lib.rs:182 | the log parses exactly when every line does (otherwise the `unwrap` panics), with one entry per line, each that line's parse |
| Day7.ChangeDir | day7/src/lib.rs:194-202 | `/` goes to the root, `..` to the parent (staying at the root), any other name one level deeper |
| Day7.AddToAncestors | day7/src/lib.rs:213-217 | adding a file size keeps every recorded path and records the working directory and the root; `Day7.AddToAncestorsMeaning` states the sizes |
| Day7.Run | day7/src/lib.rs:188-222 | replaying a log never forgets a recorded directory; `Day7.RunSizes` states the sizes it ends with |
| Day7.AddToAncestorsMeaning | day7/src/lib.rs:213-218 | after a file entry each path gains the file size once per ancestor-or-self of the working directory that joins to it, and every other path is unchanged |
| Day7.PrefixCountAtMostOne | day7/src/lib.rs:214-216 | with non-empty directory names, the working directory and its ancestors have distinct paths, so a file is added at most once to each path |
| Day7.PrefixCountNone | day7/src/lib.rs:214-216 | no proper ancestor of the working directory joins to the working directory's own path |
| Day7.RunSizes | day7/src/lib.rs:188-222 | after replaying a whole log each path holds the sizes of all files listed in it or below it, each counted per matching ancestor of its listing directory |
| Day7.SumSmallAny | day7/src/lib.rs:223 | the sum of the directory totals of at most 100000 does not depend on the order the map is visited in |
| Day7.SumSmallSizes | day7/src/lib.rs:223 | the loop returns the sum of all recorded totals that are at most 100000 |
| Day7.Solve | day7/src/lib.rs:181-224 | an unparsable line gives no answer; otherwise the answer is the small-directory sum of the sizes obtained by replaying the log from the root |
| Day7.AddFile | day7/src/lib.rs:214-217 | the inner loop adds the file size to the working directory and each of its ancestors, as specified by the ancestor-addition function |
| Grids.AreaIsProduct | day8/src/lib.rs:43-45 | the cell count used for the flat vector is width times height |
| Grids.IdxBound | day8/src/lib.rs:17-21 | the row-major index of an in-range cell lies inside the flat vector |
| Grids.IdxInjective | day8/src/lib.rs:17-21 | two in-range cells with the same row-major index are the same cell |
| Grids.RowColIdx | day8/src/lib.rs:17-21 | every flat index is the row-major index of an in-range cell |
| Grids.IdxRowCol | day8/src/lib.rs:17-21 | the column and row recovered from a cell's index are the cell's own |
| Day8.HeightAtRowMajor | day8/src/lib.rs:23-33 | the height at the column and row of flat index i is the i-th stored value |
| Day8.ParseRow | day8/src/lib.rs:146-150 | a row parses exactly when it is all decimal digits, and then gives one height per character, its digit value |
| Day8.ParseRows | day8/src/lib.rs:144-151 | on success there is one parsed row per input line, each the parse of that line with surrounding whitespace trimmed |
| Day8.MaxLength | day8/src/lib.rs:147 | the width is at least every row's length and equals some row's length |
| Day8.ParseTrees | day8/src/lib.rs:139-157 | the parsed grid has one row per line and a width no smaller than any trimmed line |
| Day8.ConcatLength | day8/src/lib.rs:144-151 | rows of equal width w, pushed one after another, give exactly rows times w heights |
| Day8.ParseTreesValid | day8/src/lib.rs:139-157 | when every line parses and all have the same length, the parsed grid is a well-formed rectangle |
| Day8.HeightAtExample | day8/src/lib.rs:168-185 | the 2×2 grid `12`/`34` has heights 1, 2, 3, 4 at (0,0), (1,0), (0,1), (1,1) |
| Day8.EdgeVisible | day8/src/lib.rs:43-95 | every tree on the border of the grid is visible |
| Day8.Cell | day8/src/lib.rs:58-88 | the k-th cell of scan line n from any edge is inside the grid |
| Day8.CellPos | day8/src/lib.rs:58-88 | every cell of the grid is met by exactly the scan line and position that name it |
| Day8.CellLinePos | day8/src/lib.rs:58-88 | the k-th cell of line n is recognised as lying on line n at position k |
| Day8.LineCells | day8/src/lib.rs:58-88 | a scan line visits as many cells as the line is long, in order |
| Day8.Tallest | day8/src/lib.rs:47-56 | the running `tallest` is empty before the first tree and afterwards the maximum height met so far on the line |
| Day8.BlockedMeansHidden | day8/src/lib.rs:49-52 | a tree behind an earlier tree at least as tall is not visible from that edge |
| Day8.TallerMeansVisible | day8/src/lib.rs:54-55 | a tree taller than all earlier trees on its line is visible from that edge |
| Day8.TallestMeansVisible | day8/src/lib.rs:47-56 | the check marks a tree exactly when it is visible from the edge the scan starts at, both directions |
| Day8.CheckStep | day8/src/lib.rs:47-56 | the check closure keeps the mark vector's length |
| Day8.ScanStep | day8/src/lib.rs:47-56 | one check extends the running maximum by one tree and marks exactly the scanned trees visible from the edge |
| Day8.ScanStepAt | day8/src/lib.rs:47-56 | after one check, each cell's mark is its old mark or, for a scanned cell, its visibility from the edge |
| Day8.ScanStepHere | day8/src/lib.rs:47-56 | the checked cell ends up marked exactly when it was marked before or is visible from the edge |
| Day8.ScanStepElsewhere | day8/src/lib.rs:47-56 | cells other than the checked one keep their marks |
| Day8.Check | day8/src/lib.rs:47-56 | the closure on the shared vector computes the new running maximum and marks the tree exactly as the check step says |
| Day8.ScanLine | day8/src/lib.rs:59-64 | one line's scan adds a mark to exactly the trees of that line visible from its edge and changes no other mark |
| Day8.ScanCell | day8/src/lib.rs:61-63 | each step of the inner loop extends the scanned prefix by one tree and keeps the running maximum |
| Day8.ScanAll | day8/src/lib.rs:58-88 | one of the four double loops adds marks for exactly the trees visible from its edge |
| Day8.Visibilities | day8/src/lib.rs:43-95 | after the four sweeps a tree is marked exactly when it is visible from some edge |
| Day8.VisibleSeq | day8/src/lib.rs:90-94 | the reference visibility vector has one entry per tree |
| Day8.CountTrue | day8/src/lib.rs:163-165 | the count of visible trees is at most the number of trees |
| Day8.CountTrueCardinality | day8/src/lib.rs:163-165 | the count equals the number of true positions |
| Day8.CountTrueAllBut | day8/src/lib.rs:163-165 | a vector true everywhere except possibly one position counts all positions, less one when that one is false |
| Day8.VisibilityExampleEdges | day8/src/lib.rs:187-211 | in the all-equal 2×2 grid all four trees are visible |
| Day8.VisibilityExampleHidden | day8/src/lib.rs:213-217 | in the 3×3 grid with a low centre, 8 trees are visible |
| Day8.VisibilityExampleTall | day8/src/lib.rs:219-223 | in the 3×3 grid with a tall centre, all 9 trees are visible |
| Day8.SolveP1 | day8/src/lib.rs:237-241 | an answer exactly when the grid parses as a rectangle, and then it is the number of trees visible from some edge |
| Day8.MarksAreVisibleSeq | day8/src/lib.rs:90-94 | marks agreeing with visibility at every tree are the reference visibility vector |
| Day8.Ray | day8/src/lib.rs:97-133 | the trees seen looking from a tree towards an edge, nearest first, with their heights |
| Day8.RayCell | day8/src/lib.rs:97-133 | every cell on a line of sight is inside the grid |
| Day8.ViewDistance | day8/src/lib.rs:100-106 | the viewing distance counts the trees up to and including the first at least as tall, or all of them; it is 0 only for an empty view |
| Day8.ViewDistanceSkip | day8/src/lib.rs:100-106 | lower trees at the start of a view each add one to the distance |
| Day8.VisibleIffClearView | day8/src/lib.rs:43-133 | a tree is visible from an edge exactly when every tree towards it is lower, and then it sees all the way to the edge |
| Day8.Mul | day8/src/lib.rs:132 | a product of viewing distances is zero exactly when one factor is |
| Day8.ScenicScoreZero | day8/src/lib.rs:97-133 | a tree's scenic score is zero exactly when it stands on the border |
| Day8.ScenicScoreExample | day8/src/lib.rs:258-266 | in the example grid the tree at column 2, row 3 scores 8 |
| Day8.CountView | day8/src/lib.rs:100-130 | each of the four counting loops returns the viewing distance in its direction |
| Day8.ScenicScoreAt | day8/src/lib.rs:97-133 | `scenic_score_at` returns the product of the four viewing distances |
| Day8.MaxScenicScore | day8/src/lib.rs:251-255 | there is a maximum exactly when the grid has trees, and it is a score some tree reaches that no tree exceeds |
| Day8.SolveP2 | day8/src/lib.rs:249-256 | an answer exactly when the grid parses as a rectangle with at least one tree (the empty maximum panics), and then it is the best scenic score of the grid, reached by some tree |
| Day9.ParseDir | day9/src/lib.rs:11-24 | exactly `U`, `D`, `L` and `R` are directions (anything else is the panic), and each reads back as the direction of that letter |
| Day9.ParseInstruction | day9/src/lib.rs:32-42 | no contract of its own; characterised by `Day9.ParseInstructionRoundTrip` (a direction letter, a space and a count read back as the instruction) and `Day9.ParseInstructionNeedsSpace` (no space is the panic) |
| Day9.ParseInstructionRoundTrip | day9/src/lib.rs:32-42 | a direction letter, a space and a decimal count read back as that instruction |
| Day9.ParseInstructionNeedsSpace | day9/src/lib.rs:36 | a line without a space is not an instruction (the `unwrap` of a failed `split_once`) |
| Day9.ParseInstructions | day9/src/lib.rs:87-89 | on success there is one instruction per line, each the parse of the trimmed line |
| Day9.HeadPos | day9/src/lib.rs:44-51 | the head moves exactly one step, in the direction named |
| Day9.HeadPosExamples | day9/src/lib.rs:52-58 | the four moves from the origin of `test_head_pos` |
| Day9.TailPos | day9/src/lib.rs:60-71 | for a head at most two away, the new tail touches the head and the old tail, stays put exactly when it already touched, and never gets farther from the head on either axis |
| Day9.TailPosExamples | day9/src/lib.rs:72-80 | the six cases of `test_tail_pos` |
| Day9.TouchingSymmetric | day9/src/lib.rs:66 | touching is symmetric |
| Day9.TouchingTwice | day9/src/lib.rs:64-65 | a knot two touching steps away is within two on both axes, so the assertions of `tail_pos` hold along a rope |
| Day9.FollowFrom | day9/src/lib.rs:132-134 | following from knot i onwards leaves the knots before i alone and keeps the rope length |
| Day9.FollowFromAt | day9/src/lib.rs:132-134 | every following knot from i on is within two of its moved predecessor, moves by `tail_pos`, and ends up touching its old place |
| Day9.FollowFromBehind | day9/src/lib.rs:132-134 | the same for knots strictly behind i |
| Day9.FollowFromHere | day9/src/lib.rs:132-134 | knot i itself follows its predecessor by `tail_pos` and the predecessor does not move |
| Day9.FollowFromChain | day9/src/lib.rs:132-134 | following keeps every pair of neighbouring knots touching |
| Day9.Step | day9/src/lib.rs:130-134 | one head move keeps the rope length and keeps neighbouring knots touching |
| Day9.StepSpec | day9/src/lib.rs:130-134 | one step moves the head by `head_pos`, every other knot by `tail_pos` after its predecessor, and each knot stays touching its old place |
| Day9.StepPair | day9/src/lib.rs:96-97 | the two-knot rope of part 1 is the head move followed by the tail move |
| Day9.Start | day9/src/lib.rs:90-91 | all knots start at the origin, which is a valid rope |
| Day9.Repeat | day9/src/lib.rs:95 | `for _ in 0..count` makes count moves in one direction, none when the count is not positive |
| Day9.Visited | day9/src/lib.rs:92-93 | the recorded positions always include the tail's starting place |
| Day9.VisitedBound | day9/src/lib.rs:92-101 | the number of tail positions is at least 1 and at most the number of moves plus one |
| Day9.VisitedNearStart | day9/src/lib.rs:92-101 | every visited tail position is within the number of moves of the start on each axis |
| Day9.VisitedCons | day9/src/lib.rs:94-100 | the tail positions of a walk are the current tail plus those of the walk after the first move |
| Day9.RecordStep | day9/src/lib.rs:130-136 | recording the tail after one step keeps the set of positions still to be seen the same |
| Day9.PairStep | day9/src/lib.rs:95-99 | the same for the two-knot rope of part 1 |
| Day9.ExpandCons | day9/src/lib.rs:94-100 | the moves of an instruction list are the first instruction's moves followed by the rest's |
| Day9.SolveP1 | day9/src/lib.rs:86-102 | an unparsable line gives no answer; otherwise the answer is the number of distinct positions of the tail of a two-knot rope |
| Day9.Walk2 | day9/src/lib.rs:90-101 | the loops of part 1 count exactly the distinct positions of the two-knot rope's tail |
| Day9.Repeat2 | day9/src/lib.rs:95-99 | repeating one instruction keeps the rope touching and adds exactly the tail positions of its moves |
| Day9.MoveRope | day9/src/lib.rs:131-134 | moving the array of knots in place computes exactly one step of the rope |
| Day9.RepeatRope | day9/src/lib.rs:130-136 | repeating one instruction on the knot array keeps it a valid rope and adds exactly the tail positions of its moves |
| Day9.SolveP2 | day9/src/lib.rs:122-139 | an unparsable line gives no answer; otherwise the answer is the number of distinct positions of the tail of a ten-knot rope |
| Day9.Walk10 | day9/src/lib.rs:126-138 | the loops of part 2 count exactly the distinct positions of the ten-knot rope's tail |
| Day10.ParseInstruction | day10/src/lib.rs:9-24 | no contract of its own; characterised by `Day10.ParseInstructionCases` (which first words give which instruction) and `Day10.ParseInstructionRoundTrip` |
| Day10.ParseInstructionCases | day10/src/lib.rs:9-24 | a line is `noop` exactly when its first word is `noop`, and an add exactly when its first word is `addx` followed by an integer, which becomes the operand; every other line is the panic |
| Day10.ParseInstructionRoundTrip | day10/src/lib.rs:9-24 | every instruction printed as `noop` or `addx N` parses back to itself |
| Day10.Execute | day10/src/lib.rs:32-43 | `noop` takes one cycle and leaves `x`; `addx` takes two cycles and adds its operand to `x` |
| Day10.Run | day10/src/lib.rs:32-43 | after a program `x` has grown by the sum of its `addx` operands |
| Day10.RunCycles | day10/src/lib.rs:32-43 | a program of n instructions takes between n and 2n cycles |
| Day10.Parsed | day10/src/lib.rs:49-51 | each line is parsed after trimming, one result per line |
| Day10.SignalCons | day10/src/lib.rs:58-69 | one loop iteration: a bad line panics; an instruction ending before the next checkpoint just advances; one reaching it adds the checkpoint times the current `x` and pops it, stopping after the last |
| Day10.SolveP1 | day10/src/lib.rs:48-71 | the answer is what the loop computes from `x = 1`, cycle 0 and the six checkpoints, over the trimmed lines |
| Day10.SumSignals | day10/src/lib.rs:52-70 | the loop with its pending stack returns exactly that value |
| Day10.StrengthShift | day10/src/lib.rs:58-69 | checkpoints after the first instruction's end see the same `x` and sum from the state after it |
| Day10.StrengthNone | day10/src/lib.rs:58-70 | when the program has ended before every checkpoint, nothing is added |
| Day10.SignalIsStrength | day10/src/lib.rs:48-71 | when every line parses and the checkpoints are ascending and two apart, the loop's sum is the puzzle's signal strength: each reached checkpoint times `x` during that cycle |
| Day10.PendingAhead | day10/src/lib.rs:52 | the checkpoints 20, 60, …, 220 are ascending from the back, two or more apart, and ahead of cycle 0 |
| Day10.SolveP1Strength | day10/src/lib.rs:48-71 | for a program whose every line parses, the answer is the sum of the signal strengths at the reached checkpoints |
| Day10.SmallProgram | day10/src/lib.rs:32-43 | `noop`, `addx 3`, `addx -5` keeps `x` at 1 through cycle 3, has 4 during cycles 4 and 5, and ends with -1 after 5 cycles |
| Day11.Operate | day11/src/lib.rs:119-127 | the checked `u64` operation succeeds exactly when the exact result fits in 64 bits, and then it is the exact result |
| Day11.ReductionKeepsRemainder | day11/src/lib.rs:134-136 | reducing modulo a multiple of a divisor keeps the remainder by that divisor |
| Day11.ExactOfRemainder | day11/src/lib.rs:134-136 | adding, multiplying or squaring commutes with reduction modulo the product |
| Day11.ExactCongruent | day11/src/lib.rs:134-136 | congruent levels stay congruent after the operation |
| Day11.NewWorry | day11/src/lib.rs:144-148 | as written, the new level is always reduced below the divisor product, with or without the division by 3 |
| Day11.NewWorryCorrected | day11/src/lib.rs:144-148 | without division it is the step as written; with division it is the exact level divided by 3, failing only on overflow or a zero product |
| Day11.Dest | day11/src/lib.rs:149-153 | a monkey throws to its true or false target, and a zero divisor is the panic |
| Day11.CorrectedTracksReference | day11/src/lib.rs:134-153 | with a product that every divisor divides, the corrected step keeps the stored level equal (dividing) or congruent (not dividing) to the puzzle's exact level, so every item goes where the puzzle sends it |
| Day11.AsWrittenDiverges | day11/src/lib.rs:144-149 | with division by 3 and divisors 2, 3, 5, a level of 90 is stored as 0 and is later thrown to monkey 2 where the puzzle's level 10 goes to monkey 0 |
| Day11.WrittenTurns | day11/src/lib.rs:141-156 | played as written, monkey 0's turn stores the level-90 item as 0 with monkey 1, and monkey 1's turn then sends both of its items, at level 0, to monkey 2 |
| Day11.ExactTurns | day11/src/lib.rs:141-156 | played with exact levels (the puzzle's rule or the corrected step), the level-90 item reaches monkey 1 as 30 and goes on to monkey 0 as 10, while monkey 1's own item goes to monkey 2 |
| Day11.TurnsDiverge | day11/src/lib.rs:141-156 | on three monkeys that each hold at least one item (levels 90, 1 and 1), the first two turns played as written leave the level-90 item with monkey 2; played by the puzzle's rule, or with the corrected step, they leave it with monkey 0 |
| Day11.InspectAsWritten | day11/src/lib.rs:144-148 | the mode the program plays inspects each item by the step as written |
| Day11.Throw | day11/src/lib.rs:143-156 | throwing keeps the number of monkeys and leaves the thrower's own list untouched |
| Day11.TurnSpec | day11/src/lib.rs:141-156 | after its turn a monkey holds no items |
| Day11.TotalUpdate | day11/src/lib.rs:143-155 | replacing one monkey's list changes the item total by the change in that list's length |
| Day11.ThrowTotal | day11/src/lib.rs:143-156 | throwing adds exactly the thrown items to the other monkeys' lists, in total |
| Day11.ThrowAppends | day11/src/lib.rs:143-156 | every other monkey's list grows by exactly the items sent to it, in order, at its end |
| Day11.TurnTotal | day11/src/lib.rs:141-156 | a turn neither creates nor loses items |
| Day11.RoundFrom | day11/src/lib.rs:140-157 | the rest of a round keeps the number of lists and counts |
| Day11.Rounds | day11/src/lib.rs:139-158 | playing rounds keeps the number of lists and counts |
| Day11.RoundFromKeeps | day11/src/lib.rs:140-157 | a round keeps the item total and never lowers an inspection count |
| Day11.RoundsKeep | day11/src/lib.rs:139-158 | any number of rounds keeps the item total and never lowers an inspection count |
| Day11.TrackPush | day11/src/lib.rs:155 | pushing a tracking level onto the same list of both states keeps them tracking |
| Day11.ThrowTracks | day11/src/lib.rs:143-156 | when the stored lists track the exact ones, throwing succeeds on the exact ones too and they still track |
| Day11.TurnTracks | day11/src/lib.rs:141-156 | the same for a whole turn |
| Day11.RoundFromTracks | day11/src/lib.rs:140-157 | the same for the rest of a round, with identical inspection counts |
| Day11.RoundsTrack | day11/src/lib.rs:139-158 | the same for all rounds: the stored and the exact game count the same inspections |
| Day11.CheckedProductIsProd | day11/src/lib.rs:136 | the checked product of the divisors, when it does not overflow, is their product |
| Day11.ProdPositive | day11/src/lib.rs:136 | the product of positive divisors is positive |
| Day11.ProdDivisible | day11/src/lib.rs:134-136 | every divisor divides the divisor product |
| Day11.Divisors | day11/src/lib.rs:136 | the divisors in monkey order |
| Day11.ArgMax | day11/src/lib.rs:159-161 | the position of a largest count |
| Day11.Remove | day11/src/lib.rs:159-161 | removing one count keeps the others in order |
| Day11.MaxOther | day11/src/lib.rs:159-161 | the largest count apart from one position, reached by some other position unless it is 0 |
| Day11.SecondIsLargestOther | day11/src/lib.rs:159-161 | the second count after sorting descending is the largest count other than the largest one's position, and some other monkey has it |
| Day11.PairBound | day11/src/lib.rs:159-161 | the product of any two different monkeys' counts is at most the monkey business |
| Day11.TopProductIsLargest | day11/src/lib.rs:159-161 | the monkey business is the largest product of two different monkeys' counts, and some pair reaches it |
| Day11.Zeros | day11/src/lib.rs:137 | all counts start at zero |
| Day11.Initial | day11/src/lib.rs:130-133 | every monkey starts with its starting items |
| Day11.Business | day11/src/lib.rs:129-162 | as written or with the corrected step, an answer exists only for at least one round and at least two monkeys, and then fits in 64 bits |
| Day11.BusinessIsPuzzle | day11/src/lib.rs:129-162 | whenever the answer with the corrected step exists it is the product of the two largest counts of the exact, never-reduced game |
| Day11.WrittenWithoutDivisionIsPuzzle | day11/src/lib.rs:129-162 | without division by 3 the program as written gives, whenever it gives an answer, the product of the two largest counts of the exact game |
| Day11.Turn | day11/src/lib.rs:141-156 | the in-place turn on the array of lists, with each level computed as lines 144-148 write it, succeeds exactly when the specified turn does and leaves exactly its lists |
| Day11.Round | day11/src/lib.rs:140-157 | the in-place round, played as written, succeeds exactly when the specified round does and leaves its lists and counts |
| Day11.MonkeyBusiness | day11/src/lib.rs:129-162 | `monkey_business` returns exactly the specified answer as written, reducing after the division by 3 |
| Day11.ParseU64 | day11/src/lib.rs:30 | a `u64` token is a decimal number of at most 64 bits |
| Day11.ParseNumbers | day11/src/lib.rs:28-31 | the items parse when every token does, one level per token; otherwise some token fails |
| Day11.TaggedRoundTrip | day11/src/lib.rs:27 | a line made of a label and a value with no trailing space gives the value back after the label |
| Day11.Assemble | day11/src/lib.rs:82-88 | a monkey exists exactly when all five of its fields parsed |
| Day11.ParseBlocks | day11/src/lib.rs:130-133 | on success there is one monkey per block, each the parse of its block |
| Day11.ParseNumbersRender | day11/src/lib.rs:28-31 | decimal levels of at most 64 bits parse back to themselves |
| Day11.ParseFieldRoundTrip | day11/src/lib.rs:58-80 | a field line of label and number parses back to the number |
| Day11.ParseJoinedNumbers | day11/src/lib.rs:24-33 | levels joined by ", " split and parse back to themselves |
| Day11.ParseItemsRoundTrip | day11/src/lib.rs:24-33 | a "Starting items" line parses back to its levels |
| Day11.ParseOperatorRoundTrip | day11/src/lib.rs:38-55 | `+ n`, `* n` and `* old` parse back to add, multiply and square |
| Day11.ParseOperationRoundTrip | day11/src/lib.rs:35-56 | an "Operation" line parses back to its operation |
| Day11.MonkeyLinesAvoidNewline | day11/src/lib.rs:21 | none of a monkey's six printed lines contains a line break |
| Day11.ParseMonkeyFields | day11/src/lib.rs:20-89 | six lines whose fields parse give the monkey of those fields |
| Day11.HeaderLineRoundTrip | day11/src/lib.rs:22 | the header line starts with "Monkey " |
| Day11.ParseMonkeyLinesRoundTrip | day11/src/lib.rs:20-89 | the six printed lines of a monkey parse back to it |
| Day11.ParseMonkey | day11/src/lib.rs:20-89 | no contract of its own; characterised by `Day11.ParseMonkeyFields` (six lines whose fields parse give that monkey) and `Day11.ParseMonkeyRoundTrip` (a printed block parses back to the monkey) |
| Day11.ParseMonkeyRoundTrip | day11/src/lib.rs:20-89 | a printed monkey block parses back to the monkey |
| Day11.SolveP1 | day11/src/lib.rs:167-169 | an unparsable input gives no answer; otherwise the monkey business of 20 rounds with division by 3, played as written |
| Day11.SolveP2 | day11/src/lib.rs:206-208 | an unparsable input gives no answer; otherwise the monkey business of 10000 rounds without division, played as written (which is the corrected step there) |
| Day12.Neighbours | day12/src/lib.rs:38-58 | every candidate cell is inside the grid |
| Day12.NeighbourBounds | day12/src/lib.rs:44-58 | the right, up and down candidates, when the guards admit them, are inside the grid |
| Day12.NeighboursAreAdjacent | day12/src/lib.rs:38-58 | the candidates are exactly the in-grid cells one column or one row away, both directions |
| Day12.PathPrefix | day12/src/lib.rs:25-75 | dropping the last cell of a walk leaves a walk whose end steps to the dropped cell |
| Day12.FrontierBound | day12/src/lib.rs:33-72 | any walk to a cell not yet found is at least one step longer than the count at the front of the queue |
| Day12.InnerStart | day12/src/lib.rs:33-41 | popping a cell other than the end starts its expansion with the search invariant intact |
| Day12.DiscoverBand | day12/src/lib.rs:69-70 | queueing a newly found cell at distance d + 1 keeps the queue ordered in two bands |
| Day12.DiscoverClosed | day12/src/lib.rs:69-70 | recording a new cell keeps every expanded cell's neighbours found |
| Day12.DiscoverBounded | day12/src/lib.rs:69 | a newly recorded count is never more than the length of any walk to that cell |
| Day12.DiscoverWitnessed | day12/src/lib.rs:69 | every recorded count is the length of some real walk |
| Day12.Discover | day12/src/lib.rs:60-71 | recording an unfound, climbable candidate keeps the expansion invariant |
| Day12.DiscoverFrame | day12/src/lib.rs:60-71 | recording a candidate changes only that cell and queues it with count d + 1 |
| Day12.Skip | day12/src/lib.rs:61-68 | skipping a found or too-high candidate keeps the expansion invariant |
| Day12.InnerEnd | day12/src/lib.rs:60-72 | after all candidates the search invariant holds again |
| Day12.UnfoundUpdate | day12/src/lib.rs:69 | recording a cell shrinks the set of unfound cells, so the search terminates |
| Day12.Expand | day12/src/lib.rs:60-71 | the candidate loop on the step array reaches the end of the expansion and either shrinks the unfound set or leaves the queue alone |
| Day12.InvInit | day12/src/lib.rs:26-31 | only the start found, at 0, queued alone, satisfies the search invariant |
| Day12.InvFinished | day12/src/lib.rs:34-37 | when the end cell is popped, its count is the fewest steps from the start |
| Day12.InvExhausted | day12/src/lib.rs:72-74 | when the queue runs dry without the end, no walk reaches it |
| Day12.ShortestPathFrom | day12/src/lib.rs:25-75 | a result is the fewest steps from the start to `E` over allowed moves; no result means no walk reaches `E` |
| Day12.Kept | day12/src/lib.rs:93-95 | dropping line breaks and spaces never lengthens the text |
| Day12.LastIndex | day12/src/lib.rs:96-103 | the position of the last occurrence of a marker, if any |
| Day12.ScanSpec | day12/src/lib.rs:87-119 | parsing succeeds exactly when every character is a line break, a space, `S`, `E` or a lower-case letter; the heights are the cell letters' codes in order with `S` as `a` and `E` as `z`, and start and end are the last `S` and `E` |
| Day12.MarkersHeights | day12/src/lib.rs:96-103 | the `S` cell has height `a` and the `E` cell height `z` |
| Day12.ParseMap | day12/src/lib.rs:87-119 | the in-place character loop builds exactly the specified map |
| Day12.SolveP1 | day12/src/lib.rs:125-128 | an answer is the fewest steps from `S` to `E`; no answer means bad input, an unwalkable grid or no route |
| Day12.FewestFromLowest | day12/src/lib.rs:145-153 | an answer is the shortest route from some `a` cell and no `a` cell has a shorter one; no answer means no `a` cell reaches `E` |
| Day12.SolveP2 | day12/src/lib.rs:143-154 | an answer is the fewest steps to `E` from any `a` cell; no answer means bad input, an unwalkable grid or no `a` cell reaching `E` |
| Day13.DigitRun | day13/src/lib.rs:22-27 | the cut falls after the longest run of leading digits: everything before it is a digit and the character at it is not |
| Day13.DigitRunOf | day13/src/lib.rs:22-27 | digits followed by a non-digit are cut exactly after the digits |
| Day13.LeadingInt | day13/src/lib.rs:22-29 | a leading integer exists exactly when there is at least one digit and the value fits in `u32`; it is the value of the leading digits and the rest follows them |
| Day13.SuffixDrop | day13/src/lib.rs:31-52 | dropping a prefix leaves a suffix of the text |
| Day13.SuffixTrans | day13/src/lib.rs:31-52 | a suffix of a suffix is a suffix |
| Day13.ParseElems | day13/src/lib.rs:34-41 | parsing list elements consumes input and leaves a proper suffix |
| Day13.ParseItem | day13/src/lib.rs:44-52 | parsing an item consumes input and leaves a proper suffix |
| Day13.ParseList | day13/src/lib.rs:31-42 | the loop of `parse_list` returns what the element parser specifies after the `[`, and fails without one |
| Day13.ParsePacket | day13/src/lib.rs:71-81 | a packet parses exactly when the item parser consumes the whole line, and then it is that item |
| Day13.RenderStart | day13/src/lib.rs:44-52 | a printed item starts with `[` or a digit |
| Day13.IntRoundTrip | day13/src/lib.rs:22-29 | a printed `u32` followed by a non-digit reads back as that integer with the rest untouched |
| Day13.ListStep | day13/src/lib.rs:44-47 | an item starting with `[` is parsed as a list |
| Day13.ItemRoundTrip | day13/src/lib.rs:44-52 | every item whose integers fit in `u32`, printed and followed by a non-digit, reads back as itself with the rest untouched |
| Day13.ElemsStep | day13/src/lib.rs:38-40 | one element followed by `,` or `]` is taken and the comma dropped |
| Day13.ElemsText | day13/src/lib.rs:31-42 | the printed elements of a list are the first element followed by a comma and the rest |
| Day13.ElemsRoundTrip | day13/src/lib.rs:31-42 | printed elements followed by `]` read back as those elements |
| Day13.LastElemRoundTrip | day13/src/lib.rs:31-42 | a single printed element followed by `]` reads back as itself |
| Day13.ConsStep | day13/src/lib.rs:34-41 | after the first element and its comma the loop continues on the rest |
| Day13.MoreElemsRoundTrip | day13/src/lib.rs:31-42 | two or more printed elements followed by `]` read back as themselves |
| Day13.PacketRoundTrip | day13/src/lib.rs:71-81 | every packet whose integers fit in `u32` prints and parses back to itself |
| Day13.CompareInt | day13/src/lib.rs:86 | integers compare by value: less exactly when smaller, equal exactly when equal |
| Day13.Compare | day13/src/lib.rs:83-98 | two integers are equal exactly when their values are; equal lists have equal length, and an integer equals only a one-element list; `Day13.WrapInt`, `Day13.CompareReflexive`, `Day13.CompareAntisymmetric`, `Day13.InOrderTotal` and `Day13.CompareExamples` state the ordering |
| Day13.CompareSeq | day13/src/lib.rs:89 | lists that compare equal have the same length; `Day13.CompareSeqReflexive`, `Day13.CompareSeqAntisymmetric` and `Day13.PrefixFirst` state the list ordering |
| Day13.Size | day13/src/lib.rs:83-92 | every item has at least one node, which bounds the comparison's recursion |
| Day13.WrapInt | day13/src/lib.rs:87-88 | an integer against a list compares as the one-element list of it, on either side |
| Day13.CompareReflexive | day13/src/lib.rs:83-92 | every packet is equal to itself |
| Day13.CompareSeqReflexive | day13/src/lib.rs:89 | every list is equal to itself |
| Day13.CompareAntisymmetric | day13/src/lib.rs:83-92 | swapping the packets flips the ordering |
| Day13.CompareSeqAntisymmetric | day13/src/lib.rs:89 | swapping two lists flips the ordering |
| Day13.PrefixFirst | day13/src/lib.rs:89 | a proper prefix comes before the longer list |
| Day13.InOrderTotal | day13/src/lib.rs:94-98 | any two packets are in order one way round or the other |
| Day13.ParseIntExample | day13/src/lib.rs:54-58 | `42` followed by nothing, `,` or `]` reads as 42 with the rest left |
| Day13.ParseIntComma | day13/src/lib.rs:57 | `42,` reads as 42 leaving `,` |
| Day13.ParseEmptyLists | day13/src/lib.rs:59-68 | `[]` and `[[]]` read as the empty list and the list holding it |
| Day13.RenderNested | day13/src/lib.rs:62 | the nested example prints as `[42,43,[44]]` |
| Day13.ParseNested | day13/src/lib.rs:62 | `[42,43,[44]]` reads back as the nested example |
| Day13.RenderListOfLists | day13/src/lib.rs:64-67 | the list-of-lists example prints as `[[1],[2,4]]` |
| Day13.ParseListOfLists | day13/src/lib.rs:64-67 | `[[1],[2,4]]` reads back as the list-of-lists example |
| Day13.CompareExamples | day13/src/lib.rs:100-108 | the five comparisons of `test_compare_items` |
| Day13.ParsePair | day13/src/lib.rs:116-117 | no contract of its own; it splits a block at its first line break and parses both trimmed halves with `Day13.ParsePacket`, which `Day13.PacketRoundTrip` characterises |
| Day13.ParsePairs | day13/src/lib.rs:114-118 | on success there is one pair per block |
| Day13.OrderedSumBound | day13/src/lib.rs:119 | the sum of in-order indices is at most 1 + … + n, reached exactly when every pair is in order, and each pair out of order costs at least its own index |
| Day13.SolveP1 | day13/src/lib.rs:113-120 | an answer exists exactly when every block parses as a pair, and it is at most 1 + … + n for n pairs |
| Day14.Cave.constructor | day14/src/lib.rs:83-86 | a new cave has the given floor flag and lowest wall row and no cells |
| Day14.Cave.Get | day14/src/lib.rs:24-30 | no contract of its own; characterised by `Day14.Cave.FirstEmpty` and `Day14.Cave.NextPos` (a grain moves only onto an empty cell) and `Day14.FloorCatches` (the floor two rows below the walls is rock) |
| Day14.Cave.FirstEmpty | day14/src/lib.rs:47-56 | `find` returns the first empty candidate: it is empty and every earlier one is not; none when all are occupied |
| Day14.Cave.NextPos | day14/src/lib.rs:47-56 | a grain only ever moves one row down, onto an empty cell |
| Day14.Cave.Fall | day14/src/lib.rs:41-67 | a grain that comes to rest is above the abyss, no higher than it started, and has no empty cell to move to |
| Day14.Cave.InAbyss | day14/src/lib.rs:32-34 | no contract of its own; characterised by `Day14.Cave.Fall` and `Day14.FallLands` (a grain that comes to rest is above the abyss) |
| Day14.Cave.Set | day14/src/lib.rs:36-38 | setting a cell changes that cell and no other |
| Day14.Cave.DrawLine | day14/src/lib.rs:93-98 | the inner `while` adds rock at every point stepped through from the current point to the destination, and nothing else |
| Day14.Cave.DrawPath | day14/src/lib.rs:89-99 | a path adds rock at its first point and along every segment, and nothing else |
| Day14.Cave.DrawWalls | day14/src/lib.rs:88-100 | all paths add exactly the rock of their segments |
| Day14.Cave.Row | day14/src/lib.rs:126-134 | a picture row has one glyph per column, the glyph of that cell |
| Day14.Cave.Picture | day14/src/lib.rs:108-135 | the picture has one row per y from 0 to the lowest row shown, each the row of that y |
| Day14.Cave.XRange | day14/src/lib.rs:113-120 | the column range is the least and greatest x among the stored cells |
| Day14.Cave.DrawRow | day14/src/lib.rs:126-134 | the column loop writes exactly the row of glyphs |
| Day14.Cave.Render | day14/src/lib.rs:106-137 | formatting fails exactly on an empty cave, and otherwise yields the rows of the picture joined by line breaks |
| Day14.Cave.ProcessOneSand | day14/src/lib.rs:41-67 | the grain's result is where its fall from the generator ends; when it rests, only that cell becomes dead sand, and when it falls into the abyss nothing changes |
| Day14.Cave.Pour | day14/src/lib.rs:174-182 | the cells end as `count` grains poured one after another, each resting where its fall from the generator ends, every one of them resting while the source was free; it stops when the next grain would fall into the abyss or the source is buried; the count is the number of dead sand cells, all inside the cone below the generator |
| Day14.PourStep | day14/src/lib.rs:174-182 | one more grain resting at a new cell keeps every fact the pouring loop carries: the count is the dead sand, all of it in the cone, and the cells are the grains poured one by one, each while the source was free |
| Day14.PoursFreelyAt | day14/src/lib.rs:174-182 | when the first n grains pour freely, each earlier grain came to rest while the source was free |
| Day14.PourCountUnique | day14/src/lib.rs:174-182 | there is only one count at which pouring can stop, so `Day14.Cave.Pour` returns the first grain that falls into the abyss or finds the source buried |
| Day14.Settles | day14/src/lib.rs:41-67 | a grain that rests while the source is free lands on a new cell of the cone, so the count grows and the free part of the cone shrinks |
| Day14.InCone | day14/src/lib.rs:47-51 | a cell no lower than the walls and no farther sideways than it is deep lies in the cone |
| Day14.MinX | day14/src/lib.rs:113-116 | the least x of the stored cells, reached by some cell |
| Day14.MaxX | day14/src/lib.rs:117-120 | the greatest x of the stored cells, reached by some cell |
| Day14.DeadAdd | day14/src/lib.rs:62 | marking a new cell as dead sand adds exactly that cell to the sand |
| Day14.SandsAdd | day14/src/lib.rs:62 | adding one more grain to a layer of sand is the layer with that grain |
| Day14.Shrinks | day14/src/lib.rs:174-181 | covering a free cell of the cone shrinks the free part, so pouring ends |
| Day14.FallLands | day14/src/lib.rs:41-67 | a grain comes to rest above the abyss with all three cells below it occupied, no higher than it started and no farther sideways than it fell, and on an empty cell whenever it moved |
| Day14.FloorCatches | day14/src/lib.rs:24-34 | with a floor every grain comes to rest, at most one row above the floor |
| Day14.FallLooksDown | day14/src/lib.rs:41-67 | a fall depends only on the cells below the grain |
| Day14.Line | day14/src/lib.rs:93-98 | the points stepped through are empty exactly when the path is already at the destination, and end at the destination |
| Day14.LineInBox | day14/src/lib.rs:93-98 | every stepped point lies in the box spanned by the two ends |
| Day14.LineIsSegment | day14/src/lib.rs:93-98 | for a horizontal or vertical segment, its start and its stepped points are exactly the points of the box |
| Day14.ParsePoint | day14/src/lib.rs:149-154 | a point is two integers split at a comma |
| Day14.ParsePoints | day14/src/lib.rs:149-157 | the points parse exactly when every piece does, one point per piece |
| Day14.ParsePath | day14/src/lib.rs:145-159 | a parsed path has at least one point |
| Day14.PointRoundTrip | day14/src/lib.rs:149-154 | `x,y` printed reads back as the point |
| Day14.ParsePointsAll | day14/src/lib.rs:149-157 | pieces that each parse give all the points |
| Day14.PointsRoundTrip | day14/src/lib.rs:149-157 | printed points read back as themselves |
| Day14.PathRoundTrip | day14/src/lib.rs:145-159 | a path printed with ` -> ` between its points reads back as itself |
| Day14.ParsePathsAll | day14/src/lib.rs:74 | lines that each parse give all the paths |
| Day14.InputRoundTrip | day14/src/lib.rs:73-74 | the printed paths, one per line, read back as themselves |
| Day14.ParsePaths | day14/src/lib.rs:74 | on success one path per line, each with at least one point |
| Day14.MaxY | day14/src/lib.rs:77-81 | the lowest wall row is the greatest y of any vertex, reached by some vertex, and missing only when there are no vertices (the panic) |
| Day14.Elems | day14/src/lib.rs:93-98 | the set of the stepped points |
| Day14.PathRockCovers | day14/src/lib.rs:89-99 | every vertex of a path is rock, and so is every point between neighbouring vertices of a straight segment |
| Day14.PathRockWithin | day14/src/lib.rs:89-99 | every rock of a path is its first point or lies in the box of one of its segments |
| Day14.PathRockAbove | day14/src/lib.rs:89-99 | no rock of a path is lower than its lowest vertex |
| Day14.WallsHold | day14/src/lib.rs:88-100 | every path's rock is wall |
| Day14.WallsWithin | day14/src/lib.rs:88-100 | every wall belongs to one of the paths |
| Day14.WallsAboveMax | day14/src/lib.rs:77-100 | no wall lies below the lowest wall row |
| Day14.VerticesHold | day14/src/lib.rs:76 | every vertex of every path is among the flattened vertices |
| Day14.ScanPaths | day14/src/lib.rs:74 | parsed paths have at least one point each |
| Day14.VerticesEmpty | day14/src/lib.rs:76-81 | there are no vertices exactly when there are no paths |
| Day14.Build | day14/src/lib.rs:75-102 | building fails exactly without paths; the cave has the lowest vertex row as its wall row and holds the walls in rock and the source at the generator |
| Day14.ParseCave | day14/src/lib.rs:73-103 | parsing succeeds exactly when every line is a path and there is one; the cave holds the walls in rock and the source |
| Day14.StepIs | day14/src/lib.rs:94-96 | the `signum` step moves one towards the destination on each axis |
| Day14.StepCloser | day14/src/lib.rs:93-98 | each step brings the current point closer to the destination, so the `while` ends |
| Day14.LineStep | day14/src/lib.rs:93-98 | the stepped points are the first step followed by those from there |
| Day14.WallsSnoc | day14/src/lib.rs:88-100 | drawing one more path adds its rock to the walls |
| Day14.PathRockSnoc | day14/src/lib.rs:92-99 | drawing one more segment adds its stepped points |
| Day14.NoSandYet | day14/src/lib.rs:101-102 | a freshly parsed cave holds no sand |
| Day14.SolveP1 | day14/src/lib.rs:174-182 | an answer exists exactly when the input parses into at least one path, and it is at most the number of cells in the cone below the generator |
| Day14.SourceBlockedRepeats | day14/src/lib.rs:177-180 | once a grain rests on the generator, the next one rests there too and the cells stay as they were, so the loop as written never ends |
| Day14.BlockedInput | day14/src/lib.rs:145-159 | `499,1 -> 501,1` parses as one path from (499,1) to (501,1) |
| Day14.BlockedWalls | day14/src/lib.rs:75-100 | that path is rock at (499,1), (500,1), (501,1), and the lowest wall row is 1 |
| Day14.BlockedExample | day14/src/lib.rs:41-67 | in that cave the first grain already comes to rest on the generator |
| Day14.PictureLines | day14/src/lib.rs:121-135 | the formatted picture splits back into its rows |
| Day15.Dist | day15/src/lib.rs:14-16 | no contract of its own; characterised by `Day15.DistMetric` (symmetric, zero exactly between equal points, triangle inequality) |
| Day15.DistMetric | day15/src/lib.rs:14-16 | the Manhattan distance is symmetric, zero exactly between equal points, and obeys the triangle inequality |
| Day15.P1Excludes | day15/src/lib.rs:37-39 | no contract of its own; characterised by `Day15.FindExcluding` (the sensor `find` returns excludes the point) and `Day15.CountExcluded` |
| Day15.ExcludedXsExact | day15/src/lib.rs:41-46 | x lies in the excluded range of row y exactly when (x, y) is within the sensor's radius, both directions |
| Day15.ExcludedXs | day15/src/lib.rs:41-46 | no contract of its own; characterised by `Day15.ExcludedXsExact` (x is in the range exactly when the point is within the radius) and `Day15.ExcludedXsExample` |
| Day15.ExcludedXsExample | day15/src/lib.rs:158-174 | the sensor at (8,7) with its beacon at (2,10) excludes the ranges of `test_excluded_range` on rows -2 to 8 |
| Day15.IntToStringPlain | day15/src/lib.rs:22-27 | a printed integer holds no comma and no colon, so the separators stay unambiguous |
| Day15.ParsePoint | day15/src/lib.rs:19-28 | no contract of its own; characterised by `Day15.PointRoundTrip` (`x=…, y=…` reads back as the point) |
| Day15.PointRoundTrip | day15/src/lib.rs:19-28 | `x=…, y=…` printed reads back as the point, negative coordinates included |
| Day15.ParseSensor | day15/src/lib.rs:49-60 | no contract of its own; characterised by `Day15.SensorRoundTrip` (a printed sensor line reads back as the sensor and its beacon) |
| Day15.SensorRoundTrip | day15/src/lib.rs:49-60 | a printed sensor line reads back as the sensor and its beacon |
| Day15.ParseLines | day15/src/lib.rs:66 | on success there is one sensor per line, each the parse of its line |
| Day15.ScanSensors | day15/src/lib.rs:66 | on success there is one sensor per input line |
| Day15.SensorTextEnds | day15/src/lib.rs:66 | a printed sensor line has no surrounding whitespace and no line break, so trimming leaves it |
| Day15.LineRoundTrip | day15/src/lib.rs:66 | a printed sensor line, trimmed and parsed, is the sensor |
| Day15.SensorTexts | day15/src/lib.rs:66 | one printed line per sensor |
| Day15.InputRoundTrip | day15/src/lib.rs:66 | sensors printed one per line read back as themselves |
| Day15.TextsAreLines | day15/src/lib.rs:66 | the printed input splits back into the printed lines |
| Day15.ParseLinesAll | day15/src/lib.rs:66 | lines that each parse give all the sensors |
| Day15.FindExcluding | day15/src/lib.rs:81 | `find` returns the first sensor that excludes the point, and finds one exactly when some sensor does |
| Day15.RowExcludedSnoc | day15/src/lib.rs:80-88 | extending the scanned range by one x adds that x exactly when it is excluded |
| Day15.CountExcluded | day15/src/lib.rs:77-90 | the loop counts exactly the excluded places of row y between the bounds |
| Day15.Min | day15/src/lib.rs:67-71 | the minimum is an element and no element is smaller |
| Day15.Max | day15/src/lib.rs:72-76 | the maximum is an element and no element is larger |
| Day15.AsWrittenBounds | day15/src/lib.rs:67-76 | as written, the range runs from the least sensor x minus beacon x to the greatest sensor x plus beacon x |
| Day15.Bounds | day15/src/lib.rs:67-76 | the corrected range runs from the least left edge to the greatest right edge of the sensors' diamonds, both reached by some sensor |
| Day15.ExcludedInBounds | day15/src/lib.rs:67-76 | every excluded place lies inside the corrected range |
| Day15.SolveP1AsWritten | day15/src/lib.rs:65-91 | as written: an answer exists exactly when the input parses into at least one sensor, and it counts the excluded places of row y within the as-written range |
| Day15.SolveP1 | day15/src/lib.rs:65-91 | with the corrected range the answer is exactly the number of places on row y where no beacon can be |
| Day15.StrayInput | day15/src/lib.rs:49-60 | the line `Sensor at x=-100, y=0: closest beacon is at x=-101, y=0` parses as one sensor |
| Day15.StrayMissed | day15/src/lib.rs:67-76 | for that sensor the as-written range is from 1 to -201 and counts nothing on row 0, while the corrected range from -101 to -99 counts 2 |
| Day15.StrayRow | day15/src/lib.rs:80-88 | on row 0 that sensor excludes exactly x = -100 and x = -99 |
| Day15.StrayExcludes | day15/src/lib.rs:37-39 | on row 0 between -101 and -99 every place but the beacon's is excluded |
| Day15.InsertByX | day15/src/lib.rs:99 | inserting keeps the list sorted by sensor x and adds exactly the one sensor |
| Day15.SortedCons | day15/src/lib.rs:99 | a sensor no further right than the head of a sorted list extends it sorted |
| Day15.SortByX | day15/src/lib.rs:99 | the sort yields a permutation of the sensors sorted by sensor x |
| Day15.CoveredPermutation | day15/src/lib.rs:99 | sorting does not change which points are covered |
| Day15.JumpStaysOut | day15/src/lib.rs:102-108 | after jumping past a sensor's range, an earlier sensor (by x) that did not hold x does not hold the new x either |
| Day15.ScanRow | day15/src/lib.rs:101-112 | the sensor loop ends at an x whose every predecessor from 0 is covered, and which is itself uncovered when it is at most `max` |
| Day15.FirstGapUnique | day15/src/lib.rs:100-117 | there is at most one first uncovered point of the square |
| Day15.FindGap | day15/src/lib.rs:100-118 | the row loop returns the first uncovered point of the square in row order, or none when every point is covered (the panic) |
| Day15.SolveP2 | day15/src/lib.rs:97-119 | an unparsable input gives no answer; an answer is the tuning frequency of the first uncovered point; no answer on parsed input means the whole square is covered |
| Day16.TrimStartMatches | day16/src/lib.rs:22-23 | the result is a suffix of the text that no longer starts with the pattern |
| Day16.JoinStartsWithLabel | day16/src/lib.rs:22-25 | a tunnel list starts with a capital letter |
| Day16.TrimStartMatchesNone | day16/src/lib.rs:22-23 | a text not starting with the pattern is left unchanged |
| Day16.TrimStartMatchesOnce | day16/src/lib.rs:22-23 | one copy of the pattern in front of a text not starting with it is removed |
| Day16.UpperAvoidsPhrases | day16/src/lib.rs:22-24 | a text starting with a capital letter starts with neither tunnel phrase nor with whitespace |
| Day16.OneIsNotMany | day16/src/lib.rs:22-23 | the singular tunnel phrase is not taken for the plural one |
| Day16.PhraseDropped | day16/src/lib.rs:22-24 | either tunnel phrase in front of a tunnel list is dropped, leaving the list |
| Day16.LabelAvoids | day16/src/lib.rs:25 | a label holds no separator character |
| Day16.StripPrefixOf | day16/src/lib.rs:17-19 | stripping a prefix from a text that starts with it leaves the rest |
| Day16.RateTextParses | day16/src/lib.rs:19-21 | the flow rate and the tunnel list are read back from their text |
| Day16.EdgesTextParses | day16/src/lib.rs:22-25 | the tunnel list is read back from its text, in either phrasing |
| Day16.ParseNode | day16/src/lib.rs:16-27 | no contract of its own; characterised by `Day16.NodeRoundTrip` (a valve written as the puzzle writes it parses back to itself) and `Day16.ScanNodes` |
| Day16.NodeRoundTrip | day16/src/lib.rs:16-27 | every valve with capital-letter labels and at least one tunnel, written as the puzzle writes it, parses back to itself |
| Day16.ScanNodes | day16/src/lib.rs:77 | on success there is one valve per line, each the parse of the trimmed line |
| Day16.NodeMapKeys | day16/src/lib.rs:78 | the map's labels are exactly the labels of the valves, both directions |
| Day16.NodeMapLast | day16/src/lib.rs:78 | the valve stored under a label is the last valve with that label |
| Day16.MaxFold | day16/src/lib.rs:68-72 | the tunnel loop panics exactly when one branch does; otherwise the result is at least the running best and every branch, and equals one of them |
| Day16.MaxAddtl | day16/src/lib.rs:49-74 | no contract of its own; `Day16.Optimal`, `Day16.PlanBound`, `Day16.PlanAttains` and `Day16.MaxAddtlDefined` state the search |
| Day16.OpenBound | day16/src/lib.rs:60-67 | opening the valve here and then searching never beats the search |
| Day16.EdgeBound | day16/src/lib.rs:68-72 | taking any tunnel and then searching never beats the search |
| Day16.StepAttained | day16/src/lib.rs:49-74 | the search result is reached by opening the valve here, by taking one of the tunnels, or is 0 |
| Day16.PlanBound | day16/src/lib.rs:49-74 | no plan of openings and moves releases more pressure than the search returns |
| Day16.PlanAttains | day16/src/lib.rs:49-74 | some plan of at most the remaining minutes releases exactly the pressure the search returns |
| Day16.MaxAddtlDefined | day16/src/lib.rs:49-74 | when every tunnel leads to a known valve, the search from a known valve never panics |
| Day16.SolvableWhenClosed | day16/src/lib.rs:76-80 | with every tunnel leading to a known valve and a valve `AA`, the 30-minute search from `AA` is defined |
| Day16.Optimal | day16/src/lib.rs:49-74 | the search result is the pressure of the best plan: some plan attains it and none exceeds it |
| Day16.SolveP1 | day16/src/lib.rs:76-80 | the answer is the 30-minute search from `AA` with every valve shut over the parsed valves, and it exists whenever the input parses, `AA` exists and every tunnel leads to a known valve |
| Day16.SolveP1Optimal | day16/src/lib.rs:76-80 | the answer is the most pressure any 30-minute plan from `AA` releases |
| Day17.MinOf | day17/src/lib.rs:62-66 | the least coordinate of a non-empty list, one of its elements; 0 for an empty one |
| Day17.MaxOf | day17/src/lib.rs:67-71 | the greatest coordinate of a non-empty list, one of its elements; 0 for an empty one |
| Day17.Rock.constructor | day17/src/lib.rs:60-89 | the rock's cells are the listed positions and its bounds are their least and greatest coordinates, covering every cell |
| Day17.CellsCard | day17/src/lib.rs:61 | a list of distinct positions makes a set of as many cells |
| Day17.BoxBounds | day17/src/lib.rs:91-113 | a shape drawn in a 4x4 box touching both axes has least coordinates 0 and greatest at most 3 |
| Day17.FitsWhen | day17/src/lib.rs:91-113 | distinct cells in a 4x4 box touching both axes form a well-placed shape of that many cells |
| Day17.BarFits | day17/src/lib.rs:93-94 | the horizontal bar has four cells with its bottom-left corner at the origin |
| Day17.PlusFits | day17/src/lib.rs:95-98 | the plus has five cells with its bounding box at the origin |
| Day17.CornerFits | day17/src/lib.rs:99-102 | the reversed L has five cells with its bounding box at the origin |
| Day17.PoleFits | day17/src/lib.rs:103-107 | the vertical bar has four cells with its bounding box at the origin |
| Day17.SquareFits | day17/src/lib.rs:108-110 | the square has four cells with its bounding box at the origin |
| Day17.ShapeFacts | day17/src/lib.rs:91-113 | every shape index, taken modulo 5, gives a shape of the stated size whose bounding box starts at the origin within a 4x4 box |
| Day17.Rock.NewI | day17/src/lib.rs:91-113 | a fresh rock holding the cells of shape `idx % 5`, with bounds at the origin |
| Day17.Hits | day17/src/lib.rs:115-129 | no contract of its own; characterised by `Day17.HitsIff` (true exactly when the placed rocks share a cell), `Day17.HitsSymmetric` and `Day17.HitsSelf` |
| Day17.HitsIff | day17/src/lib.rs:115-129 | the collision test is true exactly when the two placed rocks share a cell, whichever set is walked |
| Day17.HitsSymmetric | day17/src/lib.rs:115-117 | swapping the two rocks does not change the answer |
| Day17.HitsSelf | day17/src/lib.rs:351-355 | a non-empty rock collides with itself at the same position |
| Day17.SquaresApart | day17/src/lib.rs:356-357 | two squares at (1,1) and (3,3) only touch and do not collide |
| Day17.SquaresOverlap | day17/src/lib.rs:358-359 | two squares at (1,1) and (2,2) collide |
| Day17.Rock.CollidesWith | day17/src/lib.rs:115-129 | true exactly when this rock and the other, each at its position, share a cell |
| Day17.PlaceCard | day17/src/lib.rs:132-134 | shifting a rock's cells to another origin keeps their number |
| Day17.PlaceMember | day17/src/lib.rs:133 | a cell is in the shifted set exactly when shifting it back gives a cell of the rock |
| Day17.MergeExample | day17/src/lib.rs:363-375 | a square at (3,1) merged into a square at (1,1) adds the cells (2,0), (3,0), (2,1), (3,1) |
| Day17.MergeExampleBounds | day17/src/lib.rs:363-370 | after that merge the bounds are x 0..3 and y 0..1 |
| Day17.WidenStep | day17/src/lib.rs:135-138 | widening the bounds by one cell keeps them the old bounds widened to the cells seen so far |
| Day17.WidenedCovers | day17/src/lib.rs:131-140 | bounds that covered the old cells, widened by the new ones, cover them all |
| Day17.MergeCells | day17/src/lib.rs:131-140 | the loop adds exactly the other rock's cells shifted to this rock's origin and widens the bounds to include each of them |
| Day17.Rock.Merge | day17/src/lib.rs:131-140 | the rock's new cells are the old ones plus the other rock's shifted cells, the bounds are widened to them, and bounds that covered the cells still do |
| Day17.CollidesWithTowerOrWall | day17/src/lib.rs:143-158 | no contract of its own; characterised by `Day17.ClearPlacement` (no collision means inside the chamber above the floor and clear of the tower), `Day17.SpawnClear` and `Day17.Landing` |
| Day17.ClearPlacement | day17/src/lib.rs:143-158 | a shape that does not collide with the tower or a wall lies inside the seven-wide chamber above the floor and shares no cell with the tower |
| Day17.SpawnClear | day17/src/lib.rs:225-226 | a shape appearing two columns from the left wall and three rows above the tower's top collides with nothing |
| Day17.Landing | day17/src/lib.rs:248-255 | a shape that cannot drop further rests no higher than one row above the tower's top |
| Day17.Settles | day17/src/lib.rs:248-255 | a shape that comes to rest lies in the chamber, clear of the tower, with all its cells, at most four rows above the tower's top |
| Day17.SettleKeeps | day17/src/lib.rs:255 | adding a resting shape to the tower keeps the tower inside the chamber, its top its highest row, the rocks disjoint, and at most four rows per rock |
| Day17.Spawn | day17/src/lib.rs:274-277 | the next shape holds exactly the cells of shape `rocks % 5`, the rock of the next index, placed three rows above the tower's top and two columns from the left wall, and collides with nothing |
| Day17.Settle | day17/src/lib.rs:255 | merging a resting shape into the tower keeps the tower's invariant for one more rock |
| Day17.TowerTop | day17/src/lib.rs:295 | a tower of at least one rock has its top row at 1 or higher |
| Day17.Simulate | day17/src/lib.rs:221-296 | the jets cycle over the trimmed input; `None` only for an empty jet list or an unexpected jet character; otherwise the height is between 1 and four rows per rock and the settled cells stay in the chamber without two rocks overlapping |
| Day17.SolveP1 | day17/src/lib.rs:300-302 | the height after 2022 rocks, between 1 and 8088, or `None` on a bad jet list |
| Day18.Adjacent | day18/src/lib.rs:5-16 | six distinct points, exactly the points that share a face with `p` |
| Day18.ParseCube | day18/src/lib.rs:24-29 | a line parses only if its trimmed text has at least three comma-separated fields |
| Day18.SplitThree | day18/src/lib.rs:25 | three comma-free fields joined by commas split back into the three fields |
| Day18.CubeTextTrimmed | day18/src/lib.rs:25 | a cube written as `x,y,z` has no surrounding whitespace to trim |
| Day18.CubeRoundTrip | day18/src/lib.rs:24-29 | every cube written as `x,y,z`, negative coordinates included, parses back to itself |
| Day18.ParseCubes | day18/src/lib.rs:22-30 | on success, one cube per line and each the parse of its line; `None` exactly when some line does not parse |
| Day18.ScanCubes | day18/src/lib.rs:22-31 | on success, the set holds exactly the cubes of the lines, duplicates merged; `None` only when some line does not parse |
| Day18.SumOverRemove | day18/src/lib.rs:33 | a sum over a set of cubes is one cube's term plus the sum over the rest, whichever cube is taken first |
| Day18.SumOverMono | day18/src/lib.rs:33 | a sum over a set grows with its terms |
| Day18.SumOverBound | day18/src/lib.rs:33 | with at most six per cube, the sum is at most six times the number of cubes |
| Day18.SurfaceArea | day18/src/lib.rs:32-40 | no contract of its own; `Day18.SurfaceBound` and `Day18.SolveP1` state it |
| Day18.OpenFaces | day18/src/lib.rs:34-38 | the faces counted for a cube are at most the neighbours looked at |
| Day18.SurfaceBound | day18/src/lib.rs:32-40 | the surface area is at most six faces per cube |
| Day18.LoneCube | day18/src/lib.rs:32-40 | a single cube has six open faces |
| Day18.TwoCubes | day18/src/lib.rs:32-40 | two cubes sharing a face have ten open faces |
| Day18.CountOpen | day18/src/lib.rs:34-38 | the loop counts exactly the neighbours of the cube that are not lava |
| Day18.CountSides | day18/src/lib.rs:32-40 | the loop over the cubes counts exactly the surface area |
| Day18.SolveP1 | day18/src/lib.rs:21-41 | `None` exactly when a line does not parse; otherwise the surface area of the cubes, at most six per cube |
| Day18.MeetStep | day18/src/lib.rs:99-103 | folding one more cube into the componentwise minimum keeps it the least corner of the cubes seen |
| Day18.JoinStep | day18/src/lib.rs:104-108 | folding one more cube into the componentwise maximum keeps it the greatest corner of the cubes seen |
| Day18.Low | day18/src/lib.rs:99-103 | a non-empty set has exactly one least corner |
| Day18.High | day18/src/lib.rs:104-108 | a non-empty set has exactly one greatest corner |
| Day18.LowerCorner | day18/src/lib.rs:99-103 | `None` (the panic of `unwrap`) exactly for no cubes; otherwise the componentwise minimum over all cubes |
| Day18.UpperCorner | day18/src/lib.rs:104-108 | `None` exactly for no cubes; otherwise the componentwise maximum over all cubes |
| Day18.ReachesStep | day18/src/lib.rs:78-81 | a walk through the air extends by one face step into air |
| Day18.WalkBack | day18/src/lib.rs:78-81 | a walk through the air can be walked backwards |
| Day18.EscapesVia | day18/src/lib.rs:64-67 | air reachable from outside air is outside air too |
| Day18.WalkStays | day18/src/lib.rs:78-81 | a walk that starts in a region closed under steps into air stays in it |
| Day18.BoxPoints | day18/src/lib.rs:69-76 | the points of the box are exactly the points between the two corners |
| Day18.FloodStep | day18/src/lib.rs:63-81 | exploring one point inside the box keeps every pending and explored point reachable and every air neighbour of an explored point pending or explored |
| Day18.BoxShrinks | day18/src/lib.rs:77 | exploring a new point inside the box leaves fewer box points unexplored, so the search ends |
| Day18.FloodOut | day18/src/lib.rs:69-76 | reaching a point outside the box shows the start is outside air |
| Day18.FloodHit | day18/src/lib.rs:64-67 | reaching a point known to be enclosed shows the start is enclosed |
| Day18.FloodClosed | day18/src/lib.rs:59-62 | running out of points to explore shows the start is enclosed |
| Day18.IsInterior | day18/src/lib.rs:48-83 | true exactly when the air at the start cannot reach a point outside the box, given that the points already marked interior cannot |
| Day18.OuterFaces | day18/src/lib.rs:116-135 | the faces of a cube towards outside air are at most its open faces |
| Day18.OuterFacesAll | day18/src/lib.rs:116-135 | when every neighbour is outside air, every face counts |
| Day18.ExteriorBelowSurface | day18/src/lib.rs:85-138 | the exterior area is at most the whole surface area |
| Day18.LoneCubeExterior | day18/src/lib.rs:85-138 | a single cube has six exterior faces |
| Day18.CountOuter | day18/src/lib.rs:116-135 | the loop counts exactly the faces of the cube towards outside air, and the interior cache only grows and only holds enclosed air |
| Day18.CountExterior | day18/src/lib.rs:111-137 | the loop over the cubes counts every face towards outside air |
| Day18.SolveP2 | day18/src/lib.rs:85-138 | `None` exactly when a line does not parse or there are no cubes; otherwise the exterior surface area, at most the whole surface area |

## Left out

- Integer widths: Rust's `u32`, `u64`, `usize`, `isize`, `i32` and `i64` are unbounded integers here. Only the following width bounds are modelled, each as a panic (`None`):
  - day 11's `Operation::operate` (`Day11.Operate`), whose checked arithmetic fails above `u64::MAX`;
  - day 11's divisor product (`Day11.CheckedProduct`, used by `Day11.Business` and `Day11.MonkeyBusiness`). `Iterator::product` panics on overflow only in a debug build; a release build wraps and plays on with a wrong modulus. The model takes the debug-build panic;
  - day 11's `counts[0].checked_mul(counts[1]).unwrap()` (`Day11.Business`, `Day11.MonkeyBusiness`), above `u64::MAX`;
  - day 11's `u64` parse of items and fields (`Day11.ParseU64`), above `u64::MAX`;
  - day 13's `prefix.parse::<u32>().unwrap()` (`Day13.LeadingInt`), above `u32::MAX`;
  - the unsigned subtractions that underflow in day 3's `priority` (`Day3.Priority`) and day 5's `execute9001` (`Day5.Stacks.Execute9001`, `Day5.RunAll`).
- Parse overflows not modelled: a number too wide for its Rust type is rejected by the source and parses here, for example "4294967296" as a `u32`. The rejection is a panic, except in day 7, where the line fails to parse and `p1::solve`'s `unwrap` (day7/src/lib.rs:182) then panics. This concerns the `u32` parses of `Day1.ParseLine` (day1/src/lib.rs:55), `Day4.ParseAssignment` (day4/src/lib.rs:12-13) and `Day16.ParseNode` (day16/src/lib.rs:21); the `usize` parses of `Day5.ParseInstruction` (day5/src/lib.rs:88-92) and `Day7.ParseFileStat` (day7/src/lib.rs:159); the `i32` parses of `Day9.ParseInstruction` (day9/src/lib.rs:39) and `Day18.ParseCube` (day18/src/lib.rs:26-28, 90-91); the `i64` parses of `Day10.ParseInstruction` (day10/src/lib.rs:17) and `Day15.ParsePoint` (day15/src/lib.rs:24-25); and the `isize` parses of `Day14.ParsePoint` (day14/src/lib.rs:151-152).
- Arithmetic overflows not modelled: a debug build panics where these exceed their type, and a release build wraps; here they are exact. They are day 1's `u32` group sum (day1/src/lib.rs:63, `Day1.Totals`), day 15's `i64` tuning frequency `x*4000000+y` (day15/src/lib.rs:115, `Day15.SolveP2`), day 16's `u32` `rate*(t-1)` (day16/src/lib.rs:64, `Day16.MaxAddtl`), day 18's `i32` neighbour `p.0+dp.0` (day18/src/lib.rs:15, `Day18.Adjacent`), and counters such as day 11's inspection counts.
- Hash ordering: `HashMap`, `HashSet`, `BTreeMap` and `BTreeSet` are Dafny maps and sets. Where iteration order could matter, the choice is left open: day 18's `to_explore.iter().next()` is a `:|` choice. Day 3's least element of a `BTreeSet` is modelled as the least element.
- Reading input and printing answers: the `bin` mains of every day are not part of this model. Neither are the debug `println!` calls (day 15 part 2, day 17's progress line with its `f32` percentage) and the commented-out output of days 7, 14 and 18.
- Day 1's wasm plumbing (`solvep1`, the panic hook, the allocator) and its `bin` mains. Their only logic is a maximum and a top-three sum over `totals`.
- Rust ownership and laziness: day 11's `RefCell` monkeys are a sequence of values, and day 7's and day 16's borrowed `&str` labels are strings. Day 10's lazily parsed instruction iterator is a sequence of parse results, consumed in order.
- The `todo!()` second parts of days 13, 14 and 16, and day 16's unused `StateKey`.
- Day 17's `print_tower`, its unused `StateKey`, the commented-out line deletion and bounding-box test, and its second part. That part is a heuristic cycle search over up to 10^12 rocks whose remainder term is commented out, so it states nothing beyond its one test.
- Day 17's `simulate` with a rock limit of 0 never stops in the source: the count is checked only after it is incremented. `Day17.Simulate` requires a limit of at least 1.
- Day 6's `solve` loops for ever when no window of four distinct characters exists, so `Day6.Solve` requires one.
- Day 14's floored cave needs the lowest wall at row -1 or below. Otherwise the floor lies above the generator and the source's loop never ends. `Day14.Cave.ProcessOneSand` requires it in the floored case.
- Day3.Priority: treats only ASCII 'a'..'z' as lower case. Rust's `char::is_lowercase` also accepts non-ASCII lower-case letters, which the source measures from 'a' ('é' gives 137) and the model from 'A' (195). Puzzle rucksacks hold only ASCII letters, where the two agree; `Day3.SolveP1` and `Day3.SolveP2` inherit the restriction.
- Day5.ParseCells: a crate must be an ASCII letter ('A'..'Z', 'a'..'z'), where Rust's `char::is_alphabetic` (day5/src/lib.rs:31) accepts any Unicode letter: the diagram row `[é]` over one stack is a crate 'é' in the source and `None` here. Puzzle diagrams hold only ASCII upper-case crates, where the two agree; `Day5.ParseRows`, `Day5.ParseBody`, `Day5.ParseStacks`, `Day5.ParseInput`, `Day5.Answer`, `Day5.RunAll`, `Day5.SolveP1` and `Day5.SolveP2` inherit the restriction.
- Text handling: `Text.Lines` splits at `\n` only and keeps a `\r` before it, where Rust's `lines` also drops that `\r`. `Text.Trim` and `Text.SplitWhitespace` treat only ASCII whitespace as whitespace, where Rust also treats the other Unicode spaces as whitespace.
- Day11.SolveP1: answers the program as written, which reduces each level after the division by 3. The puzzle's answer is stated only for the corrected step, by `Day11.BusinessIsPuzzle`; the findings below give a troop on which the two differ.
- Day 12's grid with rows of differing length, and day 8's, give `None` here. The source's indexing assumes a rectangle and reads the wrong cells.
- Test values that are too costly for the solver to check by proof:
  - day 3: the example totals 157 and 70;
  - day 7: 95437;
  - day 8: the count 21 and the example's maximum scenic score 8;
  - day 9: 13 and 36;
  - day 10: 13140;
  - day 11: 10605 and 2713310158, and the literal monkey of the parse test;
  - day 12: 31 and 29;
  - day 13: 13;
  - day 14: 24 and the five settle points;
  - day 15: 26 and 56000011, and the literal line of the parse test;
  - day 16: 1651 and the two literal lines of the parse test;
  - day 17: 3068;
  - day 18: 64 and 58.

  These are large literal inputs. The general round-trip, optimality and invariant lemmas cover the same behaviour for all inputs.
- Day14.Cave.Render: the picture test's literal text is not reproduced. The lemmas state the picture's rows, columns and characters.
- Day13: the packet ordering is proved reflexive, antisymmetric and total, but not transitive.
- Day13.SolveP1: states parse success and a bound on the answer. How each pair is compared is stated by `Day13.InOrderTotal` and `Day13.CompareExamples`.
- Day14.SolveP1: states only parse success and a bound, because the cave it pours into is local to it. That the count is the number of grains poured by successive falls, up to the first that falls into the abyss or finds the source buried, is stated on the cave by `Day14.Cave.Pour` and `Day14.PourCountUnique`.
- Day17.SolveP1: states the height's bounds and the error cases. The tower invariant behind them is stated by `Day17.Simulate`.
- Day17.Settle: states the tower invariant after the merge, not the tower's exact new cells. `Day17.Rock.Merge` states those.
- Day17.Simulate: proves the jets' effect only through the invariant the tower keeps. It does not state the height as a function of the jets.

## Findings

| source | as written | input that shows it | evidently intended | confidence | as-written member | corrected member |
|---|---|---|---|---|---|---|
| day11/src/lib.rs:144-148 | the new worry is reduced modulo the product of the divisors even after it is divided by 3, and dividing does not commute with that reduction | three monkeys with divisors 2, 3 and 5 (product 30), all with operation `old * 1`; monkey 0 starts with worry 90 and throws it to monkey 1, which throws to monkey 2 when the level is divisible by 3 and to monkey 0 otherwise; monkeys 1 and 2 start with worry 1 each. The stored levels of the 90 item are 0 and then 0, so it goes to monkey 2, while the puzzle's levels are 30 and then 10, so it goes to monkey 0 | keep exact worry levels when dividing by 3, and reduce only in part 2 | not executed | Day11.NewWorry, Day11.AsWrittenDiverges, Day11.TurnsDiverge | Day11.NewWorryCorrected, Day11.CorrectedTracksReference, Day11.BusinessIsPuzzle |
| day14/src/lib.rs:177-180 | the pouring loop counts a grain for every `Some` that `process_one_sand` returns, so once a grain rests on the generator every later call returns `Some` again and the loop never ends | the single wall `499,1 -> 501,1`: all three cells below the generator are wall, so the first grain already rests on the generator, and every later grain does the same | stop once a grain comes to rest on the generator | not executed | Day14.SourceBlockedRepeats, Day14.BlockedExample | Day14.Cave.Pour, Day14.SolveP1 |
| day15/src/lib.rs:67-76 | the scanned x range runs from the least `sensor.x - beacon.x` to the greatest `sensor.x + beacon.x`, which mixes coordinates with distances | `Sensor at x=-100, y=0: closest beacon is at x=-101, y=0` on row 0: the range is empty and the answer is 0, but x=-100 and x=-99 are excluded, so the answer is 2 | scan from the least `sensor.x - radius` to the greatest `sensor.x + radius` | not executed | Day15.SolveP1AsWritten, Day15.StrayMissed | Day15.SolveP1, Day15.Bounds |
