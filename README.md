# advent-of-code-rust, modelled in Dafny

This project models the solvers of bpshaver/advent-of-code-rust: one Dafny
module per puzzle day of 2015, 2021, 2022 and 2023, and the shared
`aoc_utils` library (its append-only arena tree and its sparse maze). Each
module follows its Rust file:

- Pure code (match expressions, iterator pipelines, arithmetic) becomes
  datatypes and functions with lemmas.
- Code that updates state step by step becomes methods with loops and their
  invariants. Objects whose fields the source changes in place become
  classes: the arena tree, the maze, the file system of day 7 of 2022, the
  sand cave of day 14 of 2022, the bingo boards of day 4 of 2021, the
  interval set of day 15 of 2022 and the fish buckets of day 6 of 2021.
- Each method is proved against a specification function. The properties
  the puzzle and the code promise are lemmas about those functions.

Shared modules:

- `Wrappers` holds `Option` and `Result`.
- `Strings` models the parts of Rust's `str` the solvers use: `split`,
  `split_once`, `lines`, `trim`, `split_whitespace` and integer `parse`.
- `Seqs` holds sums over sequences.

A Rust panic (`unwrap` or `expect` on a bad line, an index out of range) is
modelled as a `None` or error result, not as a precondition; the arithmetic
overflows the debug build would trap and the model does not bound are listed
one by one under "## Left out". Integer widths are written out where the source's result
depends on them: `u32`/`i32`/`i64`/`usize` parsing, the `u32` overflow of
bingo scores, the `usize` subtractions of day 7 of 2022, and the `u32`
counter of day 8 of 2023.

Input text is a parameter: every `include_str!("input.txt")` is replaced by
the string the solver would read.

## Model

The table lists every member that carries a contract. A function that only
computes a solver's value has no contract of its own; the lemmas named after
it state what it means. `Almanac.MapNumber` is described by
`MapNumberMeaning`, `Almanac.PartOne` by `LowestOf`,
`BinaryDiagnostic.PowerConsumption` by `PowerConsumptionMeaning`,
`BinaryDiagnostic.LifeSupport` by `LifeSupportMeaning`, `Rucksacks.PartOne`
by `LinesPriorityMeaning`, `SonarSweep.PartOne` and `SonarSweep.PartTwo` by
`AnswerBounds`, `WindowIncreases` and `UnreadableLineSkipped`,
`Calories.TopThree` by `TopThreeOfFew` and `TopThreeAtLeastMax`,
`CrabAlignment.ReadInput` by `ReadWritten`, and `Fs.Size` and
`Fs.FileSystem.Duh` by `SizeAfterAdd`, `AddedChildSize` and `ExampleQueries`.
The example methods that replay the source's tests (`Tree.DepthThreeExample`,
`Maze.OccupiedMazeExample`, `Beacons.RangeSetExample`,
`Beacons.RangeSetQueries`, `Fs.FileSystemExample`) assert the tests'
expectations in their bodies and have no contract.

| member | source | states |
|---|---|---|
| RockPaperScissors.Value | aoc22_02/src/main.rs:22-28 | each shape scores 1 to 3 |
| RockPaperScissors.ValueInjective | aoc22_02/src/main.rs:22-28 | different shapes score differently |
| RockPaperScissors.BeatsTrichotomy | aoc22_02/src/main.rs:100-111 | of two shapes exactly one beats the other, or they are equal |
| RockPaperScissors.HandFromStr | aoc22_02/src/main.rs:31-44 | more than one char is TooManyCharacters, empty is EmptyString, and it succeeds exactly on one of A, B, C, X, Y, Z |
| RockPaperScissors.HandLettersRoundTrip | aoc22_02/src/main.rs:37-43 | A/X read as rock, B/Y as paper, C/Z as scissors |
| RockPaperScissors.OutcomeFromStr | aoc22_02/src/main.rs:47-62 | the same error cases; succeeds exactly on X, Y, Z |
| RockPaperScissors.OutcomeLetterRoundTrip | aoc22_02/src/main.rs:54-60 | X reads as lose, Y as draw, Z as win |
| RockPaperScissors.ParseGameLine | aoc22_02/src/main.rs:72-86 | a line with no space is an EmptyString error |
| RockPaperScissors.GameLineMeaning | aoc22_02/src/main.rs:77-85 | a parsed line is a shape letter, a space and text the second parser accepts |
| RockPaperScissors.ParseInput | aoc22_02/src/main.rs:88-94 | on success one game per line, each the parse of its line |
| RockPaperScissors.ParseInputFirstError | aoc22_02/src/main.rs:88-94 | on failure the error is that of the first line that fails |
| RockPaperScissors.ScoreGameByRule | aoc22_02/src/main.rs:96-114 | each player scores shape value plus 6 for a win, 3 for a draw, 0 for a loss, under the independent rule "beats = value one higher, round from 3 to 1" |
| RockPaperScissors.ScoreGameSymmetric | aoc22_02/src/main.rs:96-114 | swapping the players swaps the scores |
| RockPaperScissors.ScoreBounds | aoc22_02/src/main.rs:96-114 | the second player scores between 1 and 9 |
| RockPaperScissors.ShapeFor | aoc22_02/src/main.rs:121-143 | the shape chosen reaches the wanted outcome |
| RockPaperScissors.ShapeForUnique | aoc22_02/src/main.rs:121-143 | only that shape does |
| RockPaperScissors.RigGameIsScoreGame | aoc22_02/src/main.rs:116-146 | rigging a game scores as playing the shape that reaches the outcome |
| RockPaperScissors.PartOne | aoc22_02/src/main.rs:148-154 | defined exactly when every line parses; the total lies between 1 and 9 per line |
| RockPaperScissors.ScoresBounded | aoc22_02/src/main.rs:148-154 | a total of n games lies between n and 9n |
| RockPaperScissors.PartTwo | aoc22_02/src/main.rs:156-162 | defined exactly when every line parses as shape and outcome |
| RockPaperScissors.RiggedIsScored | aoc22_02/src/main.rs:116-162 | part two's total is part one's total over the shapes that reach the outcomes |
| RockPaperScissors.SampleParses | aoc22_02/src/main.rs:190-200 | the sample parses to the games the test lists, both ways |
| RockPaperScissors.SampleAnswers | aoc22_02/src/main.rs:201-214 | the sample scores 15 and 12 |
| CampCleanup.ParseU8 | aoc22_04/src/main.rs:16-35 | a parsed bound is below 256 and is the number the text spells |
| CampCleanup.ContainsSymmetric | aoc22_04/src/main.rs:37 | the holding test is symmetric |
| CampCleanup.ContainsMeaning | aoc22_04/src/main.rs:37 | for non-empty ranges the bounds test means one section set is a subset of the other |
| CampCleanup.SharesSectionIff | aoc22_04/src/main.rs:71-74 | the section sets intersect iff both ranges are non-empty and max of starts <= min of ends |
| CampCleanup.ContainsSharesSection | aoc22_04/src/main.rs:37-74 | for non-empty ranges holding implies sharing |
| CampCleanup.EmptyHeldSharesNothing | aoc22_04/src/main.rs:37-74 | an empty range (5-3) is held by 4-6 yet shares nothing with it |
| CampCleanup.CountLines | aoc22_04/src/main.rs:77-83 | the count is at most the number of lines |
| CampCleanup.CountLinesDefined | aoc22_04/src/main.rs:77-83 | the count is defined iff every line parses |
| CampCleanup.SharingCountsMore | aoc22_04/src/main.rs:77-83 | with non-empty ranges, part two counts at least as many pairs as part one |
| CampCleanup.RangeTextRoundTrip | aoc22_04/src/main.rs:11-35 | "lo-hi" written out parses back to the range |
| CampCleanup.PairLineRoundTrip | aoc22_04/src/main.rs:6-35 | "a-b,c-d" written out parses back to its two ranges |
| CampCleanup.CountOfParsed | aoc22_04/src/main.rs:77-83 | lines that parse to given pairs count as the pairs do |
| CampCleanup.SampleParses | aoc22_04/src/main.rs:97 | the sample's six lines parse to the six pairs |
| CampCleanup.SampleAnswers | aoc22_04/src/main.rs:97-112 | the sample gives 2 and 4 |
| PresentWrapping.Sort3 | aoc15_02/src/main.rs:11-12 | the three dimensions come out ascending and are a permutation of the ones given |
| PresentWrapping.WrappingPaperSmallestFace | aoc15_02/src/main.rs:10-15 | the paper is the surface plus the area of the smallest face |
| PresentWrapping.RibbonSmallestPerimeter | aoc15_02/src/main.rs:17-22 | the ribbon is the smallest perimeter plus the volume |
| PresentWrapping.Sort3Turns | aoc15_02/src/main.rs:11-12 | sorting gives the same triple whatever order the dimensions came in |
| PresentWrapping.TurningInvariant | aoc15_02/src/main.rs:10-22 | paper and ribbon do not depend on the order of the dimensions |
| PresentWrapping.NeedsAtLeast | aoc15_02/src/main.rs:10-22 | paper is at least the surface, ribbon at least the volume |
| PresentWrapping.Examples | aoc15_02/src/main.rs:93-105 | 2x3x4 needs 58 and 34, 1x1x10 needs 43 and 14, in either order |
| PresentWrapping.ParseToInt | aoc15_02/src/main.rs:31-36 | succeeds exactly when the text is a number below 2^64 (a `usize`), with that value; else IntegerParseError |
| PresentWrapping.PresentFromStr | aoc15_02/src/main.rs:41-51 | SplitError exactly when there are not three 'x'-pieces; IntegerParseError exactly when some piece is not a `usize` |
| PresentWrapping.PresentTextSplits | aoc15_02/src/main.rs:42 | "LxWxH" written out splits into its three numbers |
| PresentWrapping.PresentTextRoundTrip | aoc15_02/src/main.rs:41-51 | a present whose sides fit a `usize`, written out, parses back to itself |
| PresentWrapping.ParseExamples | aoc15_02/src/main.rs:80-90 | "4x5x8" and "34x5x21" parse to their dimensions |
| PresentWrapping.TotalsSplit | aoc15_02/src/main.rs:54-66 | the paper and ribbon of a list are the sums over any split of it |
| Strings.ParseBelow | aoc21_07/src/main.rs:10-11 | a parse succeeds only below the type's limit and then agrees with the digits' value; every number below the limit is read |
| Strings.ParseNatsMeaning | aoc21_07/src/main.rs:9-13 | succeeds exactly when every piece is a number below the width limit of the parsed type, and then reads each piece in place |
| CrabAlignment.ReadWritten | aoc21_07/src/main.rs:5-14 | `u32` numbers written out, joined by commas and ended by a newline read back as those numbers |
| CrabAlignment.SeriesSumIsTriangle | aoc21_07/src/main.rs:16-18 | the closed form equals 1 + 2 + ... + n |
| CrabAlignment.SeriesSumExamples | aoc21_07/src/main.rs:68-73 | series_sum gives 1, 3, 6, 10 for 1 to 4 |
| CrabAlignment.SeriesSumMonotone | aoc21_07/src/main.rs:16-18 | series_sum never decreases and is at least its argument |
| CrabAlignment.TwiceSeriesSum | aoc21_07/src/main.rs:16-18 | twice series_sum(n) is n² + n |
| CrabAlignment.LinearDistanceZero | aoc21_07/src/main.rs:20-22 | the linear cost is zero exactly when every crab is already at the position |
| CrabAlignment.SeriesCostDominates | aoc21_07/src/main.rs:20-26 | the part-two cost of a position is never below its linear cost |
| CrabAlignment.SeriesSumDistanceClosed | aoc21_07/src/main.rs:24-26 | twice the part-two cost is the sum of squared distances plus the linear cost |
| CrabAlignment.CostsAppend | aoc21_07/src/main.rs:20-22 | the cost of a concatenation of crabs is the sum of the parts' costs |
| CrabAlignment.MinOf | aoc21_07/src/main.rs:29-32 | the result is a crab's position and no crab is left of it |
| CrabAlignment.MaxOf | aoc21_07/src/main.rs:33-36 | the result is a crab's position and no crab is right of it |
| CrabAlignment.MinCostOver | aoc21_07/src/main.rs:37-42 | no position in the range costs less than the result |
| CrabAlignment.MinCostAttained | aoc21_07/src/main.rs:37-42 | the result is the cost of some position in the range |
| CrabAlignment.FindMinCostIsMinimum | aoc21_07/src/main.rs:28-43 | find_min_cost is the least cost over the positions from the leftmost to the rightmost crab, and is attained there |
| CrabAlignment.FindMinCostIs | aoc21_07/src/main.rs:28-43 | a cost attained in the range that no position beats is the result |
| CrabAlignment.CostsBelow | aoc21_07/src/main.rs:20-26 | left of every crab, moving further left never lowers either cost |
| CrabAlignment.CostsAbove | aoc21_07/src/main.rs:20-26 | right of every crab, moving further right never lowers either cost |
| CrabAlignment.FindMinCostIsGlobal | aoc21_07/src/main.rs:28-43 | searching only between the extreme crabs loses nothing: no position at all is cheaper |
| CrabAlignment.PartOne | aoc21_07/src/main.rs:45-47 | an answer exactly when the input reads as numbers |
| CrabAlignment.PartTwo | aoc21_07/src/main.rs:49-51 | an answer exactly when the input reads as numbers |
| CrabAlignment.PartTwoAtLeastPartOne | aoc21_07/src/main.rs:45-51 | part two's answer is never below part one's |
| CrabAlignment.SampleReads | aoc21_07/src/main.rs:65 | the sample reads as its ten positions |
| CrabAlignment.SampleLinearBound | aoc21_07/src/main.rs:20-26 | the sample's crabs cost at least 37 anywhere, and their squared distances are 10i² - 98i + 531 |
| CrabAlignment.SampleCosts | aoc21_07/src/main.rs:20-26 | position 2 costs 37 and position 5 costs 168, and no position costs less |
| CrabAlignment.SampleAnswersOf | aoc21_07/src/main.rs:45-51 | input reading as the sample's crabs gives 37 and 168 |
| CrabAlignment.SampleAnswers | aoc21_07/src/main.rs:65-88 | the sample gives 37 and 168 |
| Strings.SplitOnClean | aoc22_01/src/main.rs:7 | text holding no occurrence of the separator, followed by the separator, splits off as the first piece |
| Strings.SplitOnJoinClean | aoc22_01/src/main.rs:7 | pieces joined by a separator none of them holds split back into those pieces |
| Strings.JoinedNumbers | aoc22_01/src/main.rs:7-9 | numbers joined by a non-digit separator start and end with a digit and have every separator followed by a digit |
| Strings.JoinedNumbersClean | aoc22_01/src/main.rs:7-9 | numbers joined by single newlines hold no blank line |
| Strings.WrittenNumbersRead | aoc21_07/src/main.rs:8-13 | numbers within the width limit, written out and joined, split and parse back to the numbers |
| Strings.TrimLine | aoc21_07/src/main.rs:7 | a line with its final newline trims to the bare line |
| Calories.GroupSums | aoc22_01/src/main.rs:7-16 | one total per group when every group parses |
| Calories.GroupSumsMeaning | aoc22_01/src/main.rs:7-16 | the groups' totals exist exactly when every group parses, and then hold each group's total in place |
| Calories.GroupSumsOf | aoc22_01/src/main.rs:7-16 | groups that each total as given yield exactly those totals, in order |
| Calories.SumsOfGroups | aoc22_01/src/main.rs:6-17 | a readable input gives at least one total |
| Calories.Max | aoc22_01/src/main.rs:21 | the maximum is one of the totals and no total exceeds it |
| Calories.PartOne | aoc22_01/src/main.rs:19-23 | an answer exists exactly when the input parses |
| Calories.Insert | aoc22_01/src/main.rs:26 | inserting into a descending list keeps it descending, adds exactly that number and adds it to the sum |
| Calories.SortDescending | aoc22_01/src/main.rs:26-27 | the totals sorted largest first are descending and a permutation of the totals |
| Calories.DescendingUnique | aoc22_01/src/main.rs:26-27 | two descending permutations of the same totals are equal, so the sorted order is determined |
| Calories.TopThreeOfFew | aoc22_01/src/main.rs:28-29 | with three totals or fewer all of them are summed |
| Calories.DescendingFirstIsMax | aoc22_01/src/main.rs:21-27 | the first total in descending order is the maximum |
| Calories.TopThreeAtLeastMax | aoc22_01/src/main.rs:26-29 | the three taken include the maximum, and no total left out exceeds one taken |
| Calories.PartTwo | aoc22_01/src/main.rs:25-30 | an answer exists exactly when the input parses |
| Calories.PartTwoAtLeastPartOne | aoc22_01/src/main.rs:19-30 | the top three together are at least the largest |
| Calories.ReadWrittenGroup | aoc22_01/src/main.rs:8-15 | one elf's `u32` numbers written one a line total to their sum |
| Calories.ReadGroupTexts | aoc22_01/src/main.rs:7 | group texts joined by blank lines split and total back to their totals |
| Calories.ReadWrittenGroups | aoc22_01/src/main.rs:6-17 | inventories of `u32` numbers written one number a line, blank lines between elves, read back as each elf's total |
| Calories.SampleAnswers | aoc22_01/src/main.rs:44-58 | the sample gives 24000 and 45000 |
| Strings.JoinSnoc | aoc_utils/src/lib.rs:43 | joining one more piece appends the separator and that piece |
| Strings.LinesOfText | aoc_utils/src/lib.rs:43 | newline-terminated lines read back as exactly those lines |
| Strings.ParseEachSkips | aoc_utils/src/lib.rs:43-47 | a line the parser rejects is skipped, as if it were absent |
| SonarSweep.Increases | aoc21_01/src/main.rs:7-9 | the count of increases is at most one less than the number of depths (zero for none) |
| SonarSweep.GapIncreases | aoc21_01/src/main.rs:14-19 | comparisons over a gap number at most the depths minus the gap |
| SonarSweep.WindowSums | aoc21_01/src/main.rs:13-16 | one sum per run of three neighbouring depths, each the sum of exactly those three |
| SonarSweep.IncreasesIsGapOne | aoc21_01/src/main.rs:7-9 | counting increases is comparing each depth with the next |
| SonarSweep.WindowIncreases | aoc21_01/src/main.rs:12-20 | the window sums increase exactly where a depth is larger than the one three before it |
| SonarSweep.RisingCountsAll | aoc21_01/src/main.rs:7-9 | a strictly rising list reaches the bound of one increase per neighbouring pair |
| SonarSweep.FallingCountsNone | aoc21_01/src/main.rs:7-9 | a list that never rises has no increase |
| SonarSweep.AnswerBounds | aoc21_01/src/main.rs:5-20 | part one is at most max(0, n-1) and part two at most max(0, n-3) for n depths |
| SonarSweep.UnreadableLineSkipped | aoc21_01/src/main.rs:6-13 | a line that is not a u32 changes neither answer |
| SonarSweep.ReadWritten | aoc21_01/src/main.rs:6 | depths written one a line read back as those depths |
| SonarSweep.SampleAnswers | aoc21_01/src/main.rs:34-43 | the sample gives 7 and 5 |
| Rucksacks.Priority | aoc22_03/src/main.rs:17-23 | a lower-case letter's priority is its place in the alphabet, an upper-case letter's is 26 more |
| Rucksacks.PriorityRanges | aoc22_03/src/main.rs:17-23 | lower-case letters get priorities 1 to 26 and upper-case ones 27 to 52, both directions |
| Rucksacks.PriorityInjective | aoc22_03/src/main.rs:17-23 | distinct letters have distinct priorities |
| Rucksacks.PriorityOnto | aoc22_03/src/main.rs:17-23 | every priority from 1 to 52 belongs to some letter |
| Rucksacks.LinePriority | aoc22_03/src/main.rs:6-16 | `None` when the halves share no item type; a result when they share some and all of those have a priority; a result is the priority of one shared item; a `None` with shared items means one of them makes `get_priority` underflow |
| Rucksacks.LinePriorityOfOne | aoc22_03/src/main.rs:6-23 | when the halves share exactly one item type the result is its priority, or `None` when `get_priority` underflows on it |
| Rucksacks.LinePriorityExamples | aoc22_03/src/main.rs:64-68 | "abcdae" gives 1 and "AbcdAe" gives 27 |
| Rucksacks.LinePriorityOfOthers | aoc22_03/src/main.rs:6-23 | only the shared item needs a priority: "1aba" gives 1, and "1a1b", whose halves share '1', panics |
| Rucksacks.LinesPriorityMeaning | aoc22_03/src/main.rs:24-26 | the sum exists exactly when no line panics, and bounds each line's priority |
| Rucksacks.LinesPriorityAppend | aoc22_03/src/main.rs:24-26 | rucksacks read one after another add up |
| Rucksacks.SetSumRemove | aoc22_03/src/main.rs:39-43 | the sum of a set's priorities does not depend on the order the set is walked |
| Rucksacks.OneBadge | aoc22_03/src/main.rs:37-45 | a group sharing exactly one badge, which has a priority, adds that badge's priority |
| Rucksacks.IncompleteGroupIgnored | aoc22_03/src/main.rs:37-45 | a final group of one or two rucksacks contributes nothing and cannot panic, whatever it holds |
| Rucksacks.CountThree | aoc22_03/src/main.rs:34-40 | three rucksacks count an item three times exactly when all of them hold it |
| Rucksacks.CountItems | aoc22_03/src/main.rs:34-36 | every item type of the line counted exactly once more, every other count unchanged |
| Rucksacks.SumThrees | aoc22_03/src/main.rs:39-43 | `None` exactly when an item type counted three times has no priority; otherwise the sum of the priorities of exactly the item types counted three times |
| Rucksacks.CountLine | aoc22_03/src/main.rs:33-36 | counts of a group so far become the counts of the group with this line |
| Rucksacks.SettleGroup | aoc22_03/src/main.rs:37-45 | the end of a group adds the priorities of the items all three rucksacks hold, or panics exactly when one of them has no priority |
| Rucksacks.SumBadges | aoc22_03/src/main.rs:29-47 | `None` exactly when a badge of a complete group of three has no priority; otherwise the total badge priority of the complete groups |
| Rucksacks.PartTwo | aoc22_03/src/main.rs:28-48 | over the lines of the input: `None` exactly when a badge of a complete group of three has no priority; otherwise the total badge priority of the complete groups |
| Strings.SplitOnceAt | aoc21_02/src/main.rs:24-26 | text whose first part holds no separator splits at the separator after it |
| Strings.SplitOnceNone | aoc21_02/src/main.rs:24-38 | text without the separator does not split |
| Dive.ParseShow | aoc21_02/src/main.rs:23-40 | every command "forward n", "up n", "down n" written out reads back as itself |
| Dive.ParseExample | aoc21_02/src/main.rs:99-101 | "forward 5" reads as Forward(5) |
| Dive.NoSpaceError | aoc21_02/src/main.rs:24-38 | a line without a space is a SplitError |
| Dive.BadDistanceError | aoc21_02/src/main.rs:27-35 | a distance that is not a usize is a ParseDistanceError whatever the word |
| Dive.UnknownWordError | aoc21_02/src/main.rs:29-33 | a valid distance after an unknown word is a ParseVariantError |
| Dive.CourseTotals | aoc21_02/src/main.rs:45-54 | horizontal position is the total forward distance, depth the total down less the total up |
| Dive.Steer | aoc21_02/src/main.rs:45-55 | `None` (the `usize` subtraction panics) exactly when some prefix of the course rises above the surface; otherwise position times depth |
| Dive.PartOne | aoc21_02/src/main.rs:43-56 | for the course read from the input: `None` exactly when it rises above the surface, else position times depth |
| Dive.AimIsDepth | aoc21_02/src/main.rs:64-73 | part two's aim follows part one's depth and both parts share the horizontal position |
| Dive.SafeBoth | aoc21_02/src/main.rs:52-71 | a course underflows part two's aim exactly when it underflows part one's depth |
| Dive.AimDepthIsWeighted | aoc21_02/src/main.rs:66-69 | part two's depth is the sum over forward moves of distance times part one's depth at that point |
| Dive.AimDepthGrows | aoc21_02/src/main.rs:66-71 | along a safe course part two's depth never decreases |
| Dive.SteerByAim | aoc21_02/src/main.rs:59-74 | `None` (the `usize` subtraction panics) exactly when the aim of some prefix goes negative; otherwise position times depth |
| Dive.PartTwo | aoc21_02/src/main.rs:58-75 | for the course read from the input: `None` exactly when its aim goes negative, else position times depth of the aimed course |
| Dive.ShowLine | aoc21_02/src/main.rs:23-40 | a written command is one line and reads back as itself |
| Dive.ReadWritten | aoc21_02/src/main.rs:44-59 | a course written one command a line reads back as itself |
| Dive.SampleCourseSafe | aoc21_02/src/main.rs:103-117 | the sample course never rises above the surface and gives 150 and 900 |
| Dive.SurfacingPanics | aoc21_02/src/main.rs:52-70 | the course "up 1" rises above the surface and turns the aim negative, so both parts panic on it |
| Dive.SampleAnswers | aoc21_02/src/main.rs:103-117 | the sample text reads as a safe course giving 150 and 900 |
| CathodeRay.ParseShow | aoc22_10/src/main.rs:12-21 | "noop" reads as a noop and "addx n" for every i32 n reads as that addx |
| CathodeRay.NoopPrefix | aoc22_10/src/main.rs:13-14 | any line that starts with "noop" is a noop, whatever follows |
| CathodeRay.MissingSpaceError | aoc22_10/src/main.rs:16-18 | a line that is not a noop and has no space is an error where the source panics |
| CathodeRay.ReadAll | aoc22_10/src/main.rs:12-21 | the program reads only when every line reads, one instruction per line in order; otherwise the error is some line's error |
| CathodeRay.ReadWritten | aoc22_10/src/main.rs:12-21 | a program written one instruction a line reads back as itself |
| CathodeRay.Values | aoc22_10/src/main.rs:22-33 | the register list holds one more value than the program has cycles, and its last value is 1 plus everything the addx instructions add |
| CathodeRay.RegisterValues | aoc22_10/src/main.rs:22-33 | the loop that pushes onto the vector builds exactly the register list |
| CathodeRay.GetRegisterValues | aoc22_10/src/main.rs:11-34 | the register list of the program read from the input, or the parse error where the source panics |
| CathodeRay.ValuesLength | aoc22_10/src/main.rs:22-32 | the register list has 1 + noops + 2 * addxs values |
| CathodeRay.CyclesGrow | aoc22_10/src/main.rs:23-32 | a prefix of the program takes no more cycles than the program |
| CathodeRay.ValueDuringCycle | aoc22_10/src/main.rs:23-40 | the value at index t is 1 plus the additions of the instructions that finished within the first t cycles |
| CathodeRay.RunAppend | aoc22_10/src/main.rs:23-32 | running two programs in sequence pushes the first's values, then the second's from where the first left the register |
| CathodeRay.RunFromIsRun | aoc22_10/src/main.rs:23-32 | pushing values last instruction last agrees with threading the register through the program from the front |
| CathodeRay.StepRange | aoc22_10/src/main.rs:38-39 | the inclusive range starts at its first value, steps by the step, stays within the bound and stops before passing it |
| CathodeRay.CheckpointsAre | aoc22_10/src/main.rs:38-39 | the cycles that count are 20, 60, 100, 140, 180 and 220 |
| CathodeRay.PartOne | aoc22_10/src/main.rs:36-41 | an answer exists only for a program that reads and runs at least 219 cycles, where the source would panic instead |
| CathodeRay.StrengthSum | aoc22_10/src/main.rs:38-40 | part one is the sum of each checkpoint cycle times the register during that cycle |
| CathodeRay.Pixels | aoc22_10/src/main.rs:45-53 | pixel i is '#' exactly when the sprite during cycle i + 1 covers column i mod 40, and '.' otherwise |
| CathodeRay.PartTwo | aoc22_10/src/main.rs:43-55 | the screen has 240 pixels when the program reads and runs at least 239 cycles |
| CathodeRay.PixelOfProgram | aoc22_10/src/main.rs:45-53 | the pixel at row r and column c is lit exactly when the register, as moved by the finished instructions, is within 1 of c |
| CathodeRay.SteadyRow | aoc22_10/src/main.rs:48 | in a row where the register stays at x, exactly columns x - 1 to x + 1 are lit |
| TuningTrouble.UniqueCount | aoc22_06/src/main.rs:21 | the count of different characters is at most the length, and equals it exactly when no character repeats |
| TuningTrouble.RepeatedLast | aoc22_06/src/main.rs:21 | a last character seen before adds no new character and makes the window not all different |
| TuningTrouble.FreshLast | aoc22_06/src/main.rs:21 | a new last character adds one to the count and leaves the window all different exactly when the rest was |
| TuningTrouble.CharsOf | aoc22_06/src/main.rs:21 | the collected characters are exactly those of the window |
| TuningTrouble.Search | aoc22_06/src/main.rs:16-25 | the search returns one past the first marker at or after the start, or 0 when there is none |
| TuningTrouble.Slide | aoc22_06/src/main.rs:17-21 | one step of the loop keeps the deque equal to the last size characters (all of them while fewer were read), and its different-character count reaches size exactly at a marker |
| TuningTrouble.FindMarker | aoc22_06/src/main.rs:14-26 | the loop returns one past the first position whose last size characters are all different, or 0 |
| TuningTrouble.PartOne | aoc22_06/src/main.rs:6-8 | part one is the first marker of four characters |
| TuningTrouble.PartTwo | aoc22_06/src/main.rs:10-12 | part two is the first marker of fourteen characters |
| TuningTrouble.MarkerMeaning | aoc22_06/src/main.rs:21-25 | the answer is 0 exactly when there is no marker; otherwise it is at least size, at most the length, and one past a marker |
| TuningTrouble.NoEmptyMarker | aoc22_06/src/main.rs:17-21 | with size 0 the answer is 0, since the deque is never empty when it is compared |
| TuningTrouble.ShortStreamNoMarker | aoc22_06/src/main.rs:21-25 | a stream shorter than size has no marker |
| TuningTrouble.MarkerKept | aoc22_06/src/main.rs:22 | characters after a marker do not move it |
| TuningTrouble.FirstMarker | aoc22_06/src/main.rs:16-23 | a marker with none before it is the answer |
| TuningTrouble.SampleOne | aoc22_06/src/main.rs:41 | the first sample's marker is 7 |
| TuningTrouble.SampleTwo | aoc22_06/src/main.rs:42 | the second sample's marker is 5 |
| TuningTrouble.SampleThree | aoc22_06/src/main.rs:43 | the third sample's marker is 10 |
| TuningTrouble.SampleFour | aoc22_06/src/main.rs:44 | the fourth sample's marker is 11 |
| SantaHouses.Increment | aoc15_03/src/main.rs:5-10 | the key's count goes up by one from 0 when absent; every other key and count is unchanged |
| SantaHouses.Move | aoc15_03/src/main.rs:17-23 | each arrow moves to a different house |
| SantaHouses.TallyStep | aoc15_03/src/main.rs:24 | bumping the counter for a house keeps the map an exact tally of the visits |
| SantaHouses.WalkSnoc | aoc15_03/src/main.rs:16-25 | one more arrow extends the walk by the house one step from the last |
| SantaHouses.PartsAt | aoc15_03/src/main.rs:35-42 | Santa's arrows are those at even positions and Robo-Santa's those at odd positions, in order |
| SantaHouses.PartsSnoc | aoc15_03/src/main.rs:37-41 | an arrow after an even number of arrows goes to Santa, after an odd number to Robo-Santa |
| SantaHouses.PairSnoc | aoc15_03/src/main.rs:35-50 | each arrow moves only the walker whose turn it is |
| SantaHouses.PartOne | aoc15_03/src/main.rs:12-27 | the size of the counter map is the number of distinct houses on Santa's walk; no answer on a non-arrow |
| SantaHouses.PartTwo | aoc15_03/src/main.rs:29-53 | the size of the counter map is the number of distinct houses on either walk; no answer on a non-arrow |
| SantaHouses.TallySize | aoc15_03/src/main.rs:26 | a map that tallies the visits has one key per distinct house |
| SantaHouses.HousesBound | aoc15_03/src/main.rs:12-27 | a walk of n houses reaches at most n distinct houses and at least its start |
| SantaHouses.HousesDistinct | aoc15_03/src/main.rs:12-27 | a walk that never returns reaches as many houses as it lists |
| SantaHouses.SantaBounds | aoc15_03/src/main.rs:12-27 | the origin always gets a present; n arrows give at most n + 1 houses |
| SantaHouses.PairBounds | aoc15_03/src/main.rs:29-53 | with two walkers the origin still gets a present and n arrows give at most n + 1 houses |
| SantaHouses.WalkPrefix | aoc15_03/src/main.rs:16-25 | the walk of a prefix is a prefix of the walk |
| SantaHouses.SantaHousesGrow | aoc15_03/src/main.rs:12-27 | more arrows never shrink the set of houses |
| SantaHouses.WalkUnique | aoc15_03/src/main.rs:14-25 | the walk is the only house sequence from the start taking one arrow per step |
| SantaHouses.PartsOf | aoc15_03/src/main.rs:35-42 | the two shares are determined by the arrows at even and odd positions |
| SantaHouses.PairHousesOf | aoc15_03/src/main.rs:29-53 | part two's houses are the houses of the two walks |
| SantaHouses.PairCount | aoc15_03/src/main.rs:29-53 | part two's count is the number of distinct houses on the two walks |
| SantaHouses.IncrementSample | aoc15_03/src/main.rs:72-80 | bumping an entry stored at 0 gives 1; bumping a new key twice gives 2 |
| SantaHouses.SampleOneA | aoc15_03/src/main.rs:84 | ">" reaches 2 houses |
| SantaHouses.SampleOneB | aoc15_03/src/main.rs:85 | "^>v<" reaches 4 houses |
| SantaHouses.SampleOneC | aoc15_03/src/main.rs:86 | "^v^v^v^v^v" reaches 2 houses |
| SantaHouses.SampleTwoA | aoc15_03/src/main.rs:96 | "^v" with two walkers reaches 3 houses |
| SantaHouses.SampleTwoB | aoc15_03/src/main.rs:97 | "^>v<" with two walkers reaches 3 houses |
| SantaHouses.SampleTwoC | aoc15_03/src/main.rs:98 | "^v^v^v^v^v" with two walkers reaches 11 houses |
| Lanternfish.Day | aoc21_06/src/main.rs:28-41 | (reference) one day for the fish one by one: every fish ages, each fish at 0 adds one at 8; the school grows by the fish at 0 |
| Lanternfish.OlderCounts | aoc21_06/src/main.rs:31-39 | a day later, timer t holds the fish from t + 1, timer 6 also those from 0, and nobody ages into 8 |
| Lanternfish.BucketsDay | aoc21_06/src/main.rs:28-41 | the buckets of the school a day later are the aged buckets: `increment` follows the fish exactly |
| Lanternfish.BucketsDays | aoc21_06/src/main.rs:13-15 | the same over any number of days |
| Lanternfish.SumBuckets | aoc21_06/src/main.rs:43-45 | the buckets add up to the number of fish |
| Lanternfish.SumBump | aoc21_06/src/main.rs:51 | adding one to a bucket adds one to the total |
| Lanternfish.AgeSum | aoc21_06/src/main.rs:31-39 | after `increment` the total is the old total plus the old bucket 0 |
| Lanternfish.AgeDaysAdd | aoc21_06/src/main.rs:13-15 | m days and then n more are m + n days |
| Lanternfish.SizeByBuckets | aoc21_06/src/main.rs:5-17 | the number of fish after n days is the sum of the buckets aged n times |
| Lanternfish.DaysGrow | aoc21_06/src/main.rs:31-39 | the school never shrinks |
| Lanternfish.BucketsSnoc | aoc21_06/src/main.rs:47-52 | one more fish at timer t adds one to bucket t only |
| Lanternfish.School.constructor | aoc21_06/src/main.rs:24-26 | nine empty buckets, standing for no fish |
| Lanternfish.School.Increment | aoc21_06/src/main.rs:28-41 | the buckets are replaced by the aged ones and the fish they stand for live one more day |
| Lanternfish.School.Aged | aoc21_06/src/main.rs:29-39 | the fresh bucket array `increment` fills in is the aged buckets |
| Lanternfish.School.IncrementDays | aoc21_06/src/main.rs:13-15 | `increment` once a day for `days` days: the fish are those after `days` days |
| Lanternfish.School.Count | aoc21_06/src/main.rs:43-45 | the total over the buckets is the number of fish |
| Lanternfish.School.Enroll | aoc21_06/src/main.rs:47-52 | a timer of at most 8 adds one fish to its bucket; a larger timer is refused (the source panics) and changes nothing |
| Lanternfish.ReadSchool | aoc21_06/src/main.rs:7-12 | the timers read are all at most 8 |
| Lanternfish.ReadStops | aoc21_06/src/main.rs:7-12 | a piece that is not a number or is above 8 leaves no school |
| Lanternfish.ReadDone | aoc21_06/src/main.rs:7-12 | when every piece reads as a timer the school is those timers in order |
| Lanternfish.SpawnFish | aoc21_06/src/main.rs:5-17 | the answer is the number of fish after `days` days, or none where the source panics |
| Lanternfish.SpawnByBuckets | aoc21_06/src/main.rs:5-17 | that number is the sum of the starting buckets aged `days` times |
| Lanternfish.AgeEight | aoc21_06/src/main.rs:28-41 | eight days at once: each bucket is a sum of at most three buckets eight days earlier |
| Lanternfish.IncrementSample | aoc21_06/src/main.rs:76-82 | [3,1,1,2,1,0,0,0,0] becomes [1,1,2,1,0,0,3,0,3] |
| Lanternfish.ReadWritten | aoc21_06/src/main.rs:7-12 | timers written out and joined by commas read back as those timers |
| Lanternfish.SampleReads | aoc21_06/src/main.rs:86 | "3,4,3,1,2" reads as the fish 3, 4, 3, 1, 2 |
| Lanternfish.SampleBuckets | aoc21_06/src/main.rs:86 | the sample's buckets are [0,1,1,2,1,0,0,0,0] |
| Lanternfish.SpawnSample | aoc21_06/src/main.rs:85-87 | the sample gives 26 fish after 18 days |
| Lanternfish.PartOneSample | aoc21_06/src/main.rs:90-92 | the sample gives 5934 fish after 80 days |
| Lanternfish.PartTwoSample | aoc21_06/src/main.rs:100-102 | the sample gives 26984457539 fish after 256 days |
| RopeBridge.Chebyshev | aoc22_09/src/main.rs:6-14 | the distance is the larger of the two coordinate distances |
| RopeBridge.ChebyshevSymmetric | aoc22_09/src/main.rs:6-14 | the distance does not depend on argument order |
| RopeBridge.ChebyshevZero | aoc22_09/src/main.rs:6-14 | distance zero exactly when the positions coincide |
| RopeBridge.ChebyshevTriangle | aoc22_09/src/main.rs:6-14 | the distance obeys the triangle inequality |
| RopeBridge.MoveTail | aoc22_09/src/main.rs:16-36 | the tail moves by the returned step and never more than one square (diagonals included); a touching tail stays; otherwise every non-zero gap to the head along an axis shrinks by one, so the tail ends exactly one closer |
| RopeBridge.MoveTailTouches | aoc22_09/src/main.rs:16-36 | a tail two away ends up touching the head |
| RopeBridge.MoveTailShift | aoc22_09/src/main.rs:16-36 | the step depends only on the difference between head and tail |
| RopeBridge.MoveTailStaysSamples | aoc22_09/src/main.rs:92-101 | the nine `move_tail` test cases where the tail already touches the head and stays |
| RopeBridge.MoveTailStraightSamples | aoc22_09/src/main.rs:102-110 | the six `move_tail` test cases where the tail follows along a row or column |
| RopeBridge.MoveTailDiagonalSamples | aoc22_09/src/main.rs:111-114 | the three `move_tail` test cases where the tail moves diagonally |
| RopeBridge.Pull | aoc22_09/src/main.rs:57-60 | a sub-step keeps the rope's length and its head |
| RopeBridge.PullAt | aoc22_09/src/main.rs:57-60 | each follower ends where `move_tail` puts it behind its leader's new place |
| RopeBridge.PullMovesLittle | aoc22_09/src/main.rs:57-60 | no follower moves more than one step in a sub-step |
| RopeBridge.PullSettled | aoc22_09/src/main.rs:57-60 | a rope whose knots all touch their leaders does not move |
| RopeBridge.PullNext | aoc22_09/src/main.rs:57-60 | pulling one more knot appends `move_tail`'s new place for it behind the pulled front |
| RopeBridge.PullKnot | aoc22_09/src/main.rs:58-59 | one pass of the follower loop extends the pulled front by one knot and leaves the rest of the rope as it was |
| RopeBridge.PullRope | aoc22_09/src/main.rs:57-60 | the in-place follower loop computes `Pull` |
| RopeBridge.ParseMotion | aoc22_09/src/main.rs:43-55 | a parsed magnitude is within the 32-bit range |
| RopeBridge.ReadMotions | aoc22_09/src/main.rs:42-55 | one motion per line when reading succeeds |
| RopeBridge.ReadMotionsMeaning | aoc22_09/src/main.rs:42-55 | reading succeeds exactly when every line parses, and then holds each line's motion in order |
| RopeBridge.ReadMotionsStep | aoc22_09/src/main.rs:42-55 | one bad line makes the whole input fail; a good one extends the motions read |
| RopeBridge.StepRope | aoc22_09/src/main.rs:57-61 | one sub-step pulls the rope and records its last knot, as `Step` says |
| RopeBridge.PullTimes | aoc22_09/src/main.rs:56-62 | the `for _ in 0..mag` loop takes `count` sub-steps in a row |
| RopeBridge.Move | aoc22_09/src/main.rs:50-62 | the body of the motion loop computes `Apply`: head jump, then one pull and one record per unit |
| RopeBridge.SimulateRope | aoc22_09/src/main.rs:38-65 | the simulation returns the size of the visited set of `Run` over the parsed motions, or `None` where the source panics |
| RopeBridge.SubStepsGrow | aoc22_09/src/main.rs:56-62 | visited places stay visited and each sub-step adds at most one |
| RopeBridge.RunBounds | aoc22_09/src/main.rs:38-65 | the origin is always visited; the count lies between 1 and one more than the total sub-steps |
| RopeBridge.PartOne | aoc22_09/src/main.rs:67-69 | two knots; the answer is `Simulate(input, 2)` and within the bounds |
| RopeBridge.PartTwo | aoc22_09/src/main.rs:71-73 | ten knots; the answer is `Simulate(input, 10)` and within the bounds |
| Vents.LessOrder | aoc21_05/src/types.rs:4-8 | the derived ordering (x first, then y) is irreflexive, transitive, total and asymmetric |
| Vents.ParsePoint | aoc21_05/src/types.rs:22-41 | a parsed point has both coordinates in the 32-bit range |
| Vents.PointOfPieces | aoc21_05/src/types.rs:24-40 | the pieces give a point only when there are exactly two and both parse as `i32` |
| Vents.ParsePointCommas | aoc21_05/src/types.rs:23-39 | text that does not trim to exactly two comma-separated pieces is rejected (the source panics) |
| Vents.ParseLineArrows | aoc21_05/src/types.rs:53-69 | text that does not split into exactly two pieces at "->" is rejected (the source panics) |
| Vents.ParsePointPadded | aoc21_05/src/types.rs:22-41 | a written point with whitespace around it reads back |
| Vents.ParsePointText | aoc21_05/src/types.rs:22-41 | every point within the 32-bit range, written as "x,y", reads back |
| Vents.ParseLineOf | aoc21_05/src/types.rs:52-71 | two readable points around " -> " read as the line between them |
| Vents.ParseLineText | aoc21_05/src/types.rs:52-71 | every line within the 32-bit range, written as "x1,y1 -> x2,y2", reads back |
| Vents.Points | aoc21_05/src/types.rs:75-103 | one point more than the larger coordinate distance, starting with `src`, ending with `dst`, the middle ones `i` steps of (sign dx, sign dy) along |
| Vents.StraightPoints | aoc21_05/src/types.rs:77-101 | on a horizontal, vertical or 45-degree line every point is `i` steps along and consecutive points differ by (sign dx, sign dy) |
| Vents.StraightDistinct | aoc21_05/src/types.rs:77-101 | such a line passes through no point twice |
| Vents.AlongDistinct | aoc21_05/src/types.rs:77-101 | on a line of more than one point, different step counts land on different points |
| Vents.GetPoints | aoc21_05/src/types.rs:75-103 | the pushing loop builds exactly `Points` |
| Vents.GetPointsSample | aoc21_05/src/types.rs:146-158 | 1,2 -> 1,5 gives the four points of the test |
| Vents.Increment | aoc21_05/src/main.rs:19 | the entry of the point goes up by one (from 0 when absent) and no other entry changes |
| Vents.TallyStep | aoc21_05/src/main.rs:18-20 | incrementing an entry tallies exactly one more visit of that point |
| Vents.Draw | aoc21_05/src/main.rs:18-20 | drawing a line adds each of its points once per occurrence to the counts |
| Vents.DrawLine | aoc21_05/src/main.rs:17-21 | a line is drawn only when it counts (both parts for axis lines, part two for all) |
| Vents.DrawStart | aoc21_05/src/main.rs:13 | the empty map tallies no lines |
| Vents.DrawStep | aoc21_05/src/main.rs:15-22 | the map after one more line tallies one more line's visits |
| Vents.DrawEnd | aoc21_05/src/main.rs:15-22 | after the last line the map tallies all visits |
| Vents.DrawPanics | aoc21_05/src/main.rs:17-18 | a drawn line of one point makes the whole input unusable (the source underflows) |
| Vents.DrawAll | aoc21_05/src/main.rs:14-22 | the first loop succeeds exactly when no drawn line is a single point, and then the map holds every point's visit count |
| Vents.AboveOneStep | aoc21_05/src/main.rs:24-28 | one more key adds one to the count exactly when its entry is above one |
| Vents.CountAboveOne | aoc21_05/src/main.rs:24-29 | the counting loop returns the number of entries above one |
| Vents.TallyOverlapping | aoc21_05/src/main.rs:24-29 | the entries above one are exactly the points visited more than once |
| Vents.CountPointsVisitedMoreThanOnce | aoc21_05/src/main.rs:11-30 | the result is the number of points visited more than once, or `None` where the source panics |
| Vents.PartOne | aoc21_05/src/main.rs:31-33 | horizontal and vertical lines only |
| Vents.PartTwo | aoc21_05/src/main.rs:34-36 | every line |
| Vents.PartOneAxisOnly | aoc21_05/src/main.rs:17 | part one draws exactly the lines with equal x or equal y; part two draws every line |
| Vents.VisitsGrow | aoc21_05/src/main.rs:17 | every visit part one counts, part two counts too |
| Vents.PartTwoAtLeastPartOne | aoc21_05/src/main.rs:31-36 | whenever part two has an answer, part one has one too, and it is no larger |
| MonkeyInTheMiddle.QuotRounds | aoc22_11/src/monkey.rs:31 | Rust's `/` rounds toward zero: the remainder is smaller than the divisor and has the dividend's sign |
| MonkeyInTheMiddle.RemOfAbs | aoc22_11/src/main.rs:22-24 | Rust's `%` is the remainder of the absolute values, carrying the dividend's sign |
| MonkeyInTheMiddle.RemZero | aoc22_11/src/main.rs:24 | the remainder is zero exactly when the dividend is a multiple of the divisor, whatever its sign |
| MonkeyInTheMiddle.Apply | aoc22_11/src/monkey.rs:26-34 | add, subtract, multiply, divide by the operand or square; only a division by zero fails |
| MonkeyInTheMiddle.ApplySamples | aoc22_11/src/monkey.rs:113-118 | the four cases of the unit test of `apply` |
| MonkeyInTheMiddle.OpOfOperand | aoc22_11/src/monkey.rs:63-77 | the operand "old" squares whatever the operator; another operand must read as an `i64`, and an operator other than + - * / fails |
| MonkeyInTheMiddle.OpOfText | aoc22_11/src/monkey.rs:63-78 | every operation with an `i64` operand, written as operator and operand, reads back as itself |
| MonkeyInTheMiddle.GetMonkey | aoc22_11/src/monkey.rs:44-103 | a converted monkey has no inspections yet and one item per ", "-separated piece |
| MonkeyInTheMiddle.GetMonkeyOf | aoc22_11/src/monkey.rs:44-103 | a monkey holding items, with numbers in range, written out as its captures reads back with its count reset to zero |
| MonkeyInTheMiddle.ItemsRead | aoc22_11/src/monkey.rs:50-56 | items written and joined with ", " read back as the items |
| MonkeyInTheMiddle.Relief | aoc22_11/src/main.rs:19-23 | relief fails only in part two with a zero common multiple |
| MonkeyInTheMiddle.Inspect | aoc22_11/src/main.rs:14-28 | an inspection goes through only with a non-zero divisor (and, in part two, common multiple), and the item goes to one of the two destinations |
| MonkeyInTheMiddle.InspectDivisible | aoc22_11/src/main.rs:18-28 | the new level is the operation then the relief, and the item goes to `true_dst` exactly when that level is a multiple of the divisor |
| MonkeyInTheMiddle.ThrowsMeaning | aoc22_11/src/main.rs:12-29 | a turn's inspections all go through or the turn panics, and the k-th throw is the k-th item's inspection |
| MonkeyInTheMiddle.ReliefKeepsTest | aoc22_11/src/main.rs:22-24 | when the divisor divides the common multiple, part two's reduction sends the item where the unreduced level would |
| MonkeyInTheMiddle.DeliverMeaning | aoc22_11/src/main.rs:30-32 | delivery succeeds exactly when every destination is a monkey, and each queue then ends with what was thrown to it, in throwing order, nothing else changing |
| MonkeyInTheMiddle.TurnEffect | aoc22_11/src/main.rs:10-32 | after its turn a monkey holds only what it threw to itself, has one more inspection per item, and every other monkey gained what was thrown to it |
| MonkeyInTheMiddle.TurnEmpties | aoc22_11/src/main.rs:12-29 | a monkey that does not throw to itself ends its turn empty, having inspected every item it held |
| MonkeyInTheMiddle.TurnInspections | aoc22_11/src/main.rs:12-13 | a turn raises only its own monkey's count, by the number of items held |
| MonkeyInTheMiddle.TurnsInspections | aoc22_11/src/main.rs:9-33 | through the turns of a round, a monkey's count rises once, at its own turn, by what it held when that turn began |
| MonkeyInTheMiddle.RoundInspections | aoc22_11/src/main.rs:8-34 | after a round each count has risen by what the monkey held when its turn began |
| MonkeyInTheMiddle.DeliverCount | aoc22_11/src/main.rs:30-32 | delivery adds exactly one item per throw |
| MonkeyInTheMiddle.TurnCount | aoc22_11/src/main.rs:10-32 | a turn keeps the total number of items |
| MonkeyInTheMiddle.RoundsCount | aoc22_11/src/main.rs:44-46 | any number of rounds keeps the total number of items |
| MonkeyInTheMiddle.GcdDivides | aoc22_11/src/main.rs:43 | the greatest common divisor divides both numbers and is zero only when both are |
| MonkeyInTheMiddle.LcmMultiple | aoc22_11/src/main.rs:43 | the common multiple of two positive numbers is a positive multiple of each |
| MonkeyInTheMiddle.LcmOfMultiple | aoc22_11/src/main.rs:41-43 | the fold from 1 over positive divisors is a positive multiple of each |
| MonkeyInTheMiddle.LcmKeepsThrows | aoc22_11/src/main.rs:56-60 | with positive divisors, part two's reduction changes no throw |
| MonkeyInTheMiddle.TopPair | aoc22_11/src/main.rs:47-48 | two distinct positions: the largest count, and the largest of the others |
| MonkeyInTheMiddle.TopPairReordered | aoc22_11/src/main.rs:47 | any reordering of the counts has the same largest and second-largest values |
| MonkeyInTheMiddle.BusinessSorted | aoc22_11/src/main.rs:47-48 | sorting the counts and multiplying the last two gives the modelled answer |
| MonkeyInTheMiddle.InspectItem | aoc22_11/src/main.rs:18-28 | one pass of the loop body computes exactly the inspection, failing where it panics |
| MonkeyInTheMiddle.InspectAll | aoc22_11/src/main.rs:11-29 | the popping loop leaves the monkey empty with its count raised, touches no other monkey, and collects the turn's throws |
| MonkeyInTheMiddle.DeliverAll | aoc22_11/src/main.rs:30-32 | the pushing loop performs exactly the delivery |
| MonkeyInTheMiddle.TakeTurn | aoc22_11/src/main.rs:10-32 | the array afterwards is the turn's result |
| MonkeyInTheMiddle.SimulateRound | aoc22_11/src/main.rs:8-34 | the array afterwards is the round's result: every turn in index order |
| MonkeyInTheMiddle.Simulate | aoc22_11/src/main.rs:44-46 | the array afterwards is the result of the given number of rounds |
| MonkeyInTheMiddle.MonkeyBusiness | aoc22_11/src/main.rs:41-48 | the answer is the product of the two largest counts after the rounds, or `None` where the source panics |
| MonkeyInTheMiddle.PartOne | aoc22_11/src/main.rs:36-49 | twenty rounds with the worry divided by three |
| MonkeyInTheMiddle.PartTwo | aoc22_11/src/main.rs:51-65 | ten thousand rounds with the worry reduced modulo the common multiple |
| StackParse.ParseStackLine | aoc22_05/src/parse.rs:1-8 | the row holds one entry per four characters (rounded up from position 1); entry `k` is the character at position `4k+1`, a digit turned into a space |
| StackParse.PushRowMeaning | aoc22_05/src/parse.rs:20-24 | pushing a row succeeds exactly when every crate has a column, and then each column gains exactly that row's crate at its position |
| StackParse.BuildMeaning | aoc22_05/src/parse.rs:10-28 | reading the drawing fails exactly when a crate lies beyond the columns made by the lowest row with a length; otherwise there are that many columns, column `i` holding the crates at position `i` from the bottom row up |
| StackParse.ColumnNoSpace | aoc22_05/src/parse.rs:21-23 | no column holds a space |
| StackParse.ColumnBeyond | aoc22_05/src/parse.rs:15-19 | rows read before any columns exist hold no crates |
| StackParse.BuildStep | aoc22_05/src/parse.rs:13-14 | popping the next row up adds it to the columns built from the rows below |
| StackParse.BuildStop | aoc22_05/src/parse.rs:22 | once a crate has no column, reading the drawing fails |
| StackParse.PushRowStop | aoc22_05/src/parse.rs:22 | a crate at a position with no column makes the row fail |
| StackParse.AddRowTo | aoc22_05/src/parse.rs:15-24 | the loop body for one popped row: empty columns made when there are none, then every crate pushed; the result is that of `AddRow` |
| StackParse.ParseStacks | aoc22_05/src/parse.rs:10-28 | the columns read from the text are those `BuildMeaning` describes, or `None` where the source panics |
| StackParse.PopRows | aoc22_05/src/parse.rs:13-25 | popping the rows from the last to the first builds the columns bottom up |
| StackParse.ParseInstruction | aoc22_05/src/parse.rs:34-53 | a line that reads has at least six space-separated words, and its three numbers fit a `usize` |
| StackParse.ParseInstructionText | aoc22_05/src/parse.rs:34-53 | a written "move n from a to b" line whose numbers fit a `usize` reads back as `(n, a, b)` |
| StackParse.InstructionLine | aoc22_05/src/parse.rs:30-33 | a written instruction is a non-empty line without a newline that neither starts nor ends with whitespace |
| StackParse.ProcedureLines | aoc22_05/src/parse.rs:30-33 | a procedure written one instruction per line, trimmed and split into lines, gives back those lines whether or not a final newline follows |
| StackParse.ParseInstructionsText | aoc22_05/src/parse.rs:30-55 | a procedure written one instruction per line reads back as the instructions, whether or not a final newline follows |
| SupplyStacks.Reversed | aoc22_05/src/main.rs:14-21 | the reversal has the same length, entry `i` being entry `len-1-i` of the original |
| SupplyStacks.CrateByCrate | aoc22_05/src/main.rs:13-22 | between different stacks, part one's `n` single moves take the top `n` crates off `from` and put them on `to` reversed; every other stack is unchanged |
| SupplyStacks.BlockAtOnce | aoc22_05/src/main.rs:37-46 | between different stacks, part two's move takes the top `n` crates off `from` and puts them on `to` in their order; every other stack is unchanged |
| SupplyStacks.CratesOntoSelf | aoc22_05/src/main.rs:14-21 | moving crates one at a time from a non-empty stack onto itself changes nothing |
| SupplyStacks.BlockOntoSelf | aoc22_05/src/main.rs:38-45 | draining a block and appending it back to the same stack changes nothing |
| SupplyStacks.CratesStop | aoc22_05/src/main.rs:14-21 | once one single move panics, the instruction does |
| SupplyStacks.MoveCratesSucceeds | aoc22_05/src/main.rs:14-21 | part one's instruction succeeds exactly when `n` is 0, or both 1-based stack numbers name stacks and `from` holds `n` crates, or one crate when `from` and `to` are the same |
| SupplyStacks.MoveBlockSucceeds | aoc22_05/src/main.rs:38-45 | part two's instruction succeeds exactly when both 1-based stack numbers name stacks and `from` holds at least `n` crates, even when `n` is 0 |
| SupplyStacks.SingleMoveAgrees | aoc22_05/src/main.rs:13-46 | an instruction that moves one crate has the same outcome in both parts |
| SupplyStacks.TotalUpdate | aoc22_05/src/main.rs:13-46 | replacing one stack changes the crate count by the difference in height |
| SupplyStacks.MoveOneKeepsTotal | aoc22_05/src/main.rs:15-20 | a single move keeps the number of stacks and of crates |
| SupplyStacks.MoveCratesKeepsTotal | aoc22_05/src/main.rs:13-22 | part one's instruction keeps the number of stacks and of crates |
| SupplyStacks.MoveBlockKeepsTotal | aoc22_05/src/main.rs:37-46 | part two's instruction keeps the number of stacks and of crates |
| SupplyStacks.RunKeepsTotal | aoc22_05/src/main.rs:13-46 | the whole procedure, in either part, keeps the number of stacks and of crates |
| SupplyStacks.SingleMovesAgree | aoc22_05/src/main.rs:13-46 | a procedure whose every instruction moves one crate ends the same in both parts |
| SupplyStacks.RunStop | aoc22_05/src/main.rs:13-46 | once an instruction panics, the procedure does |
| SupplyStacks.Tops | aoc22_05/src/main.rs:24-28 | the answer has at most one letter per stack |
| SupplyStacks.TopsOfFull | aoc22_05/src/main.rs:24-28 | when no stack is empty, the answer has one letter per stack, the top crate of that stack |
| SupplyStacks.TopsSkipEmpty | aoc22_05/src/main.rs:24-28 | an empty stack adds nothing to the answer |
| SupplyStacks.CrateMover9000 | aoc22_05/src/main.rs:14-21 | the in-place pops and pushes succeed exactly when part one's instruction does, and leave its result in the array |
| SupplyStacks.CrateMover9001 | aoc22_05/src/main.rs:38-45 | the in-place drain and append succeed exactly when part two's instruction does, and leave its result in the array |
| SupplyStacks.Rearrange | aoc22_05/src/main.rs:13-22 | the instruction loop succeeds exactly when the procedure does, and leaves its result in the array |
| SupplyStacks.TopCrates | aoc22_05/src/main.rs:24-28 | the collected letters are the tops of the stacks as they were, and every non-empty stack has lost its top |
| SupplyStacks.Rearranged | aoc22_05/src/main.rs:7-29 | splitting the input, reading the stacks into an array, rearranging and collecting gives the answer of `Solve` |
| SupplyStacks.PartOne | aoc22_05/src/main.rs:7-29 | part one's answer, crates moved one at a time |
| SupplyStacks.PartTwo | aoc22_05/src/main.rs:31-53 | part two's answer, crates moved a block at a time |
| Almanac.MapNumberMeaning | aoc23_05/src/main.rs:21-28 | a number no mapping line holds is its own image; otherwise the first line in list order that holds it sends it to `dst + (n - src)`, inside that line's destination range |
| Almanac.MapNumberSamples | aoc23_05/src/main.rs:145-161 | with the lines (50, 98, 2) and (52, 50, 48): 0, 1, 48 and 49 stay, 50, 51, 96 and 97 go to 52, 53, 98 and 99, and 98 and 99 go to 50 and 51 |
| Almanac.MapNumberSwap | aoc23_05/src/main.rs:22-26 | two neighbouring lines that do not both hold a number may be swapped without changing its image |
| Almanac.ChainedAppend | aoc23_05/src/main.rs:36-42 | chaining two lists of maps is chaining the first, then feeding the result to the second |
| Almanac.ChainedUncovered | aoc23_05/src/main.rs:36-42 | a number that no line of any map holds comes out of the chain unchanged |
| Almanac.ChainMap | aoc23_05/src/main.rs:36-42 | the loop's result is the number sent through every map from left to right |
| Almanac.LowestOf | aoc23_05/src/main.rs:87-90 | part one's minimum exists exactly when there are seeds; it is at most the location of every seed and is the location of one of them |
| Almanac.RangeLowestMeaning | aoc23_05/src/main.rs:96-98 | the inner minimum is at most the running minimum and the location of every seed in the range, and is one of those |
| Almanac.PairsLowestMeaning | aoc23_05/src/main.rs:95-99 | the outer minimum is at most the starting value and the location of every seed in any range, and is one of those |
| Almanac.LowestInRangesMeaning | aoc23_05/src/main.rs:92-101 | part two answers exactly when the seeds pair up, and then gives the lowest location over all ranges, capped at `u64::MAX` |
| Almanac.UnitRanges | aoc23_05/src/main.rs:87-101 | ranges of length one give part one's answer on their starts, capped by the starting value |
| Almanac.PairsStep | aoc23_05/src/main.rs:95-98 | the next pair of seeds lowers the minimum by its whole range |
| Almanac.LowerByRange | aoc23_05/src/main.rs:96-98 | the inner loop leaves the running minimum lowered by the locations of every seed in the range |
| Almanac.PartTwo | aoc23_05/src/main.rs:92-101 | the nested loops give the answer `LowestInRangesMeaning` describes, or `None` for an odd number of seeds, where the source panics |
| HauntedWasteland.PathFromMeaning | aoc23_08/src/main.rs:38-54 | from any step of a walk not yet arrived, the loop answers `n` exactly when step `n` is the first node whose name ends with the condition, and gives up exactly when no step up to `u64::MAX` does |
| HauntedWasteland.PathLengthMeaning | aoc23_08/src/main.rs:30-57 | `compute_path_length` answers the first step (at most `u64::MAX`) whose node name ends with the condition, and returns `PathLengthError` exactly when none does |
| HauntedWasteland.PathLengthZero | aoc23_08/src/main.rs:36-56 | a start whose name already ends with the condition is 0 steps away, and so is every start when the instruction cycle is empty |
| HauntedWasteland.ComputePathLength | aoc23_08/src/main.rs:30-57 | the loop (condition checked, then the limit, then one step of the cycled instructions) computes `PathLength` |
| HauntedWasteland.NetworkOfKeys | aoc23_08/src/main.rs:61-65 | every parsed node's name is a key of the node map |
| HauntedWasteland.NetworkOfLast | aoc23_08/src/main.rs:61-65 | every key of the node map is some node's name and holds the last node inserted under it |
| HauntedWasteland.NetworkOfNames | aoc23_08/src/main.rs:61-65 | every node of the map is stored under its own name |
| HauntedWasteland.BuildNetwork | aoc23_08/src/main.rs:61-65 | the insertion loop builds `NetworkOf` the node lines |
| HauntedWasteland.StepsToZZZMeaning | aoc23_08/src/main.rs:59-68 | part one's answer is the first step at which the walk from "AAA" reaches "ZZZ" |
| HauntedWasteland.PartOne | aoc23_08/src/main.rs:59-68 | builds the map, walks from "AAA" to "ZZZ" and answers `StepsToZZZ` (`None` where the source panics) |
| HauntedWasteland.GhostLengthsMeaning | aoc23_08/src/main.rs:77-82 | every collected length is positive and is the first arrival at a name ending in 'Z' of some start whose name ends in 'A' |
| HauntedWasteland.GhostStepsMultiple | aoc23_08/src/main.rs:70-84 | part two's `lcm` fold is positive and a multiple of every start's step count |
| HauntedWasteland.LcmFoldSample | aoc23_08/src/main.rs:156-161 | the `lcm` fold from 1 over 1, 3, 4 and 2 is 12 |
| HauntedWasteland.PartTwo | aoc23_08/src/main.rs:70-84 | walks every start ending in 'A' in the map's iteration order and folds `lcm` over the counts, answering `GhostSteps` |
| HauntedWasteland.StepAllMeaning | aoc23_08/src/main.rs:110-119 | a lockstep step succeeds exactly when every current name steps, and moves each name to its own neighbour |
| HauntedWasteland.StepEach | aoc23_08/src/main.rs:110-119 | the inner loop over the current names computes `StepAll` |
| HauntedWasteland.NamesAfterMeaning | aoc23_08/src/main.rs:104-122 | the names after `k` lockstep steps exist exactly when every start's own walk lasts `k` steps, and are those walks' names |
| HauntedWasteland.NameAfterFollowsNodes | aoc23_08/src/main.rs:45-53 | on a map keeping each node under its name, a start's walk by names follows `compute_path_length`'s walk by nodes |
| HauntedWasteland.LockstepFromMeaning | aoc23_08/src/main.rs:104-122 | the lockstep loop stops at the first step at which all names end in 'Z' |
| HauntedWasteland.LockstepMeaning | aoc23_08/src/main.rs:90-124 | `part_two_old`'s answer is the first step at which every start's own walk is at a name ending in 'Z' |
| HauntedWasteland.StartNames | aoc23_08/src/main.rs:92-96 | the starting names all end in 'A' |
| HauntedWasteland.PartTwoOld | aoc23_08/src/main.rs:90-124 | the lockstep loop with its `u32` counter computes `Lockstep` over the start names in line order |
| BinaryDiagnostic.CountBit | aoc21_03/src/main.rs:5-26 | the number of lines with a given bit at a position is at most the number of lines |
| BinaryDiagnostic.MaxLen | aoc21_03/src/main.rs:11-14 | the counts' length is the longest line's length: no line is longer, and some line is that long unless it is 0 |
| BinaryDiagnostic.AddPrefix | aoc21_03/src/main.rs:11-23 | counting a line's first `n` characters grows the counts to at least `n` positions |
| BinaryDiagnostic.AddPrefixMeaning | aoc21_03/src/main.rs:11-23 | each counted character adds +1 for '1' and -1 for '0' at its own position and nothing elsewhere |
| BinaryDiagnostic.CountBitBeyond | aoc21_03/src/main.rs:11-14 | no line has a character past the longest line's length |
| BinaryDiagnostic.CountsMeaning | aoc21_03/src/main.rs:5-26 | `get_counts` has one count per position of the longest line, each the number of '1's minus the number of '0's there |
| BinaryDiagnostic.GetCounts | aoc21_03/src/main.rs:5-26 | the nested loops compute the counts, and panic (`None`) exactly when some line has a character other than a bit |
| BinaryDiagnostic.CountAtIndexMeaning | aoc21_03/src/main.rs:28-42 | a position is counted exactly when every line has a bit there, the count being #'1' - #'0' over all lines; otherwise some line is too short (`None`) or has a bad character (panic) there |
| BinaryDiagnostic.CountAtIndexSample | aoc21_03/src/main.rs:120-129 | the source's test: -1 at position 0, 1 at position 1, `None` at position 8 |
| BinaryDiagnostic.GetCountAtIndex | aoc21_03/src/main.rs:28-42 | the loop over the lines, with its early return, computes `CountAtIndex` |
| BinaryDiagnostic.BinaryValue | aoc21_03/src/main.rs:62-63 | a string of `n` bits has a value below 2^n |
| BinaryDiagnostic.FromBinary | aoc21_03/src/main.rs:62-63 | `i32::from_str_radix(_, 2)` answers only values within `i32` |
| BinaryDiagnostic.FromBinaryBits | aoc21_03/src/main.rs:62-63 | a non-empty string of at most 31 bits reads as its binary value |
| BinaryDiagnostic.FromBinaryOfBits | aoc21_03/src/main.rs:62-63 | a string of bits that reads at all reads as its binary value |
| BinaryDiagnostic.Gamma | aoc21_03/src/main.rs:46-57 | the gamma rate has one bit per count |
| BinaryDiagnostic.GammaBits | aoc21_03/src/main.rs:46-57 | gamma exists exactly when no count is 0, and its bit is '1' exactly where the count is positive |
| BinaryDiagnostic.GammaMeaning | aoc21_03/src/main.rs:44-57 | gamma exists exactly when no position of the report is a tie, and its bit is '1' exactly where '1' is the more common bit |
| BinaryDiagnostic.Complement | aoc21_03/src/main.rs:58-61 | the epsilon rate is as long as the gamma rate |
| BinaryDiagnostic.ComplementValue | aoc21_03/src/main.rs:58-61 | the complement of a bit string is a bit string, and their values add up to 2^n - 1 |
| BinaryDiagnostic.ProductOfBits | aoc21_03/src/main.rs:62-63 | two bit strings that read multiply as their values, with `i32` overflow a panic |
| BinaryDiagnostic.PowerConsumptionMeaning | aoc21_03/src/main.rs:44-64 | part one's answer is gamma's value times epsilon's, gamma having one bit per position of the longest line and epsilon's value being all ones minus gamma's |
| BinaryDiagnostic.PowerSample | aoc21_03/src/main.rs:138-142 | the sample's gamma 10110 (22) and epsilon 01001 (9) multiply to 198 |
| BinaryDiagnostic.PartOne | aoc21_03/src/main.rs:44-64 | counts, gamma, epsilon and the product compute `PowerConsumption` |
| BinaryDiagnostic.Retain | aoc21_03/src/main.rs:76-92 | `retain` keeps as many lines as have the bit at the position |
| BinaryDiagnostic.RetainMeaning | aoc21_03/src/main.rs:76-92 | the kept lines are exactly the lines with the bit at the position |
| BinaryDiagnostic.KeepMeaning | aoc21_03/src/main.rs:76-92 | the oxygen filter keeps '1' exactly when '1' is at least as common (ties to '1') and keeps at least half the lines; the CO2 filter keeps '1' exactly when it is less common (ties to '0') and keeps at most half |
| BinaryDiagnostic.FilterFromIsLine | aoc21_03/src/main.rs:66-96 | a rating is one of the report's lines |
| BinaryDiagnostic.OxygenExists | aoc21_03/src/main.rs:66-96 | on a non-empty report of bits the oxygen filter never empties the list, so the rating exists |
| BinaryDiagnostic.FilterFromEmpty | aoc21_03/src/main.rs:68-95 | an emptied list stays empty through the remaining positions and `first().unwrap()` panics |
| BinaryDiagnostic.ScrubberCanEmpty | aoc21_03/src/main.rs:84-90 | of "10" and "11" the CO2 filter keeps the absent bit '0' and the rating panics |
| BinaryDiagnostic.FilterIteratively | aoc21_03/src/main.rs:66-96 | the loop over positions (stopping at one line, a short line or 100 positions) computes `Rating` |
| BinaryDiagnostic.LifeSupportMeaning | aoc21_03/src/main.rs:98-105 | part two multiplies two of the report's own lines, the oxygen and CO2 ratings, by their values when every line is bits |
| BinaryDiagnostic.PartTwo | aoc21_03/src/main.rs:98-105 | the two ratings read in base 2 and multiplied compute `LifeSupport` |
| TreetopTreeHouse.Digit | aoc22_08/src/main.rs:11 | a character has a height exactly when it is a decimal digit, and the height is 0 to 9 |
| TreetopTreeHouse.ColumnsMeaning | aoc22_08/src/main.rs:13-19 | there are as many columns as the longest row is long, and column `c` collects, top to bottom, the cells of the rows long enough to reach it |
| TreetopTreeHouse.ColumnOfGrid | aoc22_08/src/main.rs:13-19 | on rows all of width `w`, column `c` has one cell per row and its `r`-th cell is `rows[r][c]` |
| TreetopTreeHouse.ColumnsOfGrid | aoc22_08/src/main.rs:6-24 | on a non-empty rectangular grid there are `w` columns and each is the grid's column |
| TreetopTreeHouse.PushLine | aoc22_08/src/main.rs:9-21 | one line parses exactly when every character is a digit; its row is the line's heights and each height is appended to its column, creating missing columns |
| TreetopTreeHouse.ParseInput | aoc22_08/src/main.rs:6-24 | the input parses exactly when every line is all digits (a non-digit panics), and then yields the rows and the columns of those rows |
| TreetopTreeHouse.TallestMeaning | aoc22_08/src/main.rs:29-42 | a height beats the running maximum (starting at -1) of a range exactly when it is above -1 and above every tree of the range |
| TreetopTreeHouse.VisibleMeaning | aoc22_08/src/main.rs:43 | on heights of at least 0, a tree is visible exactly when every tree to its left, or every tree to its right, is shorter |
| TreetopTreeHouse.VisibleUpToMeaning | aoc22_08/src/main.rs:26-48 | the indices pushed for the first `n` trees are exactly the visible ones below `n`, in increasing order |
| TreetopTreeHouse.EdgesVisible | aoc22_08/src/main.rs:43 | the first and the last tree of a non-empty line are always visible |
| TreetopTreeHouse.VisibleSample | aoc22_08/src/main.rs:126-127 | 3 0 3 7 3 gives 0, 3, 4 and 2 5 5 1 2 gives 0, 1, 2, 4 |
| TreetopTreeHouse.VisibleAt | aoc22_08/src/main.rs:28-45 | the inner loop's two running maxima decide whether tree `i` is visible |
| TreetopTreeHouse.GetVisibleTrees | aoc22_08/src/main.rs:26-48 | returns the visible indices in increasing order |
| TreetopTreeHouse.BlockerBelowMeaning | aoc22_08/src/main.rs:55-60 | the last index below `j` holding a tree at least as tall, or none when every tree below `j` is shorter |
| TreetopTreeHouse.BlockerFromMeaning | aoc22_08/src/main.rs:61-66 | the first index from `j` holding a tree at least as tall, or none when every tree from `j` is shorter |
| TreetopTreeHouse.ViewLeftMeaning | aoc22_08/src/main.rs:53-60 | the view to the left is 0 only at the edge, passes only shorter trees, and stops at a tree at least as tall or at the edge |
| TreetopTreeHouse.ViewRightMeaning | aoc22_08/src/main.rs:54-66 | the view to the right is 0 only at the last tree, passes only shorter trees, and stops at a tree at least as tall or at the edge |
| TreetopTreeHouse.ViewsSample | aoc22_08/src/main.rs:134-139 | 2 5 5 1 2 has views (0,1), (1,1), (1,2), (1,1), (2,0) |
| TreetopTreeHouse.ViewsAt | aoc22_08/src/main.rs:53-67 | the inner loop, with its break at the first blocker to the right, computes both viewing distances of tree `i` |
| TreetopTreeHouse.GetVisibleTreesWithViews | aoc22_08/src/main.rs:50-71 | returns, for every index in order, the index and its two viewing distances |
| TreetopTreeHouse.RowMarked | aoc22_08/src/main.rs:76-80 | the row pass marks `(r, c)` exactly when `c` is visible in row `r` |
| TreetopTreeHouse.ColumnMarked | aoc22_08/src/main.rs:81-85 | the column pass marks `(r, c)` exactly when `r` is visible in column `c` |
| TreetopTreeHouse.RowMarksStep | aoc22_08/src/main.rs:77-79 | one more row adds exactly its visible cells to the marked set |
| TreetopTreeHouse.ColumnMarksStep | aoc22_08/src/main.rs:82-84 | one more column adds exactly its visible cells to the marked set |
| TreetopTreeHouse.CountVisible | aoc22_08/src/main.rs:73-87 | the size of the set of cells marked by either pass |
| TreetopTreeHouse.MarksMeaning | aoc22_08/src/main.rs:73-87 | on a rectangular grid a cell is marked exactly when it is in the grid and every tree between it and one of the four edges is shorter |
| TreetopTreeHouse.ColumnVisible | aoc22_08/src/main.rs:81-85 | on a rectangular grid a tree is visible in its column exactly when every tree above, or every tree below, is shorter |
| TreetopTreeHouse.PartOne | aoc22_08/src/main.rs:73-87 | fails exactly on a non-digit, and otherwise counts the cells visible from a row or a column |
| TreetopTreeHouse.ScoreOnGrid | aoc22_08/src/main.rs:97-103 | on a rectangular grid a cell's column factor is the product of its views up and down its own column |
| TreetopTreeHouse.ScoreRows | aoc22_08/src/main.rs:92-96 | the row pass stores one score per cell of the grid, the product of its two views along the row |
| TreetopTreeHouse.ScoreColumns | aoc22_08/src/main.rs:97-103 | the column pass keeps the same cells and multiplies each by the product of its two views along its column (1 where the column is missing) |
| TreetopTreeHouse.ScoreColumn | aoc22_08/src/main.rs:98-102 | one column multiplies exactly its own cells present in the map and leaves every other score alone |
| TreetopTreeHouse.MaxScore | aoc22_08/src/main.rs:104-107 | the largest value of the map, attained by some key; none (the panic) when the map is empty |
| TreetopTreeHouse.BestScore | aoc22_08/src/main.rs:89-108 | exists exactly when the grid has a cell, and is the largest scenic score, attained by some cell |
| TreetopTreeHouse.PartTwo | aoc22_08/src/main.rs:89-108 | fails exactly on a non-digit or a grid without cells, and otherwise is the largest scenic score of the grid |
| GiantSquid.AsI32 | aoc21_04/src/main.rs:106 | a draw cast to `i32` keeps values below 2^31 and wraps the rest to negative numbers |
| GiantSquid.AsU32 | aoc21_04/src/main.rs:111 | a board number cast to `u32` keeps non-negative values and wraps negative ones to 2^32 + e |
| GiantSquid.WinningLinesListed | aoc21_04/src/main.rs:38-49 | the ten lines tried are exactly the listed index vectors, in order |
| GiantSquid.LineMarkedMeaning | aoc21_04/src/main.rs:52-60 | the `rfold` over a line is true exactly when every index of the line is marked |
| GiantSquid.WinningLine | aoc21_04/src/main.rs:38-49 | line `l` is row `l` for the first five and column `l - 5` for the rest |
| GiantSquid.WinsMeaning | aoc21_04/src/main.rs:37-66 | the search over the lines succeeds exactly when a full row or a full column is marked |
| GiantSquid.DiagonalsDoNotWin | aoc21_04/src/main.rs:38-49 | a fully marked diagonal is not a win |
| GiantSquid.UnmarkedIndicesMeaning | aoc21_04/src/main.rs:29-33 | the unmarked indices are listed in increasing order, and an index is listed exactly when it is below the bound and not marked |
| GiantSquid.UnmarkedMeaning | aoc21_04/src/main.rs:27-35 | the unmarked numbers are the numbers at the unmarked indices, one for each, in index order |
| GiantSquid.SumU32Total | aoc21_04/src/main.rs:111 | the `u32` fold panics exactly when the true total leaves 32 bits, and otherwise returns that total |
| GiantSquid.ScoreMeaning | aoc21_04/src/main.rs:108-112 | the score is the total of the unmarked numbers times the draw, and panics when the total or the product leaves 32 bits |
| GiantSquid.BingoBoard.constructor | aoc21_04/src/main.rs:13-18 | a new board holds the 25 numbers with nothing marked |
| GiantSquid.BingoBoard.Mark | aoc21_04/src/main.rs:19-25 | marking adds every index holding the number to the marks and changes nothing else |
| GiantSquid.BingoBoard.GetAllUnmarkedNums | aoc21_04/src/main.rs:27-35 | the result is the unmarked numbers in index order |
| GiantSquid.BingoBoard.IsWinning | aoc21_04/src/main.rs:37-66 | the board reports a win exactly when a row or a column is fully marked |
| GiantSquid.BoardSampleMarks | aoc21_04/src/main.rs:158-172 | on the numbers 1 to 25, marking 1 marks index 0 only, and marking 2 to 5 as well marks the first row |
| GiantSquid.BoardSampleWins | aoc21_04/src/main.rs:163-173 | index 0 alone does not win and the first row does |
| Strings.ParseU32 | aoc21_04/src/main.rs:77 | a `u32` parse succeeds only below 2^32, agreeing with the digits' value, and reads every number below it |
| Strings.ParseUSize | aoc15_02/src/main.rs:31-36 | a `usize` parse succeeds only below 2^64, agreeing with the digits' value, and reads every number below it |
| GiantSquid.BoardOf | aoc21_04/src/main.rs:80-93 | a board section read holds exactly 25 numbers |
| GiantSquid.BoardOfMeaning | aoc21_04/src/main.rs:80-93 | a board section is read exactly when it has 25 words that all parse as `i32`, and then the board is those numbers in order |
| GiantSquid.BingoInputMeaning | aoc21_04/src/main.rs:69-99 | the input is read exactly when the first section's draws and every later section's board parse; the boards come in section order with 25 numbers each |
| GiantSquid.ParseBoard | aoc21_04/src/main.rs:81-93 | the loop over a section's words reads the board the specification describes, or panics where it does |
| GiantSquid.ParseBingoInput | aoc21_04/src/main.rs:69-99 | the section loop returns the specified draws and boards, or panics where the specification does |
| GiantSquid.FirstWinFrom | aoc21_04/src/main.rs:104-116 | a position found is a real draw and a real board |
| GiantSquid.FirstWinFound | aoc21_04/src/main.rs:104-116 | the position found is a win and no board wins at any earlier position of the search |
| GiantSquid.FirstWinNone | aoc21_04/src/main.rs:104-116 | when nothing is found no board wins at any position of the search |
| GiantSquid.FirstWinMeaning | aoc21_04/src/main.rs:102-117 | part one's search finds the first win in draw-then-board order, and finds none exactly when no board ever wins |
| GiantSquid.NewBoards | aoc21_04/src/main.rs:89-93 | one new, distinct, unmarked board per parsed section, in order |
| GiantSquid.DrawOne | aoc21_04/src/main.rs:105-114 | one draw marks the boards in order and stops at the first winner, which is the search's next win; with no winner every board carries the draw's marks |
| GiantSquid.PartOne | aoc21_04/src/main.rs:102-117 | part one returns the first winner's score, 0 when no board wins, and panics where parsing or the `u32` arithmetic does |
| GiantSquid.PlayOne | aoc21_04/src/main.rs:104-116 | the draw loop returns the score of the search's first win, or 0 |
| GiantSquid.FrozenAfterWin | aoc21_04/src/main.rs:123-125 | once a board has won in part two its marks never change again |
| GiantSquid.WinsOnce | aoc21_04/src/main.rs:123-134 | in part two a board wins at most once |
| GiantSquid.LatestEmpty | aoc21_04/src/main.rs:120-136 | the running answer is still empty exactly when no win has happened yet |
| GiantSquid.LatestHeld | aoc21_04/src/main.rs:126-134 | a held answer is the score of a win with no win after it |
| GiantSquid.LatestPanic | aoc21_04/src/main.rs:127-133 | a panicked answer comes from a win whose score panicked |
| GiantSquid.PanicStays | aoc21_04/src/main.rs:127-133 | once a score has panicked the answer stays panicked |
| GiantSquid.QuietStays | aoc21_04/src/main.rs:137-139 | when no win can follow, the running answer is final |
| GiantSquid.TwoBeforeIsLatest | aoc21_04/src/main.rs:122-136 | part two's running answer is the latest-win fold over its draws and boards |
| GiantSquid.AllWonStops | aoc21_04/src/main.rs:137-139 | once every board has won, stopping early returns the answer the remaining draws would give |
| GiantSquid.LastWinNone | aoc21_04/src/main.rs:138-141 | part two has no answer exactly when no board ever wins |
| GiantSquid.LastWinHeld | aoc21_04/src/main.rs:126-134 | part two's answer is the score of a win after which no board wins |
| GiantSquid.LastWinPanic | aoc21_04/src/main.rs:127-133 | part two panics on a score only where some winner's score leaves 32 bits |
| GiantSquid.TwoPanicStays | aoc21_04/src/main.rs:127-133 | a panic during a draw ends part two with a panic |
| GiantSquid.DrawTwo | aoc21_04/src/main.rs:123-136 | one draw of part two takes the running answer to its value after the draw and leaves every board with its marks after the draw |
| GiantSquid.TurnTwo | aoc21_04/src/main.rs:124-135 | one board's turn advances the running answer by that board and marks it, and no other board changes |
| GiantSquid.BoardTurn | aoc21_04/src/main.rs:124-135 | a board that has not won is marked, and it reports a win and its score exactly when this draw makes it win |
| GiantSquid.AllWinning | aoc21_04/src/main.rs:137 | true exactly when every board has won |
| GiantSquid.PartTwo | aoc21_04/src/main.rs:119-142 | part two returns the last winner's score and panics where no board wins, parsing fails or the arithmetic overflows |
| GiantSquid.PlayTwo | aoc21_04/src/main.rs:120-141 | the draw loop, stopping once every board has won, returns the final running answer |
| Tree.Pushed | aoc_utils/src/lib.rs:150-154 | `add_node` appends a node holding its own index, no parent and no children, and keeps every earlier node |
| Tree.Registered | aoc_utils/src/lib.rs:168-171 | registration sets the child's parent, lists the child under the parent exactly once, and changes no other link |
| Tree.AddedChild | aoc_utils/src/lib.rs:183-189 | `add_child_node` adds exactly one node |
| Tree.PushedWellFormed | aoc_utils/src/lib.rs:150-154 | adding a node keeps every link inside the arena and consistent links consistent |
| Tree.RegisteredWellFormed | aoc_utils/src/lib.rs:159-173 | registration keeps every link inside the arena and never lists a child twice |
| Tree.RegisteredConsistent | aoc_utils/src/lib.rs:159-173 | registering a child that has no parent yet, or registering it again under the same parent, keeps parent and child links agreeing |
| Tree.AddedChildConsistent | aoc_utils/src/lib.rs:178-190 | `add_child_node` keeps the links consistent; the new node's parent is `parent` and it ends the parent's child list |
| Tree.AddedChildShape | aoc_utils/src/lib.rs:178-190 | `add_child_node` changes only the parent, whose list gains the new index, and the new node |
| Tree.RegisteredIdempotent | aoc_utils/src/lib.rs:168-171 | registering the same child and parent twice is the same as once |
| Tree.ReparentingBreaksConsistency | aoc_utils/src/lib.rs:168-171 | re-parenting a node leaves it in its old parent's child list, so the links no longer agree |
| Tree.ArenaTree.constructor | aoc_utils/src/lib.rs:125-127 | a new tree has no nodes |
| Tree.ArenaTree.Len | aoc_utils/src/lib.rs:130-132 | the length is the number of nodes |
| Tree.ArenaTree.GetNode | aoc_utils/src/lib.rs:137-147 | an index at or past the length is `NodeDoesNotExist`; otherwise the node stored there, which knows its own index |
| Tree.ArenaTree.AddNode | aoc_utils/src/lib.rs:150-154 | the new node's index is the old length, and the arena gains that node |
| Tree.ArenaTree.RegisterParentNode | aoc_utils/src/lib.rs:159-173 | fails exactly when either index is out of range, changing nothing; otherwise performs the registration |
| Tree.ArenaTree.AddChildNode | aoc_utils/src/lib.rs:178-190 | fails exactly when the parent is out of range, changing nothing; otherwise returns the new index and performs add-then-register |
| Strings.SplitOnJoin | aoc22_01/src/main.rs:7 | joining the pieces of a split with the separator gives back the text |
| Strings.SplitOnJoinFree | aoc21_04/src/main.rs:70 | pieces without the separator's first character, joined, split back into exactly those pieces |
| Strings.LinesOfJoin | aoc_utils/src/lib.rs:43 | lines joined by newlines, the last one non-empty, read back as exactly those lines |
| Strings.ParseNatToString | aoc21_04/src/main.rs:77 | a number's decimal text parses back to the number |
| Strings.ParseIntText | aoc21_04/src/main.rs:85 | an integer's decimal text, with its sign, parses back to the integer |
| Strings.ParseI32Text | aoc21_04/src/main.rs:85 | an `i32` value's text parses back as that `i32` |
| Strings.ParseEachAll | aoc_utils/src/lib.rs:38-50 | when every line parses, `get_lines_of_type` returns every line's value in order |
| Strings.ParseEachAppend | aoc_utils/src/lib.rs:42-49 | the values of two blocks of lines are the values of the first followed by those of the second |
| Strings.ReadEveryMeaning | aoc21_04/src/main.rs:76-78 | a parse-or-panic over pieces succeeds exactly when every piece parses, and then yields every piece's value in order |
| Strings.WordsAreWords | aoc21_04/src/main.rs:82 | every piece `split_whitespace` yields is non-empty and has no whitespace |
| Strings.WordsOfJoin | aoc21_04/src/main.rs:82 | words joined by a whitespace character split back into exactly those words |
| Maze.HashMapMaze.constructor | aoc_utils/src/maze.rs:68-71 | a new maze has no locations |
| Maze.HashMapMaze.AddLoc | aoc_utils/src/maze.rs:74-76 | the location now holds the value (inserted or overwritten); every other location is unchanged |
| Maze.HashMapMaze.GetValueAtLoc | aoc_utils/src/maze.rs:79-84 | the stored value when the location is a key, `LocationDoesNotExist` exactly when it is not |
| Maze.HashMapOccupiedMaze.FromHashMapMaze | aoc_utils/src/maze.rs:93-95 | the occupied maze wraps the given maze and location unchanged |
| Maze.HashMapOccupiedMaze.GetValue | aoc_utils/src/maze.rs:98-102 | `Some` exactly when the occupant stands on a key (the source panics otherwise), and then the value the maze lookup returns for that key |
| Maze.CellAbove | aoc_utils/src/maze.rs:110-117 | `(x, y + 1)` exactly when it is a key, otherwise `LocationDoesNotExist` |
| Maze.CellBelow | aoc_utils/src/maze.rs:120-130 | `ImpossibleMove` on the bottom row; otherwise `(x, y - 1)` exactly when it is a key, else `LocationDoesNotExist` |
| Maze.CellRight | aoc_utils/src/maze.rs:132-139 | `(x + 1, y)` exactly when it is a key, otherwise `LocationDoesNotExist` |
| Maze.CellLeft | aoc_utils/src/maze.rs:141-151 | `ImpossibleMove` in the leftmost column; otherwise `(x - 1, y)` exactly when it is a key, else `LocationDoesNotExist` |
| Maze.NeighboursAreAdjacentKeys | aoc_utils/src/maze.rs:105-152 | a location is returned by one of the four queries exactly when it is a key adjacent to the start |
| Maze.QueriesAreInverse | aoc_utils/src/maze.rs:105-152 | from a key, above-then-below, below-then-above, right-then-left and left-then-right each return to the start |
| Maze.TenByTenGrid | aoc_utils/src/maze.rs:166-192 | on the 10×10 grid: the four neighbours of (5, 5), and no move below or left of (0, 0) nor above or right of (9, 9) |
| HillClimb.Path.Push | aoc22_12/src/main.rs:15-17 | the pushed path is the old one with the location appended, one longer |
| HillClimb.Path.Last | aoc22_12/src/main.rs:19-25 | `None` exactly for the empty path, otherwise its final location |
| HillClimb.Path.Cmp | aoc22_12/src/main.rs:34-38 | paths are ordered by their lengths alone, in both directions of each outcome |
| HillClimb.PathOrderIsByLength | aoc22_12/src/main.rs:177-185 | the two-step path of the heap example is below its three-step extension; equal lengths compare `Equal` |
| HillClimb.Height | aoc22_12/src/main.rs:52-62 | 'S' is 0, 'E' is 25, a letter is 0 to 25, and every character read has a height below 128, where the source's `as i8` casts change nothing |
| HillClimb.Rows | aoc22_12/src/main.rs:50 | row `j` is the `j`-th line counted from the last one |
| HillClimb.HeightsUpToMeaning | aoc22_12/src/main.rs:50-65 | the cells filled before position (i, j) are exactly the rows below `j` and the first `i` characters of row `j`, each at its height |
| HillClimb.HeightsNextColumn | aoc22_12/src/main.rs:51-64 | filling one more character adds exactly its cell |
| HillClimb.HeightsNextRow | aoc22_12/src/main.rs:50-65 | a finished row is the start of the next one |
| HillClimb.Heights | aoc22_12/src/main.rs:40-67 | the keys are exactly the (column, row) positions of the input and each holds its character's height |
| HillClimb.LastInRowIsLast | aoc22_12/src/main.rs:51-58 | within a row, the tracked position is the last occurrence of the character, or what it was before when there is none |
| HillClimb.LastOfIsLast | aoc22_12/src/main.rs:47-66 | `start` and `end` are the last 'S' and 'E' in reading order, or (0, 0) when absent |
| HillClimb.ParseRow | aoc22_12/src/main.rs:51-64 | fails exactly when the row holds a character below 'a' other than 'S' and 'E' (or one the model does not read); otherwise one row's cells are added and `start`/`end` move to that row's last 'S'/'E' |
| HillClimb.ParseInput | aoc22_12/src/main.rs:40-67 | fails exactly when some character is not read; otherwise the maze holds every character's height at (column, row), rows counted from the bottom, and `start` and `end` are the last 'S' and 'E' |
| HillClimb.Expand | aoc22_12/src/main.rs:86-108 | the spawned paths are exactly the popped path extended by each adjacent key not on the path that the height rule allows |
| HillClimb.Remove | aoc22_12/src/main.rs:75 | popping removes one entry and keeps every other one |
| HillClimb.ShortestExists | aoc22_12/src/main.rs:75 | a non-empty queue has an entry no longer than any other |
| HillClimb.PopShortest | aoc22_12/src/main.rs:75 | the min-heap pop returns a shortest queued path |
| HillClimb.WalkPrefix | aoc22_12/src/main.rs:89-105 | every non-empty prefix of a walk is a walk |
| HillClimb.FirstExit | aoc22_12/src/main.rs:79-82 | a walk that starts in the visited set and ends outside it has a step leaving the set |
| HillClimb.ShortestBeatsWalks | aoc22_12/src/main.rs:74-109 | a shortest queued path is no longer than any walk ending at an unvisited location |
| HillClimb.FrontierAfterSkip | aoc22_12/src/main.rs:79-81 | dropping a path that ends at a visited location keeps every allowed move out of the visited set queued |
| HillClimb.FrontierAfterVisit | aoc22_12/src/main.rs:82-108 | visiting the popped end and queueing its extensions keeps every allowed move out of the visited set queued |
| HillClimb.QueuedAfterSkip | aoc22_12/src/main.rs:79-81 | after skipping, every queued path is still a walk through visited locations |
| HillClimb.QueuedAfterVisit | aoc22_12/src/main.rs:82-108 | after visiting, every queued path is still a walk through visited locations |
| HillClimb.OptimalAfterVisit | aoc22_12/src/main.rs:82 | recording the popped length for its end keeps every recorded distance no longer than any walk |
| HillClimb.SearchStart | aoc22_12/src/main.rs:70-73 | the one-location queue and the empty visited set satisfy the search invariant |
| HillClimb.SearchSkip | aoc22_12/src/main.rs:79-81 | the skip branch keeps the search invariant |
| HillClimb.SearchVisit | aoc22_12/src/main.rs:82-108 | the visit branch keeps the search invariant |
| HillClimb.SearchFound | aoc22_12/src/main.rs:83-85 | a goal popped first is the end of a walk no longer than any walk to a goal |
| HillClimb.WalkShape | aoc22_12/src/main.rs:86-100 | every location of a walk that moves is a key |
| HillClimb.SearchMissing | aoc22_12/src/main.rs:86-88 | a popped end that is not a key is the origin, and then no walk reaches a goal |
| HillClimb.ExitIsQueued | aoc22_12/src/main.rs:74-109 | a walk ending outside the visited set leaves the queue non-empty |
| HillClimb.SearchExhausted | aoc22_12/src/main.rs:75 | an empty queue means no walk reaches a goal |
| HillClimb.Search | aoc22_12/src/main.rs:69-110 | the answer is the number of moves of a shortest walk from the origin to a goal; `None` exactly when no walk reaches one |
| HillClimb.PartOne | aoc22_12/src/main.rs:69-110 | `None` on a map with a character the parser panics on; otherwise the fewest moves from 'S' to 'E' climbing at most one level per move, and `None` exactly when 'E' is unreachable |
| HillClimb.PartTwo | aoc22_12/src/main.rs:112-153 | `None` on a map with a character the parser panics on; otherwise the fewest moves from 'E' to a height-0 location descending at most one level per move, and `None` exactly when none is reachable |
| HillClimb.LastInRowAt | aoc22_12/src/main.rs:53-54 | an occurrence with no later one in the row is the tracked position |
| HillClimb.LastInRowAbsent | aoc22_12/src/main.rs:50-65 | a row without the character leaves the tracked position unchanged |
| HillClimb.SampleRows | aoc22_12/src/main.rs:166 | the sample's rows from the bottom line up |
| HillClimb.SampleStartAndEnd | aoc22_12/src/main.rs:169-174 | on the sample, 'S' is at (0, 4) and 'E' at (5, 2) |
| Beacons.SensorExamples | aoc22_15/src/main.rs:18-39 | every sensor's diamond holds the sensor and its beacon; the source's distance and containment examples |
| Beacons.OutsidePoints | aoc22_15/src/main.rs:22-35 | the points returned are exactly those at distance `mdist + 1` from the sensor, 4·(mdist + 1) of them, none inside the diamond |
| Beacons.FindNoBeaconRange | aoc22_15/src/main.rs:59-71 | `None` exactly when the row misses the diamond; otherwise a closed interval whose integers are exactly the row's covered positions |
| Beacons.NoBeaconRangeExamples | aoc22_15/src/main.rs:243-254 | the sensor at (5, 9) covers (3, 7), (4, 6), (5, 5) on rows 6, 5, 4 and nothing on row 3 |
| Beacons.IRange.Add | aoc22_15/src/main.rs:99-124 | apart intervals leave the left one unchanged; overlapping ones give their hull, and the panic branch is unreachable |
| Beacons.OverlapsIffTouch | aoc22_15/src/main.rs:80-92 | for non-empty intervals, `overlaps` holds exactly when neither lies wholly to one side of the other |
| Beacons.OverlapsIffShare | aoc22_15/src/main.rs:80-92 | for non-empty intervals, `overlaps` holds exactly when they share an integer, and is symmetric |
| Beacons.ApartFromNoShare | aoc22_15/src/main.rs:80-92 | intervals that share no integer do not overlap either way |
| Beacons.AddIsUnion | aoc22_15/src/main.rs:99-124 | the sum of overlapping intervals covers exactly the integers of both |
| Beacons.Kept | aoc22_15/src/main.rs:140-141 | the second half of the partition: the stored intervals that do not overlap the new one |
| Beacons.Overlapping | aoc22_15/src/main.rs:140-141 | the first half of the partition: the stored intervals that overlap the new one |
| Beacons.FoldAddCovers | aoc22_15/src/main.rs:142 | folding `+` over the overlapping intervals covers exactly the new interval and all of them |
| Beacons.ValuesApart | aoc22_15/src/main.rs:136-145 | two different stored intervals do not overlap |
| Beacons.KeptValid | aoc22_15/src/main.rs:140-141 | the intervals kept apart are pairwise non-overlapping |
| Beacons.KeptApart | aoc22_15/src/main.rs:140-143 | no kept interval overlaps the merged one |
| Beacons.AddedRanges | aoc22_15/src/main.rs:136-145 | after `add`, the intervals are pairwise non-overlapping and cover exactly what they covered before plus the new interval |
| Beacons.AddedValid | aoc22_15/src/main.rs:140-143 | merging into a non-empty set keeps the intervals pairwise non-overlapping |
| Beacons.AddedCovers | aoc22_15/src/main.rs:140-143 | merging into a non-empty set covers exactly the old integers and the new interval's |
| Beacons.Span | aoc22_15/src/main.rs:94-96 | an interval's integers, `right - left + 1` of them when it is not empty |
| Beacons.CoveredIsCovers | aoc22_15/src/main.rs:147-154 | the covered set holds exactly the integers some interval contains |
| Beacons.CoveredAt | aoc22_15/src/main.rs:147-154 | a single integer is in the covered set exactly when some interval contains it |
| Beacons.TotalIsSize | aoc22_15/src/main.rs:156-162 | for pairwise non-overlapping intervals, the summed lengths are the number of covered integers |
| Beacons.ValidRangesInit | aoc22_15/src/main.rs:136-145 | dropping the last interval keeps the rest pairwise non-overlapping |
| Beacons.LastApart | aoc22_15/src/main.rs:156-162 | the last interval shares no integer with the others |
| Beacons.IRangeSet.constructor | aoc22_15/src/main.rs:132-134 | a new set has no intervals |
| Beacons.IRangeSet.Add | aoc22_15/src/main.rs:136-145 | the first interval is stored as is; later, the overlapping intervals are folded into the new one, appended after the others in order |
| Beacons.IRangeSet.Contains | aoc22_15/src/main.rs:147-154 | true exactly when some stored interval holds the integer |
| Beacons.IRangeSet.Len | aoc22_15/src/main.rs:156-162 | the sum over the intervals of `1 + right - left` |
| Beacons.RangeSetSteps | aoc22_15/src/main.rs:257-295 | the source's four additions give [5, 6]; [5, 6], [15, 16]; [15, 16], [3, 6]; [3, 6], [12, 17], whose length is 10 |
| Beacons.RowSliceMeaning | aoc22_15/src/main.rs:59-71 | a position is in a sensor's row slice exactly when its diamond holds it |
| Beacons.ExcludedMeaning | aoc22_15/src/main.rs:169-184 | a position of the row is excluded exactly when some sensor's diamond holds it |
| Beacons.CoveredByStep | aoc22_15/src/main.rs:169-184 | some sensor holds a point exactly when one of the sensors before the last does or the last one does |
| Beacons.AddedCovered | aoc22_15/src/main.rs:136-145 | `add` keeps the intervals non-overlapping and adds exactly the new interval's integers to the covered set |
| Beacons.SensorsPrefix | aoc22_15/src/main.rs:169-184 | one more sensor adds its row slice to the excluded positions and its sensor or beacon, if on the row, to the occupied ones |
| Beacons.DifferenceSize | aoc22_15/src/main.rs:185 | the covered positions less the occupied ones number the covered count less the covered occupied count |
| Beacons.ScanRow | aoc22_15/src/main.rs:166-184 | the interval set covers exactly the positions some diamond holds, and `locs` are exactly the sensors and beacons on the row |
| Beacons.ScanStep | aoc22_15/src/main.rs:169-184 | one sensor's step keeps the covered set equal to the excluded positions so far |
| Beacons.ScanSensor | aoc22_15/src/main.rs:170-182 | one sensor adds itself and its beacon to the locations when they lie on the row and its row slice to the intervals, keeping both equal to those of the sensors so far |
| Beacons.PartOne | aoc22_15/src/main.rs:165-186 | the number of row positions some diamond covers that hold no sensor or beacon |
| Beacons.PartTwo | aoc22_15/src/main.rs:187-202 | a tuning frequency 4000000·x + y of a point in the square just outside some diamond and inside none; `None` only when every such point is covered |
| Fs.FindChild | aoc22_07/src/fs.rs:107-122 | `None` exactly when no child has the name; otherwise the first child in list order that has it |
| Fs.CdTarget | aoc22_07/src/fs.rs:93-123 | ".." leads to the parent, or `AlreadyAtRoot` exactly at a node without one; another name leads to a child so named, or `DirectoryNotFound` exactly when there is none |
| Fs.DirSizesAreDirectories | aoc22_07/src/fs.rs:125-141 | a size is listed exactly when some directory has that size |
| Fs.DirSizesCount | aoc22_07/src/fs.rs:125-141 | there are as many entries as directories |
| Fs.AddedChildValid | aoc22_07/src/fs.rs:79-91 | adding a child keeps the root "/" first and the links consistent and pointing forward |
| Fs.SizeAfterAdd | aoc22_07/src/fs.rs:60-91 | adding a child under a directory changes no size of a node after that directory |
| Fs.SumSizesAfterAdd | aoc22_07/src/fs.rs:65-72 | the summed sizes of children after the parent are unchanged by an addition |
| Fs.SumSizesAppend | aoc22_07/src/fs.rs:67-71 | the sizes of a child list with one more child grow by that child's size |
| Fs.AddedChildSize | aoc22_07/src/fs.rs:79-91 | `mkdir` leaves the current directory's size as it was; `touch` adds the new file's size to it |
| Fs.FileSystem.constructor | aoc22_07/src/fs.rs:30-36 | a new file system holds only the root directory "/", which is current |
| Fs.FileSystem.Exists | aoc22_07/src/fs.rs:38-54 | true exactly when some child of the current directory has the name |
| Fs.FileSystem.CdRoot | aoc22_07/src/fs.rs:56-58 | the current directory becomes the root |
| Fs.FileSystem.Mkdir | aoc22_07/src/fs.rs:79-84 | a directory is added as the last child of the current one; the current directory stays |
| Fs.FileSystem.Touch | aoc22_07/src/fs.rs:86-91 | a file with its size is added as the last child of the current directory; the current directory stays |
| Fs.FileSystem.Cd | aoc22_07/src/fs.rs:93-123 | moves to the `cd` target and passes, or fails with its error and stays |
| Fs.FileSystem.FindChildNode | aoc22_07/src/fs.rs:107-122 | the loop of `cd` finds the first child of the current directory with that name, or none |
| Fs.FileSystem.RgetAllDirSizes | aoc22_07/src/fs.rs:125-141 | the sizes of every directory, in index order |
| Fs.RootValid | aoc22_07/src/fs.rs:30-36 | the bare root is a valid file system |
| Fs.AddedChildIs | aoc22_07/src/fs.rs:79-91 | adding a child gives the arena with the new node last and the parent's child list extended |
| Fs.CdFindsA | aoc22_07/src/fs.rs:154 | `cd("a")` from the root reaches node 1 in the example |
| Fs.CdFindsD | aoc22_07/src/fs.rs:156 | `cd("d")` from /a reaches node 3 in the example |
| Fs.CdFindsE | aoc22_07/src/fs.rs:159 | `cd("e")` from /a/d reaches node 5 in the example |
| Fs.ExampleSizes | aoc22_07/src/fs.rs:161-164 | in the example, /a/d/e has size 500, the root 1100, and the directory sizes are 1100, 1100, 0, 1100, 500 |
| Fs.ExampleMakeAB | aoc22_07/src/fs.rs:151-154 | the first steps of the example build /a and /b and enter /a |
| Fs.ExampleMakeD | aoc22_07/src/fs.rs:155-157 | the next steps build /a/d, enter it and add test.md |
| Fs.ExampleMakeE | aoc22_07/src/fs.rs:158-159 | then /a/d/e is built and entered |
| Fs.ExampleTouchTxt | aoc22_07/src/fs.rs:160 | then test.txt is added in /a/d/e |
| Fs.ExampleQueries | aoc22_07/src/fs.rs:161-164 | on the finished tree `duh` gives 500 in /a/d/e and 1100 at the root, and the directory sizes are 1100, 1100, 0, 1100, 500 |
| NoSpace.Exec | aoc22_07/src/main.rs:13-46 | a line that does not panic leaves a valid file system with a valid current directory |
| NoSpace.Interpret | aoc22_07/src/main.rs:12-47 | a replay that does not panic leaves a valid file system with a valid current directory |
| NoSpace.InterpretStops | aoc22_07/src/main.rs:12-47 | once a prefix of the transcript panics, the whole transcript does |
| NoSpace.ParseSpec | aoc22_07/src/main.rs:6-50 | a transcript that opens with "$ cd /" and replays without a panic gives a valid file system |
| NoSpace.ListChangesNothing | aoc22_07/src/main.rs:28-30 | a "$ ls" line changes neither the tree nor the current directory |
| NoSpace.FindAddedChild | aoc22_07/src/main.rs:23-25 | after adding a child, the current directory has a child of that name, so the `expect` after `mkdir` holds |
| NoSpace.ListingIdempotent | aoc22_07/src/main.rs:31-46 | a "dir" or size line applied twice changes the tree no more than once |
| NoSpace.EnterLands | aoc22_07/src/main.rs:15-27 | "$ cd d" always lands in a child named `d` of the current directory, creating it only when there was none |
| NoSpace.ParseInput | aoc22_07/src/main.rs:6-50 | `None` exactly where the source panics; otherwise the replayed file system, back at the root |
| NoSpace.Replay | aoc22_07/src/main.rs:11-49 | the loop replays the lines one by one and ends at the root, or stops at the first panic |
| NoSpace.Apply | aoc22_07/src/main.rs:13-46 | one step of the loop changes the file system exactly as the line's meaning says, failing where the source panics |
| NoSpace.PartOne | aoc22_07/src/main.rs:52-56 | the sum of the directory sizes below 100000 |
| NoSpace.SumSmall | aoc22_07/src/main.rs:55 | the loop sums exactly the sizes below 100000 |
| NoSpace.RootSizeListedFirst | aoc22_07/src/fs.rs:125-141 | the root's size is the first directory size listed |
| NoSpace.SmallestAbove | aoc22_07/src/main.rs:62-66 | the least size above the need, `None` exactly when there is none |
| NoSpace.PartTwo | aoc22_07/src/main.rs:58-67 | the smallest directory size above 30000000 - (70000000 - root size); `None` exactly on a panicking transcript or an underflowing subtraction |
| SandCave.UpdateMin | aoc22_14/src/main.rs:21-27 | the result is one of the two and no larger than either |
| SandCave.UpdateMax | aoc22_14/src/main.rs:29-35 | the result is one of the two and no smaller than either |
| SandCave.ParsePoint | aoc22_14/src/main.rs:49-54 | a parsed point has two coordinates that fit a `usize` |
| SandCave.ParsePointOf | aoc22_14/src/main.rs:49-54 | "x,y" written from two `usize` numbers parses back to (x, y) |
| SandCave.ParsePoints | aoc22_14/src/main.rs:44-54 | every part parses, in order, or some part fails and so does the whole line |
| SandCave.Box | aoc22_14/src/main.rs:62-72 | the cells of a segment, ends included, whichever way it runs |
| SandCave.Drawn | aoc22_14/src/main.rs:62-72 | drawing a segment makes exactly its cells rock and leaves every other tile as it was |
| SandCave.DrawnPathMeaning | aoc22_14/src/main.rs:47-76 | a cell is drawn by a path exactly when it lies on one of its segments, and drawn cells are rock |
| SandCave.OnSegmentsStep | aoc22_14/src/main.rs:47-76 | a cell lies on one of the first n segments exactly when it lies on one of the first n - 1 or on the n-th |
| SandCave.ExtentsBound | aoc22_14/src/main.rs:55-60 | the extents bound every corner read so far and each is its start value or one of the corners |
| SandCave.DrawSegment | aoc22_14/src/main.rs:62-72 | the two nested loops draw exactly the segment's cells as rock |
| SandCave.FloorMeaning | aoc22_14/src/main.rs:82-86 | the floor laid on a row from `lo` up to but not including `hi` is rock exactly on those cells, and every other tile is unchanged |
| SandCave.WithVoids | aoc22_14/src/main.rs:87-92 | the lowest rock row gets Void from `min_x - 1` to `max_x + 1` wherever it is empty; nothing else changes |
| SandCave.ProbeAt | aoc22_14/src/main.rs:105-113 | an empty or Void cell is free, rock or sand blocks, and the source is the panic case |
| SandCave.NextLoc | aoc22_14/src/main.rs:114-158 | a grain moves down, else down-left, else down-right into a free cell; it stays exactly when all three are blocked |
| SandCave.Widen | aoc22_14/src/main.rs:142-148 | in part two the widened cave keeps `max_y`, only moves `min_x` left and `max_x` right, loses no tile, and adds nothing but rock on the floor row; `None` where a `usize` subtraction underflows |
| SandCave.StepFrame | aoc22_14/src/main.rs:141-171 | one pass of the loop moves a grain onto a cell that was free, or ends the drop as `Dropped` says |
| SandCave.FallFrame | aoc22_14/src/main.rs:139-174 | a whole drop leaves the cave as `Dropped` says: a resting grain lies in a cell that was free (or at the source), is sand and cannot move; only part one falls; in part one nothing else changes; in part two every other cell keeps its tile or becomes floor rock |
| SandCave.FallDown | aoc22_14/src/main.rs:149-154 | a grain with an empty cell straight below moves there first |
| SandCave.FallLeft | aoc22_14/src/main.rs:149-155 | a grain blocked below moves down-left when that cell is empty |
| SandCave.FallRight | aoc22_14/src/main.rs:149-156 | a grain blocked below and down-left moves down-right when that cell is empty |
| SandCave.FallRest | aoc22_14/src/main.rs:149-173 | a grain blocked on all three cells below comes to rest where it is, as sand |
| SandCave.FallIntoVoid | aoc22_14/src/main.rs:159-166 | a grain whose next cell is Void falls out (`None`) in part one and panics in part two, with the cave unchanged |
| SandCave.RestCount | aoc22_14/src/main.rs:172 | a grain that rests adds exactly one sand tile and, in part two, keeps the floor the lowest row with no sand on it |
| SandCave.PourCount | aoc22_14/src/main.rs:194-209 | a pour keeps `max_y`; in part two an answer means the source is covered; the answer less the grains counted before is the number of new sand tiles |
| SandCave.SandCountAdd | aoc22_14/src/main.rs:172 | turning a non-sand cell into sand adds one grain |
| SandCave.SandCountFloor | aoc22_14/src/main.rs:126-174 | a grain resting while every other change is rock on a floor row without sand adds exactly one grain |
| SandCave.FlooredStep | aoc22_14/src/main.rs:139-174 | a grain resting at the source or on settled ground leaves nothing below the floor and no sand on it |
| SandCave.Cave.constructor | aoc22_14/src/main.rs:95-101 | the cave holds the given tiles and extents (the source is the constant (500, 0)) |
| SandCave.Cave.ExtendLeft | aoc22_14/src/main.rs:126-131 | the tiles become the old ones with floor rock (`WithFloor`) for the `num` columns left of `min_x`, which moves left by `num` |
| SandCave.Cave.ExtendRight | aoc22_14/src/main.rs:132-137 | the tiles become the old ones with floor rock (`WithFloor`) from `max_x` to `max_x + num`, and `max_x` moves right by `num` |
| SandCave.Cave.Widening | aoc22_14/src/main.rs:142-148 | the cave becomes exactly `Widen` of the old one, or the method reports the panic and changes nothing |
| SandCave.Cave.DropSand | aoc22_14/src/main.rs:139-174 | the grain starts at the source and its outcome and the cave afterwards are exactly `Fall`'s, which moves by `NextLoc` and stops on Void; a grain that rests lies in a cell that was free (or at the source), is sand, and cannot move; in part one nothing else changes and a fall changes nothing; in part two every other cell keeps its tile or becomes floor rock, and no cell is lost |
| SandCave.Cave.Descend | aoc22_14/src/main.rs:140-171 | the loop of `drop_sand` leaves the grain's outcome and the cave exactly as `Fall` from the source gives them, one `FallStep` per pass |
| SandCave.Cave.Run | aoc22_14/src/main.rs:194-209 | the answer and the cave afterwards are exactly `Pour`'s: grains are dropped until one falls (the answer counts those at rest) or one covers the source (counted too); the count is the number of new sand tiles, in part one and, on a floored cave, in part two; in part two an answer means the source is covered |
| SandCave.ParseInput | aoc22_14/src/main.rs:37-102 | the cave `parse_input` builds, or `None` exactly where it panics |
| SandCave.Simulate | aoc22_14/src/main.rs:194-209 | `run` on an input gives `SandAnswer`: the parsed cave, then `Pour` from it |
| SandCave.ReadCave | aoc22_14/src/main.rs:37-93 | the tiles and extents `parse_input` builds, or `None` exactly where it panics |
| SandCave.ReadRocks | aoc22_14/src/main.rs:43-77 | the line loop draws every path and tracks the extents |
| SandCave.ReadPath | aoc22_14/src/main.rs:47-76 | the segment loop draws each segment of one path and updates the extents from both ends |
| SandCave.ReadSegment | aoc22_14/src/main.rs:48-73 | one segment feeds both of its ends to the extents and is drawn: tiles and extents move from `DrawnPath`/`ExtentsPath` at `j` to `j + 1` |
| SandCave.LayFloor | aoc22_14/src/main.rs:84-86 | the loop lays exactly the part-two floor |
| SandCave.LayVoids | aoc22_14/src/main.rs:88-92 | the loop lays exactly the part-one Void row |
| SandCave.NoRocksAfterPanic | aoc22_14/src/main.rs:43-77 | once a line panics, parsing the whole input does |
| SandCave.RocksOfShape | aoc22_14/src/main.rs:37-77 | the tiles read hold nothing but rock, and the extents are never negative |
| SandCave.DrawnPathAbove | aoc22_14/src/main.rs:53-72 | segments whose corners lie at or above a row draw nothing below it |
| SandCave.RocksOfAbove | aoc22_14/src/main.rs:43-77 | no rock read lies below `max_y` |
| SandCave.PathAbove | aoc22_14/src/main.rs:47-76 | one path read onto tiles at or above `max_y` keeps every tile at or above the updated `max_y` |
| SandCave.CaveOfFloored | aoc22_14/src/main.rs:79-86 | the part-two cave has its floor as lowest row, no sand, and the source uncovered, as `Run` needs to count grains |
| SandCave.PathOfNonNegative | aoc22_14/src/main.rs:49-54 | parsed points are never negative |
| SandCave.DrawnPathRock | aoc22_14/src/main.rs:68-72 | drawing over rock leaves nothing but rock |
| SandCave.VoidsShape | aoc22_14/src/main.rs:79-93 | part one's cave has the source, no sand, the whole lowest row filled, and Void only on that row |
| SandCave.FloorShape | aoc22_14/src/main.rs:79-86 | part two's cave has the source, no sand, and a rock floor two rows below the lowest rock |
| SandCave.CaveOfShape | aoc22_14/src/main.rs:37-102 | the parsed cave has `min_x` at least 1, the source at (500, 0), no sand, and a bottom row that catches every falling grain |
| SandCave.PointTexts | aoc22_14/src/main.rs:49-54 | points written out contain no separator and parse back to themselves |
| SandCave.PathOfText | aoc22_14/src/main.rs:44-54 | a path written as the input writes it reads back as itself |
| SandCave.ParsePointsAll | aoc22_14/src/main.rs:44-54 | parts that each parse give the parsed points in order |
| SandCave.TwoPathLines | aoc22_14/src/main.rs:43 | two paths written one per line read back as those two paths |
| SandCave.SampleExtents | aoc22_14/src/main.rs:222-229 | the sample's paths reach max_y 6 then 9, min_x 496 then 494, max_x 498 then 503 |
| SandCave.RocksOfStep | aoc22_14/src/main.rs:43-77 | one more line of at least two points draws its path after the others |
| SandCave.RocksOfOne | aoc22_14/src/main.rs:43-77 | one line draws its path |
| SandCave.RocksOfTwo | aoc22_14/src/main.rs:43-77 | two lines draw the first path, then the second |
| SandCave.SampleRocks | aoc22_14/src/main.rs:222-229 | the sample's rock is its two paths, with extents (9, 494, 503) |
| SandCave.SampleCave | aoc22_14/src/main.rs:224-232 | on the sample, max_y is 9, min_x 494, max_x 503, and (493, 9) and (504, 9) are Void |
| SandCave.SampleRockDrawn | aoc22_14/src/main.rs:222 | the sample's two paths draw exactly the twenty rock cells of `SampleRock` |
| SandCave.SampleSegments | aoc22_14/src/main.rs:222 | a cell lies on a segment of the sample's paths exactly when it is in `SampleRock` |
| SandCave.SampleVoids | aoc22_14/src/main.rs:87-92 | part one's Void row on the sample lands on (493, 9), (503, 9) and (504, 9) only |
| SandCave.SampleFloor | aoc22_14/src/main.rs:82-86 | part two's floor on the sample is rock from (493, 11) to (503, 11) |
| SandCave.SampleCaves | aoc22_14/src/main.rs:222-232 | on the sample, `parse_input` builds exactly `SampleCaveOne` in part one and `SampleCaveTwo` in part two, tile by tile |
| CamelCards.Digit | aoc23_07/src/main.rs:25 | a value exactly for the ten decimal digits, and then the digit's value |
| CamelCards.IntCmp | aoc23_07/src/main.rs:28 | `Less`, `Equal` or `Greater` exactly as the first number is below, equal to or above the second |
| CamelCards.CardCmpByStrength | aoc23_07/src/main.rs:20-54 | on the thirteen cards, `Card::cmp` is the comparison of strengths 2-9, T, J, Q, K, A |
| CamelCards.CardCmpOffDeck | aoc23_07/src/main.rs:48-50 | off the deck it is no order: two unknown letters are each below the other |
| CamelCards.FirstSeenMeaning | aoc23_07/src/main.rs:86-89 | the distinct cards are exactly the cards of the hand, each once |
| CamelCards.Counts | aoc23_07/src/main.rs:86-90 | one count per distinct card |
| CamelCards.Insert | aoc23_07/src/main.rs:91 | inserting into sorted counts keeps them sorted and adds exactly the new count |
| CamelCards.SortNats | aoc23_07/src/main.rs:91 | the counts sorted ascending, a permutation of the input with the same sum |
| CamelCards.SumAppend | aoc23_07/src/main.rs:86-90 | the sum of the counts with one more is the old sum plus it |
| CamelCards.SumAtLeastLength | aoc23_07/src/main.rs:86-90 | positive counts sum to at least their number |
| CamelCards.CountsBump | aoc23_07/src/main.rs:87-89 | one more card adds one to the total count exactly when it is among the counted cards |
| CamelCards.CountsSum | aoc23_07/src/main.rs:86-90 | the counts are positive and add up to the number of cards |
| CamelCards.PartitionsOfFive | aoc23_07/src/main.rs:93-100 | every sorted positive sequence summing to 5 is one of the seven shapes, so five cards never panic |
| CamelCards.ShapesSumToFive | aoc23_07/src/main.rs:93-100 | each of the seven shapes adds up to 5 |
| CamelCards.KindOfIffFive | aoc23_07/src/main.rs:85-107 | `get_type` returns exactly when the hand has five cards; every other length panics |
| CamelCards.GetType | aoc23_07/src/main.rs:85-107 | the map-counting loop and the match give the kind of the sorted counts, `None` where it panics |
| CamelCards.CountsStep | aoc23_07/src/main.rs:87-90 | one more card of the hand adds its count when it is new |
| CamelCards.ParseHand | aoc23_07/src/main.rs:128-133 | a parsed hand has the cards before the first space and the bid after it, a number below 2^32 |
| CamelCards.ParseHandOf | aoc23_07/src/main.rs:128-133 | cards, a space and a `u32` bid read back as that hand |
| CamelCards.ParseHandErrors | aoc23_07/src/main.rs:128-133 | a line without a space, or with no `u32` after it, is a `ParseHandError` |
| CamelCards.LexCmpFlip | aoc23_07/src/main.rs:116-120 | the card-by-card order is antisymmetric and `Equal` only on equal sequences |
| CamelCards.LexCmpTrans | aoc23_07/src/main.rs:116-120 | the card-by-card order is transitive |
| CamelCards.Strengths | aoc23_07/src/main.rs:20-54 | one strength per card |
| CamelCards.CardsCmpByStrength | aoc23_07/src/main.rs:20-54 | on the thirteen cards the card-by-card order is that of the strengths, and equal strengths mean equal cards |
| CamelCards.HandCmpByKey | aoc23_07/src/main.rs:116-120 | between valid hands `Hand::cmp` answers and orders by kind, then cards; `Equal` only on equal cards |
| CamelCards.HandLeTotal | aoc23_07/src/main.rs:116-120 | over valid hands, `Hand::cmp` is total and `Greater` one way is `Less` the other |
| CamelCards.HandLeTrans | aoc23_07/src/main.rs:116-120 | over valid hands, `Hand::cmp` is transitive |
| CamelCards.TiesAppend | aoc23_07/src/main.rs:139 | the elements level with `x` in a concatenation are those of each part, in order |
| CamelCards.SwapTiesAt | aoc23_07/src/main.rs:139 | swapping two neighbours not both level with `x` leaves the elements level with `x` in the same order |
| CamelCards.SwapTies | aoc23_07/src/main.rs:139 | under a transitive order, swapping a neighbour pair that is out of order keeps every run of level elements in order |
| CamelCards.SortBy | aoc23_07/src/main.rs:139 | `sort` under a total preorder returns the same hands, ascending, and stable: elements level with one another keep their input order |
| CamelCards.SinkInto | aoc23_07/src/main.rs:139 | one insertion pass leaves the same elements, the prefix through the new one ascending, and every run of level elements in input order |
| CamelCards.SwapDown | aoc23_07/src/main.rs:139 | one swap of the new element below a greater neighbour keeps every other pair in order and the elements the same |
| CamelCards.SettledSorted | aoc23_07/src/main.rs:139 | once the new element stops, the prefix is sorted |
| CamelCards.KeepParsed | aoc_utils/src/lib.rs:38-50 | no more hands than lines |
| CamelCards.KeepParsedMembers | aoc_utils/src/lib.rs:38-50 | a hand is kept exactly when some line parses to it |
| CamelCards.TotalWinnings | aoc23_07/src/main.rs:140-144 | the running sum over the ordered hands is the sum of each bid times its rank |
| CamelCards.FlipTotal | aoc23_07/src/main.rs:116-120 | comparisons that answer and flip between two hands make them comparable one way or the other |
| CamelCards.CoherentTotal | aoc23_07/src/main.rs:116-120 | where `Hand::cmp` keeps the `Ord` contract on the hands, any two of them are comparable |
| CamelCards.CoherentTrans | aoc23_07/src/main.rs:116-120 | where `Hand::cmp` keeps the `Ord` contract on the hands, it is transitive over them |
| CamelCards.CoherentFive | aoc23_07/src/main.rs:85-120 | where `Hand::cmp` keeps the contract on the hands, every hand is five cards; any other length panics in `get_type` |
| CamelCards.ValidCoherent | aoc23_07/src/main.rs:20-120 | hands of five of the thirteen cards always keep the `Ord` contract |
| CamelCards.FirstSeenSame | aoc23_07/src/main.rs:86-89 | five of the same card have that card as their one distinct card |
| CamelCards.FiveSame | aoc23_07/src/main.rs:85-107 | five of the same card, whatever it is, are five of a kind |
| CamelCards.BelowEachOther | aoc23_07/src/main.rs:116-120 | two hands of one kind whose cards are each below the other's break the `Ord` contract |
| CamelCards.OffDeckIncoherent | aoc23_07/src/main.rs:48-50 | TTTTT and XXXXX break the `Ord` contract, since `Card::cmp` puts 'T' and 'X' each below the other |
| CamelCards.PartOne | aoc23_07/src/main.rs:137-145 | with fewer than two hands, the sum of bid × rank with nothing compared; otherwise an answer exactly when `Hand::cmp` keeps the `Ord` contract on the hands (each five cards), and then the sum of bid × rank over the hands ascending, hands comparing `Equal` in input order |
| CamelCards.HandLeBoth | aoc23_07/src/main.rs:116-120 | valid hands each at most the other hold the same cards |
| CamelCards.SortedUnique | aoc23_07/src/main.rs:139 | two ascending arrangements of the same elements agree when only equal elements compare equal |
| CamelCards.RankedUnique | aoc23_07/src/main.rs:137-145 | with distinct cards per hand, the ranking, and so the winnings, does not depend on how the sort breaks ties |
| CamelCards.SortedStableUnique | aoc23_07/src/main.rs:139 | two ascending arrangements of the same elements that keep every run of level elements in the same order are the same |
| CamelCards.RankingFixed | aoc23_07/src/main.rs:137-145 | on coherent hands the ascending, stable ranking `part_one` sums over is unique |
| CamelCards.SameCardsRanked | aoc23_07/src/main.rs:116-120 | a valid hand followed by one with the same cards is coherent and already ascending |
| CamelCards.WinningsTwo | aoc23_07/src/main.rs:140-144 | two hands win the first bid plus twice the second |
| CamelCards.TiesKeepInputOrder | aoc23_07/src/main.rs:137-145 | two hands 23456 bidding 1 then 2 win 5: hands comparing `Equal` keep their input order |
| CamelCards.HandLines | aoc23_07/src/main.rs:164 | one line per hand |
| CamelCards.KeepParsedAll | aoc_utils/src/lib.rs:38-50 | when every line parses, every hand is kept in order |
| CamelCards.HandLinesParse | aoc23_07/src/main.rs:128-133 | hands written one per line read back as themselves |
| CamelCards.SampleParses | aoc23_07/src/main.rs:164 | the example's five lines parse to its five hands |
| CamelCards.SampleKinds | aoc23_07/src/main.rs:93-100 | the example's hands are one pair, three of a kind, two pair, two pair and three of a kind |
| CamelCards.HandCmpOfKinds | aoc23_07/src/main.rs:116-120 | a lower kind compares `Less`; equal kinds compare by the cards |
| CamelCards.LowerKindFirst | aoc23_07/src/main.rs:116-120 | a hand of a lower kind ranks at or below one of a higher kind |
| CamelCards.SampleStep1 | aoc23_07/src/main.rs:237-240 | 32T3K is one pair and KTJJT two pair, the higher kind |
| CamelCards.SampleStep3 | aoc23_07/src/main.rs:237-240 | KK677 is two pair and T55J5 three of a kind, the higher kind |
| CamelCards.SampleStep2 | aoc23_07/src/main.rs:237-240 | KTJJT ranks below KK677, both two pair, by the second card |
| CamelCards.SampleStep4 | aoc23_07/src/main.rs:237-240 | T55J5 ranks below QQQJA, both three of a kind, by the first card |
| CamelCards.SampleRankedAscending | aoc23_07/src/main.rs:137-145 | the example's hands ranked 32T3K, KTJJT, KK677, T55J5, QQQJA are ascending |
| CamelCards.SampleWinnings | aoc23_07/src/main.rs:237-240 | any ranking of the example's hands wins 6440 |
| CamelCards.PartOneSample | aoc23_07/src/main.rs:237-240 | `part_one` on the example gives 6440 |

## Left out

- Every `main`, `println!`/`dbg!` output, `include_str!` input, and the tests against the unseen `input.txt` files: only the text the solvers compute from is modelled.
- `input::head` in aoc_utils/src/input.rs only prints lines; `get_lines_of_type` is modelled in each caller as "parse each line, drop the failures".
- aoc15_04/src/main.rs searches through MD5 hashes of the external `md5` crate; hashing is not part of this model.
- aoc22_13/src/main.rs is unfinished and does not compile (`todo!()` bodies, an undefined `ListItem`), so it is not part of this model.
- aoc23_07 `part_two` is `todo!()`. Its test calls `part_one` on the example and expects 5905, but `CamelCards.PartOneSample` proves that `part_one` gives 6440 there.
- Regex parsing: `parse_line` of aoc22_15 is not modelled, so `Beacons.PartOne` and `Beacons.PartTwo` take the parsed sensors. Of `get_monkey` in aoc22_11/src/monkey.rs only the reading of the captured fields is modelled.
- `nom` parsers of aoc23_05 and aoc23_08: the models take the parsed seeds and maps, and the instruction string with the parsed node lines. `lcm` is an ordinary function over positive numbers.
- Hash containers are maps and sets. Their iteration order is not modelled. Where a result depends on it (`HauntedWasteland.PartTwo` over the map's keys), the order is a parameter that must list the keys.
- `BinaryHeap`, `VecDeque` and `Vec` are sequences; their memory layout and capacity are not modelled.
- `Cave::as_string` of aoc22_14 only renders the cave as text, so it is not part of this model.
- Rucksacks.Priority: `char::is_uppercase` is modelled for the ASCII letters 'A' to 'Z' only. An upper-case letter outside ASCII (such as 'É') scores `c - 96` in the model, while the source scores it `c - 38`.
- HillClimb.ParseInput, HillClimb.PartOne, HillClimb.PartTwo: a character from U+00E1 on has a `u8` height of 128 or more. The source's `as i8` casts make such a height negative, and their difference can overflow `i8`. The model answers `None` on such a map instead of following that arithmetic. Characters below 'a' other than 'S' and 'E' give `None`, as the source panics on them.
- Strings are sequences of `char`. `split_whitespace` (`Strings.Words`) and `trim` use ASCII whitespace only, not Unicode's table. `lines` does not strip a trailing '\r'.
- Most puzzle samples in the tests are not proved as whole answers, because unrolling the solvers over concrete text and numbers is too expensive for the verifier. The parts that are proved are the ones with `*Sample*` rows above. These whole-answer samples are not proved:
  - bingo 4512/1924 and its parse test;
  - vents 5/12;
  - rope 13/36;
  - crates "CMZ"/"MCD" and `parse_stack_line`;
  - diagnostic 198/230;
  - trees 21/8;
  - wasteland 6/6;
  - hill 31/29;
  - sand 24/93;
  - beacons 26/56000011;
  - the directory sizes 95437/24933642;
  - signal strength 13140 and the CRT picture;
  - monkey business 10605/2713310158;
  - rucksack totals 157/70;
  - almanac 35/46.
- Fixed-width arithmetic that only matters past the puzzle's sizes is unbounded, so its overflow panic or wrap-around is not modelled. Parsed numbers do keep their widths. The unbounded arithmetic is:
  - the `i32` coordinates of aoc22_09, aoc22_10, aoc22_15 and aoc21_05;
  - the `u32` sums of aoc22_01, aoc22_03 and aoc21_07, and the `u32` window sums of aoc21_01;
  - the `usize` products of aoc15_02, aoc22_08 and aoc21_02, and the `usize` directory size sums of aoc22_07;
  - the `i32` bit counts of aoc21_03;
  - the `u64` fish counts of aoc21_06, the `u64` additions of the almanac ranges of aoc23_05 and the `u64` `lcm` fold of aoc23_08;
  - the `i64` worry levels and the `u32` inspection counts of aoc22_11.
- CamelCards.PartOne: the `u32` products and sum of the winnings are unbounded, so the overflow panic is not modelled.
- CamelCards.PartOne: on five-card hands whose off-deck characters make `Card::cmp` break the `Ord` contract (`OffDeckIncoherent`), the library sort may panic or return any order; the model answers `None` there instead of choosing one.
- TreetopTreeHouse.PartTwo: the `usize` product of the four views is unbounded.
- MonkeyInTheMiddle.PartTwo: the `i64` worry arithmetic and the `u64` product are unbounded, so overflow is not modelled.
- Beacons.PartTwo: promises some uncovered point just outside a diamond, not the first one in the source's scan order. The order of `outside_points` and the duplicate points it yields are not modelled.
- HillClimb.Search: the `BinaryHeap` pop is modelled as taking any shortest queued path. `Path`'s ordering compares lengths only, so which of several equally long paths the heap pops first is left open in the source; the model allows any of them, and the answer does not depend on that choice.
- SandCave.Cave.DropSand and SandCave.Cave.Run take a `fuel` bound. A grain that neither settles nor falls within it gives `OutOfFuel`, which has no counterpart in the source. `Run` drops at most `fuel` grains, and `Simulate` uses the same `fuel` for both bounds.
- SandCave.SandAnswer: the sample answers of the tests at aoc22_14/src/main.rs:234-247 (24 in part one, 93 in part two) are not proved. The parsed sample caves are proved tile by tile (`SampleCaves`). Replaying 24 and 93 grains on those concrete maps takes the verifier far past its resource limit, even for a single move.
