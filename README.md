# Advent of Code 2025 solvers, modelled in Dafny

This project models the twelve daily puzzle solvers of a Rust Advent of Code 2025
repository (`01` to `12`, plus `01-01`, the first version of day 1). The model
follows the programs, one Dafny module per day:

- `Day01` (`day01.dfy`) models the `CodeReader` state machine. It reads `L<digits>` / `R<digits>`
  lines one character at a time. The module also models the dial simulation of both parts,
  using Rust's truncated remainder.
- `Day01Part1` (`day01_01.dfy`) models the first version's part-1-only dial loop. It reuses the
  identical reader.
- `Day02` models the `Reader` for `a-b,c-d` product ranges, `pow10`, and both invalid-id tests.
  It states the tests as repetitions of a digit block and proves them against that meaning.
- `Day03` models greedy digit selection. It proves that `find_maximal_power` returns the largest
  number formed by a subsequence of the requested length.
- `Day04` models the paper-roll grid as a class over a grid of cells. It covers neighbour
  counting, the part-1 count and the removal loop that runs until nothing is taken.
- `Day05` models the ingredient ranges: containment, overlap, merge, and the two-stage parse. It
  proves that the sort-and-merge pass yields disjoint ranges covering the same ids.
- `Day06` models the worksheet tokenisers and the part-1 total. `Day07` models beam propagation over
  an array updated in place.
- `Day08` models the junction networks (`contains`, `add`, `size`, `merge_from`) and the pairwise
  distance sort. It also models the connection loop, which keeps the networks disjoint.
- `Day09` models the coordinate parse and the normalised rectangles with their area and strict interior
  intersection. It also models both maximum-area searches.
- `Day10` models light patterns, buttons and joltages, the equation matrix, and the `combinations` enumerator.
  It also models the search for the fewest button presses.
- `Day11` models the memoised path count with the `dac`/`fft` flags. The count is proved equal to
  the number of routes to `out` that pass every required device.
- `Day12` models the shape and region parsers.

Shared modules stand for the parts of Rust's standard library the programs use:

- `Wrappers`: `Option`, `Result`.
- `Arith`: integer helpers.
- `Decimal`: decimal digits and their values.
- `Text`: `split`, `lines`, and `parse` for `i32`, `i64` and `usize`.
- `Seqs`: sequence facts, and a stable sort by key.

The form follows the source:

- Types whose methods take `&mut self` are classes with `modifies` clauses.
- Loops are `while` loops, proved against specification functions.
- Parsers and iterator chains are functions.
- A failure that the program reports or panics on during parsing is a `Result` or `Option` error.

## Model

| member | source | states |
|---|---|---|
| Day01.ProcessDirection | 01/src/main.rs:21-35 | exactly `'L'` and `'R'` open a count with an empty buffer, negative for `'L'` and positive for `'R'`; every other character is rejected |
| Day01.ProcessCount | 01/src/main.rs:37-67 | a digit is appended to the buffer and the direction kept; a line feed succeeds exactly when the buffer parses as an `i32`, and then emits one move with that direction and length and returns to `SearchingDirection`; an empty buffer at the line feed is rejected, and so is every other character, `'\r'` included |
| Day01.CodeReader.constructor | 01/src/main.rs:70-75 | a new reader searches for a direction and holds no moves |
| Day01.CodeReader.Read | 01/src/main.rs:77-84 | one character: the state advances as `process_direction`/`process_count` say and `moves` grows by the at most one move emitted, earlier moves unchanged; a rejected character changes nothing |
| Day01.ReadMoves | 01/src/main.rs:98-101 | feeding the whole text character by character to one reader gives the moves of the whole text, or the error at the first character the reader rejects |
| Day01.FeedConcat | 01/src/main.rs:77-84 | reading `a` then `b` is reading `a + b`: the moves of `a` come first and are never changed by what follows |
| Day01.FeedErrorSticks | 01/src/main.rs:52-65 | once a character is rejected, what follows does not matter |
| Day01.FeedDigits | 01/src/main.rs:44-51 | a run of digits after a direction only grows the buffer and emits no move |
| Day01.FeedLetter | 01/src/main.rs:21-30 | a direction letter from `SearchingDirection` opens an empty count and emits nothing |
| Day01.FeedLineFeed | 01/src/main.rs:52-61 | a line feed after a nonempty digit buffer whose value fits an `i32` emits exactly that move and returns to `SearchingDirection` |
| Day01.FeedLine | 01/src/main.rs:21-61 | a direction letter, digits of an `i32` value and a line feed read as exactly that one move |
| Day01.FeedMove | 01/src/main.rs:21-61 | the line written for a move (length in `0..=i32::MAX`) reads back as that move |
| Day01.FeedEncode | 01/src/main.rs:77-101 | round trip: the lines written for any moves read back as exactly those moves, in order, ending in `SearchingDirection` |
| Day01.ReadExampleRight | 01/src/main.rs:21-61 | `"R10\n"` reads as the single move right 10 |
| Day01.ReadExampleLeft | 01/src/main.rs:21-61 | `"L5\n"` reads as the single move left 5 |
| Day01.ReadExampleMissingCount | 01/src/main.rs:52-56 | `"R\n"` is rejected: the empty buffer does not parse |
| Day01.ReadExampleCarriageReturn | 01/src/main.rs:63-65 | `"R1\r\n"` is rejected at the `'\r'` |
| Day01.FeedLengthsNonnegative | 01/src/main.rs:44-61 | the buffer only ever holds digits, so every move read has a length of at least 0 |
| Day01.TruncRem | 01/src/main.rs:111 | Rust's `% 100`: the result lies strictly between -100 and 100, has the sign of the dividend, and differs from it by a multiple of 100 |
| Day01.DialAfterCongruent | 01/src/main.rs:106-111 | part 1's position stays strictly inside (-100, 100) and agrees modulo 100 with the start plus the total signed turn |
| Day01.ZeroIffMultiple | 01/src/main.rs:113-115 | a position inside (-100, 100) congruent to the unwrapped turn is 0 exactly when that turn is a multiple of 100, so counting `position == 0` counts the stops on 0 |
| Day01.ClickDialMatches | 01/src/main.rs:119-128 | clicking `length` single steps with `%= 100` after each ends where one truncated `%` of the whole turn ends |
| Day01.ClickDialCongruent | 01/src/main.rs:119-128 | the click-by-click position stays inside (-100, 100) and congruent to the unwrapped turn |
| Day01.DialPositionsAgree | 01/src/main.rs:106-128 | after every sequence of moves with lengths of at least 0, part 2's position equals part 1's |
| Day01.ClickThrough | 01/src/main.rs:119-128 | the inner `while`: the final position is `length` clicks from the start, and the count grows by the clicks landing on a multiple of 100 |
| Day01.DialCodes | 01/src/main.rs:103-129 | part 1 counts the moves that end on 0, part 2 the single clicks that land on 0 |
| Day01.ZeroStopsBound | 01/src/main.rs:113-115 | part 1 never counts more than one per move |
| Day01.StopsAreClicks | 01/src/main.rs:106-128 | with positive lengths, every move that ends on 0 has its last click on 0, so part 2 counts at least as many as part 1 |
| Day01Part1.CodeCount | 01-01/src/main.rs:100-111 | `code_count` is the number of moves after which the truncated-`% 100` position is 0, and at most the number of moves |
| Day02.ReadStart | 02/src/main.rs:19-31 | a digit is appended to the start buffer and `-` moves on to an empty end buffer, keeping the start text; these are the only accepted characters and every other one is rejected with that character |
| Day02.ReadEnd | 02/src/main.rs:33-67 | a digit is appended to the end buffer and `'\r'` changes nothing; `,` and a line feed return the parsed range and go on to a fresh start buffer or to `DoneReading`, or fail when either bound does not parse as an `i64`; every other character is rejected |
| Day02.Step | 02/src/main.rs:78-92 | a range is returned only for `,` or a line feed while reading an end number; any character after `DoneReading` or in `InvalidState` is rejected |
| Day02.Reader.constructor | 02/src/main.rs:70-76 | a new reader starts with an empty start buffer |
| Day02.Reader.Read | 02/src/main.rs:78-92 | the state advances as `read_start`/`read_end` say and the call returns the range they produce, if any; a rejected character leaves the reader in `InvalidState` |
| Day02.ReadRanges | 02/src/main.rs:176-178 | feeding the whole text to one reader returns the ranges of the whole text in order, or the error at the first character the reader rejects |
| Day02.FeedConcat | 02/src/main.rs:78-92 | reading `a` and then `b` returns the ranges of `a` followed by those of `b` read from the state `a` ends in |
| Day02.FeedErrorSticks | 02/src/main.rs:78-92 | once a character is rejected, nothing read after it changes the outcome |
| Day02.FeedStartDigits | 02/src/main.rs:20-24 | any run of digits while reading a start number only grows its buffer and returns nothing |
| Day02.FeedEndDigits | 02/src/main.rs:40-43 | any run of digits while reading an end number only grows its buffer and returns nothing |
| Day02.CarriageReturnIgnored | 02/src/main.rs:55 | a carriage return while reading an end number changes nothing |
| Day02.FeedRange | 02/src/main.rs:19-67 | digits, `-`, digits and a terminator, from a fresh reader, return exactly the one range with those two values and end in the terminator's state |
| Day02.FeedEncodedRange | 02/src/main.rs:19-67 | the decimal text of any range within `i64` followed by a terminator is read back as exactly that range |
| Day02.FeedEncode | 02/src/main.rs:78-92 | round trip: the input line for any nonempty list of ranges within `i64` is read back as exactly those ranges, in order, ending in `DoneReading` |
| Day02.ReadExample | 02/src/main.rs:264-282 | `4000-4045\n` returns exactly one range, from 4000 to 4045 |
| Day02.DoneRejectsInput | 02/src/main.rs:87 | after `DoneReading` every further input is rejected |
| Day02.Pow10 | 02/src/main.rs:99-105 | the result is `10^exponent` for `exponent >= 0` and 1 otherwise |
| Day02.RepeatValue | 02/src/main.rs:141-147 | the value of a segment repeated `r` times is the segment's value times the repeat factor `1 + 10^w + ... + 10^((r-1)w)` |
| Day02.RepTimesNines | 02/src/main.rs:141-145 | the repeat factor times `10^w - 1` is `10^(w*r) - 1` |
| Day02.DigitsDivisibleIffRepeated | 02/src/main.rs:141-148 | a string of `w * r` digits has a value divisible by the repeat factor exactly when it is its first `w` digits repeated `r` times |
| Day02.DivisibleIffRepeated | 02/src/main.rs:141-148 | an id with `w * r` digits is divisible by the repeat factor exactly when its decimal form is one `w`-digit segment repeated `r` times |
| Day02.IsValidProductPart1 | 02/src/main.rs:107-115 | an id is invalid exactly when its decimal digits are two equal halves; every id with an odd digit count is valid |
| Day02.Part1Examples | 02/src/main.rs:220-225 | 22, 2020 and 123123 are invalid |
| Day02.InvalidPart1Digits | 02/src/main.rs:107-115 | an id with `2 * h` digits is rejected by part 1 exactly when it is divisible by `10^h + 1` |
| Day02.SegmentTest | 02/src/main.rs:132-149 | for one segment length, testing that the digit count splits into at least two segments and that the id is divisible by their repeat factor is testing that the decimal form is that segment repeated |
| Day02.RepeatFactor | 02/src/main.rs:141-145 | the inner loop builds the repeat factor for the segment length and repetition count |
| Day02.IsValidProductPart2 | 02/src/main.rs:129-152 | an id is invalid exactly when its decimal form is some segment of length 1 to 9 repeated at least twice |
| Day02.ShortSegmentsSuffice | 02/src/main.rs:132 | within `i64` an id has at most 19 digits, so any repeated segment can be found among the lengths 1 to 9 |
| Day02.Part1InvalidIsPart2Invalid | 02/src/main.rs:107-152 | every id part 1 rejects, part 2 rejects too |
| Day02.SelectExact | 02/src/main.rs:117-127 | the selected ids are strictly increasing and are exactly the ids of the range that the test rejects |
| Day02.SelectIs | 02/src/main.rs:117-127 | any strictly increasing list holding exactly the rejected ids of the range is the selection |
| Day02.FindInvalidProductsPart1 | 02/src/main.rs:117-127 | the result is every id of `[start, end]` that part 1 rejects, in increasing order |
| Day02.FindInvalidProductsPart2 | 02/src/main.rs:154-164 | the result is every id of `[start, end]` that part 2 rejects, in increasing order |
| Day02.TwoDigitInvalid | 02/src/main.rs:107-115 | a two-digit id is rejected by part 1 exactly when it is a multiple of 11 |
| Day02.FourDigitInvalid | 02/src/main.rs:107-115 | a four-digit id is rejected by part 1 exactly when it is a multiple of 101 |
| Day02.FindInvalidPart1ExampleTwoDigits | 02/src/main.rs:227-231 | from 10 to 25 part 1 finds exactly 11 and 22 |
| Day02.FindInvalidPart1ExampleFourDigits | 02/src/main.rs:232-239 | from 1000 to 1234 part 1 finds exactly 1010, 1111 and 1212 |
| Day02.TwoDigitExampleId | 02/src/main.rs:227-231 | among the ids 10 to 25, part 1 rejects exactly 11 and 22 |
| Day02.FourDigitExampleId | 02/src/main.rs:232-239 | among the ids 1000 to 1234, part 1 rejects exactly 1010, 1111 and 1212 |
| Day02.ReadEndExamples | 02/src/main.rs:242-262 | `,` and a line feed after the start `1009` and the end `1011` both return the range from 1009 to 1011, going on to a fresh start buffer or to `DoneReading` |
| Day03.ToNumericalValue | 03/src/main.rs:6-20 | exactly the ten decimal digits have a value, and it is the digit's value; every other character is a panic |
| Day03.FindLargestSymbol | 03/src/main.rs:22-37 | for a nonempty line, the largest digit and the first position where it appears; for an empty line, value 0 at position 0 |
| Day03.Picked | 03/src/main.rs:39-52 | the digits a mask keeps, in order: as many as the mask keeps, all digits |
| Day03.Best | 03/src/main.rs:39-52 | the largest value of a `k`-digit subsequence has at most `k` digits |
| Day03.BestChoice | 03/src/main.rs:39-52 | some `k`-digit subsequence reaches `Best` |
| Day03.BestIsMax | 03/src/main.rs:39-52 | no `k`-digit subsequence is larger than `Best` |
| Day03.BestIsMaximalSubsequence | 03/src/main.rs:39-52 | `Best` is the maximum over all `k`-digit subsequences: reached by one and exceeded by none |
| Day03.BestAtLeastEachFirst | 03/src/main.rs:44-48 | leading with any digit that leaves enough digits behind it is no better than `Best` |
| Day03.BestFromSomeFirst | 03/src/main.rs:44-48 | `Best` is reached by leading with some digit that leaves enough digits behind it |
| Day03.BestSuffixMonotone | 03/src/main.rs:44-48 | a shorter suffix has no better subsequence |
| Day03.GreedyStep | 03/src/main.rs:45-48 | leading with the first largest digit of the window that leaves `k - 1` digits behind it reaches `Best` |
| Day03.GreedyAdvance | 03/src/main.rs:44-49 | one pass of the loop keeps "value so far, shifted, plus the best of the rest" equal to the answer |
| Day03.FindMaximalPower | 03/src/main.rs:39-52 | the result is the largest number formed by keeping `digits` of the line's digits in order |
| Day03.TwoDigitGreedy | 03/src/main.rs:44-49 | with two digits the answer is ten times the first largest digit before the last position plus the largest digit after it |
| Day03.MultipleMaximaExample | 03/src/main.rs:83-87 | with two digits, `000900800900` gives 99 |
| Day03.MaximumAtEndExample | 03/src/main.rs:89-93 | with two digits, `0007008009` gives 89 |
| Day04.ParseRow | 04/src/main.rs:21-28 | a line is accepted exactly when it holds only `'.'` and `'@'`, and then its cells are as long as the line and mark exactly its `'@'` |
| Day04.Rolls | 04/src/main.rs:22-28 | one cell per character, set exactly at the `'@'` |
| Day04.ParseGrid | 04/src/main.rs:8-37 | `new` with the width fixed by the first line (the corrected half of the finding); its meaning is stated by `ParseRowsExact` and `ParseGridShape` |
| Day04.ParseRowsExact | 04/src/main.rs:14-31 | the rows parse exactly when every line has `cols` cells of `'.'` and `'@'`; then there is one row per line and row `i` marks the `'@'` of line `i` |
| Day04.ParseGridShape | 04/src/main.rs:8-37 | a grid that parses is rectangular, with as many rows as lines, each as wide as the first line |
| Day04.ReadStorage | 04/src/main.rs:8-37 | the lines loop of `new` as written: the width is set by the first non-empty line; the result is the grid read, or the error of the first line at fault (a line of another width is `non grid shape`, a character other than `'.'` and `'@'` is `non storage entry`) |
| Day04.ReadRow | 04/src/main.rs:21-28 | the cells loop over one line gives that line's cells, or nothing at the first character other than `'.'` and `'@'` |
| Day04.ParseRowsError | 04/src/main.rs:18-27 | a fault in the line after a prefix that parsed is the error of the whole input |
| Day04.ParseRowsErrorSticks | 04/src/main.rs:14-31 | once a prefix of the lines fails, the whole input fails with the same error |
| Day04.RaggedGridAsWritten | 04/src/main.rs:15-17 | as written, the lines `""` and `"@"` give a two-row grid of width 1 whose first row is empty, which is not rectangular; fixing the width by the first line refuses them |
| Day04.AsWrittenAgrees | 04/src/main.rs:8-37 | when the first line is not empty, the code as written and the corrected parser agree |
| Day04.AsWrittenAgreesRows | 04/src/main.rs:14-31 | the same agreement for every nonempty prefix of the lines |
| Day04.ParseGridAsWritten | 04/src/main.rs:8-37 | `new` as written: the width is that of the first non-empty line; its properties are `AsWrittenGridShape`, `AsWrittenAgrees` and `RaggedGridAsWritten` |
| Day04.AsWrittenNext | 04/src/main.rs:14-31 | one more line for the code as written: the width is set by that line while it is still 0, then checked, then the cells are read |
| Day04.AsWrittenErrorSticks | 04/src/main.rs:18-27 | once a prefix of the lines fails, the code as written fails on all of them with the same error |
| Day04.AsWrittenRows | 04/src/main.rs:14-31 | the code as written gives one row per line, each as long as its line, and every line is empty or as wide as the grid |
| Day04.AsWrittenGridShape | 04/src/main.rs:8-37 | a grid the code as written accepts has one row per line and is rectangular, or else has an empty first row and a positive width, on which the first `is_paper_roll(0, 0)` (lines 43-48) panics |
| Day04.PaperRollStorage.constructor | 04/src/main.rs:32-36 | the storage, row count and column count of the parsed grid |
| Day04.PaperRollStorage.TakePaperRoll | 04/src/main.rs:39-41 | clears the one cell `(row, col)` and changes nothing else |
| Day04.PaperRollStorage.IsPaperRoll | 04/src/main.rs:43-48 | false for any coordinate outside the grid, the stored cell inside |
| Day04.PaperRollStorage.CountNeighbours | 04/src/main.rs:50-63 | the number of occupied cells in the 3 x 3 block around `(row, col)`, not counting the centre |
| Day04.NeighbourCountAround | 04/src/main.rs:50-63 | that count is the sum over the eight surrounding cells, so it is at most 8 |
| Day04.NeighbourCount | 04/src/main.rs:50-63 | the occupied cells of the 3 x 3 block around `(row, col)`, row by row; its meaning is stated by `NeighbourCountAround` |
| Day04.RowAround | 04/src/main.rs:52-61 | a row other than the centre's contributes its three cells |
| Day04.CountAvailable | 04/src/main.rs:75-86 | part 1 counts exactly the rolls with fewer than four occupied neighbours, taking none |
| Day04.AccessibleAtMostRolls | 04/src/main.rs:75-86 | part 1 never counts more than the rolls there are |
| Day04.AccessibleRowsBound | 04/src/main.rs:76-85 | the rolls counted in the first `r` rows are at most the rolls in those rows |
| Day04.AccessibleInRowBound | 04/src/main.rs:77-84 | the rolls counted in a row prefix are at most the rolls in it |
| Day04.RollCountClear | 04/src/main.rs:39-41 | clearing a cell lowers the roll count by one exactly when it held a roll |
| Day04.SweepRow | 04/src/main.rs:93-102 | sweeping a row keeps the grid's shape, and every roll taken leaves the grid: rolls left plus rolls taken is the rolls before |
| Day04.SweepRows | 04/src/main.rs:92-103 | the same for the first `r` rows |
| Day04.Sweep | 04/src/main.rs:91-105 | the same for one pass over the whole grid |
| Day04.Settle | 04/src/main.rs:90-109 | sweeping until a pass takes nothing keeps the grid's shape |
| Day04.SettleBound | 04/src/main.rs:89-109 | part 2 takes at most the rolls the grid started with, and the rolls left plus the rolls taken is the rolls there were |
| Day04.SweepNothingIsStable | 04/src/main.rs:106-108 | a pass that takes nothing leaves the grid as it was, and then no roll has fewer than four neighbours |
| Day04.SweepRowsNothing | 04/src/main.rs:92-103 | a row-by-row pass that takes nothing changes nothing and finds no removable roll in those rows |
| Day04.SweepRowNothing | 04/src/main.rs:93-102 | a pass over a row prefix that takes nothing changes nothing and finds no removable roll in it |
| Day04.SettleIsStable | 04/src/main.rs:90-109 | part 2 ends on a grid where no roll has fewer than four neighbours |
| Day04.SweepOnce | 04/src/main.rs:91-105 | one pass of the loop takes, in row-major order, every roll that has fewer than four neighbours when its turn comes |
| Day04.TakeAllAvailable | 04/src/main.rs:89-109 | part 2 sweeps until a pass takes nothing and counts all the rolls taken |
| Day05.Contains | 05/src/main.rs:13-15 | `contains`: a range holds exactly the ids from its start to its end, both included; `IsFresh` is stated through it |
| Day05.Interval | 05/src/main.rs:13-15 | the ids `lo..=hi`: an id is in it exactly when it lies between the bounds |
| Day05.IntervalSize | 05/src/main.rs:115 | `lo..=hi` holds `hi - lo + 1` ids |
| Day05.Ids | 05/src/main.rs:13-15 | the ids of a range are exactly the ones `contains` accepts |
| Day05.Intersects | 05/src/main.rs:17-22 | `intersects` with its four clauses as written; its meaning is stated by `IntersectsOverlap` |
| Day05.IntersectsOverlap | 05/src/main.rs:17-22 | for well-formed ranges `intersects` is exact and symmetric: two ranges intersect exactly when they share an id |
| Day05.Merge | 05/src/main.rs:24-27 | the merged range holds every id of either range, and is well-formed when either one is |
| Day05.MergeExact | 05/src/main.rs:24-27 | merging two intersecting well-formed ranges adds no id that neither held |
| Day05.ParseId | 05/src/main.rs:55-60 | `parse::<i64>().unwrap()` succeeds exactly when the text is an `i64`, and then gives a value within `i64` |
| Day05.ParseRange | 05/src/main.rs:54-57 | one line of the first stage: the pieces around `'-'` read as start and end; its round trip is `ParseRangeRendered` |
| Day05.ParseRangeRendered | 05/src/main.rs:54-57 | a range written as `start-end` reads back as that range |
| Day05.ParseAllExact | 05/src/main.rs:47-63 | all lines of a stage parse exactly when each does, and then value `i` is line `i` parsed |
| Day05.ParseAllValues | 05/src/main.rs:47-63 | the values parsed from the lines are one per line, each the line parsed |
| Day05.ParseAllErrorSticks | 05/src/main.rs:55-60 | an error in a prefix of the lines is the error of the whole input |
| Day05.FirstEmpty | 05/src/main.rs:50-53 | the first empty line: every line before it is nonempty, and it is empty unless there is none |
| Day05.ReadDatabase | 05/src/main.rs:47-63 | the two stages of the reading loop: ranges before the first empty line, ids after it; its meaning is stated by `ReadDatabaseStages` and `ReadDatabaseParts` |
| Day05.ReadDatabaseStages | 05/src/main.rs:47-63 | a database that reads has one range per line before the first empty line, each the line parsed, and one id per line after it, each the line parsed |
| Day05.ReadDatabaseParts | 05/src/main.rs:47-63 | a database that reads is the ranges parsed from the first stage and the ids parsed from the second |
| Day05.RangesStage | 05/src/main.rs:49-58 | the values of the lines before the first empty one are one per line |
| Day05.IdsStage | 05/src/main.rs:59-61 | the values of the lines after the first empty one are one per line |
| Day05.RangeStep | 05/src/main.rs:54-57 | a range line read after the ranges before it extends them, or is the error of the whole input |
| Day05.IdStep | 05/src/main.rs:59-61 | an id line read after the ids before it extends them, or is the error of the whole input |
| Day05.ReadDone | 05/src/main.rs:47-63 | when every line has been read, in either stage, the result is the database of the whole input |
| Day05.SwitchStage | 05/src/main.rs:50-53 | the first empty line met while reading ranges is the end of the ranges, and the ids are the lines after it |
| Day05.StillRanges | 05/src/main.rs:48-58 | a nonempty line met while reading ranges is a range line |
| Day05.ReadInput | 05/src/main.rs:47 | reading `code.lines()` gives the database of those lines |
| Day05.ReadLines | 05/src/main.rs:46-63 | the two-stage reading loop gives the database of the lines, or the error of the first line that does not parse |
| Day05.ReadLine | 05/src/main.rs:48-62 | one turn of the loop: the first empty line switches stages, any other line is parsed as a range or an id, and a line that does not parse is the error of the whole input |
| Day05.Insert | 05/src/main.rs:70-79 | inserting by start keeps the ranges sorted and adds exactly the one range |
| Day05.SortByStart | 05/src/main.rs:70-79 | the sorted ranges are ordered by start and are a permutation of the input |
| Day05.PermutationWellFormed | 05/src/main.rs:70-79 | a permutation keeps every range well-formed |
| Day05.CoveredAppend | 05/src/main.rs:101-107 | an id is covered by the ranges plus one more exactly when the old ranges or the new one cover it |
| Day05.CoveredMembers | 05/src/main.rs:101-107 | an id is covered exactly when some range of the list contains it |
| Day05.CoveredPermutation | 05/src/main.rs:70-79 | coverage does not depend on the order of the ranges |
| Day05.AbsorbSeparated | 05/src/main.rs:83-97 | one merge step keeps the merged ranges sorted and disjoint when the entries come in order of start |
| Day05.Absorb | 05/src/main.rs:83-97 | one merge step: the entry is merged into the last range when they intersect, appended otherwise; its meaning is stated by `AbsorbCovers` |
| Day05.MergeAll | 05/src/main.rs:81-97 | the merge pass over the ranges in order; its meaning is stated by `MergeAllSeparated`, `MergeAllWellFormed` and `MergeAllCovers` |
| Day05.MergeAllSeparated | 05/src/main.rs:81-97 | merging sorted well-formed ranges gives ranges each ending before the next one starts |
| Day05.AbsorbCovers | 05/src/main.rs:83-97 | one merge step covers exactly what was covered before plus the entry |
| Day05.MergeAllWellFormed | 05/src/main.rs:81-97 | merging keeps every range well-formed |
| Day05.MergeAllCovers | 05/src/main.rs:81-97 | the merge keeps coverage: an id is in a merged range exactly when it is in an input range |
| Day05.MergeRanges | 05/src/main.rs:81-97 | the merge loop gives the one-pass merge; from sorted well-formed ranges it is sorted, disjoint and covers exactly the same ids |
| Day05.FreshCount | 05/src/main.rs:99-108 | part 1 counts at most one per ingredient |
| Day05.FreshCountCoverage | 05/src/main.rs:99-108 | part 1's count only depends on which ids the ranges cover |
| Day05.IsFresh | 05/src/main.rs:102-107 | the ranges are tried in order until one contains the id: true exactly when some range covers it |
| Day05.CountFresh | 05/src/main.rs:99-108 | part 1 counts each ingredient that some range covers, once per occurrence |
| Day05.UnionCovered | 05/src/main.rs:111-116 | an id is in the union of the ranges exactly when some range covers it |
| Day05.UnionAbove | 05/src/main.rs:111-116 | every id of separated ranges lies after any bound below their first start |
| Day05.WidthCountsIds | 05/src/main.rs:111-116 | for separated ranges the summed widths `end - start + 1` are the number of ids covered |
| Day05.SumWidths | 05/src/main.rs:111-116 | part 2 sums the widths of the ranges |
| Day05.Evaluate | 05/src/main.rs:35-117 | both counts, failing exactly when the input does not read; for well-formed ranges part 1 is the number of ingredients inside the union of the ranges and part 2 the number of ids in that union |
| Day06.TokenNumber | 06/src/main.rs:4-6 | a token holds at most one number |
| Day06.CollectAppend | 06/src/main.rs:3-7 | collecting two runs of tokens collects each, one after the other |
| Day06.CollectCons | 06/src/main.rs:3-7 | collecting a token in front of others puts its numbers first |
| Day06.TokenNumberRendered | 06/src/main.rs:4 | an `i64` written in decimal is read back as itself |
| Day06.NumbersRendered | 06/src/main.rs:1-9 | round trip: the renderings of numbers within `i64` read back as those numbers, in order |
| Day06.NumbersSkipEmpty | 06/src/main.rs:3-7 | empty tokens, which runs of spaces make, add no number |
| Day06.ConvertToNumbers | 06/src/main.rs:1-9 | the result is the numbers of the tokens between single spaces that parse as `i64`, in order |
| Day06.DigitToken | 06/src/main.rs:4 | a one-digit token is its digit |
| Day06.NumbersExample | 06/src/main.rs:76-81 | the test line `"1 2     3 4"`, split at single spaces, gives `[1, 2, 3, 4]` |
| Day06.ExampleTokens | 06/src/main.rs:3 | a line made by joining tokens without spaces at single spaces splits back into those tokens |
| Day06.NumbersOfExampleTokens | 06/src/main.rs:3-7 | the tokens `["1", "2", "", "", "", "", "3", "4"]` give `[1, 2, 3, 4]` |
| Day06.DigitPair | 06/src/main.rs:3-7 | two one-digit tokens give their two digits |
| Day06.NoNumbers | 06/src/main.rs:3-7 | empty tokens hold no number |
| Day06.Operations | 06/src/main.rs:17-28 | `convert_to_operation` over the tokens; its meaning is stated by `OperationsExact` and `OperationsErrorSticks` |
| Day06.OperationsExact | 06/src/main.rs:17-28 | the operations row reads exactly when every token is empty, `"+"` or `"*"`, and then there is one operation per nonempty token |
| Day06.ConvertToOperation | 06/src/main.rs:17-28 | the loop over the tokens gives `Add` for `"+"` and `Multiply` for `"*"` in order, skips empty tokens, and fails at the first other token |
| Day06.OperationsErrorSticks | 06/src/main.rs:19-26 | a token that fails fails the whole row, whatever follows it |
| Day06.OperationsExample | 06/src/main.rs:83-96 | the test line `"+ *    + *"`, split at single spaces, gives `[Add, Multiply, Add, Multiply]` |
| Day06.OperationsOfExampleTokens | 06/src/main.rs:19-26 | the tokens `["+", "*", "", "", "", "+", "*"]` give `[Add, Multiply, Add, Multiply]` |
| Day06.NoOperations | 06/src/main.rs:21 | empty tokens give no operation |
| Day06.OperationsPair | 06/src/main.rs:22-23 | `"+"` then `"*"` give `Add` then `Multiply` |
| Day06.OperationsAppend | 06/src/main.rs:19-26 | two runs of operation tokens that read, read one after the other |
| Day06.GrandTotalSplit | 06/src/main.rs:37-47 | the columns are independent: the total up to column `n` is the total up to column `k` plus the total of the columns from `k` on |
| Day06.Part1Total | 06/src/main.rs:30-49 | `part1`: the four number rows and the operations row read, then the answers of all columns summed, or the error when a number row is shorter than the operations row; `Part1` is proved against it |
| Day06.Part1 | 06/src/main.rs:30-49 | the sum over the operations of each column's four numbers added or multiplied; a missing line or a number row shorter than the operations row is an error, and so is an unknown operation |
| Day07.SumChange | 07/src/main.rs:21 | changing one entry changes the sum by the difference |
| Day07.Split | 07/src/main.rs:13-18 | a split beam continues on both sides, each neighbour gaining its count, and stops at the splitter |
| Day07.SplitSum | 07/src/main.rs:13-18 | a split adds exactly the split beam's count to the total of the beams |
| Day07.Cell | 07/src/main.rs:9-19 | one character keeps the number of beams and adds at most one split |
| Day07.CellEffect | 07/src/main.rs:10-18 | a split is counted exactly when a splitter meets a beam, and then the beams gain the split beam's count; no cell makes a count negative |
| Day07.RunLine | 07/src/main.rs:9-19 | the characters of a line keep the number of beams |
| Day07.Resize | 07/src/main.rs:5-7 | while there are no beams, the next line makes as many zero beams as it is long; otherwise the beams stay |
| Day07.RunLineNonNegative | 07/src/main.rs:9-19 | no beam count ever becomes negative along a line |
| Day07.RunLines | 07/src/main.rs:4-20 | the first `l` lines run in order, each after `Resize`; its properties are `RunLinesNonNegative`, `RunLinesTotal` and `RunLinesErrorSticks` |
| Day07.RunLinesNonNegative | 07/src/main.rs:4-20 | no beam count ever becomes negative over the lines |
| Day07.SumNonNegative | 07/src/main.rs:21 | non-negative beam counts have a non-negative sum |
| Day07.Part1Result | 07/src/main.rs:1-23 | `part1`: the number of splits and the sum of the final beams; `Part1NonNegative` bounds it and `Part1` is proved against it |
| Day07.Part1NonNegative | 07/src/main.rs:1-23 | both the number of splits and the number of timelines are non-negative |
| Day07.RunLinesTotal | 07/src/main.rs:4-20 | the number of splits is never negative |
| Day07.RunLineTotal | 07/src/main.rs:9-19 | a line never lowers the number of splits |
| Day07.CascadeExample | 07/src/main.rs:9-19 | the cells are taken left to right on the beams as they are: a beam pushed right by one splitter is split again by the next, so `.^^.` on `[0, 1, 0, 0]` gives `[1, 1, 0, 1]` and two splits |
| Day07.RunLineErrorSticks | 07/src/main.rs:9-19 | an index out of bounds stops the rest of the line |
| Day07.RunLinesErrorSticks | 07/src/main.rs:4-20 | an index out of bounds stops the rest of the lines |
| Day07.Part1 | 07/src/main.rs:1-23 | with the beams an array updated in place, the result is the number of splits and the sum of the final beams, or the index panic |
| Day07.ProcessLine | 07/src/main.rs:9-19 | the characters of one line, left to right on the array in place, give the beams and the split count of the line's specification, and fail exactly when it fails |
| Day07.SplitAt | 07/src/main.rs:14-16 | the array becomes the split of its old contents at `index` |
| Day07.SumArray | 07/src/main.rs:21 | the sum of the array's entries |
| Day08.ParseBox | 08/src/main.rs:47-57 | `to_junction_box`: the fields of the line split at `','`, read by `ParseFields` |
| Day08.ParseFields | 08/src/main.rs:47-57 | a box is built only from at least three fields, its x, y and z being the first three fields read as `i64` |
| Day08.ParseBoxJoin | 08/src/main.rs:48 | splitting a comma-joined line gives back exactly its fields |
| Day08.ParseBoxRendered | 08/src/main.rs:47-57 | three `i64` coordinates written in decimal, with any further fields, read back as the box at that position |
| Day08.CoordinateRendered | 08/src/main.rs:52-54 | an `i64` written in decimal parses back as itself |
| Day08.ParseFieldsValues | 08/src/main.rs:50-56 | fields whose first three read as a position's coordinates give the box at that position |
| Day08.ParseBoxLine | 08/src/main.rs:47-57 | the line `x,y,z` written for an `i64` position parses back as the box at that position |
| Day08.ParseBoxFewFields | 08/src/main.rs:52-54 | a line with fewer than three fields is refused (the index panics) |
| Day08.JunctionNetwork.constructor | 08/src/main.rs:139-142 | a network holds exactly the indices it is built with |
| Day08.JunctionNetwork.Contains | 08/src/main.rs:24-26 | `contains`: holds exactly when the index is in the network's set; the contract of `Add` is stated through it |
| Day08.JunctionNetwork.Add | 08/src/main.rs:28-32 | afterwards the index is in the network, which grew by exactly that index, and its size is unchanged exactly when it already held the index |
| Day08.JunctionNetwork.Size | 08/src/main.rs:34-36 | `size`: the number of indices in the network; the contracts of `Add` and `PrepareNetworks` are stated through it |
| Day08.JunctionNetwork.MergeFrom | 08/src/main.rs:38-44 | the network gains every index of the other network and the other network is unchanged |
| Day08.AddIdempotent | 08/src/main.rs:28-32 | adding an index twice is adding it once, and adding grows a network by at most one |
| Day08.Union | 08/src/main.rs:108 | every network is contained in the set of all boxes in networks |
| Day08.UnionMember | 08/src/main.rs:108 | a box in some network is in one of the networks |
| Day08.Remove | 08/src/main.rs:124 | removing a network shifts the later networks down by one and keeps the earlier ones |
| Day08.Scan | 08/src/main.rs:117-136 | the primary network found by the scan is a position in the resulting networks |
| Day08.ScanSkip | 08/src/main.rs:119-122 | networks touching neither endpoint are passed over |
| Day08.ThreeTouch | 08/src/main.rs:129 | of three networks touching the two endpoints, two share an endpoint |
| Day08.AtMostTwo | 08/src/main.rs:129 | among disjoint networks at most two touch the endpoints, so the loop may stop after the second |
| Day08.Connect | 08/src/main.rs:117-143 | the networks after one connection: those from the scan, plus a new network `{a, b}` when no network touched an endpoint; its cases are `ConnectNone`, `ConnectOne` and `ConnectTwo` |
| Day08.ConnectNone | 08/src/main.rs:138-143 | when no network touches an endpoint, a new network of the two endpoints is pushed at the end |
| Day08.ConnectOne | 08/src/main.rs:130-134 | when one network touches an endpoint, that network takes both endpoints and nothing else changes |
| Day08.ConnectTwo | 08/src/main.rs:123-129 | when two networks touch the endpoints, the second is removed and merged, with both endpoints, into the first |
| Day08.FirstTouch | 08/src/main.rs:119-122 | the first network from a position on that touches an endpoint, or none when no later network does |
| Day08.UnionGrow | 08/src/main.rs:125-128 | growing one network grows the set of boxes in networks by the same indices |
| Day08.UnionRemove | 08/src/main.rs:124 | the removed network and the remaining ones together hold the same boxes |
| Day08.UnionAppend | 08/src/main.rs:142 | pushing a network adds its boxes to the boxes in networks |
| Day08.Connected | 08/src/main.rs:117-143 | one connection keeps the networks disjoint and non-empty, adds exactly its two endpoints to the boxes in networks, puts both endpoints in one network, and adds a network exactly when no network touched an endpoint |
| Day08.ConnectedNone | 08/src/main.rs:138-143 | with no network touched, the new last network holds both endpoints and the invariants hold |
| Day08.ConnectedOne | 08/src/main.rs:130-134 | with one network touched, it holds both endpoints, the count of networks is unchanged and the invariants hold |
| Day08.ConnectedTwo | 08/src/main.rs:123-129 | with two networks touched, the first holds both endpoints, there is one network fewer and the invariants hold |
| Day08.ConnectTwoDisjoint | 08/src/main.rs:124-128 | after the merge any two networks still share no box |
| Day08.SortBySizeOrder | 08/src/main.rs:111 | sorting by `usize::MAX - len` keeps the same networks and puts them largest first |
| Day08.ConsDisjoint | 08/src/main.rs:111 | a network sharing nothing with disjoint networks can be put in front of them |
| Day08.ApartFromAll | 08/src/main.rs:111 | a network apart from every network stays apart from every network of a permutation with one more network it is apart from |
| Day08.InsertDisjoint | 08/src/main.rs:111 | inserting a network apart from the others into sorted disjoint networks keeps them disjoint |
| Day08.ApartFromPermutation | 08/src/main.rs:111 | a network apart from every network is apart from every network of a permutation |
| Day08.SortDisjoint | 08/src/main.rs:111 | sorting keeps the networks disjoint |
| Day08.PermutationUnion | 08/src/main.rs:111 | a permutation of the networks holds the same boxes and no empty network |
| Day08.SortKeeps | 08/src/main.rs:111 | sorting keeps the networks disjoint, non-empty, with the same boxes and the same count |
| Day08.Below | 08/src/main.rs:146 | the box indices below `n`, of which there are `n` |
| Day08.SubsetSize | 08/src/main.rs:146 | a subset is no larger, and one as large is the whole set |
| Day08.FirstHoldsAll | 08/src/main.rs:145-147 | with disjoint non-empty networks over `n` boxes, the first network holds `n` boxes exactly when it is the only network and holds every box |
| Day08.DistanceSquared | 08/src/main.rs:77-82 | a squared distance is never negative |
| Day08.RowRecordsExact | 08/src/main.rs:76-90 | the inner loop records exactly the pairs with the given first box and a later second box at most 200000000 apart, with their squared distance |
| Day08.RecordsExact | 08/src/main.rs:73-91 | the two loops record exactly the pairs `a < b` of boxes at most 200000000 apart, with their squared distance |
| Day08.SortedRecords | 08/src/main.rs:97 | the sorted candidates are the same records, nearest first, each a true candidate |
| Day08.Connecting | 08/src/main.rs:109-153 | the loop ends after at least one more connection when it breaks and after every connection when it does not |
| Day08.ConnectingNext | 08/src/main.rs:109-153 | one connection stops the loop exactly when the first network then holds every box, otherwise the loop goes on with the connected networks |
| Day08.EndpointsBelow | 08/src/main.rs:75-86 | every endpoint of a candidate is a box index |
| Day08.StepKeeps | 08/src/main.rs:109-152 | one turn of the loop keeps the networks disjoint and non-empty, holding exactly the endpoints taken so far, and a full first network is the only network |
| Day08.ConnectingKeeps | 08/src/main.rs:109-153 | along the loop the networks stay disjoint and non-empty and hold exactly the endpoints of the connections taken; when it breaks, a single network holds every box |
| Day08.Indices | 08/src/main.rs:108 | the index sets of the network objects, position by position |
| Day08.ScanNetworks | 08/src/main.rs:117-136 | the loop over `junction_networks` leaves the index sets and primary network the scan function describes, with no network object repeated |
| Day08.MergeInto | 08/src/main.rs:123-129 | remove and merge leave the network removed and its indices added to the primary network |
| Day08.TakeEndpoints | 08/src/main.rs:130-133 | the primary network gains both endpoints and no other network changes |
| Day08.SortNetworks | 08/src/main.rs:111 | the network objects are reordered as their index sets sort by size |
| Day08.SortedPairs | 08/src/main.rs:111 | sorting objects paired with their index sets sorts the index sets |
| Day08.PairsConsistent | 08/src/main.rs:111 | a permutation of the pairs still pairs each network with its own index set |
| Day08.MapNetworks | 08/src/main.rs:111 | distinct pairs give distinct network objects whose index sets are the paired sets |
| Day08.ParseBoxes | 08/src/main.rs:66 | a box for every line, or the first failing line's error |
| Day08.ParseBoxesErrorSticks | 08/src/main.rs:66 | once a line fails, the whole input fails with that error |
| Day08.SortedCandidates | 08/src/main.rs:73-97 | the candidates are a permutation of the records, nearest first, with endpoints that are box indices |
| Day08.ConnectAllKeeps | 08/src/main.rs:104-153 | from no networks the loop keeps the networks disjoint with exactly the endpoints taken, and on breaking a single network holds every box |
| Day08.Outcome | 08/src/main.rs:104-157 | the three printed values from the sorted connections: the part-1 product, and for the connection that joined every box the product of its boxes' x coordinates and its squared distance, 0 and 0 if none |
| Day08.Evaluate | 08/src/main.rs:66-157 | the whole program on the text of the input: the boxes read, their candidate connections sorted, then `Outcome`; `Main08` is proved against it |
| Day08.Main08 | 08/src/main.rs:66-157 | the program's three printed values, or the panic, for the input text |
| Day08.ReadBoxes | 08/src/main.rs:66 | the loop over the lines reads the boxes as the parsing function says |
| Day08.ComputeDistances | 08/src/main.rs:73-91 | the two loops push exactly the candidate records in order |
| Day08.RowDistances | 08/src/main.rs:76-90 | the inner loop pushes one box's candidate records in order |
| Day08.ConnectAll | 08/src/main.rs:104-153 | the loop over the connections on the network objects gives the outcome the connection function describes |
| Day08.Turn | 08/src/main.rs:110-152 | one turn on the network objects does what one step of the connection function does: it panics, breaks or goes on with the connected networks |
| Day08.PrepareNetworks | 08/src/main.rs:110-115 | at connection 1000 the networks are sorted and the three largest sizes multiplied, which fails exactly when there are fewer than three networks |
| Day08.ConnectNetworks | 08/src/main.rs:117-143 | one connection on the network objects gives the networks the connection function describes, with no object repeated |
| Day09.ParseCoordinates | 09/src/main.rs:9-15 | `to_coordinates`: the fields of the line split at `','`, read by `ParseFields` |
| Day09.ParseFields | 09/src/main.rs:9-15 | a coordinate exactly when there are at least two fields and the first two read as `i64` (further fields are ignored, as only `values[0]` and `values[1]` are used), x from the first and y from the second; a missing second field is reported only when the first one reads |
| Day09.ParseCoordinatesLine | 09/src/main.rs:9-15 | the line `x,y` written for an `i64` coordinate reads back as that coordinate |
| Day09.ParseAll | 09/src/main.rs:54 | a coordinate for every line, or an error |
| Day09.NewRectangle | 09/src/main.rs:23-34 | the rectangle holds both corners and each of its bounds is a corner's coordinate |
| Day09.NewSymmetric | 09/src/main.rs:23-34 | the corners may be given in either order |
| Day09.Area | 09/src/main.rs:35-39 | every rectangle covers at least one tile |
| Day09.ProductMonotone | 09/src/main.rs:38 | the product of the side lengths grows with each side |
| Day09.AreaWithin | 09/src/main.rs:35-39 | a rectangle within another covers no more tiles |
| Day09.AxisMeets | 09/src/main.rs:41-46 | on one axis, two ranges overlap strictly exactly when they share a point strictly inside one of them |
| Day09.IntersectsMeets | 09/src/main.rs:41-46 | `intersects` holds exactly when on each axis the ranges share a point strictly inside one of them, so an edge intersects a rectangle when it passes strictly between its sides |
| Day09.IntersectsInterior | 09/src/main.rs:41-46 | two rectangles that are not flat intersect exactly when their interiors overlap |
| Day09.IntersectsSymmetric | 09/src/main.rs:41-46 | `intersects` does not depend on the order of the rectangles |
| Day09.SeparatedNoIntersection | 09/src/main.rs:41-46 | rectangles that lie apart or only share a border do not intersect |
| Day09.Edge | 09/src/main.rs:56-58 | edge `i` spans tile `i` and tile `(i + 1) % len`, the last closing the loop |
| Day09.Edges | 09/src/main.rs:55-60 | one edge per tile, edge `i` spanning from tile `i` to the next |
| Day09.EdgesFrom | 09/src/main.rs:55-60 | the edges from position `i` on, in order |
| Day09.EdgesClose | 09/src/main.rs:57 | the last edge joins the last tile to the first |
| Day09.HitsAny | 09/src/main.rs:74 | the rectangle hits some edge exactly when it intersects one of them |
| Day09.RowBest | 09/src/main.rs:65-79 | the best area of one row of pairs is never negative |
| Day09.Best | 09/src/main.rs:64-80 | the best area is never negative |
| Day09.RowBestBound | 09/src/main.rs:65-79 | every admissible pair of the row is covered by the row's best area |
| Day09.RowBestAttained | 09/src/main.rs:65-79 | the row's best area is 0 or the area of one of its admissible pairs |
| Day09.BestBound | 09/src/main.rs:64-80 | every admissible pair is covered by the best area |
| Day09.BestAttained | 09/src/main.rs:64-80 | the best area is 0 or the area of some admissible pair |
| Day09.AreaMaxExact | 09/src/main.rs:62-71 | `area_max` is the largest area of any pair of tiles and is 0 exactly when there is no pair |
| Day09.AreaMaxPart2Exact | 09/src/main.rs:63-78 | `area_max_part2` is the largest area of the pairs whose rectangle hits no edge, or 0 when there is none |
| Day09.ConstrainedBelow | 09/src/main.rs:73-78 | avoiding the edges never gives a larger area |
| Day09.RowConstrainedBelow | 09/src/main.rs:73-78 | row by row, avoiding the edges never gives a larger area |
| Day09.Evaluate | 09/src/main.rs:54-83 | both maximal areas for the coordinates read from the input; `Main09` is proved against it |
| Day09.Main09 | 09/src/main.rs:54-83 | the two printed areas for the input text, or the panic |
| Day09.MaxAreas | 09/src/main.rs:62-80 | the nested loops compute both best areas over all pairs |
| Day09.RowAreas | 09/src/main.rs:65-79 | the inner loop raises both maxima to the row's best areas, although it checks the edges only for rectangles larger than the current part-2 maximum |
| Day10.PatternOf | 10/src/main.rs:11-19 | the pattern has at most one light per character |
| Day10.Diagram | 10/src/main.rs:11-19 | a pattern written as `#` and `.` has one character per light |
| Day10.PatternOfDiagram | 10/src/main.rs:11-19 | `from_str` reads a written pattern back and goes on with the rest of the text |
| Day10.PatternOfBracketed | 10/src/main.rs:11-19 | `from_str` reads back a pattern written between brackets, the brackets being skipped |
| Day10.Toggled | 10/src/main.rs:31-35 | toggling succeeds exactly when every listed light exists, and then exactly the lights listed an odd number of times change |
| Day10.ToggleTwice | 10/src/main.rs:31-35 | pressing the same button twice restores the pattern |
| Day10.AllOff | 10/src/main.rs:21-25 | `len` lights, all off |
| Day10.LightPattern.FromStr | 10/src/main.rs:11-19 | the lights read from the line's `#` and `.` characters |
| Day10.LightPattern.FromLen | 10/src/main.rs:21-25 | `len` lights, all off |
| Day10.LightPattern.ApplyButton | 10/src/main.rs:31-35 | the lights, toggled in place at every light the button lists |
| Day10.LightPattern.Eq | 10/src/main.rs:38-43 | two patterns are equal exactly when they hold the same lights |
| Day10.SamePattern | 10/src/main.rs:39-42 | equal length and pairwise equal lights means the same pattern |
| Day10.PairwiseEqual | 10/src/main.rs:41 | `zip(..).all(..)` compares the lights up to the shorter length |
| Day10.Subtracted | 10/src/main.rs:75-79 | subtracting succeeds exactly when every listed counter exists, and then each counter drops by `count` times how often it is listed |
| Day10.AllZero | 10/src/main.rs:81-83 | every counter is zero |
| Day10.Joltages.constructor | 10/src/main.rs:66-73 | the counters given |
| Day10.Joltages.ApplyButton | 10/src/main.rs:75-79 | the counters, each lowered in place by `count` for every light the button lists |
| Day10.Joltages.IsPerfect | 10/src/main.rs:81-83 | every counter is at zero |
| Day10.ParseNumbers | 10/src/main.rs:53-54 | the numbers parse exactly when every field parses, each read in range |
| Day10.ParseButton | 10/src/main.rs:50-57 | `Button::from_str`: the bracketed list of `usize` light indices |
| Day10.ParseJoltages | 10/src/main.rs:66-73 | `Joltages::from_str`: the bracketed list of `i64` counters |
| Day10.ParseList | 10/src/main.rs:52-55 | a list is read only from a line with its two enclosing characters |
| Day10.Rendered | 10/src/main.rs:52-55 | the decimal writing of each value |
| Day10.ParseNumbersRendered | 10/src/main.rs:53-54 | values in range written in decimal read back as the values |
| Day10.ParseListRendered | 10/src/main.rs:52-55 | a nonempty list of values written between enclosing characters with commas reads back as the values |
| Day10.ParseButtons | 10/src/main.rs:96-99 | every field read as a button, or the first field that is not one |
| Day10.ButtonsAppend | 10/src/main.rs:96-99 | the buttons read from the earlier fields, followed by the button read from the last field, are the buttons of all the fields |
| Day10.ParseMachine | 10/src/main.rs:92-102 | a machine has one button for every field between the first and the last |
| Day10.ParseMachines | 10/src/main.rs:208 | a machine for every line, or an error |
| Day10.Coefficient | 10/src/main.rs:120-126 | 1 exactly when the button lists the counter, 0 exactly when it does not |
| Day10.Row | 10/src/main.rs:116-130 | one coefficient per button, the joltage last |
| Day10.FromMachine | 10/src/main.rs:109-133 | one row per joltage counter, the row of that counter |
| Day10.RowsFrom | 10/src/main.rs:111-131 | the rows from counter `i` on |
| Day10.SumConcat | 10/src/main.rs:141-173 | the sum of two sequences one after the other is the sum of their sums |
| Day10.Zeros | 10/src/main.rs:144 | `vec![0; n]`: `n` zeros, summing to 0 |
| Day10.CapacityProduct | 10/src/main.rs:148 | the repeated sum is `max_count * slots` |
| Day10.DivCeilQuotient | 10/src/main.rs:146 | the blocks counted are the quotient rounded up |
| Day10.DivCeilBound | 10/src/main.rs:146 | at most `s` blocks are needed exactly when `s` slots of the given capacity hold the count |
| Day10.FeasibleOne | 10/src/main.rs:178 | with at most one press per button, any count up to the number of buttons is a valid call |
| Day10.CapacityAtLeast | 10/src/main.rs:148 | one slot alone takes `max_count` presses |
| Day10.AllShapedConcat | 10/src/main.rs:158 | two lists of distributions together are a list of distributions |
| Day10.Combinations | 10/src/main.rs:141-173 | every result distributes exactly `count` presses over `slots` buttons, at most `max_count` each, so the size check never fires |
| Day10.Paddings | 10/src/main.rs:147-161 | the outer loop yields only such distributions |
| Day10.Amounts | 10/src/main.rs:150-160 | the middle loop yields only such distributions |
| Day10.FeasibleRest | 10/src/main.rs:148-154 | the recursive call gets valid arguments |
| Day10.Prefixed | 10/src/main.rs:156-158 | each combination placed behind the same prefix |
| Day10.PrefixedShaped | 10/src/main.rs:151-158 | behind the padding and the current amount, distributions of the rest are distributions of the whole |
| Day10.PrefixShaped | 10/src/main.rs:151-158 | one distribution behind the padding and the current amount is a distribution of the whole |
| Day10.Full | 10/src/main.rs:233-248 | the same amount on every slot |
| Day10.FullCombinations | 10/src/main.rs:233-248 | with `max_count * slots` presses there is exactly one distribution: `max_count` on every slot |
| Day10.FullBounds | 10/src/main.rs:146-149 | for `max_count * slots` presses: no padding and a single amount `max_count` |
| Day10.FullStep | 10/src/main.rs:141-173 | one more slot of a full distribution keeps it the only one |
| Day10.FullAmounts | 10/src/main.rs:141-173 | for `max_count * slots` presses the one round of the middle loop is `max_count` behind no padding, followed by the combinations of the rest |
| Day10.CombinationsOfZero | 10/src/main.rs:143-144 | no presses: the one all-zero distribution |
| Day10.CombinationsExampleZero | 10/src/main.rs:231-234 | `combinations(0, 5, 1)` is five zeros |
| Day10.CombinationsExampleOnes | 10/src/main.rs:236-239 | `combinations(5, 5, 1)` is five ones |
| Day10.CombinationsExampleTwos | 10/src/main.rs:241-244 | `combinations(10, 5, 2)` is five twos |
| Day10.CombinationsExampleFives | 10/src/main.rs:246-249 | `combinations(25, 5, 5)` is five fives |
| Day10.FullExample | 10/src/main.rs:231-249 | a full count gives the single full distribution |
| Day10.FirstNonzero | 10/src/main.rs:147-151 | the first nonzero entry of a distribution with presses, all before it zero |
| Day10.SumBound | 10/src/main.rs:148 | entries at most `bound` sum to at most `bound` times their number |
| Day10.EntryBelowSum | 10/src/main.rs:149 | no entry exceeds the sum |
| Day10.SumZero | 10/src/main.rs:143-144 | a distribution summing to zero is all zeros |
| Day10.InPrefixed | 10/src/main.rs:156-158 | a combination of the rest appears behind the prefix |
| Day10.InAmounts | 10/src/main.rs:150-160 | the middle loop yields every combination of the rest behind its amount |
| Day10.InPaddings | 10/src/main.rs:147-161 | the outer loop yields everything of each of its paddings |
| Day10.Decompose | 10/src/main.rs:147-154 | every distribution is its leading zeros, a first amount within the loop's bounds and a distribution of the rest |
| Day10.SplitSums | 10/src/main.rs:151-157 | a distribution splits into its leading zeros, its first nonzero amount and the rest, and the sum with it |
| Day10.EntriesBelowSum | 10/src/main.rs:149 | no entry exceeds the sum |
| Day10.CombinationsComplete | 10/src/main.rs:141-173 | every distribution of `count` presses over `slots` buttons, at most `max_count` each, is among the combinations |
| Day10.CompleteStep | 10/src/main.rs:147-160 | a distribution whose rest is among the rest's combinations is among the combinations |
| Day10.AmountsInCombinations | 10/src/main.rs:147-161 | a distribution among the amounts of a padding the loops allow is among the combinations |
| Day10.ComputeCombinations | 10/src/main.rs:141-173 | the loops build exactly the combinations |
| Day10.AmountsLoop | 10/src/main.rs:148-160 | the middle loop builds the combinations of one padding |
| Day10.AmountsRange | 10/src/main.rs:148-150 | a valid call leaves at least one amount for the middle loop |
| Day10.AmountStep | 10/src/main.rs:151-159 | one round of the middle loop adds the combinations for one amount |
| Day10.AmountsNext | 10/src/main.rs:151-159 | the recursive call of one round is valid and adds its combinations behind the prefix |
| Day10.PushPrefixed | 10/src/main.rs:153-159 | the inner loop pushes every combination of the rest behind the prefix |
| Day10.Pressed | 10/src/main.rs:179-187 | pressing succeeds exactly when the pressed buttons list only existing lights, and then a light is changed exactly when it is toggled an odd number of times, whatever the order |
| Day10.OddSum | 10/src/main.rs:33 | toggling `a + b` times flips exactly when toggling `a` and `b` times flip differently |
| Day10.Matches | 10/src/main.rs:178-191 | true only if some combination lights the target, false only if every one lights something else, and a panic only on a button past the end |
| Day10.AttemptSolvable | 10/src/main.rs:178-191 | a round answers whether that many distinct buttons suffice, and panics only on a button listing a light past the end |
| Day10.MatchFound | 10/src/main.rs:188-190 | a matching combination shows that many buttons suffice |
| Day10.NoMatch | 10/src/main.rs:178-191 | when no combination matches, no choice of that many buttons works |
| Day10.MatchOutOfRange | 10/src/main.rs:186 | a panic in a round means some button lists a light past the end |
| Day10.FirstFoundIsFirst | 10/src/main.rs:177-193 | the count returned is within the rounds, its round matched and every earlier round did not |
| Day10.FirstFoundExhausted | 10/src/main.rs:177-193 | a search without an answer went through every round without a match |
| Day10.FirstFoundPanics | 10/src/main.rs:177-193 | the search panics only in a round that does |
| Day10.FindMinimalAsWritten | 10/src/main.rs:175-194 | the search as written, over `1..button_count`; its properties are `AsWrittenLeast`, `AllButtonsMissed` and `AsWrittenAgreesWhenFound` |
| Day10.FindMinimal | 10/src/main.rs:175-194 | the corrected search over `1..=button_count` (the corrected half of the finding); its properties are `FindMinimalLeast` |
| Day10.AsWrittenLeast | 10/src/main.rs:175-194 | the search as written answers only with the least solvable count below the number of buttons |
| Day10.FirstFoundLonger | 10/src/main.rs:177-193 | a search that found an answer, or failed on a bad light, gives the same result when the range of counts is extended |
| Day10.AsWrittenAgreesWhenFound | 10/src/main.rs:177 | whenever the search as written does not run out of counts, the corrected search gives the same result |
| Day10.FindMinimalLeast | 10/src/main.rs:175-194 | the corrected search returns the least number of distinct buttons giving the target, fails only when no number works or a button lists a light past the end |
| Day10.AllButtonsMissed | 10/src/main.rs:177 | one light with one button for it (the line `[#] (0) {0}`): the search as written panics, the corrected one answers 1 |
| Day10.OneButtonLit | 10/src/main.rs:179-187 | pressing the one button lights the one light |
| Day10.PressCombination | 10/src/main.rs:179-187 | the innermost loop lights what the combination lights |
| Day10.MatchesStep | 10/src/main.rs:178-191 | from combination `j` on, that combination decides: a bad light panics, lights equal to the target end the search, otherwise the search goes on with the next one |
| Day10.TryCombinations | 10/src/main.rs:178-191 | the loop over one round's combinations answers as the round does |
| Day10.FindMinimalPresses | 10/src/main.rs:175-194 | the loops of the search compute the search as written, over `1..button_count` |
| Day10.Values | 10/src/main.rs:213 | the values of answers that are all present |
| Day10.TotalPresent | 10/src/main.rs:212-216 | the total is present exactly when every machine has an answer |
| Day10.TotalSum | 10/src/main.rs:212-216 | a present total is the sum of the answers |
| Day10.TotalFirstError | 10/src/main.rs:212-216 | a missing total is the error of the first machine without an answer |
| Day10.Answers | 10/src/main.rs:212-213 | one answer per machine |
| Day10.Evaluate | 10/src/main.rs:208-218 | `main` on the text of the input: the machines read, part 1 the sum of the answers of the search as written, part 2 always 0; `Main10` is proved against it |
| Day10.Main10 | 10/src/main.rs:208-218 | the two printed totals for the input text, with part 1 over the search as written, or the panic |
| Day10.PressesForAll | 10/src/main.rs:210-216 | the loop over the machines computes the total of their answers from the search as written |
| Day10.NextAnswer | 10/src/main.rs:213 | one turn adds the next machine's answer from the search as written, or ends with its error as the total |
| Day10.RunningNext | 10/src/main.rs:212-216 | one more machine adds its answer to the running total, or its error is the total's |
| Day10.RunningErrorSticks | 10/src/main.rs:212-216 | once a machine has no answer, the running total stays that error |
| Day10.RunningIsTotal | 10/src/main.rs:212-216 | the running total over all machines is the total of their answers |
| Day10.RunningPrefix | 10/src/main.rs:212-216 | the running total after `i` machines is the total of their answers |
| Day10.TotalSnoc | 10/src/main.rs:212-216 | one more answer is added to the total, or its error is the total's |
| Day11.ParseNode | 11/src/main.rs:16-25 | a node is read exactly when the first space-separated token has at least three characters (`id[0..3]` panics otherwise) |
| Day11.ParseNodeLine | 11/src/main.rs:16-25 | a line `aaa: bbb ccc` reads back as device `aaa` with exactly those outputs |
| Day11.TokensAfterFirst | 11/src/main.rs:19 | the tokens after the first, collected into a set, are the outputs |
| Day11.ParseNodes | 11/src/main.rs:83-85 | every line read as a node, or the first line that panics |
| Day11.DevicesKeys | 11/src/main.rs:86-87 | every parsed node's id is a device |
| Day11.DevicesValues | 11/src/main.rs:86-87 | every device is a parsed node filed under its own id |
| Day11.DevicesLast | 11/src/main.rs:86-87 | collecting into the map keeps the last node with each id |
| Day11.Visit | 11/src/main.rs:33-48 | entering `dac` clears the need for `dac`, entering `fft` the need for `fft`, and nothing else changes |
| Day11.SumPathsAny | 11/src/main.rs:55-69 | the sum over the outputs does not depend on the order the set is iterated in |
| Day11.PathsVisit | 11/src/main.rs:33-48 | entering a device twice changes nothing, so a key and its visited form count the same |
| Day11.WalksStart | 11/src/main.rs:28-75 | every counted route starts where the search starts |
| Day11.PrefixedCount | 11/src/main.rs:55-69 | putting the same device in front of every route keeps their number |
| Day11.WalksCount | 11/src/main.rs:28-75 | the count is the number of gathered routes |
| Day11.WalksFromCount | 11/src/main.rs:55-69 | the routes from different outputs are different, so their numbers add up |
| Day11.WalksFromSplit | 11/src/main.rs:55-69 | the routes from a set of outputs are those from one output and, apart from them, those from the others |
| Day11.WalksExact | 11/src/main.rs:28-75 | the gathered routes are exactly the routes to `out` through the devices still required |
| Day11.WalkCons | 11/src/main.rs:54-69 | a route from an output extends to a route from the device |
| Day11.WalkTail | 11/src/main.rs:54-69 | a route without its first device is a route from its second device |
| Day11.PathsCountWalks | 11/src/main.rs:28-75 | the count is the number of routes from the device to `out` that pass every required device |
| Day11.FlagsNarrow | 11/src/main.rs:35-39 | requiring devices on the way never gives more routes |
| Day11.WalksNarrow | 11/src/main.rs:35-39 | every route through the required devices is a route |
| Day11.SubsetCount | 11/src/main.rs:35-39 | a subset has no more elements |
| Day11.PathCache.constructor | 11/src/main.rs:94 | a fresh memo table is empty |
| Day11.FollowPath | 11/src/main.rs:28-75 | the memoised search returns the count without the table, keeps every entry of the table such a count, changes no entry already there, and for a known device other than `out` leaves its count stored under the visited key |
| Day11.SumOutputs | 11/src/main.rs:55-69 | the sum over a device's outputs is the sum of their counts, with the table kept sound, its old entries unchanged and an entry under the visited key of every known output other than `out` |
| Day11.EvaluateCountsRoutes | 11/src/main.rs:89-104 | the two answers are the number of routes from `you` to `out` and the number of routes from `svr` to `out` through both `dac` and `fft` |
| Day11.Paths | 11/src/main.rs:28-75 | `follow_path` without the memo table; its meaning is stated by `PathsEnds`, `PathsVisit` and `EvaluateCountsRoutes` |
| Day11.ParseDevices | 11/src/main.rs:83-87 | the device map built from the lines read as nodes, or nothing when a line panics |
| Day11.Evaluate | 11/src/main.rs:89-104 | both counts: the routes from `you`, and the routes from `svr` through `dac` and `fft`; `Main11` is proved against it |
| Day11.Main11 | 11/src/main.rs:83-104 | both counts for the input text, each with a fresh table |
| Day11.PathsEnds | 11/src/main.rs:33-40 | at `out` one route counts exactly when neither `dac` nor `fft` is still required; a device other than `out` without a node counts 0 (lines 54 and 72-74) |
| Day11.OutEndsTheSearch | 11/src/main.rs:33-40 | the graph `you: out`, `out: you` is ranked, because the outputs of `out` are never followed; from `you` there is 1 route, from `svr` none |
| Day12.ShapeRow | 12/src/main.rs:13 | a cell is filled exactly where the line has `#` |
| Day12.ToPresentShape | 12/src/main.rs:7-17 | a shape is read exactly when the first line starts with a digit; its id is that digit and its rows are the further lines, one cell per character |
| Day12.RowText | 12/src/main.rs:13 | a row written as `#` and `.` reads back as the row and holds no line break |
| Day12.ShapeRoundTrip | 12/src/main.rs:7-17 | a shape written as its id, a colon and one line per row reads back as itself when its last row is not empty |
| Day12.ShapeExample | 12/src/main.rs:55-64 | `1:\n###\n##.\n.##` reads as shape 1 with the rows of the program's own test |
| Day12.ParseEach | 12/src/main.rs:28-29 | every piece parsed in range, or nothing when one piece does not parse |
| Day12.ToPresentStorage | 12/src/main.rs:26-32 | a region is read exactly when the line has `: `, the size pieces parse as `i64` and there are at least two of them, and the counts parse as `usize`; width and height are the first two size pieces |
| Day12.StorageRoundTrip | 12/src/main.rs:26-32 | a region written `WxH: c0 c1 ...` reads back as itself |
| Day12.SizeWithoutColon | 12/src/main.rs:27 | the written size holds no colon |
| Day12.CountsWithoutColon | 12/src/main.rs:27 | the written counts hold no colon |
| Day12.StorageFromParts | 12/src/main.rs:26-32 | a size part and a counts part without colons, joined by `: `, read as the region |
| Day12.SizeRoundTrip | 12/src/main.rs:28 | the written size reads back as width and height |
| Day12.SizePieces | 12/src/main.rs:28 | the written size splits at its `x` into the two numbers |
| Day12.CountsRoundTrip | 12/src/main.rs:29 | the written counts read back as the counts |
| Day12.JoinWithout | 12/src/main.rs:27-29 | pieces joined by another separator stay free of a character none of them holds |
| Day12.StorageExample | 12/src/main.rs:67-77 | `10x5: 1 3 5 4 2 0` reads as the region of the program's own test |
| Day12.ExampleText | 12/src/main.rs:68 | the example region written out is the test's line |
| Day12.ExampleJoin | 12/src/main.rs:68 | the example counts joined by spaces |
| Day12.RenderSmall | 12/src/main.rs:68 | the decimal writings of the example's numbers |
| Day12.RenderDigit | 12/src/main.rs:68 | a digit is written as its one character |
| Day12.ParseShapes | 12/src/main.rs:40 | every paragraph read as a shape, or nothing at the first that panics |
| Day12.ParseStorages | 12/src/main.rs:41 | every line read as a region, or nothing at the first that panics |
| Day12.Paragraphs | 12/src/main.rs:40-41 | splitting at blank lines gives at least one paragraph, so `last()` never fails |
| Day12.ShapeParagraphs | 12/src/main.rs:40 | `take(6)`: the first six paragraphs, or all when fewer |
| Day12.RegionLines | 12/src/main.rs:41 | the lines of the last paragraph, read as regions |
| Day12.Evaluate | 12/src/main.rs:40-41 | the shapes of the first six paragraphs and the regions of the last paragraph's lines, or nothing exactly when one of them panics |
| Day01.FeedThenLine | 01/src/main.rs:77-84 | a text read back to `SearchingDirection` followed by one move's line gives its moves and then that move |
| Day01.StepAfterTruncRem | 01/src/main.rs:121-122 | one more click after a truncated `% 100` is one truncated `% 100` of the longer turn |
| Day01.StopStep | 01/src/main.rs:106-115 | one move of part 1 gives the next position and adds a count exactly when that position is 0 |
| Day01.ClickStep | 01/src/main.rs:120-127 | one click of part 2 moves the position by one under truncated `% 100` and lands on 0 exactly when the whole turn so far does |
| Day01.MoveStart | 01/src/main.rs:117-128 | the position part 2 starts a move from stays strictly inside (-100, 100) and agrees mod 100 with the total turn |
| Day01.StartAgrees | 01/src/main.rs:117-128 | after any moves of nonnegative length part 2's position agrees mod 100 with the total turn |
| Day02.FeedChain | 02/src/main.rs:78-92 | reading `a`, then `b` from where `a` ends, returns the ranges of `a` and then those of `b` |
| Day02.FeedOne | 02/src/main.rs:78-92 | reading one accepted character returns the range it produces, if any |
| Day02.FeedBody | 02/src/main.rs:19-67 | the text of any nonempty list of ranges, each followed by `,`, reads back as those ranges and ends at a fresh start buffer |
| Day02.QuotientFits | 02/src/main.rs:147 | an id below `10^(w*r)` divisible by the repeat factor has a quotient of at most `w` digits |
| Day02.RepeatedFromQuotient | 02/src/main.rs:141-148 | `w * r` digits worth a `w`-digit number times the repeat factor are that number's digits repeated `r` times |
| Day02.RepeatedIfDivisible | 02/src/main.rs:141-148 | `w * r` digits whose value the repeat factor divides are their first `w` digits repeated `r` times |
| Day02.DivisibleIfRepeated | 02/src/main.rs:141-148 | a segment repeated `r` times has a value the repeat factor divides |
| Day02.RepeatPrefix | 02/src/main.rs:141-148 | a repetition of a segment starts with the segment |
| Day02.TwiceIsRepeat | 02/src/main.rs:107-115 | two equal halves is a segment repeated twice |
| Day02.DigitCountIs | 02/src/main.rs:95-97 | a number between `10^(k-1)` and `10^k` has `k` digits |
| Day02.RepeatsSegmentFromExists | 02/src/main.rs:132-150 | the loop over the segment lengths from `seg` on finds a repeated segment exactly when one of those lengths gives one |
| Day02.SelectNext | 02/src/main.rs:120-124 | one more id at the top of the range is selected exactly when the test rejects it |
| Day03.PickedCons | 03/src/main.rs:39-52 | picking with a mask that starts with `keep` keeps the first digit exactly when `keep` holds |
| Day03.PowerStep | 03/src/main.rs:44-48 | one greedy step keeps the value found so far, shifted, plus the best of what remains |
| Text.ParseInt | 08/src/main.rs:52-54 | `str::parse` for an integer type only returns values of that type's range |
| Text.ParseDigits | 08/src/main.rs:52-54 | plain digits parse to their value exactly when it fits the type |
| Text.ParseRendered | 08/src/main.rs:52-54 | an integer of the type, written in decimal, parses back as itself |
| Text.Split | 08/src/main.rs:48 | `split` gives at least one piece and no piece holds the separator |
| Text.JoinSplit | 08/src/main.rs:48 | joining the pieces of a split with the separator gives back the text |
| Text.SplitJoin | 08/src/main.rs:48 | splitting joined pieces that lack the separator gives back the pieces |
| Text.SplitStr | 12/src/main.rs:27 | `split` at a string gives at least one piece |
| Text.LinesJoin | 08/src/main.rs:66 | lines joined by line feeds come back from `lines` |
| Decimal.DigitCount | 02/src/main.rs:95-97 | the number of decimal digits: `10^(k-1) <= n < 10^k` |
| Decimal.ToDecimal | 02/src/main.rs:95-97 | the decimal digits of a number, as many as its digit count |
| Decimal.DigitsValueConcat | 03/src/main.rs:47 | the value of two digit strings one after the other is the first shifted by the length of the second, plus the second |
| Decimal.DigitsValueInjective | 02/src/main.rs:141-148 | two digit strings of the same length and value are equal |
| Decimal.DecimalUnique | 02/src/main.rs:95-97 | a digit string as long as its value's digit count is that value's decimal form |
| Seqs.SortByKey | 08/src/main.rs:97 | `sort_by_key`: a permutation, ascending by the key |
| Seqs.SortMap | 08/src/main.rs:111 | sorting commutes with a map that keeps the keys |
| Seqs.DistinctPermutation | 08/src/main.rs:111 | reordering keeps a sequence free of repetitions |

## Left out

- Reading `input.txt`, the `println!`/`print!` output and the `Instant` timing (printed as `f64` milliseconds) are I/O and floating point. The modelled parts of each `main` take the file's text, or its lines, as a parameter and return the values that would be printed.
- `number_length` (02/src/main.rs:95-97) computes a digit count with `f64::log10`. It is replaced by the integer digit count `Decimal.DigitCount`, and ids are required to be at least 1.
- Day 10 part 2 is left out. `gaussian_elimination` has an empty body (10/src/main.rs:136-138) and is called with the wrong number of arguments (10/src/main.rs:198). `find_minimal_button_presses_for_joltage` only builds the equation system and returns 0 (10/src/main.rs:196-200). Neither function is part of this model; `SystemOfLinearEquations::from_machine` is.
- The accumulation in day 02's `main` (02/src/main.rs:176-210) is left out. The model covers the reading loop and the per-range searches, but not the pushes into the two result vectors or the sums printed from them.
- The summing loop of day 03's `main` (03/src/main.rs:62-71) is not part of this model. `FindMaximalPower` models each line's value.
- Integers are unbounded. Overflow in `i32`/`i64` arithmetic, `usize` underflow, and the subtraction-based comparator at 05/src/main.rs:71 are not modelled. Values read with `parse` are range-checked for their type, as Rust's `parse` does.
- Characters stand for bytes: every input is taken to be ASCII, and `chars()` and byte indexing coincide.
- `Text.ParseInt`: accepts a leading `'+'`, and a `'-'` only for signed types, as Rust's integer `parse` does. Other corner cases of `parse`, such as error kinds, are not distinguished: every failure is `None`.
- `HashSet` and `HashMap` (days 08 and 11) are Dafny `set` and `map`. Hashing and iteration order are not modelled.
- `sort_by_key` and `sort_by` (days 05 and 08) are modelled as a stable insertion sort on values, specified as an ascending permutation. The standard library's algorithm is not modelled.
- Day05.MergeRanges: merging into the last kept range through `last_mut()` (05/src/main.rs:81-97) is modelled on a sequence of range values. The in-place update through that reference is not modelled.
- Panics caused by indexing out of bounds inside an algorithm become preconditions. This covers `find_maximal_power` and `to_numerical_value` on non-digits (day 03), `LightPattern::apply_button` and `Joltages::apply_button` (day 10, `Day10.LightPattern.ApplyButton` and `Day10.Joltages.ApplyButton`, each with an `InRange` precondition) and `take_paper_roll` (day 04). Panics while parsing are error results.
- Day11.FollowPath: the recursion is proved to terminate through a ghost ranking of the devices (`Ranked`), which every connection the search can follow must lower. Graphs with a cycle the search enters, on which the program would recurse without end, are excluded by that precondition. So are graphs whose only cycles the program never enters, such as a cycle among devices that neither `you` nor `svr` reaches; on those the program terminates but the model says nothing. The outputs of `out` are exempt, since the search stops at `out` (`Day11.OutEndsTheSearch`).
- Day04.PaperRollStorage.constructor: takes a rectangular grid. The ragged grid that `new` as written accepts (`Day04.AsWrittenGridShape`: an empty first row and a positive width) makes `main` panic at its first `is_paper_roll(0, 0)`; that run is not modelled.
- Loop bodies that the source writes inline are sometimes separate methods in the model (for example `Day07.ProcessLine`, `Day02.RepeatFactor`). Each such method carries its own contract.

## Findings

| source | as written | input that shows it | evidently intended | confidence | as-written member | corrected member |
|---|---|---|---|---|---|---|
| 04/src/main.rs:15-17 | the width is taken from the first nonempty line (`if cols == 0 { cols = line.len() }`), so empty lines before it are accepted as rows of width 0 | the text `"\n@"`: storage `[[], [true]]` with `cols == 1`, on which `is_paper_roll(0, 0)` indexes past the end of row 0 | every row as wide as the first line, so a leading empty line is `non grid shape` | not executed | Day04.RaggedGridAsWritten | Day04.ParseGridShape |
| 10/src/main.rs:177 | the number of buttons pressed ranges over `1..button_count`, which leaves out pressing every button | one light, pattern `[#]`, one button `(0)`: no count is tried, and the search panics | `1..=button_count`, so the least working number of buttons is found whenever there is one | not executed | Day10.AllButtonsMissed | Day10.FindMinimalLeast |

The reading loop `Day04.ReadStorage` and the program `Day10.Main10` follow the code as written. The corrected definitions `Day04.ParseGrid` and `Day10.FindMinimal` sit beside them with their proved properties. `Day04.AsWrittenAgrees` and `Day10.AsWrittenAgreesWhenFound` state where each pair agrees.
