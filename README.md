# aoc2023 in Dafny

A model of the eight daily puzzle solvers of the `aoc2023` repository (one `src/main.rs`
per day) and proofs about it. Each day's solver reads its text input, computes two answers
("part 1" and "part 2") and prints them; here each part is a Dafny method that returns its
answer instead. Each method is proved against a specification function, and lemmas prove
what the answers mean.

Conventions used throughout:

- A panic of the Rust program becomes `None` (or the outcome `Panic` on day 8), on every
  path where the program would panic: an `unwrap` of a missing value, an out-of-bounds
  index, an integer that does not parse, a `usize` that would go below zero. Edge cases
  are modelled as the code handles them, not excluded by preconditions.
- Rust's lazy iterators are followed where they change which panics can happen. Day 2
  stops reading a game's draws at the first one that does not fit. Day 6's `zip` parses a
  time before its distance, and stops when either list ends.
- Integers are mathematical; text is a sequence of characters.

Files:

| file | module | content |
|---|---|---|
| `wrappers.dfy` | `Wrappers` | `Option` with the `:-` operator, `Ordering` |
| `text.dfy` | `Text` | `lines`, `split`, `split_whitespace`, integer parsing, sums over lines |
| `day1.dfy` | `Day1` | calibration values: the first and last digit (or digit word) of each line |
| `day2.dfy` | `Day2` | the cube game: games possible with a given bag, and the power of each game |
| `day3.dfy` | `Day3` | the engine schematic: part numbers next to symbols, and gear ratios |
| `day4.dfy` | `Day4` | scratchcards: points per card, and cards won recursively with a cache |
| `stage.dfy` | `Day5Stage` | a stage of the almanac as a `RangeMap`: lookup, `overlapping`, `gaps`, the range step |
| `day5.dfy` | `Day5` | reading the seven tables, part 1 per seed value, part 2 per seed range |
| `day6.dfy` | `Day6` | boat races: the number of winning holds |
| `day7.dfy` | `Day7` | camel cards: hand types, the hand order, and the in-place sort of the bids |
| `day8.dfy` | `Day8` | the network walk from `AAA` to `ZZZ`, and the walk from every `..A` node at once |

Notes on the code's behaviour:

- Day 5: the rules of a table may overlap. `RangeMap::insert` overwrites what an earlier
  rule covered, so the model's `Insert` cuts the old rules, and the last rule written wins
  (`Day5Stage.InsertGet`).
- Day 5: a seed range of length 0 can still yield one empty piece, because `overlapping`
  of an empty range reports a rule strictly containing its start. Empty pieces are not
  dropped, and part 2 takes the least start over all pieces, empty ones included. Such a
  piece can therefore make the answer smaller than every location
  (`Day5Stage.EmptySeedRangeExample`); `Day5Stage.RangeModeBound` states what holds for
  any seed ranges.
- Day 7: only part 1 exists in the code.

## Model

| member | source | states |
|---|---|---|
| Text.Lines | day8/src/main.rs:78 | `lines` cuts at every newline and drops the carriage return of a `\r\n` ending; no line holds a newline |
| Text.LinesCRLF | day8/src/main.rs:78 | `ab\r\nc\r\n` gives the lines `ab` and `c`; a lone carriage return before the end is kept |
| Text.SplitOn | day5/src/main.rs:43 | `split` gives at least one piece, and no piece holds the separator |
| Text.JoinSplitOn | day5/src/main.rs:43 | joining the pieces of a `split` with the separator gives back the text |
| Text.Nth | day5/src/main.rs:44 | `nth(n)` gives piece `n` exactly when there are more than `n` pieces |
| Text.IndexOf | day2/src/main.rs:19 | the first occurrence of the pattern at or after a position, with none before it; `None` when there is none |
| Text.SplitWhitespace | day5/src/main.rs:46 | `split_whitespace` gives non-empty tokens that hold no whitespace |
| Text.ParseNatSpec | day6/src/main.rs:18 | an unsigned `parse` accepts an optional `+` then one or more digits, and gives their decimal value |
| Text.ParseIntSpec | day5/src/main.rs:47 | a signed `parse` accepts an optional `+` or `-` then one or more digits; a `-` negates the decimal value |
| Day1.NumFromSpec | day1/src/main.rs:48-64 | the search through the words from `k` on succeeds exactly when the text starts with one of them, and it returns one that is a prefix |
| Day1.NumSpec | day1/src/main.rs:48-64 | `num` succeeds exactly when the text starts with one of the ten digit words, and the value it returns is a word that is a prefix of the text |
| Day1.NumWord | day1/src/main.rs:35-64 | `num` on a text that starts with the word of `k` returns `k`, whatever follows |
| Day1.MarkValue | day1/src/main.rs:74-78 | a mark's value is a digit below 10, from a digit character or a digit word |
| Day1.NotAWord | day1/src/main.rs:48-64 | a text shorter than three characters, or one not starting with a word's first letter, is never a digit word |
| Day1.FirstFrom | day1/src/main.rs:21-23 | the forward scan returns a mark at or after `i`, and no position before it holds a mark; `None` only when no mark is left |
| Day1.LastBefore | day1/src/main.rs:26-28 | the backward scan returns a mark before `i`, and no position after it holds a mark |
| Day1.LineSpecMeaning | day1/src/main.rs:16-33 | a line has a value exactly when it has a mark; the value is ten times the leftmost mark plus the rightmost mark |
| Day1.LineSpec | day1/src/main.rs:66-91 | a line's value is at most 99 |
| Day1.ScanForward | day1/src/main.rs:21-23 | the forward `while` loop stops at the first mark, or reports the panic of running off the line |
| Day1.ScanBackward | day1/src/main.rs:79-82 | the backward `while` loop stops at the last mark |
| Day1.LineValue | day1/src/main.rs:69-88 | the loop body for one line yields ten times the first mark plus the last mark, digit or word |
| Day1.LineValuesSpec | day1/src/main.rs:18-30 | the values exist exactly when every line has a mark, and they are the lines' values in order |
| Day1.Total | day1/src/main.rs:16-33 | the sum exists exactly when every line has a value, and is at most 99 per line |
| Day1.SumLines | day1/src/main.rs:68-90 | the loop over the lines returns the sum of the lines' values, or `None` at the first line without a mark |
| Day1.CalibrationValue | day1/src/main.rs:16-33 | part 1 is the total with digits only |
| Day1.Part2 | day1/src/main.rs:66-91 | part 2 is the total with digits and digit words |
| Day1.WordShapes | day1/src/main.rs:35-46 | every digit word has at least three letters and starts with one of `zotfsen` |
| Day1.OneightFirst | day1/src/main.rs:71-78 | in `oneight` the first mark is `one` at column 0 |
| Day1.OneightLast | day1/src/main.rs:80-87 | in `oneight` the last mark is `eight` at column 2, inside the earlier word |
| Day1.OverlappingWords | day1/src/main.rs:66-91 | overlapping words both count: `oneight` is worth 18 |
| Day2.ColourOf | day2/src/main.rs:35-39 | exactly `red`, `green` and `blue` are colours; any other name panics |
| Day2.RawDraws | day2/src/main.rs:14-26 | splitting a line succeeds exactly when it contains `: ` |
| Day2.ParseDrawNoSpace | day2/src/main.rs:18-21 | a draw without a space panics |
| Day2.ParseDrawAt | day2/src/main.rs:18-22 | a draw splits at its first space into the count before it and the colour after it |
| Day2.ParseDrawShape | day2/src/main.rs:18-22 | a draw that parses has a first space, with its count before it and its colour after it |
| Day2.GameCheck | day2/src/main.rs:33-45 | a game fails only at a draw that parses and does not fit; it panics only at a draw that does not parse |
| Day2.GameCheckPasses | day2/src/main.rs:33-45 | a game passes exactly when every draw parses and fits in the bag |
| Day2.GameCheckStops | day2/src/main.rs:41-43 | a draw that does not fit ends the game's check; later draws, even malformed ones, are never read |
| Day2.CheckGame | day2/src/main.rs:32-45 | the two nested draw loops with the early `continue 'uwu` compute the game's check |
| Day2.CheckLine | day2/src/main.rs:31-45 | the check of one line is its draws' check |
| Day2.GameScoreValues | day2/src/main.rs:41-46 | a line adds its 1-based position when its game passes and 0 when it fails |
| Day2.PositionSum | day2/src/main.rs:31-47 | adding 0 or the 1-based position per line totals at most 1 + 2 + ... + n, with equality exactly when every line adds its position |
| Day2.Part1Bounds | day2/src/main.rs:28-49 | part 1 is at most 1 + 2 + ... + n for n games, and equals it exactly when every game passes |
| Day2.SumValidGames | day2/src/main.rs:31-47 | the loop over the games returns part 1's total |
| Day2.ScoreLine | day2/src/main.rs:32-46 | one turn of the loop: the position when the game passes, 0 when it fails |
| Day2.AddGame | day2/src/main.rs:31-47 | one turn of the loop extends the total over the first `idx` lines to the first `idx + 1` |
| Day2.Part1Fails | day2/src/main.rs:28-49 | a line whose check panics (no `: `, a draw that cannot be read, an unknown colour) makes part 1 panic, whatever the other lines hold |
| Day2.Part1 | day2/src/main.rs:28-49 | `part1` returns the total over the input's lines |
| Day2.ParseDrawsSpec | day2/src/main.rs:58-60 | part 2 reads every draw: reading succeeds exactly when each draw parses, and yields them in order |
| Day2.MaxOfSpec | day2/src/main.rs:62-64 | the maximum of a colour bounds each of its counts and is one of them, or is 0 when the colour is never drawn |
| Day2.FindMaxima | day2/src/main.rs:55-68 | the draw loops of part 2 compute the three maxima, raised draw by draw |
| Day2.LinePower | day2/src/main.rs:55-69 | one game's power is the product of its three maxima |
| Day2.PowerSpec | day2/src/main.rs:69 | the power of a game whose draws all parse is `max_red * max_green * max_blue` |
| Day2.PowerAbsent | day2/src/main.rs:55-69 | a colour missing from a game makes its power 0 |
| Day2.Part2Fails | day2/src/main.rs:60-65 | a game with a draw that cannot be read makes part 2 panic |
| Day2.AddPower | day2/src/main.rs:54-70 | one turn of part 2's loop adds that game's power to the total |
| Day2.Part2 | day2/src/main.rs:51-71 | `part2` returns the sum of the powers of all games |
| Day3.SymbolsMap | day3/src/main.rs:12-21 | one row per line and one cell per character; a cell is set exactly when its character is ASCII punctuation other than `.` |
| Day3.RunEnd | day3/src/main.rs:56-98 | a digit run extends to the first non-digit or the end of the line |
| Day3.RunNumber | day3/src/main.rs:56-98 | a run's number has the run's decimal value, its first column and its line. Its length is the digit count, one less when the run reaches the end of the line |
| Day3.LineNumbersSound | day3/src/main.rs:51-100 | every number found on a line is the number of a maximal digit run |
| Day3.LineNumbersOrdered | day3/src/main.rs:51-100 | a line's numbers come in increasing column order |
| Day3.LineNumbersComplete | day3/src/main.rs:51-100 | every maximal digit run of a line has its number |
| Day3.ScanStepKeeps | day3/src/main.rs:57-97 | each branch of the closure keeps the scan's invariant: the numbers emitted so far, followed by those still to come, are the line's numbers |
| Day3.ScanChar | day3/src/main.rs:56-98 | the closure on one character keeps the scan's invariant |
| Day3.ScanLine | day3/src/main.rs:51-100 | the scan with `cur_num` and `start_x` over one line yields exactly the line's numbers |
| Day3.AllNumbersSound | day3/src/main.rs:47-102 | every number `numbers` yields is the number of a maximal digit run of the grid |
| Day3.AllNumbersOrdered | day3/src/main.rs:47-102 | `numbers` yields its numbers in row-major order |
| Day3.AllNumbersComplete | day3/src/main.rs:47-102 | every maximal digit run of the grid has its number among those yielded |
| Day3.ScanNumbers | day3/src/main.rs:47-102 | `numbers` over all lines, line index as `y`, yields all the grid's numbers |
| Day3.NumbersAreNotSymbols | day3/src/main.rs:17 | no number lies on a symbol cell |
| Day3.BoxFromSpec | day3/src/main.rs:32-42 | when every row of the box is non-empty, the row loop finds a symbol exactly when one lies in the clamped box |
| Day3.NextToSymbolSpec | day3/src/main.rs:31-44 | a number is next to a symbol exactly when a symbol lies in its clamped box. It panics only when a row of the box is empty, where `len() - 1` underflows |
| Day3.BoxFromFails | day3/src/main.rs:35-36 | the adjacency check fails only on an empty row of the box |
| Day3.NextToSymbol | day3/src/main.rs:31-44 | the adjacency check fails only on an empty grid or on an empty row inside the box |
| Day3.IsNextToSymbol | day3/src/main.rs:31-44 | the nested `for` loops with the early `return true` compute the adjacency of a number |
| Day3.AdjacentSum | day3/src/main.rs:104-111 | part 1's sum, when it exists, lies between 0 and the sum of all values |
| Day3.AdjacentSumSpec | day3/src/main.rs:104-111 | part 1 succeeds exactly when every adjacency check does, and is then at most the sum of all values |
| Day3.NoEmptyLineNoPanic | day3/src/main.rs:31-44 | a grid without an empty line never makes part 1 panic |
| Day3.AddIfAdjacent | day3/src/main.rs:107-110 | one turn of `filter`/`sum` adds number `k`'s value exactly when it is next to a symbol |
| Day3.AdjacentSumPrefixFails | day3/src/main.rs:107-110 | once a number's check panics, part 1 panics |
| Day3.Part1 | day3/src/main.rs:104-111 | `part1` is the sum of the values of the numbers next to a symbol |
| Day3.RowGears | day3/src/main.rs:117-121 | each position found on a line is a `*` of that line |
| Day3.RowGearsSpec | day3/src/main.rs:117-121 | every `*` of the line is found, in increasing column order |
| Day3.Gears | day3/src/main.rs:113-123 | every position yielded holds a `*` of the grid |
| Day3.GearsSpec | day3/src/main.rs:113-123 | `gears` yields exactly the `*` positions of the grid, in row-major order |
| Day3.GearsAreSymbols | day3/src/main.rs:113-123 | every gear is a symbol cell |
| Day3.TouchesColumns | day3/src/main.rs:129-130 | a number touches the gear exactly when its line is next to the gear's and one of its columns lies in the gear's column range, both directions |
| Day3.TouchingIndices | day3/src/main.rs:126-132 | the indices found are exactly those of the numbers touching the gear, in ascending order |
| Day3.GearRatio | day3/src/main.rs:125-139 | a ratio exists only when exactly two numbers touch the gear, and it is the product of their values |
| Day3.GearRatioSpec | day3/src/main.rs:125-139 | a gear has a ratio exactly when two numbers, and no others, touch it; the ratio is the product of their values |
| Day3.AtMostTwo | day3/src/main.rs:133-137 | a third touching number makes `gear_ratio` return `None` |
| Day3.FullLength | day3/src/main.rs:86-94 | a number with its length set to its digit count; value, column and line are unchanged |
| Day3.FullLengthTouches | day3/src/main.rs:125-131 | with full lengths, a number touches a gear exactly when one of its digits is on or next to the gear |
| Day3.NumbersOfExample | day3/src/main.rs:60-68 | in `2*5`, the 5 in the last column is recorded with length 0 |
| Day3.LastColumnCounterexample | day3/src/main.rs:129 | as written, part 2 of `2*5` is 0; with full lengths it is 10 |
| Day3.Part2AsWritten | day3/src/main.rs:141-147 | `part2` as written: the sum of the gear ratios, with the lengths the scan records |
| Day3.Part2 | day3/src/main.rs:141-147 | part 2 with every number's length its digit count |
| Day4.Spaces | day4/src/main.rs:21 | `space0` takes the leading spaces and tabs and stops at the first other character |
| Day4.Digits | day4/src/main.rs:19-23 | `u32` takes the leading digits and stops at the first non-digit |
| Day4.ParseNumbers | day4/src/main.rs:19-23 | `many1` succeeds with at least one number |
| Day4.NumbersAreTokens | day4/src/main.rs:19-23 | on a text of spaces and digits, `parse_numbers` reads the decimal values of its whitespace-separated tokens |
| Day4.ParseCard | day4/src/main.rs:28-36 | a card parses only when its line has a `: ` and, after it, the separator between the two halves. Both halves then hold at least one number |
| Day4.Matches | day4/src/main.rs:37-39 | the matches number at most the winning numbers and at most the numbers held |
| Day4.DuplicatesCountOnce | day4/src/main.rs:35 | a winning number written twice counts once, because the halves are sets |
| Day4.FoldScore | day4/src/main.rs:40-46 | the `fold` scores 0 exactly when there is no match, and otherwise at least the number of matches |
| Day4.FoldScoreSpec | day4/src/main.rs:40-46 | the `fold` scores 0 for no match and 2^(m-1) for m matches |
| Day4.Part1Parses | day4/src/main.rs:25-49 | part 1 succeeds exactly when every card parses |
| Day4.Part1AtLeastWinners | day4/src/main.rs:25-49 | part 1 is at least the number of cards with a match |
| Day4.Part1 | day4/src/main.rs:25-49 | part 1 succeeds exactly when every card parses, and is then at least the number of cards with a match |
| Day4.ParseCards | day4/src/main.rs:52-64 | the cards are the lines' cards in order, or `None` when one does not parse |
| Day4.Won | day4/src/main.rs:73-83 | a card wins at least its own matches in copies; `None` when the recursion reaches past the last card |
| Day4.WonDefined | day4/src/main.rs:73-83 | when no card's matches reach past the last card, every card's copies are defined |
| Day4.LastCardWinsPastEnd | day4/src/main.rs:79 | a last card with a match sends the recursion out of bounds |
| Day4.Part2Helper | day4/src/main.rs:73-83 | `part2_helper` returns what the card wins, keeps every non-zero cache entry correct, writes only at `id` and after, and leaves `cache[id]` holding its result |
| Day4.CardsHeldAtLeast | day4/src/main.rs:65-70 | every card is held at least once |
| Day4.CountCards | day4/src/main.rs:65-70 | the loop over the cards with one shared cache counts every card once plus what it wins |
| Day4.CardsHeldFails | day4/src/main.rs:67-69 | a card whose copies are undefined makes part 2 panic |
| Day4.Part2 | day4/src/main.rs:51-71 | `part2` is the number of cards held at the end |
| Day5Stage.SameValueSameRule | day5/src/main.rs:31 | in a stage two rules never cover the same value |
| Day5Stage.BelowSpec | day5/src/main.rs:31 | the rules below a cut, clipped to it, form a stage that ends at or before the cut |
| Day5Stage.AboveSpec | day5/src/main.rs:31 | the rules above a cut, clipped to it, form a stage that starts at or after the cut |
| Day5Stage.Insert | day5/src/main.rs:31 | `RangeMap::insert` keeps a stage sorted and disjoint, and the new rule is in it |
| Day5Stage.InsertGet | day5/src/main.rs:31 | after an insert, a value in the new range gets the new offset and every other value keeps its old lookup |
| Day5Stage.GetBelow | day5/src/main.rs:31 | below the cut, lookups in the lower part agree with the stage; at or above it they find nothing |
| Day5Stage.GetAbove | day5/src/main.rs:31 | at or above the cut, lookups in the upper part agree with the stage; below it they find nothing |
| Day5Stage.Get | day5/src/main.rs:53 | `get` finds an offset exactly when some rule covers the value, and the offset is that rule's |
| Day5Stage.MapValueSpec | day5/src/main.rs:53 | a value covered by a rule moves by that rule's offset; a value covered by none stays where it is |
| Day5Stage.Overlapping | day5/src/main.rs:89 | `overlapping` yields exactly the rules that meet the query range |
| Day5Stage.OverlappingValid | day5/src/main.rs:89 | the overlapping rules come in ascending order, disjoint |
| Day5Stage.ClipSpec | day5/src/main.rs:90 | a value is in the clipped piece exactly when it is in both the rule and the query; shifting by the offset maps the clip onto the emitted piece |
| Day5Stage.Shifted | day5/src/main.rs:88-92 | one emitted piece per overlapping rule, in order |
| Day5Stage.GapsFromSound | day5/src/main.rs:95 | every gap is non-empty, lies inside the query and meets no rule |
| Day5Stage.GapsFromAscending | day5/src/main.rs:95 | the gaps come in ascending order, disjoint |
| Day5Stage.GapsFromComplete | day5/src/main.rs:95 | every value of the query covered by no rule lies in some gap |
| Day5Stage.GapsOfEmptyStage | day5/src/main.rs:95 | the gaps of a non-empty range in an empty stage are the range itself |
| Day5Stage.Clips | day5/src/main.rs:89-90 | the clips of the overlapping rules, in order |
| Day5Stage.PartitionCovers | day5/src/main.rs:86-98 | a value lies in the query range exactly when it lies in one of the clips or gaps |
| Day5Stage.PartitionDisjoint | day5/src/main.rs:86-98 | no value lies in two of the clips and gaps |
| Day5Stage.PieceKind | day5/src/main.rs:86-98 | a value in a clip is covered by that clip's rule; a value in a gap is covered by no rule |
| Day5Stage.StepCoversImage | day5/src/main.rs:85-98 | the step over all ranges yields the mapped value of every value of every input range |
| Day5Stage.StepOnlyImage | day5/src/main.rs:85-98 | every value the step yields is the mapped value of some input value |
| Day5Stage.StepImage | day5/src/main.rs:85-98 | the step's ranges hold exactly the mapped values of the input ranges |
| Day5Stage.StepNonEmpty | day5/src/main.rs:85-98 | the step keeps every range non-empty |
| Day5Stage.InsideOneRule | day5/src/main.rs:85-98 | a range inside one rule comes out as the one shifted range, with no gap |
| Day5Stage.OutsideAllRules | day5/src/main.rs:85-98 | a range meeting no rule comes out unchanged |
| Day5Stage.PipelineImage | day5/src/main.rs:84-99 | after all stages, the ranges hold exactly the values part 1 would compute for the seed values, and stay non-empty |
| Day5Stage.MinStart | day5/src/main.rs:100-103 | the least start is one of the starts and bounds all of them; `None` for no range |
| Day5Stage.ImageReached | day5/src/main.rs:84-99 | each seed value's location lies in the final ranges |
| Day5Stage.ImageOnly | day5/src/main.rs:84-99 | each value in the final ranges is some seed value's location |
| Day5Stage.RangeModeIsScalarMinimum | day5/src/main.rs:61-104 | when every seed range is non-empty, range mode answers the least location over every value of every seed range, which is what scalar mode gives over those values |
| Day5Stage.RangeModeBound | day5/src/main.rs:61-104 | for any seed ranges, empty ones included: the answer is at most every location, and it is a location unless it is the start of an empty piece left by an empty seed range |
| Day5Stage.EmptySeedRangeExample | day5/src/main.rs:84-103 | seeds `100..100` and `50..60` through one rule moving `90..110` down by 90 give the pieces `10..10` and `50..60` and the answer 10, while every location is at least 50 |
| Day5Stage.StepSameMembers | day5/src/main.rs:85-98 | one stage yields the same pieces from two lists holding the same ranges |
| Day5Stage.PipelineSameMembers | day5/src/main.rs:84-99 | seed lists holding the same ranges end with lists holding the same pieces |
| Day5Stage.MinStartSameMembers | day5/src/main.rs:100-103 | the least start depends only on which ranges are listed |
| Day5Stage.AnswerIgnoresSeedOrder | day5/src/main.rs:61-104 | for any seed ranges, empty ones included, the answer does not depend on the order or repetition of the seed ranges |
| Day5Stage.PipelineOfNothing | day5/src/main.rs:84-99 | no seed range gives no piece |
| Day5.ParseRule | day5/src/main.rs:26-31 | a rule read from a line has a non-empty source range |
| Day5.ParseRuleSpec | day5/src/main.rs:26-31 | a line gives a rule exactly when its first three tokens parse and the length is positive. The rule covers `[src, src + len)` with offset `dest - src` |
| Day5.ParseRulesSpec | day5/src/main.rs:22-32 | a block's rules exist exactly when each of its lines gives one, in order |
| Day5.BuildStage | day5/src/main.rs:21-32 | the inserts of a block build a sorted, disjoint stage |
| Day5.LastHitSpec | day5/src/main.rs:21-32 | the last rule of a block that covers a value is found, and no later rule covers it |
| Day5.BuildStageGet | day5/src/main.rs:21-32 | a lookup in the built stage returns the offset of the last rule written that covers the value |
| Day5.BlockEnd | day5/src/main.rs:22-25 | a block ends at the first empty line or at the end of the input |
| Day5.Table | day5/src/main.rs:20-33 | a table read from a block is a valid stage |
| Day5.TableFails | day5/src/main.rs:26-29 | a rule line that does not parse makes the table panic |
| Day5.ReadTable | day5/src/main.rs:20-33 | the `while let` loop over one block returns the block's table and stops at its end |
| Day5.ReadTables | day5/src/main.rs:19-34 | seven tables, each a valid stage |
| Day5.Ranges | day5/src/main.rs:16-36 | `ranges` returns the seven tables, skipping the blank line after the seeds and each table's header |
| Day5.Pairs | day5/src/main.rs:71-79 | seed numbers are paired as `start..start + length`; a trailing odd number is dropped |
| Day5.MapAll | day5/src/main.rs:51-55 | one fold step maps each seed through the stage, in order |
| Day5.ApplyStagesPointwise | day5/src/main.rs:49-55 | after the fold each seed holds its location through every stage |
| Day5.Min | day5/src/main.rs:56-58 | the minimum is one of the values and bounds them all; `None` for no value |
| Day5.Part1Spec | day5/src/main.rs:38-59 | part 1 succeeds exactly when the seeds and tables parse and a seed exists. It answers the least location over the seeds |
| Day5.Part2 | day5/src/main.rs:61-104 | the stage-by-stage loop computes the range-mode answer |
| Day5.Part2Spec | day5/src/main.rs:61-104 | when every seed range is non-empty, part 2 answers the least location over every seed value |
| Day5.Part2Bound | day5/src/main.rs:61-104 | for any seed line, part 2 is at most every seed value's location, and is such a location unless it is the start of an empty piece, which only an empty or reversed seed range leaves |
| Day5.SeedNumbers | day5/src/main.rs:39-48 | the seeds exist only when the first line has a `: `; there is one seed per whitespace-separated token after it, each the token's parsed value |
| Day5.Part1 | day5/src/main.rs:38-59 | part 1 answers only when the seed line and the tables parse and there is at least one seed |
| Day5.Part2Answer | day5/src/main.rs:61-104 | part 2 answers only when the seed line and the tables parse and there are at least two seed numbers, that is one seed range |
| Day6.TimeNDistanceSpec | day6/src/main.rs:12-21 | reading the races succeeds only with two lines that both have a `:`. The races then pair the numbers of the two lines position by position, as many as the shorter line has. Reading succeeds whenever every number on both lines parses |
| Day6.ZipParseSpec | day6/src/main.rs:13-20 | the races pair times and distances position by position, as many as the shorter line has |
| Day6.ZipLaziness | day6/src/main.rs:20 | a bad distance after the last time is never parsed; a bad time after the last distance is |
| Day6.TravelSymmetric | day6/src/main.rs:27-31 | holding for `h` or for `time - h` covers the same distance, which lets the loop count from the middle |
| Day6.TravelMonotone | day6/src/main.rs:27-31 | up to half the race, a longer hold never covers less distance |
| Day6.WaysFormula | day6/src/main.rs:27-31 | with `c` the last losing hold at or below half the race, the winning holds number `time - 2c - 1` |
| Day6.WaysPositive | day6/src/main.rs:27-31 | a race can be won exactly when holding for half of it wins |
| Day6.RaceSpec | day6/src/main.rs:26-31 | one race's result, when there is one, is its number of winning holds. There is none exactly when the time is even and holding for half of it does not win |
| Day6.RaceWays | day6/src/main.rs:26-32 | the loop for one race yields the number of winning holds. Without one, it yields 0 for an odd time and panics for an even one |
| Day6.RacesProductWays | day6/src/main.rs:23-35 | when every race can be won, part 1 is the product of the numbers of winning holds |
| Day6.RacesProductFails | day6/src/main.rs:33-34 | a race that panics makes part 1 panic |
| Day6.Part1 | day6/src/main.rs:23-35 | `part1` is the product over the races |
| Day6.RemoveSpaces | day6/src/main.rs:39 | the filtered text holds no space |
| Day6.Halve | day6/src/main.rs:40-43 | the halving loop ends on a hold that does not win |
| Day6.TieCounterexample | day6/src/main.rs:44-48 | as written, a race of 4 with a record of 3 has one winning hold, yet the answer is 3 |
| Day6.ScanUpSpec | day6/src/main.rs:44-46 | with `<=`, the scan stops at the first winning hold |
| Day6.Part2RaceCorrect | day6/src/main.rs:37-49 | with `<=`, part 2 is the number of winning holds whenever the race can be won |
| Day6.SearchAsWritten | day6/src/main.rs:40-48 | the loops of part 2 as written |
| Day6.Search | day6/src/main.rs:40-48 | the loops of part 2 with `<=` compute the intended answer |
| Day6.Part2 | day6/src/main.rs:37-49 | `part2` with `<=` reads the spaceless digits of each line as one race |
| Day7.Value | day7/src/main.rs:55-66 | a valid card's value is below 13; `N(0)` and `N(1)` underflow `n - 2` |
| Day7.ValueInjective | day7/src/main.rs:55-66 | distinct valid cards have distinct values |
| Day7.FromChar | day7/src/main.rs:85-96 | a character gives a card exactly when it is one of `AKQJT` or a digit |
| Day7.FromCharValid | day7/src/main.rs:93 | the card of a digit is valid exactly when the digit is not `0` or `1` |
| Day7.CardOrder | day7/src/main.rs:21-31 | cards compare by value: equal exactly when the same card, antisymmetric and transitive |
| Day7.Counts | day7/src/main.rs:200-203 | there are 13 counters |
| Day7.CountsSum | day7/src/main.rs:200-203 | the counters add up to the number of cards |
| Day7.TypeOf | day7/src/main.rs:198-236 | any type above high card needs some value held at least twice |
| Day7.Classify | day7/src/main.rs:198-236 | the counting loop and the flag loop classify the hand |
| Day7.TypeOfPermutation | day7/src/main.rs:198-236 | the type does not depend on the order of the cards |
| Day7.FiveOfAKindIff | day7/src/main.rs:220-221 | a hand is five of a kind exactly when all five cards are equal |
| Day7.HighCardIff | day7/src/main.rs:232-233 | a hand is a high card exactly when its five cards are pairwise distinct |
| Day7.FoldCardsSpec | day7/src/main.rs:322-329 | the fold writes card `i` from character `i`. It succeeds exactly when the string has at most five characters, each a card; the untouched slots stay `A` |
| Day7.ParseHand | day7/src/main.rs:318-336 | a parsed hand holds valid cards and its type is the type of its cards |
| Day7.ParseHandSpec | day7/src/main.rs:318-336 | a hand parses exactly when it has at most five characters, each one of `AKQJT23456789`. Card `i` comes from character `i`; missing cards are `A` |
| Day7.CardChar | day7/src/main.rs:85-96 | exactly the characters `AKQJT23456789` give a valid card |
| Day7.HandCmp | day7/src/main.rs:384-407 | hands of different types compare by type rank alone; hands that compare equal have the same type |
| Day7.CompareHands | day7/src/main.rs:384-401 | the card loop of `partial_cmp` computes the hand order |
| Day7.LexOrder | day7/src/main.rs:388-396 | comparing value sequences is a total order: equal exactly when equal, antisymmetric and transitive |
| Day7.HandOrder | day7/src/main.rs:384-407 | hands compare as a total order: equal exactly when equal, antisymmetric and transitive |
| Day7.TypeFirst | day7/src/main.rs:386-398 | a weaker type always compares below a stronger one |
| Day7.InsertPermutation | day7/src/main.rs:463 | inserting into the sorted prefix adds the entry and loses none |
| Day7.Sort | day7/src/main.rs:463 | the sort keeps the number of bids |
| Day7.SortPermutation | day7/src/main.rs:463 | sorting permutes the bids |
| Day7.SortSorted | day7/src/main.rs:463 | the sorted bids are in ascending hand order |
| Day7.SortStable | day7/src/main.rs:463 | among entries with equal hands the original order is kept, as with the stable `sort_by` |
| Day7.InsertEntry | day7/src/main.rs:463 | shifting within the array inserts entry `i` into the sorted prefix and leaves the rest alone |
| Day7.SortEntries | day7/src/main.rs:463 | the in-place sort leaves the array equal to the sorted bids |
| Day7.ParseLine | day7/src/main.rs:436-441 | a parsed line holds a valid hand |
| Day7.Parse | day7/src/main.rs:433-443 | the bids are the lines' bids in order, or `None` when one line does not parse |
| Day7.Part1Meaning | day7/src/main.rs:461-468 | part 1 is the winnings of a sorted permutation of the bids |
| Day7.TotalWinnings | day7/src/main.rs:464-467 | the `fold` adds each bid times its 1-based rank |
| Day7.Part1 | day7/src/main.rs:461-468 | `part1` parses, sorts in place, and totals the winnings |
| Day8.CursorNext | day8/src/main.rs:43 | the cycle's cursor advances by one and wraps to 0 at the end of the line |
| Day8.StepAt | day8/src/main.rs:36-44 | on the first pass, step `k` is character `k` decoded; an empty line yields no step |
| Day8.StepPeriodic | day8/src/main.rs:36-44 | the instructions repeat with the length of the line |
| Day8.StepCycle.constructor | day8/src/main.rs:36-44 | a new cycle starts at the first instruction |
| Day8.StepCycle.Next | day8/src/main.rs:36-44 | `next` decodes the character at the cursor and moves on, wrapping after the last; an empty line yields nothing |
| Day8.StepsDefinedIff | day8/src/main.rs:38-42 | after one full pass, every step can be pulled exactly when the line is all `L` and `R` |
| Day8.AlnumLength | day8/src/main.rs:46-58 | `alphanumeric1` takes the longest run of letters and digits |
| Day8.ParseNode | day8/src/main.rs:46-58 | the three names of a parsed node line are non-empty runs of letters and digits |
| Day8.ParseNodeShape | day8/src/main.rs:46-58 | a line that parses holds `NAME = (X, Y)` right after its leading spaces and tabs, the converse of the round trip |
| Day8.ParseNodeRoundTrip | day8/src/main.rs:46-58 | any indentation plus `NAME = (X, Y)` plus any trailing text parses back to its three names |
| Day8.Position | day8/src/main.rs:69-70 | `position` finds the first node of a name; `None` when no node has it |
| Day8.ParseNodes | day8/src/main.rs:61-63 | the node lines parse in order, or `None` when one does not |
| Day8.Resolve | day8/src/main.rs:64-73 | each node keeps its name, and its neighbours become the first positions of their names |
| Day8.Nodes | day8/src/main.rs:60-75 | `nodes` yields one node per line, every neighbour index inside the network |
| Day8.Setup | day8/src/main.rs:78-82 | the instructions are the first line, and the network has one node per line after the second, every neighbour index inside it |
| Day8.Walk | day8/src/main.rs:85-91 | a walk stays inside the network |
| Day8.DescribesUnique | day8/src/main.rs:85-92 | at most one outcome describes a walk: its step count, a panic, or unfinished within the bound |
| Day8.StopsAtOnce | day8/src/main.rs:85-92 | a walk whose stop condition holds at the start takes no step |
| Day8.WalkOne | day8/src/main.rs:84-93 | the `while` loop from the start node stops on the first step that reaches `ZZZ`. It panics at the first step that cannot be pulled |
| Day8.Part1 | day8/src/main.rs:77-94 | `part1` walks from the first node named `AAA`; a missing `AAA` or unreadable input panics |
| Day8.Starts | day8/src/main.rs:102-106 | the start nodes are exactly the nodes whose names end in `A` |
| Day8.Advance | day8/src/main.rs:110-116 | every current node moves along the same step |
| Day8.TracksAllZ | day8/src/main.rs:107 | the loop condition holds exactly when every tracked walk stands on a name ending in `Z` |
| Day8.WalkAll | day8/src/main.rs:107-117 | the `while` loop moves all walks together and stops at the first step where all names end in `Z` |
| Day8.Part2 | day8/src/main.rs:96-118 | `part2` walks from every node ending in `A` at once |
| Day8.NoStartsNoSteps | day8/src/main.rs:102-107 | without a start node, `all` holds at once and part 2 takes 0 steps |

## Left out

- Reading the input file, `main`, the timing and the printing: each part is a method taking the input text.
- Machine integer widths. Counts, totals, products and the day 5 `i64` arithmetic are mathematical integers. Overflow and wrap-around of `u32`, `usize` and `i64` are not modelled, nor are `as u32` casts. Subtractions that would go below zero and panic are modelled.
- Unicode: `char::is_numeric` and `to_digit` are taken on ASCII digits only; text is ASCII.
- Day 5: `RangeMap` coalesces adjacent ranges that carry the same offset into one range. The model keeps them apart. Lookups and the set of values covered are the same either way. The pieces `overlapping` and `gaps` yield can differ, and so can the empty pieces an empty seed range leaves. For example, the rules `5 0 10` and `15 10 10` coalesce into `0..20` moved by 5. The seed `10 0` then yields the empty piece `15..15` in the code but no piece in the model, because 10 lies strictly inside the coalesced range and not inside either rule.
- Day5.Part2Spec: states the answer as a location only when every seed range is non-empty. For seed ranges of length 0 (or a negative length) the code can answer the start of an empty piece, below every location. `Day5.Part2Bound` states only a bound for that case, and through the coalescing above the model may differ from the code there.
- Day5Stage.RangeModeIsScalarMinimum: requires non-empty seed ranges, for the same reason; `Day5Stage.RangeModeBound` covers every input.
- Day 5: the capacity hint of `Vec::with_capacity(7)` has no effect on results and is left out.
- Day 8: the walks of `part1` and `part2` may run forever in the source. `Day8.WalkOne` and `Day8.WalkAll` take a step bound `limit` and report `Unfinished` when it is reached. The model says nothing about walks longer than the bound.
- Day 8: `rayon`'s `par_iter` is modelled as a sequential `map`; the result vector is the same.
- Day 7: Rust's `sort_by` is modelled as a stable insertion sort on an array. Only the result matters: the sorted permutation, with equal hands in their original order.
- Day 7: the `#[test]` functions are not modelled.
- Day 2: the second `unwrap` of `splitn(2, ' ')` and the `u32` parse are modelled as panics (`None`); the message text of `panic!` is not.
- Day4.Won: the cache in `part2_helper` stores 0 both for "not computed" and for "wins nothing", so such cards are recomputed. The model's `Part2Helper` follows this, but its contract states no cost.

## Findings

| source | as written | input that shows it | evidently intended | confidence | as-written member | corrected member |
|---|---|---|---|---|---|---|
| day6/src/main.rs:44 | `while check * (time - check) < distance` stops on a hold that exactly ties the record | race time 4, record 3: the only winning hold is 2, but the answer is 3 | `<=`, so the scan stops at the first hold that beats the record | high; not executed | Day6.TieCounterexample | Day6.Part2RaceCorrect |
| day3/src/main.rs:60-82 | a run ending in the last column is recorded with `length: x - start_x`, one less than its digit count. `gear_ratio` only tests columns `num.x..num.x + num.length` | the line `2*5`: the 5 gets length 0 and touches no gear, so part 2 is 0 instead of 10 | `x - start_x + 1` at the last column, so that every digit counts | high; not executed | Day3.LastColumnCounterexample | Day3.Part2 |

The loops of day 6 part 2 are modelled both ways: `Day6.SearchAsWritten` as written and `Day6.Search` with `<=`. Day 3 part 2 is also: `Day3.Part2AsWritten` uses the recorded lengths, and `Day3.Part2` uses full lengths, whose touch test `Day3.FullLengthTouches` proves exact.
