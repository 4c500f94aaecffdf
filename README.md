# Advent of Code 2025, days 1–9, in Dafny

This project models the solvers of the C++ repository `advent-of-code-2025`:
- the shared helpers of `include/utils.hpp`;
- the `parse_*` and `solve` functions of the part 1 and part 2 `main.cpp` of days 1 to 9.

Each solver reads the puzzle text and computes one number. The model follows each one
branch by branch:
- the parsers' cursor arithmetic, including reads of the NUL after the text;
- the asserts, as an `Abort` result;
- the `uint64_t` wrap-around where it changes the answer;
- the loops, as methods with invariants, proved against recursive specification
  functions.

Properties are then proved about those specification functions.

Modules:
- `Utils` holds `include/utils.hpp`.
- `Sorting` stands in for `std::ranges::sort`: a sorted permutation.
- Each day has a `DayNNPartK` module per part.
- A shared module holds what both parts of a day define identically: `Day04Grid`,
  `Day05Ranges`, `Day06Sheet`, `Day07Grid`, `Day08Circuits` and `Day09Tiles`. Its rows
  cite the part 1 copy.

Conventions:
- A C++ `assert` that fails, and undefined behaviour that the input can reach, become
  `Abort`. Examples are an index past the text or a division by a zero width.
- A precondition a helper asserts about its own arguments becomes a `requires`.
- Integers are unbounded. 64-bit wrap-around is written out with `Wrap64` where the
  model keeps it.

## Model

| member | source | states |
|---|---|---|
| Utils.DigitRoundTrip | include/utils.hpp:34-37 | is_digit holds exactly for '0'..'9', and digit value and digit character are inverse |
| Utils.DigitRunEnd | include/utils.hpp:43-46 | the scan stops at the first non-digit at or after pos, the NUL after the text included, and never before pos |
| Utils.DigitRunEndIs | include/utils.hpp:43-46 | a run of digits from pos to e followed by a non-digit ends exactly at e |
| Utils.NumberAtIsDecimal | include/utils.hpp:42-46 | the accumulated value of the digits from lo to hi is the decimal value of that text |
| Utils.ParseUint | include/utils.hpp:39-48 | parse_uint leaves pos on the first non-digit and returns the value of the skipped digits; with no digit at pos it returns 0 without moving |
| Utils.ParseUint64 | include/utils.hpp:39-48 | parse_uint<uint64_t>, wrapping at every step, returns the digits' value modulo 2^64 and stops at the same place |
| Utils.WrapStep | include/utils.hpp:44 | wrapping after each `result * 10 + digit` gives the same residue as wrapping once at the end |
| Utils.DecimalRoundTrip | include/utils.hpp:39-48 | the canonical text of n reads back as n, has NumDigits(n) digits and no leading zero |
| Utils.CanonicalRoundTrip | include/utils.hpp:39-48 | a digit string without a leading zero is the canonical text of its value |
| Utils.ParseDecimalRoundTrip | include/utils.hpp:39-48 | scanning the text of n followed by a non-digit stops right after it and yields n |
| Utils.TruncRem | include/utils.hpp:53 | the C++ `%`: smaller than the divisor in magnitude, with the sign of the dividend, congruent to it |
| Utils.MathMod | include/utils.hpp:50-58 | math_mod lies in [0, abs(divisor)), equals the Euclidean remainder and is congruent to the dividend |
| Utils.EuclideanRem | include/utils.hpp:53-57 | adding abs(divisor) to a negative truncated remainder gives the Euclidean remainder |
| Utils.CountDigits | include/utils.hpp:60-83 | count_digits returns the number of decimal digits of a 64-bit value, between 1 and 20 |
| Utils.StripDigits | include/utils.hpp:63-78 | each stage that strips 16, 8, 4 or 2 digits adds exactly that many to the count and leaves fewer digits than the next stage strips |
| Utils.LastDigits | include/utils.hpp:79-82 | the last stage adds one digit exactly when the rest is at least 10 |
| Utils.NumDigitsBounds | include/utils.hpp:60-83 | a value lies below 10^NumDigits and, when positive, at or above 10^(NumDigits - 1) |
| Utils.NumDigitsUnique | include/utils.hpp:60-83 | NumDigits(v) is the only n with 10^(n-1) <= v < 10^n, and 1 for 0 |
| Utils.NumDigitsAtMost20 | include/utils.hpp:60-83 | a value below 2^64 has at most 20 digits |
| Utils.TenPower | include/utils.hpp:85-132 | ten_power(e) is 10^e for every exponent its switch lists, 0 through 19 |
| Utils.ConcatDecimal | include/utils.hpp:60-132 | the text of a * 10^digits(b) + b is the text of a followed by the text of b |
| Day01Part1.ParseRotation | day01-part1/main.cpp:5-11 | 'L' gives a non-positive rotation and any other letter a non-negative one, of the magnitude of the digits after the letter; the cursor ends after them |
| Day01Part1.RotationsStep | day01-part1/main.cpp:17-18 | each iteration reads the next rotation, and the `++pos` steps over the line break |
| Day01Part1.LandingStep | day01-part1/main.cpp:19-22 | one rotation moves the dial by math_mod(dial + rotation, 100) and counts one more landing exactly when the dial shows 0 |
| Day01Part1.Solve | day01-part1/main.cpp:13-25 | solve returns the number of rotations of the input after which the dial, starting at 50, shows 0 |
| Day01Part1.DialAfterIsSum | day01-part1/main.cpp:16-19 | the dial always shows (50 + sum of the rotations so far) mod 100, a value in 0..99 |
| Day01Part1.ZeroLandingsCountsZeroPrefixes | day01-part1/main.cpp:15-23 | zero_count equals the number of prefixes whose sum plus 50 is a multiple of 100, so it never exceeds the number of rotations |
| Day01Part2.ParseTurn | day01-part2/main.cpp:10-16 | the letter gives sign -1 for 'L' and +1 otherwise, and the digits give the click count |
| Day01Part2.Step | day01-part2/main.cpp:24-32 | one rotation leaves the dial at (dial + sign * value) mod 100, in 0..99 |
| Day01Part2.Rotate | day01-part2/main.cpp:24-32 | the loop body computes the dial and zero_count increment of Step |
| Day01Part2.TurnsStep | day01-part2/main.cpp:22-23 | each iteration reads the next turn of the input |
| Day01Part2.TurnStep | day01-part2/main.cpp:23-32 | one turn updates dial and zero_count as Step says |
| Day01Part2.Solve | day01-part2/main.cpp:18-35 | solve returns the total zero_count over the turns of the input |
| Day01Part2.ToZeroIsFirstZero | day01-part2/main.cpp:24 | to_zero_amount is the first click count, 1 to 100, that puts the dial on 0 |
| Day01Part2.ZeroAfterFirst | day01-part2/main.cpp:30-32 | after the first zero, the dial is on 0 exactly every hundred clicks |
| Day01Part2.ZeroClicksClosedForm | day01-part2/main.cpp:24-32 | the clicks of a turn that land on 0 number 0 before to_zero_amount and 1 + (r - t) / 100 from it on |
| Day01Part2.StepCountsZeroClicks | day01-part2/main.cpp:24-32 | for a turn of at least one click, the zero_count increment equals the number of its clicks that put the dial on 0 |
| Day01Part2.ShortTurnCountsNothing | day01-part2/main.cpp:25-32 | a turn shorter than to_zero_amount adds nothing, unless it has no clicks and starts on 0 |
| Day01Part2.ZeroTurnAtZeroCounts | day01-part2/main.cpp:24-29 | a turn of zero clicks while the dial shows 0 still adds one |
| Day01Part2.DialMatchesPart1 | day01-part2/main.cpp:26-31 | the two partial moves leave the dial where part 1's single move does |
| Day01Part2.ZeroCountIsClicksOnZero | day01-part2/main.cpp:18-35 | when no turn is empty, the answer counts exactly the clicks that land on 0 |
| Day02Part1.RangeAt | day02-part1/main.cpp:10-16 | a range is a start, one separator character and an end; the cursor moves forward and stays within the text |
| Day02Part1.ParseRange | day02-part1/main.cpp:10-16 | parse_range yields the head of the ranges from pos, both ends below 2^64, or the read past the text that makes solve undefined |
| Day02Part1.RangesFirst | day02-part1/main.cpp:41-42 | the first parse from pos decides the first range and whether solve fails |
| Day02Part1.DoubledIsProduct | day02-part1/main.cpp:18-21 | repeat_digits(c) is c * 10^digits(c) + c before any wrap |
| Day02Part1.RepeatDigitsU64 | day02-part1/main.cpp:18-21 | repeat_digits as written: the doubling modulo 2^64 |
| Day02Part1.RepeatDigits | day02-part1/main.cpp:18-21 | the doubling without wrap-around |
| Day02Part1.DoublingWraps | day02-part1/main.cpp:28-33 | with range end 9999999999999999999, check 9999999999 wraps to a value inside the range that is no number written twice |
| Day02Part1.DoubledText | day02-part1/main.cpp:18-21 | the text of the doubling of a positive c is the text of c written twice |
| Day02Part1.TwiceTextIsDoubled | day02-part1/main.cpp:18-21 | a number whose text is some string twice is the doubling of that string's value, which has no leading zero |
| Day02Part1.DoubledIncreasing | day02-part1/main.cpp:18-21 | doubling is strictly increasing, so no ID is counted for two values |
| Day02Part1.CheckRange | day02-part1/main.cpp:26-29 | check_range halves the digit counts of the ends, rounding the start up and the end down |
| Day02Part1.WindowComplete | day02-part1/main.cpp:28-31 | every value whose doubling lies in the range is inside check_range |
| Day02Part1.CheckEndBelow | day02-part1/main.cpp:29 | check_range.end has at most 19 digits and lies within the range's end |
| Day02Part1.BeforeWindow | day02-part1/main.cpp:28-30 | no value below check_range contributes |
| Day02Part1.AfterWindow | day02-part1/main.cpp:30-34 | past check_range, no value up to the range's end contributes |
| Day02Part1.RepeatedSumStep | day02-part1/main.cpp:30-33 | one check adds its doubling exactly when the doubling lies in the range |
| Day02Part1.DoubledDigits | day02-part1/main.cpp:18-21 | the doubling of a k-digit value has 2k digits and its first half is the value |
| Day02Part1.InvalidIdSumU64 | day02-part1/main.cpp:23-36 | invalid_id_sum as written: the checks of check_range add their wrapped doublings that land in the range, into a sum that wraps modulo 2^64 |
| Day02Part1.WrappedSumAddsWrap | day02-part1/main.cpp:18-33 | for the range 1-9999999999999999999, the last check of check_range is 9999999999, and its term in the sum as written is 7766279631452241919, a value that is no number written twice |
| Day02Part1.InvalidIdSum | day02-part1/main.cpp:23-36 | invalid_id_sum equals the sum of the doublings in the range over all values up to its end, so it adds every invalid ID exactly once |
| Day02Part1.TotalOfStep | day02-part1/main.cpp:41-44 | each range adds its invalid-ID sum to the total |
| Day02Part1.Solve | day02-part1/main.cpp:38-46 | solve adds the ranges' sums in input order, each computed by the corrected invalid_id_sum of the Findings, and fails when a range reads past the text |
| Day02Part2.RepeatedText | day02-part2/main.cpp:20-28 | the text of a positive block repeated t times is t copies of the block's text |
| Day02Part2.RepeatedDigits | day02-part2/main.cpp:20-28 | a block repeated t times has t times the block's digits |
| Day02Part2.RepeatedTop | day02-part2/main.cpp:24-26 | copy number i of the loop sits digits * i places up |
| Day02Part2.WrapAdd | day02-part2/main.cpp:25 | `+=` on uint64_t, wrapping both summands first, agrees with wrapping the exact sum |
| Day02Part2.RepeatStep | day02-part2/main.cpp:24-26 | one turn of repeat_digits' loop adds the next copy, modulo 2^64 |
| Day02Part2.RepeatDigits | day02-part2/main.cpp:20-28 | repeat_digits returns times copies of value modulo 2^64 |
| Day02Part2.InvalidText | day02-part2/main.cpp:42-43 | an ID that check_times inserts is written as a block repeated at least twice |
| Day02Part2.TextInvalid | day02-part2/main.cpp:42-43 | conversely, every ID written as a block repeated at least twice is a repetition of that block's value |
| Day02Part2.CheckTimes | day02-part2/main.cpp:38-45 | check_times inserts nothing for counts 0 and 1, and otherwise the repetition exactly when it lies in the range |
| Day02Part2.EndLengthsBranches | day02-part2/main.cpp:46-55 | both branches hand check_times the counts that make the repetition as long as the start or as long as the end |
| Day02Part2.EndLengthsTimes | day02-part2/main.cpp:46-55 | every count tried as written makes the repetition exactly as long as one of the range's ends |
| Day02Part2.ExactCount | day02-part2/main.cpp:46-55 | such a count keeps repeat_digits' shifts inside ten_power's table |
| Day02Part2.CheckLimitFitsInt | day02-part2/main.cpp:35-36 | check_end exceeds INT_MAX, so the `int` counter overflows, exactly when the range's end has 19 or more digits |
| Day02Part2.BlockBelowLimit | day02-part2/main.cpp:35-36 | a block repeated at least twice within the end's digits is below check_end |
| Day02Part2.CheckEndLengths | day02-part2/main.cpp:37-55 | one check value as written inserts its in-range repetitions of the counts that reach the start's or the end's length |
| Day02Part2.InvalidIdSumEndLengths | day02-part2/main.cpp:30-60 | invalid_id_sum as written: the sum of the distinct in-range repetitions of those counts, or undefined behaviour for an end of 19 digits or more |
| Day02Part2.MissedLength | day02-part2/main.cpp:46-55 | in the range 5-1000000, the ID 11 is 1 written twice, but the search as written never tries it, so its sum falls short by at least 11 |
| Day02Part2.CheckAllLengths | day02-part2/main.cpp:37-55 | one check value inserts its in-range repetitions of every count whose length lies between the two ends' digit counts |
| Day02Part2.InvalidIdSum | day02-part2/main.cpp:30-60 | invalid_id_sum with every count: the sum of all the IDs in the range that are a block written at least twice |
| Day02Part2.CollectedStep | day02-part2/main.cpp:36-56 | each check value adds its hits to the set the loop has built |
| Day02Part2.HitSound | day02-part2/main.cpp:42-44 | every repetition the search inserts, other than 0, is an invalid ID in the range |
| Day02Part2.CollectedSound | day02-part2/main.cpp:36-56 | everything the loop collects, other than 0, is one of the IDs searched for |
| Day02Part2.TriedCount | day02-part2/main.cpp:46-55 | the count of an invalid ID is tried, when as written its length equals one end's |
| Day02Part2.CollectedComplete | day02-part2/main.cpp:36-56 | a tried count of a check value below the limit whose repetition lies in the range is collected |
| Day02Part2.TargetFound | day02-part2/main.cpp:36-56 | every ID searched for is collected: its block is below check_end and its count is tried |
| Day02Part2.FoundIsTarget | day02-part2/main.cpp:36-56 | below 19 digits the loop collects exactly the IDs searched for, plus possibly 0 |
| Day02Part2.SetSumRemove | day02-part2/main.cpp:57-59 | the fold over the unordered set does not depend on its order: any element can be added first |
| Day02Part2.SumIds | day02-part2/main.cpp:57-59 | fold_left adds each distinct ID once |
| Day02Part2.FoundSum | day02-part2/main.cpp:57-59 | the fold over the collected set sums the IDs searched for |
| Day02Part2.SolveStep | day02-part2/main.cpp:65-68 | each range adds its sum, and a range whose end has 19 digits makes the whole input undefined |
| Day02Part2.Solve | day02-part2/main.cpp:62-70 | solve adds every range's invalid-ID sum in input order, each computed by the corrected invalid_id_sum of the Findings; a parse past the text or an end of 19 digits or more is undefined behaviour |
| Day03Part1.ParseBatteryBank | day03-part1/main.cpp:7-14 | the buffer holds the value of each digit of the run at pos, in order, and pos ends on the first non-digit |
| Day03Part1.DigitsValues | day03-part1/main.cpp:10-13 | battery k is the value of the k-th character of the run, below 10 |
| Day03Part1.CombineDigits | day03-part1/main.cpp:16-19 | combine_digits is first times ten to the number of digits of second, plus second |
| Day03Part1.CombineDigitsText | day03-part1/main.cpp:16-19 | combining writes first's digits before second's, and dropping second's digits gives first back |
| Day03Part1.LeftmostMaxIsMax | day03-part1/main.cpp:25 | max_element finds the leftmost maximum: nothing is larger, and everything before it is smaller |
| Day03Part1.JoltageOfOne | day03-part1/main.cpp:21-34 | with one battery to choose, the joltage is the bank's largest battery |
| Day03Part1.JoltageOfTwoUnfold | day03-part1/main.cpp:24-32 | with two batteries, the first is the leftmost maximum of all but the last battery, and the second the maximum after it |
| Day03Part1.JoltageOfTwo | day03-part1/main.cpp:21-35 | the greedy joltage of two batteries is the best pair: formed by some i < j, and no pair i < j does better |
| Day03Part1.BestPairBound | day03-part1/main.cpp:24-32 | every pair i < j is at most ten times the greedy first battery plus the greedy second |
| Day03Part1.BanksAreDigits | day03-part1/main.cpp:41-42 | every bank read holds digit values only |
| Day03Part1.SolveStep | day03-part1/main.cpp:41-44 | each bank adds its joltage, and a bank of fewer than two batteries stops the program |
| Day03Part1.Solve | day03-part1/main.cpp:37-46 | solve is the sum of the banks' largest two-battery joltages, and fails when a bank has fewer than two batteries |
| Day04Grid.CellIndex | day04-part1/main.cpp:22-30 | at() of an in-bounds position indexes inside the cell store |
| Day04Grid.RowMajor | day04-part1/main.cpp:22-30 | cell i of the store is column i % width of row i / width |
| Day04Grid.AtIsRowMajor | day04-part1/main.cpp:22-35 | at() and the row-major store agree: each cell is reached by exactly one in-bounds position |
| Day04Grid.IndexOf | day04-part1/main.cpp:68-74 | the loops' (x, y) reads the cell at index width * y + x, which lies in the store |
| Day04Grid.FirstNewline | day04-part1/main.cpp:43-46 | the width recorded is the index of the first line break, or the text's length when there is none |
| Day04Grid.CellsOfCounts | day04-part1/main.cpp:47-57 | a character other than '.', '@' and a line break fails the assert; otherwise each '.' or '@' gives exactly one cell |
| Day04Grid.CellsOfAborts | day04-part1/main.cpp:55-56 | once a character fails, the rest of the text cannot undo it |
| Day04Grid.ParsedGrid | day04-part1/main.cpp:38-63 | a grid parse_grid returns is well formed, and its width is the index of the first line break, before which there is none |
| Day04Grid.ParseGrid | day04-part1/main.cpp:38-63 | parse_grid: no line break, a width of 0 or a cell count that is not a multiple of the width stops the program; otherwise the grid ParsedGrid gives |
| Day04Grid.OffsetsAreMoore | day04-part1/main.cpp:70-72 | the offsets are the eight neighbours around a cell, each listed once |
| Day04Grid.NeighborCount | day04-part1/main.cpp:77-83 | a cell has at most 8 roll neighbours, so the uint8_t counter cannot wrap |
| Day04Grid.CountNeighbors | day04-part1/main.cpp:77-83 | the loop over the offsets counts the in-bounds roll neighbours |
| Day04Part1.AccessibleAtMostRolls | day04-part1/main.cpp:65-90 | no more cells are counted than there are rolls |
| Day04Part1.CountAccessible | day04-part1/main.cpp:65-90 | count_accessible counts, row by row, the rolls with fewer than four roll neighbours |
| Day04Part1.Solve | day04-part1/main.cpp:92-96 | solve counts the accessible rolls of the parsed grid, and fails when parsing fails |
| Day04Part2.Accessible | day04-part2/main.cpp:70-87 | accessible holds exactly for an in-bounds roll with fewer than four roll neighbours |
| Day04Part2.Erode | day04-part2/main.cpp:89-111 | one pass gives a grid of the same size, every cell computed from the input grid alone |
| Day04Part2.ErodedRolls | day04-part2/main.cpp:94-108 | a pass turns exactly the accessible rolls into empty cells: kept plus removed rolls are the rolls it was given |
| Day04Part2.NothingRemovedIsFixed | day04-part2/main.cpp:119-121 | a pass that removes nothing leaves the grid unchanged |
| Day04Part2.SomethingRemovedChanges | day04-part2/main.cpp:119-124 | a pass that removes a roll leaves fewer rolls, so the passes end |
| Day04Part2.RemoveAccessibleRolls | day04-part2/main.cpp:89-111 | remove_accessible_rolls writes the eroded grid and returns the number of rolls removed, the difference in roll counts |
| Day04Part2.Settle | day04-part2/main.cpp:118-125 | the grid the passes settle on keeps the input's size |
| Day04Part2.SettleIsFixed | day04-part2/main.cpp:118-125 | the settled grid is a fixed point: one more pass removes nothing and changes nothing |
| Day04Part2.SettleRolls | day04-part2/main.cpp:118-125 | the settled grid never has more rolls than the start |
| Day04Part2.Solve | day04-part2/main.cpp:113-127 | solve returns the rolls of the parsed grid less the rolls of the settled grid, the total every pass removed |
| Day05Ranges.RangesFrom | day05-part1/main.cpp:11-24 | parse_ranges stops on a line break or past the text, both bounds of every range are uint64_t values, and a start that runs to the text's end is undefined behaviour |
| Day05Ranges.Prepend | day05-part1/main.cpp:21 | ranges read earlier go in front of the rest of the parse, which keeps its outcome and stop position |
| Day05Ranges.RangesFirst | day05-part1/main.cpp:14-22 | one line of the parse reads its range and then the rest from after the line break |
| Day05Ranges.ParseRanges | day05-part1/main.cpp:11-24 | parse_ranges returns the ranges and stop position RangesFrom gives |
| Day05Part1.IdValid | day05-part1/main.cpp:26-31 | id_valid holds exactly when some range holds the ID, both ends included |
| Day05Part1.IdValidIgnoresOrder | day05-part1/main.cpp:26-31 | the answer does not depend on the order of the ranges |
| Day05Part1.IdsFirst | day05-part1/main.cpp:39-40 | each ID line is one uint64_t read, and the next read starts after its line break |
| Day05Part1.ValidCount | day05-part1/main.cpp:38-43 | no more IDs are counted than were read |
| Day05Part1.ValidCountStep | day05-part1/main.cpp:40-42 | one more ID adds one exactly when some range holds it |
| Day05Part1.CountValid | day05-part1/main.cpp:38-44 | the loop counts the IDs read after the blank line that some range holds |
| Day05Part1.Solve | day05-part1/main.cpp:33-45 | solve parses the ranges, steps over the blank line and counts the valid IDs |
| Day05Part2.LessIsKeyOrder | day05-part2/main.cpp:31-37 | RangePoint::operator< orders by value and puts a start before an end of the same value, and equal keys are equal points |
| Day05Part2.LessIsStrictWeakOrder | day05-part2/main.cpp:31-37 | operator< is irreflexive and transitive, and incomparable points are equal, as std::ranges::sort requires |
| Day05Part2.SortedByLess | day05-part2/main.cpp:65 | sorted by key is sorted by operator<: no point is less than one before it |
| Day05Part2.PointsOf | day05-part2/main.cpp:59-64 | two points per range |
| Day05Part2.PointsOfLayout | day05-part2/main.cpp:61-64 | range k gives point 2k, its start, and point 2k + 1, its end |
| Day05Part2.CollectPoints | day05-part2/main.cpp:59-64 | the loop fills the points of PointsOf |
| Day05Part2.Sweep | day05-part2/main.cpp:66-87 | the loop over the sorted points computes the sweep's count, or fails its assert on a negative balance |
| Day05Part2.UnionIsCovered | day05-part2/main.cpp:55-88 | the set the answer counts holds exactly the IDs that some range holds |
| Day05Part2.CoveredBelowIsSize | day05-part2/main.cpp:55-88 | the held IDs below x, counted one by one, are the size of the held set below x |
| Day05Part2.CoveredGap | day05-part2/main.cpp:86 | across a gap that is all held, the count grows by the gap's width |
| Day05Part2.UncoveredGap | day05-part2/main.cpp:78-79 | across a gap of unheld IDs the count does not change |
| Day05Part2.PointsOfCounts | day05-part2/main.cpp:61-64 | the points hold one start and one end per range, below a key exactly when the range's bound is |
| Day05Part2.PointsOfCovered | day05-part2/main.cpp:61-64 | every point's value is held by its own range and is at most the largest end |
| Day05Part2.OpenRanges | day05-part2/main.cpp:73-77 | the ranges that start at or before x less those that end before x are the ranges holding x |
| Day05Part2.EndsNotBeforeStarts | day05-part2/main.cpp:77 | the ends before a key never outnumber the starts before it |
| Day05Part2.PrefixBelow | day05-part2/main.cpp:65-68 | in the sorted points, every point below a key lies before the first point at or above it |
| Day05Part2.OpenBetween | day05-part2/main.cpp:68-87 | between two consecutive point values, an ID is held exactly when the balance is positive |
| Day05Part2.BalanceNonNegative | day05-part2/main.cpp:77 | for ranges whose starts do not exceed their ends, the balance never goes negative, so the assert holds |
| Day05Part2.BalanceOfAll | day05-part2/main.cpp:68-87 | after all points the balance is zero |
| Day05Part2.BalanceStep | day05-part2/main.cpp:73-76 | a start raises the balance by one and an end lowers it by one |
| Day05Part2.NewBlock | day05-part2/main.cpp:69-71 | at zero balance and a new value, that value is held and no ID since the previous point's value is: it starts a new block |
| Day05Part2.CountedStep | day05-part2/main.cpp:69-71 | after the new-block check, the count is the number of held IDs up to the point's value |
| Day05Part2.GapStep | day05-part2/main.cpp:82-86 | with a range open after point i, every ID up to the next point's value is held and is added |
| Day05Part2.NothingAfterLast | day05-part2/main.cpp:82-83 | no ID after the last point is held |
| Day05Part2.UnionSize | day05-part2/main.cpp:55-88 | the size of the union is the count of held IDs up to the largest end |
| Day05Part2.SweepStepKeeps | day05-part2/main.cpp:68-87 | one pass of the sweep keeps the sweep invariant and passes its assert |
| Day05Part2.SweepEnd | day05-part2/main.cpp:68-88 | once all points are swept, the count is the number of held IDs |
| Day05Part2.SweepCounts | day05-part2/main.cpp:68-88 | from a point where the invariant holds, the rest of the sweep ends with the size of the union |
| Day05Part2.SweepCountsUnion | day05-part2/main.cpp:55-88 | sweeping any sorted arrangement of the ranges' points counts the IDs the ranges hold together |
| Day05Part2.Solve | day05-part2/main.cpp:55-88 | solve parses, collects, sorts and sweeps; for ranges whose starts do not exceed their ends the answer is the number of IDs they hold together |
| Day06Sheet.Finish | day06-part1/main.cpp:48-50 | the parse ends with a grid exactly when a line break set a positive width that divides the cell count, and the grid holds the cells read |
| Day06Sheet.Cell | day06-part1/main.cpp:14-17 | at() of an in-bounds cell indexes inside the store |
| Day06Sheet.PastLastRow | day06-part1/main.cpp:80-81 | a column at or past the width makes the read of the last row run past the stored cells |
| Day06Part1.SpacesEnd | day06-part1/main.cpp:20-25 | skip_spaces stops on the first non-space at or after pos, the text's NUL included, skipping only spaces |
| Day06Part1.SpacesEndIdempotent | day06-part1/main.cpp:20-25 | skipping again from where a skip stopped does not move |
| Day06Part1.SkipSpaces | day06-part1/main.cpp:20-25 | the loop stops where SpacesEnd says |
| Day06Part1.NumbersFrom | day06-part1/main.cpp:31-50 | a grid parse_numbers returns is well formed with at least one row, and the cursor stays within the text |
| Day06Part1.FirstLineSetsWidth | day06-part1/main.cpp:36-38 | the first line break sets the width to the number of values on the first line |
| Day06Part1.ParseNumbers | day06-part1/main.cpp:27-51 | parse_numbers returns what NumbersFrom gives, failing its asserts and the loop that cannot end on a character other than a digit, space, operator or line break |
| Day06Part1.Column | day06-part1/main.cpp:80-81 | a column holds one value per row |
| Day06Part1.ColumnFoldIsSumOrProduct | day06-part1/main.cpp:79-87 | an add column folds to the sum of its values and a multiply column to their product |
| Day06Part1.FoldColumn | day06-part1/main.cpp:79-87 | the inner loop folds column col_count with the operator over every row |
| Day06Part1.TotalStep | day06-part1/main.cpp:88-89 | each operator adds its column's fold to the total and moves to the next column |
| Day06Part1.OpsFirst | day06-part1/main.cpp:62-78 | after skipping spaces, a line break ends the operators, '*' and '+' give an operator, and anything else fails the assert |
| Day06Part1.FoldOperators | day06-part1/main.cpp:59-91 | the loop over the operator line sums the column folds; an operator past the last column is undefined behaviour |
| Day06Part1.Solve | day06-part1/main.cpp:55-92 | solve parses the numbers, then sums one column fold per operator |
| Day06Part2.DigitsFrom | day06-part2/main.cpp:37-58 | a grid parse_digits returns is well formed, holds only empty cells and digit values, and the cursor stops on an operator or at the end |
| Day06Part2.DigitsAreCells | day06-part2/main.cpp:41-54 | the grid holds exactly one cell per character read: spaces are empty, digits their values, and line breaks only end rows |
| Day06Part2.ParseDigits | day06-part2/main.cpp:33-59 | parse_digits returns what DigitsFrom gives |
| Day06Part2.OpsLoop | day06-part2/main.cpp:66-83 | every operator pushed has the kind of its character, its end one column before it, and its start one or two columns before the next operator or line break |
| Day06Part2.ParsedOps | day06-part2/main.cpp:61-85 | every operator parse_ops returns is placed as OpsLoop says |
| Day06Part2.ParseOps | day06-part2/main.cpp:61-85 | parse_ops returns what ParsedOps gives, and fails the assert on any other character |
| Day06Part2.ColumnText | day06-part2/main.cpp:96-100 | a column's digits, top to bottom, skipping empty cells |
| Day06Part2.ColumnNumberIsDecimal | day06-part2/main.cpp:28-31 | push_digit over a column's digits gives the decimal value of its digits read top to bottom |
| Day06Part2.ReadColumn | day06-part2/main.cpp:95-100 | the inner loop computes the number of column x |
| Day06Part2.Numbers | day06-part2/main.cpp:94 | one number per column of the block |
| Day06Part2.BlockLoopCombines | day06-part2/main.cpp:94-106 | the loop over a block, walking its columns right to left, gives the block's sum or product |
| Day06Part2.OpResultIsCombined | day06-part2/main.cpp:93-106 | an operator's result is the sum or product of its columns' numbers, and its start value for an empty block |
| Day06Part2.FoldBlock | day06-part2/main.cpp:93-106 | the loop over one operator computes its result |
| Day06Part2.SumBlocks | day06-part2/main.cpp:92-108 | the loop over the operators adds every block result to the total |
| Day06Part2.Solve | day06-part2/main.cpp:87-111 | solve parses the digits and the operators, then adds up every operator's block result |
| Day07Grid.Cell | day07-part1/main.cpp:22-30 | at() of an in-bounds cell indexes inside the store |
| Day07Grid.StepKeeps | day07-part1/main.cpp:64-82 | each character keeps what holds between iterations: the start, if seen, is a cell of the first line, and the width, once set, divides the cells read |
| Day07Grid.StepCells | day07-part1/main.cpp:65-81 | each character adds its own cell, and a line break adds none |
| Day07Grid.Finish | day07-part1/main.cpp:83-88 | the final asserts: a start and a width were seen, the cells fill whole rows, and the start cell holds what 'S' was stored as |
| Day07Grid.GridFrom | day07-part1/main.cpp:64-88 | a grid from the loop is well formed and its start cell holds what 'S' was stored as |
| Day07Grid.GridCells | day07-part1/main.cpp:64-82 | the grid holds exactly the cells of the characters read |
| Day07Grid.TextStep | day07-part1/main.cpp:65-76 | the width is the index of the first line break, and the start column is the index of the 'S', which comes before it |
| Day07Grid.GridText | day07-part1/main.cpp:64-88 | a grid from the loop agrees with its text |
| Day07Grid.ParsedGrid | day07-part1/main.cpp:59-89 | parse_grid's grid is well formed, with 'S' stored as beam in part 1 and as empty in part 2 |
| Day07Grid.ParsedGridIs | day07-part1/main.cpp:59-89 | the grid has one cell per character but the line breaks, and the one 'S' of the text lies in the first line, at the start column |
| Day07Grid.ParseGrid | day07-part1/main.cpp:59-89 | parse_grid returns what ParsedGrid gives, failing its asserts on an unknown character, a second or late 'S', or ragged rows |
| Day07Part1.SetCell | day07-part1/main.cpp:100 | writing a cell keeps the grid's shape and start |
| Day07Part1.SetCellAt | day07-part1/main.cpp:100 | writing a cell changes no other cell |
| Day07Part1.SetCellOthers | day07-part1/main.cpp:108-109 | the written cell holds the new state, and every other cell is as it was |
| Day07Part1.Visit | day07-part1/main.cpp:97-111 | one visit keeps the grid's shape and start |
| Day07Part1.EmptyVisit | day07-part1/main.cpp:99-101 | an empty cell under a beam becomes a beam |
| Day07Part1.SplitVisit | day07-part1/main.cpp:103-110 | a splitter under a beam, with in-bounds neighbours that are not splitters, makes beams of both neighbours, and was a splitter in the input |
| Day07Part1.QuietVisit | day07-part1/main.cpp:97-111 | any other cell is left alone, and already obeys the beam rules |
| Day07Part1.ClosedKeeps | day07-part1/main.cpp:99-110 | cells visited before keep obeying the beam rules when only the current row changes, and only to beams |
| Day07Part1.ClosedExtend | day07-part1/main.cpp:96 | a visited cell that obeys the beam rules joins the cells visited before |
| Day07Part1.CountStep | day07-part1/main.cpp:110 | a split happens only at a splitter, so the count stays within the splitters visited |
| Day07Part1.VisitKeeps | day07-part1/main.cpp:96-111 | a visit keeps the loop's invariant for the next cell |
| Day07Part1.RowKeeps | day07-part1/main.cpp:95-96 | the end of a row is the start of the next |
| Day07Part1.RunKeeps | day07-part1/main.cpp:95-113 | the invariant still holds when the loops end |
| Day07Part1.SimulateProperties | day07-part1/main.cpp:91-115 | the loops leave splitters and row 0 untouched, only turn empty cells into beams, leave every cell below row 0 obeying the beam rules, and count at most the splitters below row 0 |
| Day07Part1.VisitCell | day07-part1/main.cpp:97-111 | one iteration on the cells in place writes the grid Visit gives and reports whether it split |
| Day07Part1.Propagate | day07-part1/main.cpp:94-114 | the loops on the cells in place count the splits and leave the grid the simulation gives |
| Day07Part1.Solve | day07-part1/main.cpp:91-115 | solve counts the splits of the beam from 'S', which number at most the splitters below the first row |
| Day07Part2.FirstSplitter | day07-part2/main.cpp:74-75 | the scan finds the first splitter at or below row y, and no splitter lies above it |
| Day07Part2.Timelines | day07-part2/main.cpp:68-88 | every cell with a count has at least one timeline |
| Day07Part2.MemoInsert | day07-part2/main.cpp:81-86 | storing a cell's count keeps every memo entry equal to its cell's count, and every other entry as it was |
| Day07Part2.ScanColumn | day07-part2/main.cpp:74-84 | the loop finds the first splitter of the column at or below row y |
| Day07Part2.CountTimelines | day07-part2/main.cpp:68-88 | count_timelines with a valid memo returns the cell's count of timelines, stores it, and keeps every earlier entry; a memo hit changes nothing |
| Day07Part2.Solve | day07-part2/main.cpp:122-127 | solve counts the timelines from 'S' with an empty memo, at least one |
| Sorting.SortByKey | day08-part1/main.cpp:102 | std::ranges::sort by a key: the result is sorted by the key and is a permutation of its input |
| Sorting.CountIfPermutation | day05-part2/main.cpp:65 | sorting changes no count of points of a kind |
| Day08Circuits.WrapSub | day08-part1/main.cpp:24-27 | uint64_t subtraction stays below 2^64 |
| Day08Circuits.Minus | day08-part1/main.cpp:24-27 | operator- gives coordinates below 2^64 |
| Day08Circuits.SquaredDistance | day08-part1/main.cpp:13-17 | the exact squared distance is zero only from a box to itself |
| Day08Circuits.DistanceIsSquaredDistance | day08-part1/main.cpp:13-27 | distance_sqrd, with every subtraction, product and sum wrapping, is the exact squared distance modulo 2^64 |
| Day08Circuits.DistanceSymmetric | day08-part1/main.cpp:13-17 | distance_sqrd is symmetric and zero from a box to itself, although each coordinate difference wraps |
| Day08Circuits.LessIsStrictOrder | day08-part1/main.cpp:29-38 | operator< is irreflexive, asymmetric, transitive and total on distinct boxes |
| Day08Circuits.PositionsFrom | day08-part1/main.cpp:55-70 | every box parse_positions reads has uint64_t coordinates; a separator other than the expected one fails an assert |
| Day08Circuits.ParsePositions | day08-part1/main.cpp:55-70 | parse_positions returns what PositionsFrom gives |
| Day08Circuits.MakePairIs | day08-part1/main.cpp:89-95 | a recorded pair holds the two boxes, first not after second, and the distance between them |
| Day08Circuits.RowPairs | day08-part1/main.cpp:88-100 | the inner loop makes one pair per later box |
| Day08Circuits.RowPairsAt | day08-part1/main.cpp:88-100 | element k of row i pairs box i with box i + 1 + k |
| Day08Circuits.AllPairsCount | day08-part1/main.cpp:87-101 | the rows hold as many pairs as the first n rows of the triangle |
| Day08Circuits.RowsCountIs | day08-part1/main.cpp:87-101 | the first n rows of m boxes hold n(2m - n - 1)/2 pairs |
| Day08Circuits.AllPairsHas | day08-part1/main.cpp:87-101 | every pair of boxes at indices i < j is made |
| Day08Circuits.AllPairsIndices | day08-part1/main.cpp:87-101 | every pair made is the pair of the boxes at some indices i < j |
| Day08Circuits.SortedPairsProperties | day08-part1/main.cpp:83-104 | create_sorted_pairs succeeds exactly when no box is listed twice, and then holds n(n-1)/2 pairs of distinct boxes, first not after second, sorted by distance, every pair of boxes among them |
| Day08Circuits.PairRow | day08-part1/main.cpp:88-100 | the inner loop fails its assert exactly when a later copy of box i exists, and otherwise makes row i |
| Day08Circuits.CreateSortedPairs | day08-part1/main.cpp:83-104 | create_sorted_pairs returns what SortedPairs gives |
| Day08Circuits.InitialCircuitsIs | day08-part1/main.cpp:114-119 | initially every listed box has an id, every id is below the number of boxes, and with no box listed twice box k has id k |
| Day08Circuits.InitialKeys | day08-part1/main.cpp:116-119 | the boxes with an initial id are the boxes listed |
| Day08Circuits.InitialIdsBelow | day08-part1/main.cpp:116-119 | every initial id is below the number of boxes |
| Day08Circuits.InitialIdsAreIndices | day08-part1/main.cpp:116-119 | with no box listed twice, box k has id k |
| Day08Circuits.InitialIdsDistinct | day08-part1/main.cpp:116-119 | initially every box has an id of its own |
| Day08Circuits.InitCircuits | day08-part1/main.cpp:114-119 | the first loop gives every box its index as id and leaves the id count at the number of boxes |
| Day08Circuits.MergeJoins | day08-part1/main.cpp:134-140 | after the relabelling, two boxes share a circuit exactly when they did before or each was in one of the two merged circuits; every other box keeps its id |
| Day08Circuits.MergeCount | day08-part1/main.cpp:134-140 | merging two different circuits under a fresh id removes exactly one id |
| Day08Circuits.Relabel | day08-part1/main.cpp:136-140 | the loop over the map's values gives every box of the two circuits the fresh id |
| Day08Circuits.Connect | day08-part1/main.cpp:126-140 | one pair fails the assert exactly when an end is not a box, and otherwise keeps the boxes and leaves both ends in one circuit |
| Day08Circuits.ConnectPair | day08-part1/main.cpp:126-140 | one iteration computes what Connect gives |
| Day08Circuits.ConnectAllStep | day08-part1/main.cpp:121-141 | each pair continues from the state the pairs before it leave |
| Day08Circuits.ConnectAllAbortNext | day08-part1/main.cpp:128 | a failed loop stays failed with one more pair |
| Day08Circuits.ConnectAllAbortStays | day08-part1/main.cpp:128 | once the loop has failed an assert, more pairs change nothing |
| Day08Circuits.ConnectKeeps | day08-part1/main.cpp:129-140 | a step keeps every id below the next fresh id, and uses a fresh id exactly when it removes one |
| Day08Circuits.ConnectKeepsSame | day08-part1/main.cpp:129-140 | a step never separates boxes already in one circuit |
| Day08Circuits.ConnectAllKeeps | day08-part1/main.cpp:121-141 | over many pairs the boxes stay, the ids stay below the next fresh id, and each merge removes one id |
| Day08Circuits.ConnectAllJoins | day08-part1/main.cpp:121-141 | over many pairs, the ends of every pair taken end in one circuit |
| Day08Part1.Taken | day08-part1/main.cpp:121-125 | the loop takes min(number of pairs, max_connections) pairs, none for a non-positive cap |
| Day08Part1.CircuitsAfterJoins | day08-part1/main.cpp:108-143 | create_circuits keeps every box, and the ends of every pair taken share a circuit |
| Day08Part1.CreateCircuits | day08-part1/main.cpp:108-143 | create_circuits returns what CircuitsAfter gives |
| Day08Part1.IndexOf | day08-part1/main.cpp:153 | find_if finds the first entry for the id, or the end |
| Day08Part1.MembersInStep | day08-part1/main.cpp:152-158 | one more box counts towards its own circuit only |
| Day08Part1.AbsentHasNone | day08-part1/main.cpp:154-155 | a circuit not yet in the tally has met no box |
| Day08Part1.TallyStepCounts | day08-part1/main.cpp:153-158 | counting one more box keeps one entry per circuit, each holding the number of its boxes met |
| Day08Part1.TallyStepFound | day08-part1/main.cpp:153-158 | every box met keeps an entry for its circuit |
| Day08Part1.TallyStepSum | day08-part1/main.cpp:153-158 | counting one more box adds one to the total |
| Day08Part1.TallyStep | day08-part1/main.cpp:153-158 | counting one more box keeps the tally |
| Day08Part1.TallyDone | day08-part1/main.cpp:152-159 | after every box, the tally has one entry per circuit with its size |
| Day08Part1.CountBox | day08-part1/main.cpp:153-158 | one iteration adds one to the box's entry or appends a new entry of 1 |
| Day08Part1.TallySizes | day08-part1/main.cpp:151-159 | the loop over the map's values tallies every circuit's size |
| Day08Part1.PermutationDistinct | day08-part1/main.cpp:160 | sorting the tally keeps one entry per circuit |
| Day08Part1.IdsCount | day08-part1/main.cpp:151-159 | entries with distinct ids number as many as the ids |
| Day08Part1.TalliedCount | day08-part1/main.cpp:151-161 | the tally has as many entries as there are circuits |
| Day08Part1.TopOfSorted | day08-part1/main.cpp:160-162 | the first three entries, sorted by decreasing size, name three largest circuits, and their product is the product of the three largest sizes |
| Day08Part1.LargestProduct | day08-part1/main.cpp:151-162 | the product succeeds exactly when there are three circuits or more, and is then the product of the three largest sizes |
| Day08Part1.Solve | day08-part1/main.cpp:145-163 | solve returns the product of the sizes of the three largest circuits after 1000 pairs, and fails with fewer than three circuits |
| Day08Part2.FirstConnectFrom | day08-part2/main.cpp:111-134 | the first index from k on whose pair leaves every box in one circuit, and none before it does |
| Day08Part2.ConnectedStays | day08-part2/main.cpp:131-132 | once every box shares one id, later pairs change nothing |
| Day08Part2.NoConnectAfter | day08-part2/main.cpp:111-134 | no pair connects everything after everything is connected or the loop has failed |
| Day08Part2.ExpectedNext | day08-part2/main.cpp:111-134 | a pair that does not connect everything defers to the pairs after it |
| Day08Part2.ExpectedAbort | day08-part2/main.cpp:114 | a failed assert at pair k is what the search from k gives |
| Day08Part2.LastPairFromIs | day08-part2/main.cpp:111-134 | the loop from pair k on, in the state the first k pairs build, gives the pair that first connects everything |
| Day08Part2.LastPairIsFirstConnection | day08-part2/main.cpp:101-136 | get_last_pair_to_fully_connect gives the first pair after whose merge every box shares one id, nothing when no pair does, and fails when an end is not a box |
| Day08Part2.AllShareId | day08-part2/main.cpp:127-133 | all_of holds exactly when every box has the first entry's id |
| Day08Part2.TakePair | day08-part2/main.cpp:112-133 | one iteration either ends the search with its result or continues it from the next pair |
| Day08Part2.GetLastPair | day08-part2/main.cpp:101-136 | get_last_pair_to_fully_connect returns what LastPairFrom gives from the initial ids |
| Day08Part2.Solve | day08-part2/main.cpp:138-145 | solve multiplies the x coordinates of the pair that connects everything modulo 2^64, and fails when there is none |
| Day09Tiles.ToInt64 | day09-part1/main.cpp:14-17 | the int64_t a uint64_t converts to: in range, congruent modulo 2^64, and unchanged below 2^63 |
| Day09Tiles.ParsePositions | day09-part1/main.cpp:10-22 | parse_positions returns the "x,y" tiles PositionsFrom gives, failing an assert on any other separator |
| Day09Tiles.RectArea | day09-part1/main.cpp:24-29 | every rectangle covers at least one tile |
| Day09Tiles.RectAreaSymmetric | day09-part1/main.cpp:24-29 | the area does not depend on which corner comes first, and one tile covers one tile |
| Day09Tiles.RowMaxIs | day09-part1/main.cpp:35-37 | the inner loop's maximum bounds every rectangle of its row and is one of them, or 0 for an empty row |
| Day09Tiles.PairsMaxIs | day09-part1/main.cpp:34-38 | the maximum over the first n rows bounds every rectangle they hold and is one of them, or 0 |
| Day09Tiles.LargestAreaIs | day09-part1/main.cpp:31-41 | the answer bounds the rectangle of every pair of tiles and is one of them with two tiles or more, 0 otherwise |
| Day09Tiles.MaxInRow | day09-part1/main.cpp:35-37 | the inner loop takes the maximum of the row's rectangles and what it was given |
| Day09Tiles.MaxArea | day09-part1/main.cpp:33-39 | the double loop computes the largest rectangle over all pairs |
| Day09Part1.Solve | day09-part1/main.cpp:31-41 | solve returns the largest rectangle over every pair of red tiles, attained by some pair, 0 with fewer than two |
| Day09Part2.BetweenIs | day09-part2/main.cpp:38-56 | add_between succeeds exactly on aligned distinct corners, and then appends one tile per step from start, never end itself, keeping the shared coordinate |
| Day09Part2.AddBetween | day09-part2/main.cpp:38-56 | the lambda appends the run from start to end to result, or fails its assert |
| Day09Part2.PathAbortStays | day09-part2/main.cpp:58-62 | once a run fails its assert, the walk has failed |
| Day09Part2.PathIs | day09-part2/main.cpp:58-62 | the walk up to a corner succeeds exactly when every edge before it is aligned, then holds one tile per step and passes every corner before |
| Day09Part2.PerimeterIs | day09-part2/main.cpp:34-65 | get_perimeter_positions succeeds exactly when there is a corner and every edge of the closed loop is aligned, then holds one tile per step and passes every corner |
| Day09Part2.GetPerimeterPositions | day09-part2/main.cpp:34-65 | get_perimeter_positions returns what Perimeter gives |
| Day09Part2.AreaMonotone | day09-part2/main.cpp:27-32 | a rectangle no wider and no taller than another, against the same far corner, covers no more tiles |
| Day09Part2.RunEndsBound | day09-part2/main.cpp:38-56 | a tile on a run spans no larger rectangle with any tile than one of the run's ends |
| Day09Part2.PathTileOnEdge | day09-part2/main.cpp:58-62 | every tile of the walk lies on the run of one of its edges |
| Day09Part2.PerimeterTileOnEdge | day09-part2/main.cpp:58-63 | every tile of the loop lies on the run of one of its edges |
| Day09Part2.TileNearCorner | day09-part2/main.cpp:34-65 | a tile of the loop spans no larger rectangle with any tile than some corner does |
| Day09Part2.LoopLengthAtLeast | day09-part2/main.cpp:58-63 | a loop whose edges are aligned is at least one step per edge long |
| Day09Part2.LoopHasTwo | day09-part2/main.cpp:34-65 | a loop that succeeds has two corners or more and two tiles or more |
| Day09Part2.TilesBoundedByCorners | day09-part2/main.cpp:67-78 | every rectangle between tiles of the loop is at most the largest between corners |
| Day09Part2.CornersBoundedByTiles | day09-part2/main.cpp:67-78 | every rectangle between corners is at most the largest between tiles of the loop |
| Day09Part2.LoopAnswerIsCornerAnswer | day09-part2/main.cpp:67-78 | the largest rectangle over the tiles of the loop equals the largest over its corners alone, the answer of part 1 |
| Day09Part2.Solve | day09-part2/main.cpp:67-78 | solve returns the largest rectangle over every pair of tiles on the loop, attained by some pair, and equal to part 1's answer on the same corners |

## Left out

Whole pieces:
- `main`, the `BENCHMARK` switch, `std::println`, `read_file` and `benchmark`: file I/O, output and timing. The text a solver reads is a parameter. For instance, day09-part2's `main` reads `sample.txt`; the model takes whatever text it is given.
- `hash_combine` and the `Hash` functors of days 7 and 8: they only place entries in hash tables. Each `std::unordered_map` or `std::unordered_set` is a Dafny `map` or `set`.
- The iteration order of those hash tables is unspecified. The loops over them pick their next entry with `:|`, so their contracts hold for every order.
- `Grid::print` of day 7: debug output that solve never calls.
- `day04-part2-visualization/main.cpp`: a drawing front end for day 4, not a solver.
- `utils.hpp` at the top level declares only `read_file` and `benchmark`.
  - day01-part1 includes it, but also calls `math_mod` and `parse_int`, which that file does not declare. `math_mod` is taken from `include/utils.hpp`.
  - `parse_int` is defined in no file of the repository.
- Day01Part1.ParseRotation: reads `parse_int` as an unsigned digit run, exactly as `parse_uint` reads one, because no definition of `parse_int` exists.
- Day01Part2.ParseTurn: reads the click count exactly; the `int` overflow of `parse_uint<int>` on counts of 2^31 or more is not modelled.
- Utils.ParseUint: the exact value, used where the source reads into `int`; `parse_uint<uint64_t>` is Utils.ParseUint64, which does wrap.

The two defects of day 2 listed under Findings:
- Day02Part1.Solve: adds the corrected invalid_id_sum, Day02Part1.InvalidIdSum, not the one the program runs. It differs from the program on ranges whose check_range doubles past 2^64, such as 1-9999999999999999999. There the program also adds wrapped values, as Day02Part1.InvalidIdSumU64 states.
- Day02Part2.Solve: adds the corrected invalid_id_sum, Day02Part2.InvalidIdSum, not the one the program runs. It differs from the program on ranges whose ends' digit counts are two or more apart, such as 5-1000000. There the program misses the IDs of the lengths in between, as Day02Part2.InvalidIdSumEndLengths states.

Integer widths the model does not keep. The results below are exact integers. Once a value passes its C++ type's range, the program wraps or overflows and its answer differs from the model's:
- Day02Part1.Solve: the `uint64_t` total is exact, without the final wrap modulo 2^64.
- Day02Part2.Solve: likewise exact.
- Day03Part1.Solve: likewise exact.
- Day03Part1.CombineDigits: exact, without the `uint64_t` wrap.
- `calc_largest_joltage` is stated for the counts 1 and 2 that solve uses; its recursion for larger counts is defined but not characterised.
- The `int` counters of days 4, 5 and 6 and the `int` coordinates of day 4 are exact; they would need more than 2^31 cells to overflow.
- Day05Part2.Solve: the `uint64_t` count is exact. For the input "0-18446744073709551615" the count reaches 2^64, which the program wraps to 0.
- Day05Part2.Solve: the union size is stated only for ranges whose starts do not exceed their ends. For other ranges only the sweep's own result is stated, because the source gives such ranges no meaning.
- `InclusiveRange::operator==` and `operator<` of day05-part2 are never used by solve.
- Day06Part1.FoldColumn: sums and products are exact, without the `uint64_t` wrap. A multiply column of four 100000s gives 10^20, past 2^64.
- Day06Part1.Solve: the total is exact.
- Day06Part1.NumbersFrom: the parse loop that never ends on a character other than a digit, a space, an operator or a line break (`parse_uint` reads nothing and `pos` stays) is modelled as `Abort`.
- Day06Part2.ColumnNumberIsDecimal: `push_digit` is exact, without the `uint64_t` wrap.
- Day06Part2.FoldBlock: likewise exact.
- Day06Part2.Solve: likewise exact.
- Day07Part2.Timelines: the counts are exact, without the `uint64_t` wrap. They can double at each splitter level, so they pass 2^64 after 64 levels.
- `count_timelines` evaluates its two recursive calls in an unspecified order. The model makes the left call first. The result is the same either way, since a valid memo only ever holds each cell's own count.
- Day08Part1.LargestProduct: the product of the three `int` sizes is exact, without overflow.
- Day08Circuits.InitCircuits: circuit ids are unbounded rather than `uint64_t`; more than 2^64 merges cannot happen.
- `std::ranges::sort` is not stable.
  - Sorting.SortByKey fixes one order of equal keys.
  - Day08Circuits.SortedPairsProperties and Day05Part2.SweepCountsUnion state only what holds for every sorted permutation.
  - Part 1 of day 8 takes the three largest sizes, whatever the order of ties.
- create_sorted_pairs reuses a `thread_local` vector between calls; the model builds a fresh sequence each time.
- Day04Part2.RemoveAccessibleRolls: returns the new grid as a value, rather than clearing and refilling the caller's `output`; solve's `std::swap` of the two grids becomes an assignment.
- Day09Tiles.RectArea: exact. The `uint64_t` product wrap of rect_area is not modelled. It applies once the sides' product passes 2^64, for instance for sides of 2^32 + 1: the tiles 0,0 and 4294967296,4294967296 give 8589934593 in the program. The `int64_t` subtraction overflow is not modelled either; it needs coordinates 2^63 or more apart.
- Day09Part2.AddBetween: the `int64_t` overflow of `dx` and `dy` is not modelled; it too needs coordinates 2^63 or more apart.
- get_perimeter_positions on an empty corner list reads `positions[-1]`, which is undefined behaviour; it is modelled as `Abort`.

## Findings

| source | as written | input that shows it | evidently intended | confidence | as-written member | corrected member |
|---|---|---|---|---|---|---|
| day02-part1/main.cpp:18-21 | repeat_digits computes `check * 10^digits + check` in `uint64_t`, and invalid_id_sum adds the wrapped value when it lands in the range | range 1-9999999999999999999: check 9999999999 doubles to 99999999999999999999, which wraps to a value inside the range that is no number written twice | add only IDs that are a number written twice, with the doubling computed exactly | not executed | Day02Part1.RepeatDigitsU64, Day02Part1.DoublingWraps, Day02Part1.InvalidIdSumU64, Day02Part1.WrappedSumAddsWrap | Day02Part1.InvalidIdSum |
| day02-part2/main.cpp:46-55 | check_times is tried only with the counts that make a repetition exactly as long as the range's start or end | range 5-1000000: 11 is 1 written twice, has two digits, while the start has one and the end seven, so it is never tried | try every count whose repetition length lies between the start's and the end's digit counts | not executed | Day02Part2.InvalidIdSumEndLengths, Day02Part2.MissedLength | Day02Part2.InvalidIdSum |
