# Advent of Code 2023 solvers, modelled in Dafny

This project models the puzzle solvers of an Advent of Code 2023 repository and proves
properties of them. Most days are Python (`dayNN.py`). Days 1 to 4 also have Kotlin scripts
(`kotlin/DayNN.kts`), and days 1 and 2 have TypeScript versions (`javascript/dayNN.ts`).
Each source file becomes one Dafny module in its own file:

- `dayNN.dfy` holds module `DayNN`;
- `dayNN_kt.dfy` holds `DayNNKt`;
- `dayNN_ts.dfy` holds `DayNNTs`.

`common.dfy` (module `Common`) holds the shared vocabulary:

- `Option`;
- `Result` and the `Fault` that names the exception the source would raise;
- sums, decimal digits and small grid helpers.

Parsed puzzle input is a parameter of each solver. Where the source computes with pure
expressions, the model uses functions and lemmas. Loops become methods with invariants, and
each method is proved against a specification function. A mutable object becomes a class;
in-place grid work keeps its `array2`.

Several source loops have no bound on their number of steps: graph walks, the pipe trace,
the crucible search and the button presses. Their models take an explicit `fuel` budget.
They return `Err(OutOfFuel)` when the budget runs out, where the source would keep looping.

## Model

| member | source | states |
|---|---|---|
| Day01.FirstDigitFrom | day01.py:19-24 | the first digit at or after a position, with no digit before it; `None` exactly when there is none |
| Day01.LastDigitBefore | day01.py:25-30 | reference definition of the last digit of a line: a digit with none after it, `None` exactly when the line has none |
| Day01.FirstOfReverse | day01.py:25-30 | scanning `line[::-1]` from the left finds the rightmost digit of the line, at the mirrored position |
| Day01.LineValue | day01.py:19-31 | a line's value is at most 99, and a failure is always a `ValueError` |
| Day01.LineValueSpec | day01.py:19-31 | a line fails exactly when it has no digit; otherwise its value is ten times its first digit plus its last |
| Day01.LineValueRef | day01.py:19-31 | the scanning definition equals the first-digit/last-digit reference definition |
| Day01.SingleDigitLine | day01.py:19-31 | a line with a single digit `d` contributes `11 * d` |
| Day01.LineFromScans | day01.py:19-31 | the two scanned characters are digits and `int(f"{first}{last}")` is the line's value |
| Day01.ScanFirst | day01.py:19-24 | the `for`/`break`/`else` loop returns the first digit of the line, or nothing |
| Day01.Solve | day01.py:16-33 | the total is the sum of the line values, or the `ValueError` of the first line without a digit |
| Common.Reverse | javascript/day01.ts:15-17 | `reverseString`: the same length, and position `i` holds the character at the mirrored position |
| Common.ReverseReverse | javascript/day01.ts:15-17 | reversing twice gives the string back |
| Day01Ts.MatchDigit | javascript/day01.ts:24-28 | `line.match(/\d/)[0]` is a one-character digit string |
| Day01Ts.MatchLine | javascript/day01.ts:24-34 | a line fails exactly when a match is missing, and otherwise its value is the Python one |
| Day01Ts.Solve1 | javascript/day01.ts:20-38 | `solve1` gives the same total, or the same failure, as the Python solver |
| Day01Ts.Name | javascript/day01.ts:41-51 | each key of `DIGITS_BY_NAME` is a lower-case word of at least three letters |
| Day01Ts.NameIndexFrom | javascript/day01.ts:41-51 | the key lookup finds the digit a word names, or none when no key equals it |
| Day01Ts.NamesDistinct | javascript/day01.ts:41-51 | the nine keys are different words |
| Day01Ts.ToDigitDigits | javascript/day01.ts:56-59 | a non-empty all-digit string is returned unchanged |
| Day01Ts.ToDigitName | javascript/day01.ts:56-61 | a digit's name is mapped to that digit |
| Day01Ts.Forward | javascript/day01.ts:65-66 | the forward expression tries the nine names in key order, after `\d` |
| Day01Ts.Mirrored | javascript/day01.ts:65-67 | the reversed alternation, read forwards, tries the names from nine down to one |
| Day01Ts.RevAll | javascript/day01.ts:67 | reversing the alternation reverses each word |
| Day01Ts.WordAt | javascript/day01.ts:70 | the first alternative word that occurs at a position really occurs there |
| Day01Ts.AltAt | javascript/day01.ts:70 | a match at a position is a digit or one of the words |
| Day01Ts.Search | javascript/day01.ts:70-74 | `String.match` returns a match of the expression, at the leftmost position where one exists |
| Day01Ts.WordBefore | javascript/day01.ts:75-79 | the first word that ends at a position really ends there |
| Day01Ts.AltBefore | javascript/day01.ts:75-79 | a match ending at a position is a digit or one of the words |
| Day01Ts.LastMatch | javascript/day01.ts:75-79 | reference definition of the rightmost match of a line |
| Day01Ts.WordMirror | javascript/day01.ts:75-79 | a reversed word occurs in the reversed line exactly where the word ends in the line |
| Day01Ts.WordAtMirror | javascript/day01.ts:75-79 | the word found at a position of the reversed line is the word ending at the mirrored position |
| Day01Ts.AltMirror | javascript/day01.ts:75-79 | a match at a position of the reversed line, reversed back, is the match ending at the mirrored position |
| Day01Ts.SearchMirror | javascript/day01.ts:75-79 | the backward search in the reversed line, reversed back, is the rightmost match of the line |
| Day01Ts.ForwardNames | javascript/day01.ts:65-66 | every forward word is a digit name |
| Day01Ts.MirroredNames | javascript/day01.ts:67 | every backward word is a digit name |
| Day01Ts.NamesText | javascript/day01.ts:70-79 | every match is a digit or a digit name |
| Day01Ts.TextValue | javascript/day01.ts:56-61 | `toDigit` of a match is the one digit it stands for |
| Day01Ts.LineValue | javascript/day01.ts:69-81 | a line's part 2 value is at most 99 |
| Day01Ts.LineValueWith | javascript/day01.ts:69-81 | the same bound for any alternation of digit names |
| Day01Ts.PairValue | javascript/day01.ts:80 | the number of a first and a last match is at most 99 |
| Day01Ts.PairDecimal | javascript/day01.ts:80 | `parseInt(toDigit(first) + toDigit(last))` is that two-digit number |
| Day01Ts.LineStep | javascript/day01.ts:69-81 | for any alternations of digit names, a line fails exactly when a match is missing; otherwise its value is parsed from the two looked-up digits |
| Day01Ts.DigitTextNonEmpty | javascript/day01.ts:56-61 | a text `toDigit` turns into a digit is never empty |
| Day01Ts.LineResult | javascript/day01.ts:69-81 | a line's entry of the sum succeeds exactly when its part 2 value does |
| Day01Ts.LineValuesAt | javascript/day01.ts:69-81 | entry `k` of the line values is the value of line `k` |
| Day01Ts.SearchDigitsOnly | javascript/day01.ts:70 | in a line without letters the search finds exactly the first digit |
| Day01Ts.LastDigitsOnly | javascript/day01.ts:75-79 | in a line without letters the rightmost match is exactly the last digit |
| Day01Ts.DigitsOnlyLine | javascript/day01.ts:64-84 | on a line without letters part 2 reads the line exactly as part 1 does |
| Day01Ts.DigitsOnlyRef | javascript/day01.ts:64-84 | on such a line part 2 agrees with the first-and-last-digit reference definition |
| Day01Ts.DigitsOnlyWith | javascript/day01.ts:64-84 | the same holds for any alternation of names |
| Day01Ts.DigitPair | javascript/day01.ts:69-81 | when both matches are digits, the line's value is ten times the first plus the last |
| Day01Ts.TextValueDigit | javascript/day01.ts:56-59 | a one-digit match stands for its own digit |
| Day01Ts.LineEntry | javascript/day01.ts:69-81 | entry `k` of the line values is what the loop of `solve2` computes for line `k`, and both matches are non-empty |
| Day01Ts.LineTotal | javascript/day01.ts:69-82 | the loop body either ends the sum with the first failing line's error or adds line `k`'s value to the running total |
| Day01Ts.Solve2 | javascript/day01.ts:64-84 | the total is the sum of the line values, or the failure of the first line without a match |
| Day01Kt.AtBang | kotlin/Day01.kts:19-20 | a failed line becomes the failure of `!!` on a missing match, and any other result is unchanged |
| Day01Kt.Solve1 | kotlin/Day01.kts:15-25 | `solve1` gives the Python total, its first failing line stopping at `!!` |
| Day01Kt.ToDigit | kotlin/Day01.kts:41-46 | `toDigit` fails only through the `!!` of a missing key |
| Day01Kt.ToDigitAgrees | kotlin/Day01.kts:41-46 | on every non-empty string `toDigit` agrees with the modelled TypeScript one, failing where that returns `undefined` (inherited `Object.prototype` keys aside, see "Left out") |
| Day01Kt.ToDigitEmpty | kotlin/Day01.kts:42-43 | the empty string is where the two differ: `all { isDigit }` holds of it |
| Day01Kt.Solve2 | kotlin/Day01.kts:49-61 | `solve2` gives the TypeScript part 2 total, its first failing line stopping at `!!` |
| Day01Kt.LineTotal | kotlin/Day01.kts:54-58 | the loop body fails at `!!` exactly when the sum fails, and otherwise adds line `k`'s value; neither match is empty, so the empty-string case of `toDigit` is never reached |
| Day02.SearchAt | day02.py:32 | `re.search` finds the leftmost position where a count of the colour matches, or reports that none does |
| Day02.Count | day02.py:30-43 | the `defaultdict(int)` reads 0 for a colour never stored and the stored count otherwise |
| Day02.PullCounts | day02.py:29-34 | a read pull stores exactly the colours its text mentions, each with the count the text gives |
| Day02.PullCountsDefault | day02.py:29-34 | every colour of a read pull counts what its text says, and 0 when the text does not mention it |
| Day02.PullWithin | day02.py:43 | the inner `all` holds exactly when every listed colour is within its maximum |
| Day02.PullWithinColors | day02.py:43 | walking the keys of `COLOR_MAXES` in order checks exactly every key |
| Day02.GameGood | day02.py:42-45 | the outer `all` holds exactly when every pull of the game is within the maxima |
| Day02.NoPullsGood | day02.py:42-45 | a game without pulls is good |
| Day02.PullMonotone | day02.py:42-45 | removing a pull never turns a good game bad |
| Day02.GoodSet | day02.py:40-46 | a number is in `good_game_nums` exactly when some game with that number is good |
| Day02.Solve | day02.py:39-47 | the answer is the sum of the set of good game numbers |
| Day02.SumSet | day02.py:47 | `sum` of a set is its element sum, whatever order the set yields its elements in |
| Day02.SetSumGood | day02.py:39-47 | with distinct game numbers, the sum of the set equals the sum of the good numbers, each counted once |
| Day02Ts.SpacesFrom | javascript/day02.ts:32 | the white-space run of `\s+` is taken whole |
| Day02Ts.ColorAt | javascript/day02.ts:32 | the first colour alternative found at a position really occurs there |
| Day02Ts.MatchAt | javascript/day02.ts:32 | a match of the count-and-colour pattern names red, green or blue and ends after it starts |
| Day02Ts.FindFrom | javascript/day02.ts:32 | the next match is at the leftmost position where one exists |
| Day02Ts.MatchAll | javascript/day02.ts:32-33 | `matchAll` yields pairs of a known colour and a count of at least 0 |
| Day02Ts.ParseColors | javascript/day02.ts:32-33 | every parsed pull names a colour of `COLOR_MAXES` |
| Day02Ts.Every | javascript/day02.ts:42-43 | `every` holds exactly when each pair is within its colour's maximum |
| Day02Ts.Passing | javascript/day02.ts:41-44 | the numbers kept are exactly those of the games whose pairs all pass, at most one per game |
| Day02Ts.Reduce | javascript/day02.ts:45 | `reduce` without an initial value throws exactly on an empty list |
| Day02Ts.FoldAddSum | javascript/day02.ts:45 | folding `+` from an accumulator adds the list's sum to it |
| Day02Ts.ReduceSum | javascript/day02.ts:45 | `reduce` of a non-empty list is its sum |
| Day02Ts.PassingEmpty | javascript/day02.ts:41-44 | no number is kept exactly when no game passes |
| Day02Ts.Solve1Spec | javascript/day02.ts:40-46 | the answer is the sum of the passing game numbers, and `solve1` throws exactly when no game passes |
| Day02Kt.NextSeparator | kotlin/Day02.kts:30 | the next `,` or `;` at or after a position, with none before it |
| Day02Kt.SplitFrom | kotlin/Day02.kts:30 | `split(",", ";")` yields at least one fragment |
| Day02Kt.SeparatorsNone | kotlin/Day02.kts:30 | a stretch without separators adds no fragment |
| Day02Kt.SplitShape | kotlin/Day02.kts:30 | the split has one fragment more than the text has separators, and no fragment holds a separator |
| Day02Kt.FindPair | kotlin/Day02.kts:31-32 | the first match in a fragment pairs a known colour with a count of at least 0 |
| Day02Kt.MapNotNull | kotlin/Day02.kts:31-32 | `mapNotNull` keeps at most one pair per fragment, each of a known colour |
| Day02Kt.ParsePulls | kotlin/Day02.kts:30-32 | a game has at most one pull more than its separators, all of known colours |
| Day02Kt.All | kotlin/Day02.kts:41-43 | `all` is true exactly when every pair is within its maximum, and fails only at `!!` on a colour without one |
| Day02Kt.AllKnown | kotlin/Day02.kts:41-43 | on known colours `all` never fails and agrees with the TypeScript `every` |
| Day02Kt.PassingKnown | kotlin/Day02.kts:40-44 | with the parsed colours the filter keeps the games the TypeScript filter keeps |
| Day02Kt.SolveKnown | kotlin/Day02.kts:39-45 | the answer is the TypeScript one where that one has an answer, and 0 where the TypeScript `reduce` throws for want of a passing game |
| Day03.CountDigits | day03.py:27-32 | `_count_digits` is the length of the leading run of digits; an empty row is an `IndexError` and a row not starting with a digit fails the assert |
| Day03.CountDigitsSuffix | day03.py:68 | `_count_digits(data[r, c:])` measures the run of digits starting at column `c` |
| Day03.LeftEnd | day03.py:85-87 | the walk left stops at the first column of the run of digits through the cell |
| Day03.MaximalRunUnique | day03.py:84-91 | a digit belongs to exactly one maximal run |
| Day03.Runs | day03.py:65-72 | the runs met by the scan of a row, left to right |
| Day03.RunsMaximal | day03.py:65-72 | each run the scan takes is a maximal run of digits |
| Day03.RunsCover | day03.py:65-72 | every digit of the row lies in one of the runs |
| Day03.RunsIncreasing | day03.py:65-72 | the runs come left to right, separated by non-digits, so no number is counted twice |
| Day03.SymbolNearBox | day03.py:39-60 | `_has_symbol_neighbor` is true exactly when a symbol lies in the bounding rectangle of the number, clipped to the grid |
| Day03.Blank | day03.py:72 | `data[r, s:e] = EMPTY` blanks exactly those cells and leaves every other cell as it was |
| Day03.VisitFindsRun | day03.py:84-91 | the number found through a digit of the copy is the maximal run of the original grid through that cell, none of it blanked yet |
| Day03.VisitDigit | day03.py:84-91 | visiting a digit of the copy records the maximal run through it and keeps the copy consistent with the runs taken |
| Day03.VisitConsistent | day03.py:84-91 | each visit keeps the copy consistent and records at most one new run, the one through the cell |
| Day03.RunValueOf | day03.py:89 | the number recorded is the decimal value of the run's characters |
| Day03.CollectTouching | day03.py:75-92 | with the neighbours clipped to the grid, the search around a gear finds every number touching it exactly once, as distinct maximal runs, in the order found |
| Day03.VisitAsWritten | day03.py:84 | one neighbour as written: an unclipped index wraps at -1 and fails one past the end; the copy keeps its shape |
| Day03.GatherAsWritten | day03.py:78-91 | the as-written search keeps every row of the copy at the grid's width |
| Day03.GatherErrPersists | day03.py:78-91 | once a neighbour fails, the search fails with that error |
| Day03.InteriorAgrees | day03.py:78-91 | away from the border the unclipped indexing reads the same cells as the clipped one |
| Day03.InteriorCollect | day03.py:75-92 | for a cell away from the border the as-written search returns the intended numbers |
| Day03.BorderCollectFails | day03.py:84 | a cell on the last row or in the last column always makes the as-written search fail |
| Day03.WrapCounterexample | day03.py:79-84 | a gear in the top row reports the numbers 2 and 3 of the bottom row, which do not touch it |
| Day03.WrapFirstRow | day03.py:78-84 | the three offsets of row -1 read the last row, record both its numbers and blank them |
| Day03.RowsAround | day03.py:40 | `rows_to_check` holds exactly the rows r-1, r and r+1 that lie in the grid, in increasing order |
| Day03.Remove | day03.py:54 | `list.remove(r)` drops `r` and keeps every other row |
| Day03.SymbolNearParts | day03.py:39-60 | the bookend columns and the rows above and below along the number together check exactly the clipped rectangle |
| Day03.ColumnScan | day03.py:44-46 | a bookend loop finds a symbol exactly when one of the rows to check holds one in that column |
| Day03.BandScan | day03.py:55-58 | the loop along the number finds a symbol exactly when one of the other rows holds one above or below it |
| Day03.HasSymbolNeighbor | day03.py:39-60 | `_has_symbol_neighbor` is true exactly when a symbol is next to the number |
| Day03.TakeStep | day03.py:66-72 | scanning past a run: the runs still ahead start after it |
| Day03.SkipStep | day03.py:66-67 | a cell outside every run adds nothing and leaves the runs ahead unchanged |
| Day03.TakeNumber | day03.py:67-72 | the digit branch measures the run at the cell, adds its value when a symbol is near, and blanks it |
| Day03.ReadNumber | day03.py:68-71 | the count is the length of the whole run, and what is added is its value when a symbol is near and 0 otherwise |
| Day03.PartValueOf | day03.py:69-71 | the value added for a maximal run is its decimal value when a symbol is near, and 0 otherwise |
| Day03.ScanRow | day03.py:66-72 | one row adds the part values of its maximal runs and changes no other row |
| Day03.Solve1 | day03.py:62-73 | `solve1` is the sum, over all maximal runs of digits, of the values of those next to a symbol |
| Day03.VisitNeighbour | day03.py:83-91 | the body of the inner loop on the array does what the as-written step does on the grid |
| Day03.TakeNeighbour | day03.py:85-91 | on a digit of the copy: walk to the run's start, count, convert, record and blank the run |
| Day03.RunStart | day03.py:85-87 | the `while` loop stops at the first column of the run, which is a digit |
| Day03.ReadRun | day03.py:88-89 | the count is the run's length and the number recorded is its value |
| Day03.OffsetOf | day03.py:78-83 | the offsets are visited row shift first, then column shift, each in the order -1, 0, 1 |
| Day03.CollectAsWrittenErr | day03.py:75-92 | a failed step of the as-written search is its result |
| Day03.CollectAdjacentNumbers | day03.py:75-92 | the method on the array computes the as-written search, errors included |
| Day03.Ratio | day03.py:100-102 | a gear with other than exactly two numbers contributes 0 |
| Day03.InteriorGearTotal | day03.py:94-103 | with every gear away from the border, `solve2` as written gives the intended sum |
| Day03.BorderGearFails | day03.py:94-103 | a gear on the last row or in the last column makes `solve2` as written fail |
| Day03.NoGearRow | day03.py:97-98 | a row without gears contributes nothing, as written and as intended |
| Day03.GearStep | day03.py:98-102 | a gear whose search succeeds adds its ratio |
| Day03.NonGearStep | day03.py:98 | a cell that is not a gear adds nothing |
| Day03.WrapGearTotal | day03.py:94-103 | on a three-row grid `solve2` as written reports a ratio of 6 where no number touches the gear |
| Day03.GearRow | day03.py:97-102 | one row of `solve2` as written: its gears' ratios, or the first error of a gear's search |
| Day03.Solve2 | day03.py:94-103 | `solve2` as written is the sum of the gear ratios, or the first error a gear's search raises |
| Day03Kt.CountDigits | kotlin/Day03.kts:20-28 | the loop over `row.drop(1)` returns the first index after position 0 that is not a digit (or the length), and fails with an index error exactly on the empty row; on a row starting with a digit it agrees with the Python `_count_digits`, and it answers exactly where that one raises `AssertionError`, on a non-empty row starting with a non-digit, because the Kotlin `assert` is not checked without `-ea` |
| Day03Kt.InBoundsVisit | kotlin/Day03.kts:97-111 | inside the grid the unclipped step is the clipped one |
| Day03Kt.CollectAdjacentNumbers | kotlin/Day03.kts:88-115 | the search returns exactly the numbers touching the cell, and throws exactly for a cell on the border |
| Day03Kt.GearRow | kotlin/Day03.kts:120-127 | one row of `solve2`: its gears' ratios, or the throw of its first border gear |
| Day03Kt.Solve2 | kotlin/Day03.kts:117-131 | the sum of the ratios when no gear lies on the border, and a throw otherwise |
| Day03Kt.AgreesWithPython | kotlin/Day03.kts:117-131 | where the Kotlin solver does not throw, it agrees with the Python one |
| Day04.AsSet | day04.py:21 | `set(winning)` holds exactly the winning numbers |
| Day04.MatchCount | day04.py:22-25 | the count of matches is at most the number of numbers you have |
| Day04.MatchCountPositions | day04.py:22-25 | the count is the number of positions of `yours` holding a winning number, so a number you have twice counts twice |
| Day04.WinningAsSet | day04.py:21-25 | the order and the repetitions of the winning numbers do not change the count |
| Day04.Score | day04.py:26-29 | no match scores 0, and `count` matches score `2 ** (count - 1)`, at least 1 |
| Day04.ScoreBound | day04.py:26-29 | a card scores at most `2 ** (len(yours) - 1)`, and nothing when you have no numbers |
| Day04.Scores | day04.py:20-30 | one score per card, in order |
| Day04.TotalNonNegative | day04.py:18-31 | the total is never negative |
| Day04.CountMatches | day04.py:22-25 | the inner loop computes the count of matches |
| Day04.Solve | day04.py:18-31 | the total accumulated card by card is the sum of the card scores |
| Day04Kt.Solve1 | kotlin/Day04.kts:25-31 | `sumOf` over the cards gives the Python total |
| Day04Kt.Counts | kotlin/Day04.kts:38-39 | the matches of each card, in order |
| Day04Kt.AddCopies | kotlin/Day04.kts:40-42 | card `i` adds its copy count to each of the cards `i + 1 .. i + count` and to no other |
| Day04Kt.CopiesAfter | kotlin/Day04.kts:35-43 | after any number of cards the counts cover every card, and the only failure is an index past the last card |
| Day04Kt.CopiesAfterFails | kotlin/Day04.kts:40-42 | processing fails exactly when some card's matches reach past the last card |
| Day04Kt.CopiesAfterShape | kotlin/Day04.kts:35-43 | every count is at least 1, and a card no earlier card reaches keeps its single copy |
| Day04Kt.CopiesAfterFinal | kotlin/Day04.kts:36-43 | once card `i` is processed its count never changes again |
| Day04Kt.AnswerBound | kotlin/Day04.kts:44 | the answer is at least the number of cards |
| Day04Kt.AddToNext | kotlin/Day04.kts:40-42 | the inner loop updates the `IntArray` as `AddCopies` says, and fails exactly when an index passes the end |
| Day04Kt.Solve2 | kotlin/Day04.kts:34-45 | the answer is the sum of the final copy counts, or the `IndexError` of the first card reaching past the end |
| Day04Kt.CopiesAfterErr | kotlin/Day04.kts:40-42 | a failed step stays the result |
| Day05.RangeOverlap | day05.py:84-108 | disjoint sections give no overlap and the query back unchanged; otherwise the overlap is exactly the common numbers and the leftovers (at most two, ordered, well formed, none meeting the key) cover exactly the query numbers outside the key, so the `ValueError` branch is never reached |
| Day05.MashCover | day05.py:76-78 | the mashed section covers exactly the numbers of the two touching sections |
| Day05.SimplifySections | day05.py:71-81 | fails with `AssertionError` only on input not sorted by start; on sorted input it succeeds with a sorted, separated list no longer than the input that covers exactly the same numbers |
| Day05.Insort | day05.py:127 | `bisect.insort` keeps the list sorted, adds exactly the one element (as a multiset) and adds exactly its numbers to the cover |
| Day05.OverlapStep | day05.py:123-128 | replacing a section by its leftovers and inserting the shifted overlap keeps the splitting invariant |
| Day05.SkipStep | day05.py:129-130 | passing over a section that misses the transform keeps the splitting invariant |
| Day05.OverlapMeetCount | day05.py:128 | a splitting step lowers the number of sections that meet the transform range, so the inner loop ends |
| Day05.InsortShift | day05.py:127 | inserting before a larger last element keeps the multiset, the order and the cover of the insertion into the shorter list |
| Day05.OverlapOutput | day05.py:124-127 | inserting the shifted overlap keeps the output sorted, well formed, and holding exactly the shifted numbers that left the input |
| Day05.MoveOverlap | day05.py:123-128 | moving an overlap into the output keeps the splitting invariant and lowers the number of sections meeting the range |
| Day05.SplitSection | day05.py:121-130 | one pass of the inner loop keeps the splitting invariant and either lowers the number of sections meeting the range or advances past the section unchanged |
| Day05.SplitStart | day05.py:120 | the splitting invariant holds before the inner loop starts |
| Day05.SplitDone | day05.py:121-130 | when the inner loop reaches the end, the remaining sections miss the range and the output holds exactly what moved |
| Day05.ApplyTransform | day05.py:84-130 | fails with `AssertionError` exactly when the input is non-empty and either the transform's range is empty (`n <= 0`) or some input section is empty, the two asserts of `_range_overlap`; otherwise the input afterwards covers exactly the numbers outside the range, and the sorted output gains exactly the shifted numbers inside it |
| Day05.WellFormedSplice | day05.py:128 | splicing well-formed leftovers in place of a well-formed section keeps whether the whole list is well formed |
| Day05.MapNumberUntouched | day05.py:52-63 | a number no transform of the map contains passes through unchanged |
| Day05.MapNumberFirst | day05.py:52-60 | a number is moved by the first transform containing it, and by that one only |
| Day05.TransformStep | day05.py:118-132 | each transform of a map keeps the invariant relating covered inputs to their images in the output |
| Day05.MapStart | day05.py:116 | before the first transform nothing has moved and the output is empty |
| Day05.MapTransform | day05.py:84-130 | each transform of a map fails with `AssertionError` exactly when sections remain and the transform or a remaining section is empty; otherwise it keeps the invariant relating covered inputs to their images in the output |
| Day05.InsortAll | day05.py:133-134 | inserting the unchanged sections keeps the output sorted, adds one entry per section and exactly their numbers, and leaves it well formed exactly when they are |
| Day05.InsortOne | day05.py:133-134 | one insertion of the closing loop keeps the output sorted, one longer, and covering the sections inserted so far |
| Day05.InsortWellFormed | day05.py:127-134 | `bisect.insort` lengthens the list by one and leaves it well formed exactly when the list and the element were |
| Day05.FinishStep | day05.py:131-134 | the sections left after the transforms (or after the early `break`) go through unchanged, completing the map |
| Day05.ApplyMap | day05.py:84-134 | one map fails with `AssertionError` only on a non-empty input and a non-empty map with an empty section or transform; otherwise the sorted output is empty exactly when the input is, is well formed exactly when the input is, and covers the image of every number the input covers and nothing that is not such an image |
| Day05.CoverNothing | day05.py:131-132 | well-formed sections that cover no number are no sections at all |
| Day05.SeedSections | day05.py:112-115 | the seed numbers pair up into inclusive sections `(start, start + n - 1)`, an unpaired last number dropped |
| Day05.SortSections | day05.py:112 | `sorted` gives a lexicographically sorted permutation covering the same numbers |
| Day05.SortedLexByLo | day05.py:75 | lexicographic order implies the order by start that `_simplify_sections` asserts |
| Day05.MinLow | day05.py:136 | the minimum start is the start of some section and no larger than any other |
| Day05.SeedSectionsWellFormed | day05.py:112-115 | seed ranges of positive length give non-empty sections |
| Day05.MergeSeeds | day05.py:112-115 | sorting and merging the seed sections gives sections that are empty exactly when there are fewer than two seed numbers and cover exactly the seeds |
| Day05.ChainStart | day05.py:111-114 | before the first map the merged seed sections cover exactly the seeds, each its own image |
| Day05.ChainStep | day05.py:84-135 | applying a map fails with `AssertionError` only when sections remain, the map is non-empty and a seed range or one of its transforms has length `<= 0`; otherwise applying it and merging keeps the cover equal to the images of the seeds under the maps so far |
| Day05.SolveStep | day05.py:116-135 | after each map the sections cover the image of every seed and only images of seeds |
| Day05.Solve2 | day05.py:84-136 | with fewer than two seed numbers `min` of nothing raises; otherwise it either answers or raises `AssertionError`, and the latter only when some map is non-empty and a seed range or a transform has length `<= 0`; an answer is no greater than the location of any seed in a seed range, and it is the location of some such seed whenever the seed ranges are valid or some map is non-empty (with only empty maps an empty seed range passes through unchecked and its start can be the answer) |
| Day05.LowestStart | day05.py:136 | the least start of the final sections bounds every seed's location from below, and is itself a seed's location when the sections are well formed |
| Day05.MoveNumbers | day05.py:53-60 | one transform moves exactly the current numbers inside its range, shifted, into the new set and leaves exactly the others |
| Day05.MoveStepSound | day05.py:52-62 | after each transform every number of the new set is the image of a number some transform so far contained |
| Day05.MoveStepComplete | day05.py:52-62 | after each transform the image of every number some transform so far contained is in the new set |
| Day05.MapSet | day05.py:50-64 | one map turns the set of numbers into exactly the set of their images |
| Day05.LocationsStep | day05.py:50-64 | mapping the numbers after `k` maps through map `k` gives the numbers after `k + 1` maps |
| Day05.MinOfSet | day05.py:65 | `min` of a non-empty set is a member and no greater than any member |
| Day05.Solve1 | day05.py:48-65 | no seeds raises; otherwise the answer is the location of some seed and no greater than that of any seed |
| Day06.Distance | day06.py:21-27 | the distance is never negative, and holding for none or all of the race covers nothing |
| Day06.DistanceSymmetric | day06.py:22-27 | holding for `held` or for `total - held` covers the same distance |
| Day06.DistanceDiff | day06.py:22-27 | the difference of two distances factors as `(b - a) * (total - a - b)` |
| Day06.Slope | day06.py:75-78 | one more millisecond of holding gains distance exactly while `2 * held + 1 < total`, the slope test of the peak search |
| Day06.PeakIsMax | day06.py:61-84 | holding for half the race (rounded down) gives the largest distance, and only its mirror ties it |
| Day06.Concave | day06.py:87-96 | between two hold times the distance is at least the smaller of theirs, so the target searches see monotone runs |
| Day06.FindPeak | day06.py:61-84 | the binary search ends at `total // 2`, and no hold time covers more distance |
| Day06.RisingBeforePeak | day06.py:151 | distances rise on `[0, peak]`, the direction the low search assumes |
| Day06.FallingAfterPeak | day06.py:153 | distances fall on `[peak, total]` down to any target below the peak |
| Day06.FindTargetDistance | day06.py:87-143 | an out-of-range target raises `ValueError`; a result lies in the window and meets the target, and on a monotone window it is the first (rising) or last (falling) hold time that does |
| Day06.WinsWindow | day06.py:155-164 | when exactly the hold times `[lo, hi]` beat the record, there are `1 + hi - lo` ways to win |
| Day06.TrimLow | day06.py:156-157 | the low end stops at the peak at the latest; every hold time left of it at most ties the record, and while the window is wider than one the new low end beats it |
| Day06.TrimHigh | day06.py:158-159 | the high end stops at the peak at the latest; every hold time right of it at most ties the record, and while the window is wider than one the new high end beats it |
| Day06.CountWaysToWin | day06.py:146-164 | the result is the number of hold times in `[0, total]` that beat the record |
| Day06.WaysToBeat | day06.py:32-49 | the two scans of `solve1` count exactly the hold times in `1..time-1` that beat the record |
| Day06.ScanMatchesSearch | day06.py:53-58 | for a non-negative record the scan count equals the count of the search-based solution |
| Day06.RaceWins | day06.py:31-49 | one count per race, each the number of winning hold times |
| Day06.Solve1 | day06.py:30-50 | the answer is the product of the per-race counts |
| Day06.JoinDecimal | day06.py:168 | joining the decimal strings of numbers gives only digits |
| Day06.JoinDecimalSnoc | day06.py:168 | appending a number's digits shifts the value left by its digit count and adds the number |
| Day06.Solve2 | day06.py:167-170 | with no races `int("")` raises `ValueError`; otherwise the answer is the number of winning hold times of the race made of the run-together digits |
| Day07.TypeValue | day07.py:12-20 | each hand type has a value from 1 (`HIGH_CARD`) to 7 (`FIVE`) |
| Day07.TypeAt | day07.py:81 | entry `k` of `HAND_TYPE_ORDER` is the type of value `k + 1` |
| Day07.TypeAtUnique | day07.py:81 | the order lists each hand type exactly once, worst first |
| Day07.RemoveAll | day07.py:51 | `counter.pop(c)`: the hand without any copy of `c`, with every other card kept |
| Day07.CountsOfSum | day07.py:25 | the multiplicities of `Counter(hand)` add up to the number of cards |
| Day07.CountsOfRemove | day07.py:50-51 | popping a card from the counter removes exactly its multiplicity from the counts |
| Day07.CountsOfPermutation | day07.py:25-26 | the multiset of multiplicities depends only on which cards the hand holds |
| Day07.SortNat | day07.py:26 | `sorted` of the counts is an ascending permutation with the same sum |
| Day07.AscendingUnique | day07.py:26 | two ascending sequences with the same elements are equal, so the sorted counts are determined by their multiset |
| Day07.SortedCounts | day07.py:25-26 | the sorted counts are ascending, positive and add up to the hand length |
| Day07.PartitionsComplete | day07.py:27-41 | ascending positive counts summing to five are one of the partitions of five |
| Day07.TypeOfCountsPartitions | day07.py:27-43 | the seven `match` patterns are exactly the partitions of five, so the `ValueError` case is never reached for a five-card hand |
| Day07.FromHand | day07.py:22-43 | a hand of any other length than five fails the assertion; every five-card hand gets a type |
| Day07.FromHandPermutation | day07.py:22-43 | the type of a hand does not depend on the order of its cards |
| Day07.FromHandExtremes | day07.py:28-41 | five equal cards are `FIVE` and five distinct cards are `HIGH_CARD` |
| Day07.JokersAbsent | day07.py:48-49 | without a joker the joker rule is `from_hand` |
| Day07.JokersOneKind | day07.py:52-54 | at most one kind of card besides the jokers makes `FIVE` |
| Day07.JokersNeverWorse | day07.py:45-77 | every five-card hand with jokers is classified (none of the `ValueError`s or the joker-count assertion can fire) and is never weaker than `from_hand` rates it |
| Day07.JokerCases | day07.py:55-77 | the joker table case by case is at least the plain type of the same counts |
| Day07.IndexOf | day07.py:90 | `str.index` gives the first position holding the character |
| Day07.CardValue | day07.py:86-90 | a card outside `CARD_ORDER` raises `ValueError`; otherwise its value is one plus its position, except the joker, which ranks below every card |
| Day07.CardValueIncreasing | day07.py:83-90 | card values follow `CARD_ORDER` strictly |
| Day07.JokerLowest | day07.py:88-89 | with jokers, 'J' ranks below every other card |
| Day07.HandKey | day07.py:93-99 | the key fails exactly when some card is not in `CARD_ORDER`, and otherwise is the card values in hand order |
| Day07.LexFirstDifference | day07.py:94-95 | list comparison puts `a` before `b` exactly when they agree up to a position where `a` is smaller |
| Day07.LexTotal | day07.py:94-95 | any two keys are ordered one way or the other |
| Day07.LexTransitive | day07.py:94-95 | the key order is transitive |
| Day07.LexAntisymmetric | day07.py:94-95 | keys ordered both ways are equal |
| Day07.CodesInjective | day07.py:131 | comparing hands by code points distinguishes different hands |
| Day07.EntryTotal | day07.py:131 | rows (key, hand, bet) are totally ordered |
| Day07.EntryAntisymmetric | day07.py:131 | rows ordered both ways are equal |
| Day07.EntryTransitive | day07.py:131 | the row order is transitive |
| Day07.SortEntries | day07.py:131 | `sorted` on a bucket is a sorted permutation of it |
| Day07.ClassifierOk | day07.py:122 | both classifiers accept exactly the five-card hands |
| Day07.Entries | day07.py:117-120 | one row per input line |
| Day07.EntriesAt | day07.py:117-120 | row `i` holds the key, the hand and the bet of line `i` |
| Day07.Group | day07.py:123-126 | a bucket holds only hands of its type |
| Day07.RankedAppend | day07.py:128-132 | appending a sorted bucket of stronger hands keeps the rows ranked |
| Day07.RankedUnique | day07.py:128-132 | two rankings of the same rows are the same sequence, so the answer does not depend on how the ranking is built |
| Day07.KeyRows | day07.py:117-120 | the comprehension fails with `ValueError` exactly on a bad card and otherwise builds every row |
| Day07.KeyRow | day07.py:117-120 | one row of the comprehension either raises `ValueError`, on a line with a bad card, or extends the rows by that line's row |
| Day07.GroupByType | day07.py:122-126 | the bucketing loop fails exactly when some hand cannot be classified, and otherwise fills each bucket with the rows of its type in input order |
| Day07.BlockStrength | day07.py:130-131 | every row of the sorted `k`-th bucket has strength `k + 1` |
| Day07.Concatenate | day07.py:128-132 | the concatenated buckets are a ranking (by type, then by key) of exactly the rows |
| Day07.TotalWinnings | day07.py:134-137 | the total is the sum of rank times bet, ranks from 1 |
| Day07.Solve | day07.py:115-138 | a bad card raises `ValueError`, a hand of the wrong length the assertion, and otherwise the answer is the winnings of the ranking of all rows |
| Day08.Step | day08.py:28-35 | a node missing from the graph raises `KeyError`, a letter other than L and R raises `ValueError`, and otherwise the walk moves to the left or right neighbour named by instruction `i mod len` |
| Day08.WalkFromFirst | day08.py:27-37 | the loop returns the first step after the current one at which the walk from "AAA" stands on "ZZZ", within the budget |
| Day08.WalkFromComplete | day08.py:27-37 | a walk that reaches "ZZZ" within the budget is found, at that step or earlier |
| Day08.WalkFinds | day08.py:23-37 | an answer is at least 1, the walk stands on "ZZZ" after that many steps and on no earlier step |
| Day08.WalkComplete | day08.py:23-37 | whenever the walk reaches "ZZZ" within the budget, `solve` returns a step number no larger |
| Day08.Solve | day08.py:23-37 | the loop computes the reference walk: no instructions give `None`, errors as in `Step`, otherwise the first step on "ZZZ" |
| Day09.Diff | day09.py:28 | the difference row is one shorter than a non-empty row (and empty for an empty one) |
| Day09.DiffAt | day09.py:28 | each entry of the difference row is the difference of two neighbours |
| Day09.NextValueStep | day09.py:26-33 | a row that is not all zero extrapolates to its last value plus the extrapolation of its difference row |
| Day09.PrevValueStep | day09.py:41-48 | a row that is not all zero extrapolates backwards to its first value minus the backward extrapolation of its difference row |
| Day09.ExtrapolateForward | day09.py:24-33 | the difference loop and the reversed sum compute the forward extrapolation of the row, the `IndexError` of an empty row included |
| Day09.AlternatingSnoc | day09.py:45-47 | one step of `cur = row_first - cur` is the alternating sum of the stacked first values |
| Day09.ExtrapolateBackward | day09.py:39-48 | the loop on first elements and the alternating fold compute the backward extrapolation of the row |
| Day09.NextValues | day09.py:24-33 | one forward extrapolation per row |
| Day09.PrevValues | day09.py:39-48 | one backward extrapolation per row |
| Day09.Solve1 | day09.py:22-34 | the total of the forward extrapolations, or the error of the first row that fails |
| Day09.Solve2 | day09.py:37-49 | the total of the backward extrapolations, or the error of the first row that fails |
| Day09.AllZeroRow | day09.py:27 | an all-zero row extrapolates to 0 both ways |
| Day09.SingleValue | day09.py:26-29 | a single value extrapolates only when it is 0; otherwise the empty difference row is indexed and raises |
| Day09.DiffArithmetic | day09.py:28 | the differences of an arithmetic row are constant |
| Day09.ArithmeticRow | day09.py:22-49 | a row `a, a + d, ...` of at least three values continues with `a + n d` and is preceded by `a - d` |
| Day09.TwoDistinctValues | day09.py:26-29 | two distinct values reach an empty difference row, which raises `IndexError` |
| Day09.DiffReverse | day09.py:28 | the differences of the reversed row are the negated reversed differences |
| Day09.NextNegate | day09.py:22-34 | negating a row negates its forward extrapolation |
| Day09.PrevIsNextOfReverse | day09.py:37-49 | backward extrapolation is forward extrapolation of the reversed row, failures included |
| Day09.PrevValuesReverse | day09.py:37-49 | `solve2` is `solve1` run on the reversed rows |
| Day10.OfValue | day10.py:23-27 | `Direction(value)` is the direction with that offset |
| Day10.ValueIsUnit | day10.py:23-27 | every direction is a unit step along one axis |
| Day10.OppositeInvolution | day10.py:29-31 | `opposite` undoes itself and changes every direction |
| Day10.TurnsInverse | day10.py:33-39 | `clockwise` and `counter_clockwise` undo each other |
| Day10.ClockwisePowers | day10.py:33-35 | two clockwise turns reverse a direction and four restore it |
| Day10.ShiftBack | day10.py:42-44 | a step followed by the opposite step returns to the start |
| Day10.ShiftInjective | day10.py:42-44 | different directions lead to different cells |
| Day10.SymbolToDirections | day10.py:47-60 | exactly the six pipe symbols have two openings, two different directions; anything else raises `ValueError` |
| Day10.At | day10.py:82 | numpy indexing fails with `IndexError` exactly outside the array, negative indices counting from the end |
| Day10.FindStartFrom | day10.py:63-69 | a found cell holds 'S'; otherwise `ValueError` |
| Day10.FindStartFirst | day10.py:63-69 | `find_start` finds the first 'S' in row-major order and fails exactly when there is none |
| Day10.FindStartLoop | day10.py:63-69 | the nested loops compute `find_start` |
| Day10.StartDirectionFrom | day10.py:80-85 | the search fails only by an index or symbol error |
| Day10.FindStartDirection | day10.py:79-85 | the `for direction in Direction` loop computes the search |
| Day10.StartDirectionConnects | day10.py:80-86 | a found start direction leads to a pipe with an opening back towards the start; none found means no neighbour has one |
| Day10.Onward | day10.py:90-96 | the chosen opening is one of the pipe's two, does not lead back, and is the second only when the first leads back |
| Day10.OnwardExists | day10.py:97-98 | the "idk" error is unreachable: a pipe's two openings lead to different cells, so one of them goes onward |
| Day10.TraceFrom | day10.py:89-98 | the loop fails only by an index error, a symbol error or the step budget |
| Day10.TraceChain | day10.py:87-98 | a traced loop is a closed walk: each step leads to the next and the last back to the start |
| Day10.ChainParity | day10.py:87-98 | along a walk the colour of a checkerboard cell alternates |
| Day10.ClosedWalkEven | day10.py:100-102 | a closed walk has even length, so the `remainder == 0` assertion holds |
| Day10.Trace | day10.py:87-98 | the `while loc != start` loop computes the traced loop |
| Day10.Solve1 | day10.py:77-103 | the answer is half the length of the loop traced from the first start and its first connecting direction; the loop is a closed walk starting at the start; the assertion fails only when no direction connects |
| Day10.CrossTurns | day10.py:109-116 | a left turn counts +1, a right turn -1, going straight or back 0 |
| Day10.CrossSumBounded | day10.py:108-116 | the cross sum is bounded by the loop length |
| Day10.TurnTotal | day10.py:108-116 | the loop computes the cross sum over the loop's turns, the last step counting as the predecessor of the first |
| Day10.NeighborsAll | day10.py:72-74 | `neighbors` yields the four adjacent cells |
| Day10.FencedNeighbors | day10.py:130-131 | every neighbour of a cell of a set closed under moves that avoid the loop is in the set or on the loop |
| Day10.Flood | day10.py:126-131 | one search only adds cells off the loop; on completion the filled set is closed under moves that avoid the loop, holds the seed unless the seed is on the loop, and lies inside every such closed set that holds the earlier cells and the seed, so it adds exactly the cells reachable from the seed without crossing the loop |
| Day10.Solve2 | day10.py:106-132 | a cross sum other than ±4 fails the assertion; otherwise the answer is the size of the least set of cells that avoids the loop, is closed under moves that avoid the loop, and holds every cell just inside a step of the loop |
| Day11.CountAppend | day11.py:27 | the galaxy count of stacked images is the sum of their counts |
| Day11.EmptyIffNoGalaxy | day11.py:27 | `np.count_nonzero(row) == 0` holds exactly for a row without galaxies |
| Day11.DoubleRows | day11.py:24-35 | every row of the expanded image is a row of the original |
| Day11.DoubleRowsShape | day11.py:24-35 | row doubling adds one row per empty row, keeps the width and keeps every galaxy |
| Day11.RowsStep | day11.py:25-35 | one step of the row loop doubles an empty row in place and moves `i` past both copies, or moves past a non-empty row |
| Day11.ExpandRows | day11.py:24-35 | the row loop writes every empty row twice and keeps the others, in order |
| Day11.DoubleColsShape | day11.py:38-48 | doubling the first `k` columns of a row adds one cell per empty column and keeps its galaxies |
| Day11.DoubleColumnsShape | day11.py:37-48 | column doubling widens every row by the number of empty columns and keeps every galaxy |
| Day11.ColsDoneStep | day11.py:38-48 | one step of the column loop doubles column `j` when it is empty and then moves past both copies |
| Day11.ExpandCols | day11.py:37-48 | the column loop writes every empty column twice and keeps the others, in order |
| Day11.ExpandSpace | day11.py:22-49 | `expand_space` doubles the empty rows, then the empty columns, and keeps the galaxy count |
| Day11.PairSumFew | day11.py:59-65 | fewer than two galaxies give a total of 0 |
| Day11.PairSumSnoc | day11.py:59-65 | one more galaxy adds its distances to all the others |
| Day11.DistCommutes | day11.py:62-64 | the Manhattan distance is symmetric |
| Day11.PairSumOrder | day11.py:60-65 | summing each galaxy's distances to the later ones or to the earlier ones gives the same total |
| Day11.RowGalaxiesSpec | day11.py:55-57 | the scan of a row finds exactly its galaxies, in increasing column order |
| Day11.GalaxiesSpec | day11.py:55-58 | the scan of the image finds each galaxy once, already in the order `sorted` gives |
| Day11.PairDistances | day11.py:59-65 | the two loops sum the distances over all pairs of galaxies |
| Day11.FindGalaxies | day11.py:54-58 | the `itertools.product` loop collects exactly the galaxies of the image in sorted order |
| Day11.Solve | day11.py:52-66 | the answer is the pair-distance sum of the galaxies of the expanded image |
| Day11.AnswerFew | day11.py:52-66 | fewer than two galaxies give 0, since expansion keeps the galaxy count |
| Day12.HashRun | day12.py:43 | the length of the run of '#' starting at a position, ended by the row's end or a spring that is not '#' |
| Day12.GapRun | day12.py:43 | the length of the run of non-'#' springs starting at a position |
| Day12.RunsBlock | day12.py:43 | a maximal block of `n` damaged springs contributes `n` to the run lengths |
| Day12.FromBlocksRuns | day12.py:42-44 | a known row that the blocks of the pattern match has exactly the listed run lengths |
| Day12.RunsFromBlocks | day12.py:42-44 | a known row with the listed run lengths is matched by the blocks of the pattern |
| Day12.SpringPatternRuns | day12.py:42-44 | on a row without unknowns the compiled pattern matches exactly when the runs of damaged springs have the listed sizes, in order |
| Day12.FirstUnknown | day12.py:27-29 | `index(UNK)` finds the first unknown spring, and its absence is the `ValueError` branch |
| Day12.Substitute | day12.py:32-35 | replacing the first unknown spring by a known state leaves one unknown fewer, so the recursion ends |
| Day12.CountMatches | day12.py:26-36 | the count is at most two to the number of unknown springs |
| Day12.CountKnown | day12.py:29-30 | without unknowns the count is 1 if the pattern accepts the row and 0 otherwise |
| Day12.CompletionsFit | day12.py:32-35 | a completion has the row's length and agrees on every known spring |
| Day12.CompletionsSplit | day12.py:34-35 | the completions split by the state given to an unknown spring |
| Day12.AcceptedSplit | day12.py:34-36 | the accepted completions split into two disjoint sets by the state of an unknown spring |
| Day12.CountIsAccepted | day12.py:26-36 | `_count_matches` counts exactly the accepted completions of the row |
| Day12.ArrangementsAreRuns | day12.py:39-45 | with positive group sizes, the arrangements of a row are its completions whose damaged runs have exactly the listed sizes |
| Day12.CompletionsAreKnown | day12.py:32-35 | a completion of a row of spring symbols holds no unknown |
| Day12.Totals | day12.py:41-46 | one count per row |
| Day12.Solve | day12.py:39-47 | the answer is the sum of the arrangements of all rows, and is not negative |
| Day13.Mirrorable | day13.py:33-34 | the window around the line between rows `i - 1` and `i` reaches one edge of the pattern and stays inside it |
| Day13.RowMismatches | day13.py:37 | two rows differ in at most as many cells as they have |
| Day13.RowMismatchesZero | day13.py:37 | two rows differ in no cell exactly when they are equal |
| Day13.WindowZero | day13.py:35-37 | the window has no mismatch exactly when every row in it equals its mirror image |
| Day13.PerfectMirror | day13.py:32-38 | with no smudge allowed, line `i` is accepted exactly when every row in its window equals its mirror image |
| Day13.FirstFrom | day13.py:32-39 | the scan returns the first line at or after `i` with exactly `smudges` mismatches, or none when no such line exists |
| Day13.ReflectionCases | day13.py:28-39 | on a pattern of at least two rows the result is the least line with `smudges` mismatches, and `None` exactly when there is none |
| Day13.FindReflectionRow | day13.py:28-39 | the loop fails the assertion on fewer than two rows and otherwise returns the first matching line |
| Day13.Transpose | day13.py:49 | `grid.T` swaps rows and columns |
| Day13.TransposeTwice | day13.py:49 | transposing twice gives back the pattern |
| Day13.PerfectColumnMirror | day13.py:49 | with no smudge allowed, a line of the transpose is accepted exactly when every column in its window equals its mirror image |
| Day13.RowScore | day13.py:45-48 | a horizontal line scores a hundred times its row count and takes precedence |
| Day13.ColumnScore | day13.py:49-52 | without a horizontal line the first vertical line scores its column count |
| Day13.NoLineFails | day13.py:53 | with no line either way, `solve` raises `ValueError` |
| Day13.Scores | day13.py:44-53 | one score per pattern |
| Day13.ScoreGrid | day13.py:44-53 | the body of `solve`'s loop computes the pattern's score |
| Day13.Solve | day13.py:42-54 | the total of the scores, or the error of the first pattern that fails |
| Day14.BallsBefore | day14.py:47 | a prefix of `k` cells holds at most `k` balls |
| Day14.BallsMonotone | day14.py:47 | a longer prefix holds at least as many balls |
| Day14.Next | day14.py:31-43 | one step of the inner loop changes nothing below row `r` and keeps the last obstacle at or above `r` |
| Day14.TiltPrefix | day14.py:29-43 | after visiting rows `0 .. r - 1` the rows from `r` on are still untouched |
| Day14.Tilt | day14.py:29-43 | tilting keeps the column's length and its cells among '.', '#' and 'O' |
| Day14.StepInv | day14.py:31-43 | each step of the inner loop keeps the tilt invariant: rocks fixed, the balls seen so far packed under the last obstacle |
| Day14.TiltProperties | day14.py:28-43 | tilting keeps every cube rock in place and the number of balls, moves balls only upwards within their column, and leaves the column settled |
| Day14.TiltSettled | day14.py:28-43 | a settled column does not move |
| Day14.TiltIdempotent | day14.py:28-43 | tilting twice is tilting once |
| Day14.LastObstacle | day14.py:29-41 | the last obstacle is a row above `r`, or -1 |
| Day14.Columns | day14.py:28 | the platform read column by column |
| Day14.TiltNorth | day14.py:26-43 | the tilted platform has the platform's shape |
| Day14.CellLoadBalls | day14.py:47-48 | a row's load is its ball count times its weight |
| Day14.TiltColumn | day14.py:29-43 | the inner loop succeeds exactly when the column holds only '.', '#' and 'O', and then leaves it tilted; no other column changes |
| Day14.Solve | day14.py:25-49 | a cell outside '.', '#' and 'O' raises `ValueError`; otherwise the answer is the load of the tilted platform, and the input is copied, not changed |
| Day14.LoadRows | day14.py:45-48 | the scoring loop weighs rows from the bottom with loads 1, 2, ... |
| Day15.HashAlg | day15.py:21-27 | the loop computes the hash, a left fold over the characters, and the result lies in 0..255 |
| Day15.HashSnoc | day15.py:23-26 | appending a character adds its code, multiplies by 17 and reduces mod 256 |
| Day15.HashEmpty | day15.py:22 | the empty step hashes to 0 |
| Day15.HashRange | day15.py:21-27 | every hash lies in 0..255 |
| Day15.Hashes | day15.py:31 | one hash per step |
| Day15.Solve | day15.py:30-31 | the sum of the step hashes lies between 0 and 255 times the number of steps |
| Day15.SolveAppend | day15.py:30-31 | adding a step adds its hash |
| Day16.OfValue | day16.py:10-14 | `Direction(value)` is the direction with that offset |
| Day16.Reflect | day16.py:24-41 | a cell sends a beam on in one or two directions |
| Day16.BackslashSwaps | day16.py:28-29 | '\' swaps the row and column components, and passing it twice restores the direction |
| Day16.SlashSwaps | day16.py:30-31 | '/' maps `(r, c)` to `(-c, -r)`, and passing it twice restores the direction |
| Day16.SplitterBehaviour | day16.py:32-41 | a splitter passes a beam along its axis and splits any other into the two directions of its axis; an empty cell passes every beam |
| Day16.SuccessorsFollow | day16.py:63-72 | the successors of a beam are exactly the in-grid beams it leads to |
| Day16.ClosedHasReachable | day16.py:58-73 | every set of beams closed under successors holds every beam reachable from the start |
| Day16.EnergizedBounds | day16.py:73 | the energized count lies between 1 and the number of cells |
| Day16.ExpandOne | day16.py:64-72 | one direction of the reflection adds its beam to both the seen set and the queue, unless it is off the grid or already seen |
| Day16.ExpandTurn | day16.py:64-72 | one turn of the inner loop extends the seen beams and the queue by the beam of one more direction |
| Day16.ExpandAll | day16.py:64-72 | the inner loop, in any order of the directions, adds the in-grid beams of all of them to the seen beams and the unseen ones to the queue |
| Day16.MovesAll | day16.py:62-64 | the beams of all the reflected directions are the successors of the popped beam |
| Day16.Expand | day16.py:60-72 | the inner loop adds exactly the successors of the popped beam to the seen beams, and the unseen ones to the queue |
| Day16.ExpandStep | day16.py:61-72 | each pop keeps the worklist invariant and lowers a measure bounded by the number of beams, so the search ends |
| Day16.Solve1 | day16.py:57-73 | a start off the grid raises `IndexError`; otherwise the search finds exactly the beams reachable from the start and the answer is the number of cells they pass through, between 1 and the number of cells |
| Day16.SuccessorsInGrid | day16.py:66-67 | the successors of an in-grid beam are in the grid |
| Day16.SuccessorsReachable | day16.py:64-72 | successors of a reachable beam are reachable |
| Day16.EdgeStarts | day16.py:79-85 | `gen_all` tries `2 * rows + 2 * columns` entry points, all on the grid |
| Day16.RowStarts | day16.py:80-82 | two entry points per row, the first `(0, 0)` towards the right |
| Day16.ColumnStarts | day16.py:83-85 | two entry points per column |
| Day16.EdgeCounts | day16.py:86 | one energized count per entry point |
| Day16.EdgeCountsAt | day16.py:86 | the count at each position is the energized count of the entry point at that position |
| Day16.Solve2 | day16.py:76-87 | a grid without rows or columns makes `max` of nothing fail; otherwise the answer is the largest count over the edge entry points, no less than `solve1`'s |
| Day17.Opposite | day17.py:28-29 | the opposite direction has the negated offset |
| Day17.OppositeInvolution | day17.py:28-29 | `opposite` undoes itself and changes every direction |
| Day17.KeepAllowed | day17.py:32-35 | the directions kept from a list are exactly its members that are neither the u-turn nor, at the limit, straight on |
| Day17.NextDirectionOptions | day17.py:31-36 | the options are exactly the allowed directions, sorted by value, largest first |
| Day17.OptionsShape | day17.py:31-36 | never a u-turn; straight on exactly while the run is below the limit; so three or two options |
| Day17.Step | day17.py:59-68 | a step moves one block, records its direction, extends the run when going straight or restarts it at 1, and adds the heat loss of the block entered |
| Day17.StepsTowards | day17.py:70-79 | the generated steps are exactly the steps towards the options that stay on the grid |
| Day17.PossibleStepsValid | day17.py:70-79 | the steps of a valid state are valid: the run stays within the limit and the heat loss is not negative |
| Day17.ReachedValid | day17.py:84-109 | every state the search can reach is valid |
| Day17.PossibleStepsReached | day17.py:70-79 | the steps of a reachable state are reachable |
| Day17.StackPop | day17.py:98-99 | popping an exhausted generator keeps every stacked state reachable |
| Day17.StackNext | day17.py:95-97 | the state taken from the top generator is reachable, and the rest stays so |
| Day17.StackPush | day17.py:109 | pushing the steps of a reachable state keeps every stacked state reachable |
| Day17.Search | day17.py:92-109 | the depth-first search only records heat losses of reachable states, never raises a recorded cost, and only lowers the best answer |
| Day17.Solve | day17.py:52-110 | a grid without rows raises like the `Solver` constructor; one with a single row or column fails on the first move off it; an answer is the heat loss of some reachable state on the target block |
| Day18.FromLetterSpec | day18.py:15-25 | exactly "U", "L", "D" and "R" are accepted, anything else raises `ValueError`, and an accepted letter names its direction |
| Day18.LetterRoundTrip | day18.py:15-25 | reading a direction's letter gives the direction back |
| Day18.OffsetStep | day18.py:27-29 | `j + 1` steps in a direction are one more shift after `j` steps |
| Day18.Run | day18.py:54-56 | the inner dig loop steps on `n` cells |
| Day18.FinalDisplacement | day18.py:53-56 | the dig ends displaced from its start by the plan's net row and column moves |
| Day18.TraceLength | day18.py:53-56 | one cell stepped on per unit move |
| Day18.AdjacentShift | day18.py:27-29 | a shift in any direction reaches an adjacent cell |
| Day18.AdjacentSym | day18.py:27-29 | adjacency is symmetric |
| Day18.RunWalk | day18.py:54-56 | a run moves one cell at a time from where it starts |
| Day18.UnitMovesConcat | day18.py:53-56 | a walk followed by a walk from where it ends is a walk |
| Day18.WalkRun | day18.py:53-56 | a walk followed by a run from where it ends is a walk to where the run ends |
| Day18.TraceWalk | day18.py:53-56 | the trench is dug one adjacent cell at a time and ends where the plan ends |
| Day18.CellsConcat | day18.py:56 | the cells of two walks together are the union of their cells |
| Day18.CellsEmpty | day18.py:59 | the trench is empty exactly when the plan has no unit move |
| Day18.Dig | day18.py:51-56 | the dig loop marks exactly the cells stepped on and ends where the plan ends |
| Day18.TightUnique | day18.py:59-61 | the smallest box around the trench is unique, so the order of `list(dug)` does not matter |
| Day18.Bounds | day18.py:59-61 | an empty trench makes the column index fail with `IndexError`; otherwise the result is the smallest box holding every trench cell |
| Day18.RouteSnoc | day18.py:81-85 | a route extended by an adjacent cell off the trench is a route |
| Day18.RouteReverse | day18.py:81-85 | a route walked backwards is a route |
| Day18.RouteJoin | day18.py:81-85 | two routes meeting at a cell join into one |
| Day18.EscapeRoute | day18.py:76-80 | two routes from one cell give a route from the end of one to the end of the other |
| Day18.ClosedStep | day18.py:81-85 | a set shut in by the trench holds every neighbour off the trench of each of its cells |
| Day18.RouteInside | day18.py:86-89 | a route starting in a set shut in by the trench never leaves it |
| Day18.ClosedEscapingDisjoint | day18.py:86-89 | no cell is both in a shut-in set inside the box and on a route out of the box, so internal and external never overlap |
| Day18.AllReachedAvoids | day18.py:83-85 | the search never queues a trench cell |
| Day18.ShrinksBox | day18.py:73-75 | searching a new cell inside the box lowers the number of unsearched cells of the box, so the search ends |
| Day18.ExpandedGrow | day18.py:81-85 | a cell whose four neighbours are all trench or known becomes expanded |
| Day18.Neighbours | day18.py:81-85 | the neighbours loop queues the neighbours that are neither dug, searched nor queued, each reached from the start by a route |
| Day18.EscapeAll | day18.py:76-80 | once the search pops a cell outside the box, every searched or queued cell has a route out of the box |
| Day18.Visit | day18.py:74-85 | popping a cell inside the box adds it to the searched cells and keeps the search invariant |
| Day18.Leave | day18.py:74-80 | popping a cell outside the box adds every queued cell to the searched ones, all with routes out of the box |
| Day18.Flood | day18.py:70-85 | the search ends either with the searched cells shut in by the trench and inside the box, or out of bounds with each searched cell on a route out of the box; the start is always searched and no trench cell is |
| Day18.ClosedUnion | day18.py:89 | the union of two shut-in sets is shut in |
| Day18.EscapingUnion | day18.py:87 | the union of two sets with routes out of the box has routes out of the box |
| Day18.Around | day18.py:66-89 | the searches around one trench cell keep internal cells shut in and inside the box, external cells on routes out, and the two apart from the trench and each other |
| Day18.Fill | day18.py:63-89 | the outer loop classifies every searched cell as internal (shut in) or external (on a route out) |
| Day18.Solve | day18.py:50-91 | a plan whose net moves are not zero fails the loop assertion, an empty one fails on indexing; otherwise the answer is the size of the trench plus the internal cells, which are shut in by the trench inside its smallest box and no external cell |
| Day20.KindOf | day20.py:75-82 | the broadcaster needs no symbol and its own name, '%' makes a flip-flop and '&' a conjunction; any other line raises `ValueError` |
| Day20.Send | day20.py:25-28 | one pulse to every neighbour, in neighbour order |
| Day20.BroadcasterForwards | day20.py:23-28 | the broadcaster forwards the pulse unchanged to every neighbour and keeps no state |
| Day20.FlipFlopBehaviour | day20.py:36-43 | a flip-flop ignores a high pulse; a low pulse toggles it and it sends its new state to every neighbour |
| Day20.ConjunctionBehaviour | day20.py:54-63 | a conjunction remembers the pulse from its source and sends low exactly when every remembered input is high |
| Day20.Module.constructor | day20.py:14-17 | a new module has its name, kind and neighbours, a flip-flop off and a conjunction with empty memory |
| Day20.Module.RegisterInput | day20.py:51-52 | registering an input sets its memory entry and changes nothing else |
| Day20.Module.Receive | day20.py:19-63 | `pulse` updates the module and returns the pulses as the reaction of its kind prescribes |
| Day20.Snap | day20.py:66 | the snapshot has one entry per module name |
| Day20.InputsAll | day20.py:84-88 | visiting every module collects exactly the inputs of a conjunction |
| Day20.RegisterWith | day20.py:86-88 | a module registers as low with one neighbour when that neighbour is a conjunction; no other memory or state changes |
| Day20.RegisterWithNeighbors | day20.py:85-88 | one module registers itself as low with each conjunction among its neighbours; nothing else changes |
| Day20.Wire | day20.py:84-88 | after wiring, each conjunction remembers every module that lists it as a neighbour, as low, and nothing else changes |
| Day20.LowPulsesAppend | day20.py:101 | the low pulses of two queues together are the sum of their low pulses |
| Day20.DrainCountsQueue | day20.py:99-107 | every low pulse in the queue is counted, and the counts never go down |
| Day20.PressesLow | day20.py:96-98 | each press counts at least its own low pulse to the broadcaster |
| Day20.AnswerFactors | day20.py:94-108 | after 1000 presses the answer is a product `low * high` with `low` at least 1000 |
| Day20.Deliver | day20.py:102-106 | delivering a pulse to a known module changes only that module, as its reaction prescribes, and returns the pulses it sends |
| Day20.DrainDelivered | day20.py:100-107 | a delivered pulse is counted and the replies join the back of the queue |
| Day20.DrainQueue | day20.py:97-107 | the queue loop of one press updates the modules and counts the pulses as the reference drain does; a pulse to an unknown module is only counted |
| Day20.Solve | day20.py:92-108 | the answer is the product of the low and high counts after 1000 presses |
| Day21.Shift | day21.py:22-24 | a step moves exactly one coordinate by one |
| Day21.SuccsUnion | day21.py:57-61 | the successors of a union are the union of the successors |
| Day21.ExpandSuccs | day21.py:56-61 | the next layer is the successors of the layer that have not been seen |
| Day21.StateReach | day21.py:49-62 | before step `k` the seen places are those reachable in fewer than `k` steps and the search layer holds the rest of those reachable in `k` |
| Day21.StepAlgebra | day21.py:55-62 | one pass turns the state for `k - 1` steps into the state for `k` |
| Day21.ReachMonotone | day21.py:52-62 | what is reachable in fewer steps is reachable in more |
| Day21.LayerDistance | day21.py:51-62 | a place is in layer `k` exactly when its distance from the start is `k` |
| Day21.LayersDisjoint | day21.py:55-61 | each place enters at most one layer |
| Day21.PossibleLayers | day21.py:52-54 | the answer holds exactly the layers of the wanted parity |
| Day21.ZeroSteps | day21.py:51-54 | with no step to take the only place is the start |
| Day21.Pad | day21.py:45 | `np.pad` surrounds the garden with a border of rocks and keeps the rest |
| Day21.PadOpenInterior | day21.py:44-45 | every plot of the padded garden lies off its border, so a step from one stays inside the array |
| Day21.ExpandAdd | day21.py:57-61 | expanding one more place adds its unseen successors |
| Day21.Neighbours1 | day21.py:58-61 | the directions loop adds the unseen plot neighbours of one place |
| Day21.Expand1 | day21.py:56-62 | the loop over the layer computes the next layer |
| Day21.ExpandOpen | day21.py:60 | every place of the next layer is a plot |
| Day21.ExpandInterior | day21.py:60 | the next layer stays off the border |
| Day21.Pass1 | day21.py:52-62 | one pass of `solve1`'s loop advances the search state and the answer by one step |
| Day21.Passes | day21.py:52 | `range(n_steps + 1)` makes `n_steps + 1` passes, none for a negative count |
| Day21.Solve1 | day21.py:42-63 | a missing start fails on `tuple(d + 1 for d in start_loc)`; otherwise the answer is the number of places reached in at most `n_steps` steps with the parity of `n_steps` |
| Day21.PossibleDistance | day21.py:42-63 | the answer counts the places at distance at most `n` whose distance has the parity of `n` |
| Day21.NoSteps | day21.py:42-63 | with no step the answer is 1 |
| Day21.WrapLoc | day21.py:73-77 | `wrap_loc` gives a place on the board, by floor division and modulo |
| Day21.WrapGlobal | day21.py:73-77 | wrapping does not move the place on the plane |
| Day21.DivModUnique | day21.py:75-76 | on the plane a number has one board and one offset |
| Day21.WrapUnique | day21.py:73-77 | the wrapped name is the only on-board name of its place |
| Day21.Succ2Plane | day21.py:89-94 | a step of the part-2 search is a step on the plane onto a plot of the tiled garden |
| Day21.WrapShift | day21.py:90-92 | stepping and then wrapping is stepping on the plane |
| Day21.TiledOnBoard | day21.py:93 | the tiled garden agrees with the garden on wrapped coordinates |
| Day21.Neighbours2 | day21.py:89-94 | the directions loop of `solve2` adds the unseen plot neighbours on the tiled garden |
| Day21.Expand2 | day21.py:88-95 | the loop over the layer of `solve2` computes the next layer |
| Day21.Pass2 | day21.py:83-95 | one pass of `solve2`'s loop advances the search state and the answer by one step |
| Day21.Solve2 | day21.py:70-96 | the same count on the garden tiled over the plane from board (0, 0); with no start the first expansion fails unless the step count is negative |
| Day22.Span | day22.py:25 | `range(lo, 1 + hi)` has `hi - lo + 1` elements, none when `hi < lo` |
| Day22.SpanMember | day22.py:25 | the range holds exactly the integers from `lo` to `hi`, starting at `lo` |
| Day22.Grid2Member | day22.py:25-27 | the nested loops yield exactly the pairs of one value from each range |
| Day22.Grid3Member | day22.py:32-35 | the three nested loops yield exactly the triples of one value from each range |
| Day22.XYPointsCover | day22.py:23-27 | the footprint is the whole rectangle between the two corners, in either order, and never empty |
| Day22.XYZPointsCover | day22.py:30-35 | the cubes are the whole box between the two corners, in either order |
| Day22.Insert | day22.py:40 | inserting a brick keeps the list sorted by lowest z, with one more brick |
| Day22.SortByZ | day22.py:40 | the sort orders the bricks by lowest z and keeps the same bricks |
| Day22.MaxHeight | day22.py:48-52 | the highest level under a non-empty footprint is attained at one of its points and above every other |
| Day22.Fall | day22.py:47-54 | the fall is not negative, and a brick that already overlaps what has landed fails the assertion |
| Day22.MaxHeightSnoc | day22.py:48-52 | one more point of the footprint takes the larger level |
| Day22.SmallestGap | day22.py:47-54 | the footprint loop computes the smallest gap, or the failed assertion |
| Day22.Drop | day22.py:56-62 | a fallen brick keeps its x and y and its height and moves down by the gap |
| Day22.MarkAll | day22.py:65-66 | the loop sets every footprint level |
| Day22.Land | day22.py:44-66 | one brick landed adds one settled brick, or fails the assertion |
| Day22.Footprints | day22.py:48 | the footprint of every brick |
| Day22.SettleAfter | day22.py:44-66 | settling `k` bricks gives `k` settled bricks, or the failed assertion |
| Day22.LandFell | day22.py:56-63 | a landed brick is appended, having fallen by a non-negative gap to a level no lower than 1 |
| Day22.LandTop | day22.py:45-63 | a brick lands with its bottom one above the highest level under its footprint |
| Day22.LandHeights | day22.py:64-66 | after landing the footprint stands at the brick's top and every other level is left alone |
| Day22.XYPointsDrop | day22.py:65 | falling keeps the footprint |
| Day22.SettleShape | day22.py:44-67 | every settled brick is the sorted brick at its position fallen, and every recorded level is at least 1 |
| Day22.CubesOf | day22.py:70-72 | the cubes of every brick |
| Day22.OccOwner | day22.py:69-72 | a cube is registered exactly when some brick has it, and it names the last such brick |
| Day22.MarkAt | day22.py:65-66 | the footprint is set to the new level and every other key stays |
| Day22.OccupyCubes | day22.py:69-72 | the loops register each brick number at its cubes |
| Day22.AboveUpTo | day22.py:77-79 | the bricks above are exactly the other bricks registered one level above a cube of this brick |
| Day22.SafeFound | day22.py:83-90 | a brick with bricks above is counted exactly when none of them rests on it alone |
| Day22.SafeFlags | day22.py:75-90 | one flag per brick, set exactly when removing it makes nothing fall |
| Day22.FreeFlags | day22.py:80-82 | one flag per brick, set exactly when nothing stands on it |
| Day22.CountTrueBounds | day22.py:74-91 | fewer flags give a smaller count, and no count exceeds the number of bricks |
| Day22.CollectAbove | day22.py:76-79 | the loop collects exactly the bricks above |
| Day22.RestsOn | day22.py:84-87 | the `all(...)` test holds exactly when every cube under the upper brick is empty or belongs to one of the two bricks |
| Day22.AnyRests | day22.py:83-88 | the `break` is taken exactly when some brick above rests on this one alone |
| Day22.IsSafe | day22.py:76-90 | the body of the counting loop decides whether the brick is safe |
| Day22.CountLoop | day22.py:74-91 | the loop counts the safe bricks |
| Day22.Settle | day22.py:42-67 | the settling loop computes the settled bricks, or the failed assertion |
| Day22.SettleNext | day22.py:45-54 | one pass of the loop lands the next brick as the settling specification does, or the failed assertion ends the whole solve |
| Day22.LandOne | day22.py:45-66 | the body of the settling loop lands one brick |
| Day22.SettleAfterErr | day22.py:50-54 | a failed assertion ends the whole solve |
| Day22.CountBounds | day22.py:74-91 | the count is at most the number of bricks and at least the number of bricks with nothing on top |
| Day22.Solve | day22.py:38-91 | sort, settle, register and count: the number of safe bricks after settling, or the failed assertion |
| Day23.Opposite | day23.py:29-30 | the opposite direction has the negated offset |
| Day23.ShiftAdjacent | day23.py:32-34 | a step moves exactly one coordinate by one |
| Day23.OppositeInvolution | day23.py:23-30 | the offsets tell the directions apart, and turning round twice restores a direction |
| Day23.ShiftOpposite | day23.py:29-34 | a step and then a step the opposite way comes back |
| Day23.ShiftInjective | day23.py:53-56 | the four neighbours of a cell are four different cells |
| Day23.IceDirection | day23.py:37-42 | exactly the four slope symbols have a direction |
| Day23.NpIndex | day23.py:55 | a numpy index is valid exactly from `-n` to `n - 1`, negative ones counting from the end |
| Day23.At | day23.py:55 | reading the grid inside it gives the cell, and anything else is `IndexError` |
| Day23.OpenFromShifts | day23.py:53-56 | every open neighbour is one step away |
| Day23.OpenFromSize | day23.py:52-57 | the set of open neighbours has one member per open direction |
| Day23.Junctions | day23.py:45-59 | the reference set of junctions: interior path cells without exactly two open neighbours |
| Day23.JunctionOpenCount | day23.py:49-58 | a junction is a path cell whose open-direction count is not 2 |
| Day23.OpenNeighbours | day23.py:52-56 | the direction loop collects exactly the open neighbours |
| Day23.CheckCell | day23.py:49-58 | the body of the cell loop adds a cell exactly when it is a junction |
| Day23.FindJunctions | day23.py:45-59 | `find_junctions` computes exactly the junctions |
| Day23.Least | day23.py:92 | the smallest location of a non-empty set |
| Day23.SortedSet | day23.py:92 | `sorted` lists each member of the set once, in increasing order |
| Day23.SortedUnique | day23.py:92 | only one increasing sequence lists a given set, so the order of the junctions is determined |
| Day23.IndexMap | day23.py:93 | every node of the order is a key, and a key's index is a position holding it, the later position winning |
| Day23.IndexMapInverse | day23.py:93 | on distinct nodes the index map inverts the order |
| Day23.IndexMapSize | day23.py:93-94 | on distinct nodes `n` is the number of nodes |
| Day23.FirstOpenFrom | day23.py:74-77 | the scan finds the first cell of a row that is not a tree |
| Day23.ScanRow | day23.py:74-79 | the `for ... break ... else` scan computes the first open column |
| Day23.NewSolverFails | day23.py:73-89 | construction fails when the grid has no row or when the first or last row is all trees, with `ValueError` in the latter case |
| Day23.NewSolverNodes | day23.py:72-92 | the start is the first open cell of row 0, the end that of the last row, and between them come the junctions in sorted order |
| Day23.NewSolverIndex | day23.py:92-94 | with at least two rows the nodes are distinct, so every node has its own index |
| Day23.NewSolverOneRow | day23.py:92-94 | with one row the start is the end and the later position wins: the start gets index 1 although `n` is 1 |
| Day23.Melted | day23.py:65-70 | `ignore_ice` turns every slope into a path cell and keeps every other cell |
| Day23.MeltCopy | day23.py:66-70 | the copied grid is rewritten; the caller's grid is left alone |
| Day23.Build | day23.py:71-94 | the constructor, once the grid is chosen, computes the reference solver |
| Day23.Init | day23.py:63-94 | `Solver.__init__` builds the solver of the melted grid or of the grid itself |
| Day23.PickStep | day23.py:105-117 | the scan picks a direction from `i` on, or none, or fails by reading outside the grid |
| Day23.PickStepFirst | day23.py:105-117 | the picked direction is the first one not skipped; none means every direction is skipped |
| Day23.NextCell | day23.py:99-120 | one step of a trail fails only with `IndexError` |
| Day23.NextCellAdjacent | day23.py:101-120 | a step of a trail moves to a neighbour |
| Day23.TrailFromEnds | day23.py:96-121 | a trail ends on a node, the step count growing by one per step |
| Day23.TrailFromFaults | day23.py:96-121 | a trail fails only by reading outside the grid or by running out of the step budget |
| Day23.TrailFromStep | day23.py:98-120 | a step off a cell that is not a node marks it seen and continues from the next cell |
| Day23.TrailFromNode | day23.py:98 | a trail that starts on a node ends there at once |
| Day23.ScanDirections | day23.py:105-117 | the direction scan computes `PickStep` |
| Day23.Step | day23.py:99-120 | one step of the trail loop computes `NextCell` |
| Day23.Trailblaze | day23.py:96-121 | `_trailblaze` computes the reference trail |
| Day23.Better | day23.py:131-134 | the new best is one of the two values, no smaller than either, and none only when both are none |
| Day23.LongestUpToStep | day23.py:127-134 | a followed entry updates the best with the search below it |
| Day23.LongestUpToSkip | day23.py:128-129 | a zero entry or a visited node is passed over |
| Day23.WalkIsPath | day23.py:123-135 | the walks the search explores are exactly the paths of the reference definition |
| Day23.LongestBound | day23.py:123-135 | no walk gives more than `dfs_longest`, which is none only when there is no walk |
| Day23.LongestWitness | day23.py:123-135 | when `dfs_longest` returns a value, some walk attains it |
| Day23.LongestIsMax | day23.py:123-135 | `dfs_longest` returns the distance so far plus the greatest walk weight, and none when there is no walk |
| Day23.SimplePathWalk | day23.py:171 | the walks from the start with only the start visited are the simple paths to the end |
| Day23.LongestSimplePath | day23.py:170-171 | the answer is the weight of the longest simple path from the start to the end, and none when there is none |
| Day23.DfsLongest | day23.py:123-135 | the recursive search computes `Longest` |
| Day23.LegEnds | day23.py:154-166 | a leg ends on a node after at least one step, and fails only by an index error or the step budget |
| Day23.Leg | day23.py:155-163 | the body of `solve`'s direction loop follows the trail out of a node |
| Day23.LegsKeptGrow | day23.py:147-168 | a node whose legs are kept stays so as the reached nodes and the written entries grow |
| Day23.LegsKeptNone | day23.py:157-165 | a direction whose leg reaches no node (a tree, a slope pointing back, or a dead end) has nothing to record |
| Day23.LegsKeptNext | day23.py:165-168 | recording a leg and queueing its node extends the kept legs by one direction |
| Day23.RecordLeg | day23.py:166 | `adjacency[i, j] = n_steps` sets that entry, keeps every nonzero entry explained by a traced leg, and keeps every earlier written entry positive |
| Day23.ExploreLeg | day23.py:155-168 | one direction fails only by an index error or the step budget; otherwise its leg, if it reaches a node, has a positive entry and its node is searched or queued, the queue only grows, and no searched node is added to it |
| Day23.Explore | day23.py:154-168 | the direction loop fails only by an index error or the step budget; otherwise every nonzero entry stays a traced leg, every leg from the node that reaches a node has a positive entry, and that node is searched or queued, the queue only growing and gaining no searched node |
| Day23.KeptAfter | day23.py:148-168 | after a pass of the worklist loop every searched node but the start and the end has every leg recorded and its node searched or queued |
| Day23.Visit | day23.py:148-168 | one pass pops some queued node, marks it searched and explores it unless it is the end; every node searched or queued before is searched or queued after, every searched node but the start and the end still has every leg recorded and its node searched or queued, and either the searched set grows or fewer queued nodes are already searched |
| Day23.Search | day23.py:147-168 | the worklist loop fails only by an index error or the step budget; otherwise, whichever node `pop` returns, the set it searched holds the start and the first node, every nonzero entry is a traced leg, and every leg from a searched node other than the start and the end has a positive entry and ends on a searched node |
| Day23.MarkedRows | day23.py:166-171 | the positive entries written into the matrix are positive entries of its rows |
| Day23.KeptRecorded | day23.py:140-168 | the searched set is closed under legs, and each leg from it is a nonzero entry of the matrix |
| Day23.FillAdjacency | day23.py:139-168 | filling the matrix fails only with index, key, assertion or budget errors; otherwise the first leg down from the start is entered, and the searched set holds the start, is closed under legs, and has every leg out of it entered |
| Day23.RecordedTraced | day23.py:139-168 | every nonzero entry of the matrix is the length of a traced leg |
| Day23.Solve | day23.py:137-171 | on success the answer is `dfs_longest` from the start over the matrix built; each nonzero entry is a traced leg, and the matrix has an entry for every leg out of a set of nodes that holds the start and is closed under legs (the first leg from the start, every leg from the others but the end); failures are index, key, assertion or budget errors |

## Left out

- Input reading (`read_input`, `readInput`), the regular-expression field extraction of the parsers, and all printing (`main`, `pprint`, `println`, `console.log`). These are I/O. The solvers take the parsed values as parameters, with the shape the parsers produce (for example a rectangular grid, or a day 21 start inside the garden).
- day19.py is not part of this model. Its part parser and its rule conditions both run `eval` on input text, so its behaviour belongs to the interpreter.
- day20_pytorch.py is not part of this model. It runs the same module network on torch tensors and shuffles with `random`; day20.py is modelled instead.
- day24.py is not part of this model. It is float64 linear algebra with tolerance tests, plus a call into the z3 solver.
- day25.py is not part of this model. Its answer rests on a hard-coded list of edges to cut, chosen for one input.
- template.py is not part of this model. Its `solve` is an empty stub.
- No source file detects cycles, folds phases or synchronises several walkers, so none of that is modelled.
- Floats that stand in for integers are modelled as integers: the `-float("inf")` start of the maximum in day07.py and the `(2.0).pow` score in kotlin/Day04.kts.
- Kotlin `Int`, TypeScript `number` and numpy `int` (int64) arithmetic are unbounded integers here. 32-bit and 64-bit wrap-around and precision loss on very large sums are not modelled. This covers the int64 rows of day09.py (lines 14-17): their differences and the `cur` sums (lines 28-32 and 43-47) wrap on overflow, and the model's do not.
- Kotlin `Char.isDigit` and Python `str.isdigit` are modelled as the ASCII digits '0'..'9'. Other Unicode digits are not modelled.
- Day02Ts.IsSpace: the JavaScript `\s` of the pull expression is modelled as the ASCII white space (space, tab, line feed, carriage return, vertical tab, form feed). The Unicode spaces it also matches, such as U+00A0 and U+2028, are not modelled.
- Day01Ts.ToDigit, Day01Kt.ToDigitAgrees: `DIGITS_BY_NAME[num]` on a key inherited from `Object.prototype` ("constructor", "toString", "__proto__" and the like) returns that member, not `undefined`; the model returns `None`. `toDigit` is only applied to matches of the digit-or-name expression, so no answer depends on it.
- Day03Kt.CountDigits: the model follows the JVM default, where `assert` is not checked. Run with `-ea`, a non-empty row starting with a non-digit would throw `AssertionError`. Both callers pass a row that starts with a digit, so no answer depends on it.
- Exceptions become `Err` values that name the exception: a missing digit, a failed `!!`, `reduce` on an empty array, a Python `assert`, a missing dictionary key, an index outside a list or array.
- Day08.Solve, Day08.Walk: the walk has a `fuel` budget. A walk that never reaches "ZZZ" within it ends in `Err(OutOfFuel)`; the source loops for ever.
- Day10.Solve1, Day10.TraceFrom: the pipe trace has a `fuel` budget. A malformed loop longer than the budget is not followed.
- Day10.Flood: the flood fill of `solve2` has a `fuel` budget. Past the budget it reports failure instead of continuing.
- Day17.Solve: the depth-first search has a `fuel` budget. It proves only soundness: a reported heat loss is the total of a state that really reaches the bottom-right block. That it is the least such total is not proved.
- Day17.Solve: the source keeps a stack of lazy generators. The model keeps a stack of eagerly computed successor lists. `gen_possible_steps` is pure, so both yield the same states in the same order.
- The recursion-limit change in the `main` of day17.py is not modelled.
- Day18.Solve, Day18.Fill: the classified ground is proved closed, inside the box, and disjoint from the trench and from the outside. That it is exactly the ground the trench encloses is not proved.
- Day18.Fill: the next cell taken from `dug` or from a work set is an arbitrary member, because Python's set iteration order is not part of the program's meaning.
- Day20.Solve, Day20.Presses, Day20.Drain: draining the pulse queue has a `fuel` budget. A pulse storm longer than the budget ends in `Err(OutOfFuel)`.
- Day20.Wire: the dictionary iteration order of the module map is a parameter, a sequence of the module names.
- Day22.SortByZ: the order of blocks with the same lowest z is the sort's choice. The model proves only that the blocks come out ascending and as a permutation; it does not prove stability.
- Day23.Trailblaze, Day23.Leg, Day23.Solve: every trail has a `fuel` budget of steps. A leg longer than the budget ends the search with `Err(OutOfFuel)`.
- Day23.Solve, Day23.Search: when two legs from one node reach the same node, the entry holds the length of the later one, as in the source. The contracts say only that the entry is positive and is the length of some traced leg, not which one.
- Day23.Search: the node that `to_search.pop()` returns is left open. Any element of the work set may be chosen.
- Day23.Trailblaze: the `seen` set is a value, not a shared object. The source's `solve` passes a fresh set on every call and never reads it afterwards, so no caller can observe the difference.

## Findings

| source | as written | input that shows it | evidently intended | confidence | as-written member | corrected member |
|---|---|---|---|---|---|---|
| day03.py:78-84 | `_collect_adjacent_numbers` indexes `data[new_r, new_c]` without a bounds test. For a gear in the top row, `new_r == -1`, which numpy reads as the last row, so numbers of the bottom row count as adjacent | grid `.*.` / `...` / `2.3`: the gear at (0, 1) touches no number, yet it collects 2 and 3, adding a ratio of 6 | look only at neighbours inside the grid, as `_has_symbol_neighbor` does | not executed | Day03.WrapCounterexample | Day03.CollectTouching |
