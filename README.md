# cespare/misc — a verified Dafny model of its sequential programs

cespare/misc is a collection of small, independent Go programs. This project
models the ones whose behaviour is sequential and deterministic, file by file,
and proves what each of them promises.

| Dafny module (file) | Go source | what it is |
|---|---|---|
| `LinkedList` (list.dfy) | list/list.go | singly linked lists of ints; operations that relink `Node` objects in place |
| `ParamHeap` (paramheap.dfy) | paramheap/paramheap.go | a generic min-heap that reports each element's slice index |
| `D2Symbols` (d2symbols.dfy) | d2symbols/d2symbols.go | a 3x3 symbol-grid puzzle solved by breadth-first search |
| `Softdrink` (softdrink.dfy) | softdrink/softdrink.go | a backtracking search on a 4x4 grid of drink dispensers |
| `Bee` (bee.dfy) | bee/bee.go | Spelling Bee letter sets, puzzle loading, matching and scoring |
| `SliceResponse` (sliceresponse.dfy) | sliceresponse/sliceresponse.go | the request and response wire formats (varint, big-endian, raw memory) |
| `UseMon` (usemon.dfy) | usemon/usemon.go | the `/proc/[pid]/stat` scanner of proc(5) |
| `DrainAlgo` (drainalgo.dfy) | drainalgo/drainalgo.go | three simulated pool-draining heuristics |
| `S3Put` (s3put.dfy) | s3put/upload.go | multipart part sizing (at most 10000 parts of at least 5 MiB) and the retry backoff |
| `I128` (i128.dfy) | i128/int128.go | 128-bit integers as two int64 halves |
| `GoldmarkPos` (goldmarkpos.dfy) | goldmarkpos/goldmarkpos.go | the line and column of a byte offset |
| `BtRegression` (btregression.dfy) | btregression/btregression.go | a 256-bit byte set |
| `Advent`, `AdventDay1` … `AdventDay9` (advent*.dfy) | advent/advent.go, advent/day1.go … day9.go | Advent of Code 2017, days 1 to 9, and their registry |
| `GoBase`, `GoBits`, `GoStrings` | — | Go's integer widths, bitwise operators and the `strings`/`strconv`/`bufio` functions the programs call |

Conventions of the model:

- Go's fixed-width integers are ranges of Dafny's `int`. Wrap-around is written out (`Wrap64`, `ToUint64`) wherever the source relies on it or could overflow in a way that matters.
- Go strings are Dafny strings. Where a program indexes bytes, each `char` stands for one byte. Raw binary data is a sequence of bytes (`Byte`, 0..255).
- A `(value, error)` or `(value, ok)` return becomes a `Result` or `Option`. An explicit `panic(...)` becomes an error value or a `false` return. The state is left unchanged, except where the source panics part way through an update, as in `SliceResponse`: there the state is the one the source had reached when it panicked.
- An implicit runtime panic (an index out of range, a division by zero) that input the program accepts can reach is modelled as an error value too, with the state handled the same way: for example day 2's division by zero, day 5's and day 6's empty list, the empty heap of `ParamHeap`, and `&rsp.s[0]` of an empty unsafe response.
- Only the implicit panics listed under "Left out" become preconditions instead. Each is either excluded by every caller or stands for input the program does not handle, such as a cyclic list.
- Reading stdin, command-line argument handling and printing become parameters and results. Each solution of `advent` is modelled as a method from its input text (or arguments) to its answers.
- Objects the programs update in place are classes: the solution registry, `Node`, `Heap`, the three pools, `retries`, `spiralState`, `machine1`/`machine2`, `memory`, the day 7 tower, `cpu`, softdrink's `state`, the request and response with their writer and reader, and the byte-set words. Each method is specified by a function of the old state, and the properties are proved about those functions.

## Model

| member | source | states |
|---|---|---|
| Advent.Registry.constructor | advent/advent.go:34 | no solution is registered |
| Advent.Registry.Register | advent/advent.go:36-41 | a new name is added with its function; a name already registered is the duplicate panic, reported as `false`, and changes nothing |
| Advent.DigitRun | advent/advent.go:56-62 | the loop stops at the first byte that is not a digit: everything before it is a digit |
| Advent.SplitName | advent/advent.go:55-68 | the loop and `Atoi` compute `SplitNameOf` |
| Advent.SplitNameParts | advent/advent.go:55-68 | success exactly when the name starts with a digit run whose value fits an int; then the name is the digits followed by a suffix not starting with a digit, and the number is their value; otherwise the `Atoi` error panics |
| Advent.NameLess | advent/advent.go:43-53 | defined exactly when both names split |
| Advent.NameLessStrictOrder | advent/advent.go:43-53 | `nameLess` is irreflexive, asymmetric and transitive, as `sort.Slice` needs |
| Advent.NameLessTotal | advent/advent.go:43-53 | two names are unordered both ways exactly when they split into the same number and suffix |
| Advent.NameLessNumeric | advent/advent.go:43-53 | "9b" sorts before "10a", the reverse of string order |
| AdventDay1.Match | advent/day1.go:22-55 | a digit adds its value (at most 9), and only when it equals the digit `off` places further round the circle |
| AdventDay1.FirstNonDigit | advent/day1.go:27-52 | none exactly when every byte is a digit; otherwise the first non-digit, after only digits |
| AdventDay1.Day1a | advent/day1.go:14-35 | "need 1 arg" unless there is exactly one argument; otherwise the captcha with offset 1 (the wrap to 0 of the last digit included) |
| AdventDay1.Day1b | advent/day1.go:37-58 | "need 1 arg", then "need even number of digits" for an odd length; otherwise the captcha with offset half the length |
| AdventDay1.FirstNonDigitAt | advent/day1.go:27-29 | the first non-digit is the one reported |
| AdventDay1.MatchSumBound | advent/day1.go:20-33 | the sum over `k` digits is at most `9k` |
| AdventDay1.CaptchaBound | advent/day1.go:20-34 | the captcha succeeds exactly on all-digit input, with a sum of at most 9 per digit |
| AdventDay1.SecondHalf | advent/day1.go:47-56 | with offset half the length, the second half matches exactly as the first |
| AdventDay1.AllDigitsPrefix | advent/day1.go:21-29 | a prefix of digits is digits |
| AdventDay1.ModOnce | advent/day1.go:48 | `(i + n/2) % n` subtracts `n` at most once |
| AdventDay1.HalfwayTwice | advent/day1.go:37-58 | the halfway captcha is twice the sum over the first half |
| AdventDay1.Example | advent/day1.go:14-35 | "1122" gives 3 |
| AdventDay2.CollectMeaning | advent/day2.go:73-80 | collecting results succeeds exactly when every one does, giving their values in order; otherwise it gives the first failure's error |
| AdventDay2.CollectFails | advent/day2.go:75-77 | once a result fails, later ones change nothing |
| AdventDay2.FieldResults | advent/day2.go:73-74 | one `ParseInt` per field |
| AdventDay2.LineResults | advent/day2.go:70-80 | one row per line |
| AdventDay2.FieldsMeaning | advent/day2.go:71-79 | a row parses exactly when each of its fields does, to their values |
| AdventDay2.RowsMeaning | advent/day2.go:67-86 | the matrix parses exactly when every line does, one row per line; otherwise the error is the first bad line's |
| AdventDay2.CollectStep | advent/day2.go:78-80 | one more good result appends its value |
| AdventDay2.ParseFields | advent/day2.go:72-79 | the field loop computes the collected row |
| AdventDay2.ParseMatrix | advent/day2.go:67-86 | `parseMatrix` over the text's lines |
| AdventDay2.ScanRows | advent/day2.go:69-81 | the scanner loop computes the collected rows |
| AdventDay2.MinOfMeaning | advent/day2.go:28-36 | the minimum is in the row and no larger than any entry |
| AdventDay2.MaxOfMeaning | advent/day2.go:28-36 | the maximum is in the row and no smaller than any entry |
| AdventDay2.SpreadsMeaning | advent/day2.go:24-38 | the sum of spreads exists exactly when no row is empty, and is non-negative; otherwise "empty row" |
| AdventDay2.SpreadsFails | advent/day2.go:25-27 | an empty row stops the sum, whatever follows |
| AdventDay2.SpreadsStep | advent/day2.go:37 | one more row adds its maximum minus its minimum |
| AdventDay2.MinMax | advent/day2.go:28-36 | the loop finds the minimum and the maximum |
| AdventDay2.Checksum | advent/day2.go:23-39 | "empty row" for a matrix with an empty row, else the sum of spreads with int64 wrap-around |
| AdventDay2.ChecksumExact | advent/day2.go:37 | a sum that fits int64 is exact and non-negative |
| AdventDay2.PairScanNone | advent/day2.go:51-62 | a row that adds nothing has no pair whose smaller value is 0 or divides the larger |
| AdventDay2.PairScanFirst | advent/day2.go:51-62 | otherwise the pairs are tried in order and the first decisive one gives the result: its quotient, or the division-by-zero panic when the smaller value is 0 |
| AdventDay2.QuotientSumFails | advent/day2.go:50-63 | a panic in a row ends the run, whatever follows |
| AdventDay2.RowSearch | advent/day2.go:51-62 | the two loops compute `PairScan` of the row |
| AdventDay2.DivisibleSum | advent/day2.go:42-65 | the first panic, or the sum of the rows' quotients with int64 wrap-around |
| AdventDay2.RowQuotient | advent/day2.go:51-62 | a row adds nothing exactly when it has no decisive pair, and otherwise adds its first decisive pair's outcome |
| AdventDay3.Step | advent/day3.go:99-110 | `advance` on the walker keeps the direction index in 0..3 |
| AdventDay3.WalkTo | advent/day3.go:87-114 | the walker after `k` advances from `newSpiralState` |
| AdventDay3.AdvanceRect | advent/day3.go:99-110 | the rectangle of visited cells grows by one side exactly when the walker turns |
| AdventDay3.AdvanceWellFormed | advent/day3.go:99-110 | `advance` keeps the walker's relations: leg length at least 1, steps left within it, parity that of the direction |
| AdventDay3.AdvanceCovers | advent/day3.go:99-113 | each advance reaches a cell never visited before, and the visited cells grow by exactly that cell |
| AdventDay3.StepCovers | advent/day3.go:108-113 | the same for a step along a leg |
| AdventDay3.TurnCovers0 | advent/day3.go:100-113 | the same for a turn from direction 0 |
| AdventDay3.TurnCovers1 | advent/day3.go:100-113 | the same for a turn from direction 1 |
| AdventDay3.TurnCovers2 | advent/day3.go:100-113 | the same for a turn from direction 2 |
| AdventDay3.TurnCovers3 | advent/day3.go:100-113 | the same for a turn from direction 3 |
| AdventDay3.WalkWellFormed | advent/day3.go:87-114 | every walker reached from the start keeps those relations |
| AdventDay3.WalkCoversPos | advent/day3.go:99-113 | after `k` advances, cells 1 to `k + 1` are visited |
| AdventDay3.WalkCoveredPos | advent/day3.go:99-113 | and only they: a visited cell is cell `i` for some `i` in 1..k+1 |
| AdventDay3.PosInjective | advent/day3.go:111-112 | distinct indexes have distinct coordinates, so `coordToIndex` is well defined |
| AdventDay3.FreshPos | advent/day3.go:111-112 | a later cell is never an earlier one |
| AdventDay3.PosNext | advent/day3.go:99-113 | cell `j` is where the advance after cell `j - 1` lands |
| AdventDay3.LegSumNext | advent/day3.go:100-107 | the leg lengths 1, 1, 2, 2, 3, 3, ... add up leg by leg |
| AdventDay3.RingBoxNext | advent/day3.go:100-108 | each turn grows the visited rectangle to the next ring's |
| AdventDay3.SpiralStep | advent/day3.go:99-110 | one advance keeps the walker on the spiral |
| AdventDay3.LegStep | advent/day3.go:108-110 | the same along a leg |
| AdventDay3.TurnStep | advent/day3.go:100-110 | the same at a turn |
| AdventDay3.TurnLeg | advent/day3.go:100-107 | after a turn the leg length and the index agree with the spiral's leg sums |
| AdventDay3.TurnRect | advent/day3.go:100-108 | after a turn the visited rectangle is the next ring box |
| AdventDay3.TurnFields | advent/day3.go:100-107 | a turn moves to the next direction, lengthens the leg after an odd direction, and starts the leg |
| AdventDay3.LegLenNext | advent/day3.go:102-105 | the next leg is one longer exactly after directions 1 and 3 |
| AdventDay3.WalkOnSpiral | advent/day3.go:87-114 | every walker reached from the start is on the spiral |
| AdventDay3.LegSumMonotone | advent/day3.go:100-107 | the leg sums grow |
| AdventDay3.Reaches | advent/day3.go:133-138 | a cell not yet visited after `k` advances is reached by index `Reach(c)`, so the loop of `spiralIndex` ends |
| AdventDay3.OutsideRing | advent/day3.go:133-138 | a cell outside ring box `j` is on ring `j` or further out |
| AdventDay3.ReachesOnSpiral | advent/day3.go:133-138 | the same bound from any walker on the spiral |
| AdventDay3.ReachBound | advent/day3.go:133-138 | the bound stated on the leg sums |
| AdventDay3.IndexMapAt | advent/day3.go:77-111 | `indexToCoord` after `n` cells maps exactly 1..n, each to its cell |
| AdventDay3.CoordMapKey | advent/day3.go:78-112 | `coordToIndex` maps each key to an index in 1..n whose cell it is |
| AdventDay3.CoordMapAt | advent/day3.go:78-112 | and holds every visited cell, with its index |
| AdventDay3.MapsInverse | advent/day3.go:76-113 | the two maps are inverse to each other |
| AdventDay3.Unvisited | advent/day3.go:129-132 | a cell missing from `coordToIndex` is none of cells 1..n |
| AdventDay3.UnvisitedReach | advent/day3.go:133-138 | such a cell is reached by index `Reach(c)` |
| AdventDay3.Fresh | advent/day3.go:111-112 | the next cell is not in `coordToIndex` yet |
| AdventDay3.SpiralState.constructor | advent/day3.go:87-95 | `newSpiralState`: cell 1 at the origin in both maps, the walker at the start |
| AdventDay3.SpiralState.Move | advent/day3.go:100-110 | the walker fields advance by `Step`; the count and maps are untouched |
| AdventDay3.SpiralState.Advance | advent/day3.go:99-114 | the count goes up by one, the walker advances, the new cell is fresh and both maps gain exactly it |
| AdventDay3.SpiralCoords | advent/day3.go:116-125 | the "input must be >= 1" panic below 1; otherwise the coordinates of cell `n` |
| AdventDay3.SpiralIndex | advent/day3.go:127-140 | the index of the cell at (x, y), found or reached by advancing, which always ends |
| AdventDay3.Neighbors | advent/day3.go:60-72 | the indexes of the eight cells around cell `n`, in the order listed; the panic below 1 |
| AdventDay3.AroundCells | advent/day3.go:62-71 | eight neighbouring cells |
| AdventDay3.Day3a | advent/day3.go:14-35 | "need 1 arg", the ParseInt error, the panic below 1, or the Manhattan distance of cell `n` from cell 1 |
| AdventDay3.UnitStep | advent/day3.go:99-113 | consecutive cells are next to each other |
| AdventDay3.StepMoves | advent/day3.go:108 | each advance moves one cell |
| AdventDay3.UnitDir | advent/day3.go:97 | each direction is one cell long |
| AdventDay4.InsertRunes | advent/day4.go:44-46 | inserting a rune adds it to the runes |
| AdventDay4.InsertSorted | advent/day4.go:44-46 | inserting into sorted runes keeps them sorted, with the smaller of the two first |
| AdventDay4.SortRunesSpec | advent/day4.go:44-46 | sorting a word's runes gives them sorted, the same runes |
| AdventDay4.SortRunesSorted | advent/day4.go:44-46 | the result is sorted |
| AdventDay4.SortRunesKeeps | advent/day4.go:44-46 | the result has the same runes |
| AdventDay4.SortedUnique | advent/day4.go:44-46 | two sorted words with the same runes are equal, so sorting's result does not depend on the sort used |
| AdventDay4.SameLength | advent/day4.go:44-46 | the same runes make the same length |
| AdventDay4.Tail | advent/day4.go:44-46 | dropping the first rune drops it from the runes and keeps sortedness |
| AdventDay4.SameFirst | advent/day4.go:44-46 | sorted words with the same runes start alike |
| AdventDay4.MinOfSorted | advent/day4.go:44-46 | a sorted word starts with its least rune |
| AdventDay4.SortRunesAnagram | advent/day4.go:44-47 | two words sort alike exactly when they are anagrams |
| AdventDay4.SortAll | advent/day4.go:43-46 | one sorted word per field |
| AdventDay4.SortAllAt | advent/day4.go:43-46 | the word at `i` is field `i` sorted |
| AdventDay4.DistinctSortedIff | advent/day4.go:43-51 | the sorted words are all different exactly when no two fields are anagrams |
| AdventDay4.NoRepeatLine | advent/day4.go:22-28 | the `seen` loop finishes exactly when no field repeats |
| AdventDay4.NoAnagramLine | advent/day4.go:42-51 | the `seen` loop over sorted words finishes exactly when no two fields are anagrams |
| AdventDay4.AnagramFreeIsRepeatFree | advent/day4.go:17-58 | a line valid for 4b is valid for 4a |
| AdventDay4.CountPassphrases | advent/day4.go:17-58 | the count is the number of lines valid under the policy |
| AdventDay4.CountStep | advent/day4.go:21-30 | each line adds one when valid |
| AdventDay4.CountAtMostLines | advent/day4.go:21-30 | the count is at most the number of lines |
| AdventDay4.AnagramCountAtMostRepeatCount | advent/day4.go:17-58 | the 4b count is at most the 4a count |
| AdventDay5.Bumped | advent/day5.go:48-91 | only the offset jumped by changes |
| AdventDay5.BumpExact | advent/day5.go:44-48 | a jump that stays in the list never makes the offset wrap around |
| AdventDay5.Wrap64Over | advent/day5.go:44 | a sum just past the int64 maximum wraps to a negative target, which leaves the list |
| AdventDay5.StrangeSettles | advent/day5.go:86-90 | the 5b rule moves an offset one towards 2..3 and keeps it there |
| AdventDay5.StepsMoreFuel | advent/day5.go:31-71 | a run that ends within some fuel gives the same count with more |
| AdventDay5.StepsBound | advent/day5.go:31-71 | a run that ends counts between 1 and the fuel plus one steps |
| AdventDay5.Example | advent/day5.go:16-36 | 0, 3, 0, 1, -3 is left after 5 steps |
| AdventDay5.Machine1.constructor | advent/day5.go:30 | `machine1{insns: input}` with `pc` 0 |
| AdventDay5.Machine1.Step | advent/day5.go:43-51 | false and no change when the jump leaves the list; otherwise true, the offset goes up by one and `pc` moves to the target |
| AdventDay5.Machine2.constructor | advent/day5.go:67 | `machine2{insns: input}` with `pc` 0 |
| AdventDay5.Machine2.Step | advent/day5.go:80-94 | the same with the offset going down by one from 3 up and up by one below |
| AdventDay5.Run1 | advent/day5.go:31-34 | the loop counts the `step` calls up to the one that leaves, as `Steps` |
| AdventDay5.Day5a | advent/day5.go:16-36 | the ParseInt error, the index panic of an empty list, or the count of steps |
| AdventDay5.Run2 | advent/day5.go:68-71 | the same for `machine2` |
| AdventDay5.Day5b | advent/day5.go:53-73 | the same with the 5b rule |
| AdventDay6.FormatIntNoComma | advent/day6.go:53 | `%d` never writes a comma |
| AdventDay6.FormatIntSign | advent/day6.go:53 | `%d` starts with '-' exactly for negative numbers |
| AdventDay6.FormatIntInjective | advent/day6.go:53 | distinct numbers print differently |
| AdventDay6.EncodeEnds | advent/day6.go:50-56 | the string form is empty exactly for no banks, and otherwise ends with ',' |
| AdventDay6.LastField | advent/day6.go:50-56 | a comma-free field after a comma boundary is determined |
| AdventDay6.CommaInLonger | advent/day6.go:50-56 | a longer field that ends at the same place contains a comma |
| AdventDay6.DropComma | advent/day6.go:53 | the trailing comma can be dropped from both sides |
| AdventDay6.EncodeInjective | advent/day6.go:50-56 | configurations with the same string form are the same, so the `seen` map keyed by strings tracks configurations |
| AdventDay6.SplitLast | advent/day6.go:52 | a non-empty list is its front and its last bank |
| AdventDay6.Pick | advent/day6.go:59-66 | the chosen bank is an index of the banks; no banks leave max -1, index 0 |
| AdventDay6.PickIsFirstMax | advent/day6.go:59-66 | all banks negative: max -1 and index 0; otherwise the first bank holding the largest count |
| AdventDay6.Deal | advent/day6.go:68-71 | dealing keeps the number of banks |
| AdventDay6.NextIndex | advent/day6.go:69 | `(j + 1) % len` steps to the next bank, round to 0 after the last |
| AdventDay6.CycleOf | advent/day6.go:58-72 | a cycle keeps the number of banks |
| AdventDay6.SumUpdate | advent/day6.go:67-70 | changing one bank changes the total by the difference |
| AdventDay6.BankAtMostSum | advent/day6.go:58-72 | with non-negative banks, a bank is at most the total |
| AdventDay6.SumNonNegative | advent/day6.go:58-72 | non-negative banks have a non-negative total |
| AdventDay6.DealAdds | advent/day6.go:68-71 | dealing `m` blocks adds `m` to the total and keeps banks non-negative |
| AdventDay6.CycleKeepsTotal | advent/day6.go:58-72 | a cycle keeps the total number of blocks and keeps banks non-negative |
| AdventDay6.Memory.constructor | advent/day6.go:15-22 | the memory holds the banks given |
| AdventDay6.Memory.String | advent/day6.go:50-56 | the loop writes each bank's `%d` and a comma |
| AdventDay6.Memory.Cycle | advent/day6.go:58-72 | the banks become `CycleOf` of the old banks |
| AdventDay6.Next | advent/day6.go:58-72 | one cycle, keeping the number of banks |
| AdventDay6.IterateLast | advent/day6.go:26-38 | `n + 1` cycles are one more after `n` |
| AdventDay6.IterateAdd | advent/day6.go:26-43 | `m` cycles then `n` are `m + n` |
| AdventDay6.IterateKeepsTotal | advent/day6.go:26-43 | any number of cycles keeps the number of banks, the total and non-negativity |
| AdventDay6.OccursMeaning | advent/day6.go:24-35 | seen within `k` steps means equal to one of the first `k` configurations |
| AdventDay6.LoopIsDistance | advent/day6.go:26-43 | the second answer is the distance back to the earlier occurrence of the repeated configuration |
| AdventDay6.LoopNotLonger | advent/day6.go:37-43 | the repeated configuration comes back after that distance |
| AdventDay6.EarlierRepeat | advent/day6.go:26-43 | a shorter loop would have made an earlier repeat |
| AdventDay6.IterateCycle | advent/day6.go:27-38 | one more step is one `cycle` |
| AdventDay6.EncodeIsString | advent/day6.go:50-56 | `String` is a faithful key |
| AdventDay6.KeyInjective | advent/day6.go:24-35 | equal keys mean equal configurations |
| AdventDay6.SeenUpToMeaning | advent/day6.go:24-35 | a key is in `seen` exactly when its configuration is among the first `i` |
| AdventDay6.SeenIff | advent/day6.go:28-34 | the lookup finds the new key exactly when the configuration repeats, and `seen` then gains it |
| AdventDay6.NoReturnWithinMeaning | advent/day6.go:37-43 | no return within `n` steps means none of steps 1..n returns |
| AdventDay6.NoRepeatWithinMeaning | advent/day6.go:26-35 | no repeat within `n` steps means none of steps 1..n repeats |
| AdventDay6.FoundFirst | advent/day6.go:26-35 | the first step found repeating is the first answer |
| AdventDay6.CycleAgain | advent/day6.go:27-38 | one `cycle` call gives the next configuration |
| AdventDay6.Probe | advent/day6.go:27-29 | cycle and look up: found exactly when the configuration repeats |
| AdventDay6.KeyOf | advent/day6.go:28-39 | the key of the current banks |
| AdventDay6.FindRepeat | advent/day6.go:24-35 | the first loop returns the first step at which a configuration repeats, with that configuration's string; or no repeat within the fuel |
| AdventDay6.MeasureLoop | advent/day6.go:37-43 | the second loop returns the fewest steps that bring the configuration back; or none within the fuel |
| AdventDay6.Day6 | advent/day6.go:14-44 | the ParseInt error, the index panic of no banks, or both answers (first repeat and loop length); when the first loop runs out of fuel, no repeat within it; when the second does, the first answer and no return within the fuel |
| AdventDay7.TrimAll | advent/day7.go:179-181 | trimming keeps one name per comma-separated piece |
| AdventDay7.TowerProgOf | advent/day7.go:159-184 | an accepted line always yields a non-empty program name without spaces |
| AdventDay7.ParseTowerProg | advent/day7.go:159-184 | the split at the first "->", the two-field self part, the parenthesised weight check, `Atoi` and the trimmed child list give exactly `TowerProgOf` |
| AdventDay7.TrimNames | advent/day7.go:179-181 | the loop that trims every child name gives `TrimAll` of the pieces |
| AdventDay7.ListPartRoundTrip | advent/day7.go:178-182 | splitting a printed child list at ',' and trimming gives the children back |
| AdventDay7.SplitLine | advent/day7.go:162 | `SplitN(s, "->", 2)` of a printed line gives the self part alone, or the self part and the child list |
| AdventDay7.SelfFields | advent/day7.go:163-168 | `Fields` of a printed self part is exactly its name and its parenthesised weight |
| AdventDay7.WeightShape | advent/day7.go:169-176 | a printed weight passes the parenthesis check and `Atoi` gives the number back |
| AdventDay7.ParseLine | advent/day7.go:159-184 | parsing a printed program (name, weight, children) gives that program back |
| AdventDay7.ParseLineAlone | advent/day7.go:178 | a line without "->" parses to a program without children |
| AdventDay7.ParseLineHolding | advent/day7.go:178-182 | a line with "->" parses to the listed children |
| AdventDay7.RejectsBareWeight | advent/day7.go:169-171 | a weight word not starting with '(' is refused as a bad weight part |
| AdventDay7.ChildNamesMeaning | advent/day7.go:30-35 | a name is marked in `hasParent` exactly when some program lists it as a child |
| AdventDay7.FindRoot | advent/day7.go:30-45 | the two loops give the single unparented program, or the count of unparented programs when it is not 1 |
| AdventDay7.OrphansSound | advent/day7.go:37-42 | every collected name belongs to a program and is nobody's child |
| AdventDay7.OrphansAt | advent/day7.go:37-42 | every unparented program is collected, at its place in input order |
| AdventDay7.OrphansNone | advent/day7.go:37-42 | when every program is held, nothing is collected |
| AdventDay7.OnlyOrphan | advent/day7.go:37-42 | a single unparented program is the whole collection |
| AdventDay7.TwoOrphans | advent/day7.go:43-45 | two unparented programs make the count differ from 1 |
| AdventDay7.RootIsTheOrphan | advent/day7.go:37-46 | the root is program i exactly when i is unparented and no other program is |
| AdventDay7.RootIsUnheld | advent/day7.go:37-46 | the root found is a program and no program lists it as a child |
| AdventDay7.Majority | advent/day7.go:90-101 | the weight shared by two of the first three, and none exactly when all three differ |
| AdventDay7.FirstOther | advent/day7.go:102-107 | the first index whose weight differs, with all before it equal; none when all equal |
| AdventDay7.DiffWeights | advent/day7.go:80-108 | the branches on fewer than two, two, and three or more weights (the panic as none) give exactly `Diff` |
| AdventDay7.FirstOtherIs | advent/day7.go:102-107 | the scan stops at the first differing weight |
| AdventDay7.FirstOtherNone | advent/day7.go:102-107 | the scan finds nothing when all weights agree |
| AdventDay7.DiffAllEqual | advent/day7.go:78-108 | the result is (-2, 0) exactly when all weights are the same |
| AdventDay7.DiffPanics | advent/day7.go:90-101 | it panics exactly when there are at least three weights and the first three all differ |
| AdventDay7.DiffFindsOddOne | advent/day7.go:78-108 | with three or more weights all equal to w but one, it returns that one's index and w |
| AdventDay7.DiffIndexMeaning | advent/day7.go:90-107 | a non-negative index names the first weight differing from a majority of the first three |
| AdventDay7.ByName | advent/day7.go:49-53 | the map holds every program name, each pointing at a program of that name, the last one wins |
| AdventDay7.IndexByName | advent/day7.go:49-53 | the loop builds exactly `ByName` |
| AdventDay7.Link | advent/day7.go:54-62 | every child of every program is linked to the index `byName` gives its name |
| AdventDay7.LinkRow | advent/day7.go:56-59 | one program's children are linked in order through `byName` |
| AdventDay7.Tower.constructor | advent/day7.go:48-64 | the links point to programs carrying the children's names, and every memo starts at -1 |
| AdventDay7.Tower.TreeWeight | advent/day7.go:66-77 | returns the sub-tower weight (own weight plus children's sub-towers), stores it in the memo and keeps other memoised weights |
| AdventDay7.NonNegativeWeight | advent/day7.go:66-77 | with non-negative weights a sub-tower weighs at least its bottom program |
| AdventDay7.ChildSumBound | advent/day7.go:72-74 | with non-negative weights the children's sum is at least each child's sub-tower |
| AdventDay7.TowerOutweighsChild | advent/day7.go:66-77 | with non-negative weights a sub-tower outweighs its bottom plus any one child's sub-tower |
| AdventDay8.InstructionOf | advent/day8.go:53-87 | an accepted line has non-empty space-free register names and one of the six comparison operators |
| AdventDay8.WrittenFields | advent/day8.go:55 | `Fields` of a written instruction line gives its seven words |
| AdventDay8.ParseInc | advent/day8.go:53-87 | an "inc" line parses back to the instruction it was written from |
| AdventDay8.ParseDec | advent/day8.go:65-68 | a "dec" line parses to the negated amount, in int64 arithmetic (the minimum stays itself) |
| AdventDay8.DecFields | advent/day8.go:59-86 | the seven fields of a "dec" line give the register, the negated amount and the condition |
| AdventDay8.Negate64 | advent/day8.go:68 | int64 negation wraps only at the minimum value |
| AdventDay8.RejectsBadOp | advent/day8.go:77-81 | a comparison outside the six is refused |
| AdventDay8.RejectsFieldCount | advent/day8.go:55-58 | a line that is not exactly seven fields is refused |
| AdventDay8.StepKeys | advent/day8.go:98-125 | after `run` the registers are the old ones, the condition's register and, when the condition held, the target |
| AdventDay8.StepValues | advent/day8.go:118-125 | the target gets its old value plus the amount (wrapped to int64) exactly when the condition holds; no other register changes |
| AdventDay8.StepMax | advent/day8.go:118-124 | `max` never falls, and reaches the value just written |
| AdventDay8.StepBounded | advent/day8.go:98-125 | `run` keeps every register at or below `max` |
| AdventDay8.Cpu.constructor | advent/day8.go:94-96 | a new cpu has no registers and `max` 0 |
| AdventDay8.Cpu.Run | advent/day8.go:98-125 | the new registers and `max` are `Step` of the old ones |
| AdventDay8.RunAllBounded | advent/day8.go:29-32 | running a whole program keeps every register at or below `max` |
| AdventDay8.LargestAtMostMax | advent/day8.go:33-40 | the first answer never exceeds the second |
| AdventDay8.Largest | advent/day8.go:33-38 | the result is 0 or the largest register value, whichever is larger, and is attained when positive |
| AdventDay8.ParseAll | advent/day8.go:17-25 | a successful parse gives one instruction per line |
| AdventDay8.ParseLines | advent/day8.go:17-25 | the reading loop gives `ParseAll`: every instruction, or the first bad line |
| AdventDay8.ParseStops | advent/day8.go:20-23 | the first unparsable line is the one reported, whatever follows it |
| AdventDay8.RunProgram | advent/day8.go:29-32 | the loop leaves the cpu in `RunAll` of its old state |
| AdventDay8.Day8 | advent/day8.go:16-41 | a bad line is reported; otherwise the answers are the largest final register value and the highest value ever written |
| AdventDay9.ScoreShift | advent/day9.go:38-46 | starting one level deeper adds one point per group |
| AdventDay9.ScoreAllShift | advent/day9.go:40-44 | the children's scores, one level deeper, rise by their number of groups |
| AdventDay9.ScoreAtLeast | advent/day9.go:38-46 | from level n >= 1 every group scores at least n |
| AdventDay9.ScoreAllAtLeast | advent/day9.go:40-44 | children scored from level n >= 1 score at least n per group |
| AdventDay9.CountAllAppend | advent/day9.go:48-59 | the garbage count of two runs of children is the sum of their counts |
| AdventDay9.CountSplits | advent/day9.go:48-59 | the count adds over children, a garbage string counts its length, and nesting a group adds nothing |
| AdventDay9.GroupScore | advent/day9.go:38-46 | the recursive loop gives `Score`: its level plus the scores of its child groups one level deeper |
| AdventDay9.GroupCount | advent/day9.go:48-59 | the recursive loop gives `Count`: the total length of all garbage below the group |
| AdventDay9.Close | advent/day9.go:101-113 | closing a group leaves a current group and the closed state |
| AdventDay9.Step | advent/day9.go:82-146 | one byte keeps the parser's stack, current group and state consistent, and never reports an empty stream |
| AdventDay9.Run | advent/day9.go:68-147 | reading a whole string keeps the parser consistent and never reports an empty stream |
| AdventDay9.Then | advent/day9.go:68-147 | an error stops the reading; a state stays consistent after one more byte |
| AdventDay9.ParseStream | advent/day9.go:61-148 | the byte loop with its state, stack, group and garbage variables gives exactly `ParseResult` |
| AdventDay9.Feed | advent/day9.go:82-146 | one iteration of the loop body updates the variables as `Step` does, or fails with `Step`'s error |
| AdventDay9.RunStops | advent/day9.go:68-147 | once a prefix fails, the whole stream fails with the same error |
| AdventDay9.RunConcat | advent/day9.go:68-147 | reading `a + b` is reading `a`, then `b` from the state `a` left |
| AdventDay9.RunGarbage | advent/day9.go:133-143 | inside garbage, bytes other than '!', '>' and newline are collected as they are |
| AdventDay9.RunRender | advent/day9.go:88-146 | reading a printed group or garbage adds it to the current group and leaves the closed state |
| AdventDay9.RunRenderGarbage | advent/day9.go:96-100 | reading printed garbage adds its text to the current group |
| AdventDay9.RunRenderGroup | advent/day9.go:91-129 | reading a printed group pushes, fills and pops back to the parent with the group added |
| AdventDay9.RunOpenAt | advent/day9.go:91-95 | '{' and a printed body give a new group holding the children, the parent on the stack |
| AdventDay9.RunBody | advent/day9.go:88-132 | a printed comma-separated body adds every child in order |
| AdventDay9.RunChild | advent/day9.go:117-120 | a printed child followed by ',' adds it and returns to the outer state |
| AdventDay9.RunBodyMore | advent/day9.go:117-120 | a body of several children adds all of them |
| AdventDay9.ParseRender | advent/day9.go:61-148 | parsing a printed group gives the same group back |
| AdventDay9.RejectsUnclosed | advent/day9.go:70-73 | a group left open at the end is an unexpected EOF |
| AdventDay9.RejectsTrailing | advent/day9.go:85-87 | any non-newline byte after the outer group is refused: the stream must hold a single group |
| AdventDay9.RejectsFirstByte | advent/day9.go:89-116 | a first byte other than '{' is refused with the error of its case |
| AdventDay9.RejectsBlank | advent/day9.go:70-73 | a stream of newlines only is an unexpected EOF |
| AdventDay9.NeverEmptyStream | advent/day9.go:74-76 | the "empty stream" error can never be reported |
| AdventDay9.RunIgnoresNewlines | advent/day9.go:82-84 | reading with or without newlines reaches the same state, up to the positions in error messages |
| AdventDay9.KeepByte | advent/day9.go:68-147 | equal states stay equal after the same byte |
| AdventDay9.DropNewline | advent/day9.go:82-84 | a newline changes nothing |
| AdventDay9.ThenAnywhere | advent/day9.go:115 | the position only shows in error messages |
| AdventDay9.StepAnywhere | advent/day9.go:115 | one step depends on the position only through the error message |
| AdventDay9.ParseIgnoresNewlines | advent/day9.go:82-84 | a stream parses exactly when it does without its newlines, to the same group, or to the same error up to position |
| AdventDay9.Day9 | advent/day9.go:16-23 | a parse error is reported; otherwise the answers are the score from level 1 and the garbage count |
| LinkedList.Node.constructor | list/list.go:9-12 | a node holds exactly the given data and next node |
| LinkedList.TailIsList | list/list.go:16 | following `Next` from a list's head gives the list of the remaining nodes |
| LinkedList.ToSlice | list/list.go:14-20 | the slice holds the data of the nodes, head first |
| LinkedList.Push | list/list.go:47-52 | the new head is a fresh node holding the value, its next is the old head, and the old list is its tail unchanged |
| LinkedList.FromSlice | list/list.go:22-28 | building by pushing from the back gives fresh nodes whose data is the slice |
| LinkedList.ToSliceOfFromSlice | list/list.go:14-28 | `ToSlice(FromSlice(s...))` returns `s` |
| LinkedList.Length | list/list.go:35-41 | the length is the number of nodes, which is also the length of the slice of their data |
| LinkedList.Count | list/list.go:68-76 | the result is the number of occurrences of `searchFor` in the data |
| LinkedList.GetNth | list/list.go:80-92 | for an index in range, the data at that index; past the end, the out-of-range panic; a negative index reads the head (or panics on an empty list) |
| LinkedList.DeleteList | list/list.go:94-96 | the list becomes empty |
| LinkedList.Pop | list/list.go:98-107 | on a non-empty list, returns the head's data and leaves the tail; on an empty list, the "Pop called on empty list" panic, with nothing changed |
| LinkedList.InsertNth | list/list.go:109-121 | for `index <= length`, a fresh node is linked in at position `k` between the old nodes, and the data becomes `s[..k] + [data] + s[k..]` (a negative index acts as 0); a larger index panics with no node changed |
| LinkedList.SpliceLinked | list/list.go:117-120 | splicing a new node between positions `i - 1` and `i` keeps the chain linked and free of repeated nodes |
| LinkedList.InsertPos | list/list.go:125-127 | the insertion point is after every element smaller than the value and at the first element that is not |
| LinkedList.InsertPosKeepsSorted | list/list.go:123-130 | inserting at that point keeps a sorted list sorted |
| LinkedList.SortedInsert | list/list.go:123-130 | the node is linked in at the insertion point: the nodes and the data gain exactly it there |
| LinkedList.MultisetSplice | list/list.go:117-120 | inserting an element adds exactly it to the multiset |
| LinkedList.InsertSortFrame | list/list.go:135-138 | the nodes already moved to the sorted list are exactly the first `i`, so the rest are untouched |
| LinkedList.InsertSortStep | list/list.go:136-138 | moving node `i` into the sorted list keeps it a permutation of the first `i + 1` nodes and data |
| LinkedList.InsertSort | list/list.go:132-141 | the result is a list of the same nodes, with sorted data that is a permutation of the original data |
| LinkedList.Append | list/list.go:143-149 | as written: `*aRef` ends up pointing at `b`'s list and `*bRef` is nil |
| LinkedList.AppendDropsFirstList | list/list.go:144-147 | for a non-empty `a`, the as-written result is not the concatenation: `a`'s data is lost |
| LinkedList.ConcatLinked | list/list.go:143-149 | linking the last node of `a` to the head of `b` gives one linked, repetition-free list |
| LinkedList.AppendLists | list/list.go:143-149 | corrected: the result is `a`'s nodes followed by `b`'s, with data `Data(a) + Data(b)`, and `*bRef` is nil |
| ParamHeap.Parent | paramheap/paramheap.go:21 | the parent position `(k - 1) / 2` that `container/heap` uses lies before `k` |
| ParamHeap.Swapped | paramheap/paramheap.go:92-93 | exchanging positions `i` and `j` moves exactly those two elements and keeps the multiset |
| ParamHeap.HeapMin | paramheap/paramheap.go:24-29 | in heap order no element is less than the one at index 0 |
| ParamHeap.RootIsMin | paramheap/paramheap.go:43-49 | the minimum is at index 0, as the comment on `Slice` promises |
| ParamHeap.UpStep | paramheap/paramheap.go:21 | one swap of `up` with a smaller parent keeps the sift-up invariant one level higher |
| ParamHeap.UpDone | paramheap/paramheap.go:21 | `up` stopping at the root or below a parent that is not greater leaves a heap |
| ParamHeap.SmallerChild | paramheap/paramheap.go:100-102 | `down` picks one of the two children, within the heap |
| ParamHeap.SmallerChildIsMin | paramheap/paramheap.go:100-102 | the child `down` picks is not greater than any child of the node |
| ParamHeap.DownStep | paramheap/paramheap.go:72 | one swap of `down` with its smaller child keeps the sift-down invariant one level lower |
| ParamHeap.ChildrenNotLess | paramheap/paramheap.go:72 | when the smaller child is not less than the node, no child is |
| ParamHeap.DownDone | paramheap/paramheap.go:72 | `down` stopping leaves a heap if it moved, or the sift-up invariant at the start if it did not |
| ParamHeap.SwapLastHeapExcept | paramheap/paramheap.go:78-80 | swapping element `i` with the last one leaves a heap but for position `i` in the shortened slice |
| ParamHeap.HeapIsHeapExcept | paramheap/paramheap.go:71-73 | a heap is a heap but for any one position |
| ParamHeap.ChangedHeapExcept | paramheap/paramheap.go:64-73 | changing the element at `i` of a heap leaves a heap but for `i`, which is what `Fix` requires |
| ParamHeap.Heap.constructor | paramheap/paramheap.go:13-16 | `New` gives an empty heap with the given `less` and no index function |
| ParamHeap.Heap.SetIndex | paramheap/paramheap.go:51-62 | on an empty heap, switches index recording on |
| ParamHeap.Heap.Len | paramheap/paramheap.go:38-41 | the number of elements |
| ParamHeap.Heap.Slice | paramheap/paramheap.go:43-49 | the underlying slice, with the minimum at index 0 |
| ParamHeap.Heap.Peek | paramheap/paramheap.go:31-36 | element 0, which no element is less than; `None` for the empty-heap panic |
| ParamHeap.Heap.Swap | paramheap/paramheap.go:92-98 | exchanges two positions and records each element's new index; recorded indexes stay equal to positions |
| ParamHeap.Heap.Append | paramheap/paramheap.go:104-109 | appends the element and records index `len - 1` for it |
| ParamHeap.Heap.RemoveLast | paramheap/paramheap.go:111-118 | removes and returns the last element, records index -1 for it, and shrinks the slice by one |
| ParamHeap.Heap.Up | paramheap/paramheap.go:21 | sift-up: a permutation of the first `n` elements, the rest unchanged, that restores heap order and keeps the index |
| ParamHeap.Heap.Down | paramheap/paramheap.go:72 | sift-down: a permutation of the first `n` elements that restores heap order if it moved anything |
| ParamHeap.Heap.Restore | paramheap/paramheap.go:72 | `Fix`'s "down, and if nothing moved, up": heap order restored, same multiset |
| ParamHeap.Heap.Push | paramheap/paramheap.go:18-22 | the heap gains exactly `elem` and stays a heap with correct recorded indexes |
| ParamHeap.Heap.Pop | paramheap/paramheap.go:24-29 | returns a minimum, removes exactly it and records index -1 for it; `None` and no change for the empty-heap panic |
| ParamHeap.Heap.Remove | paramheap/paramheap.go:75-80 | returns the element at `i`, removes exactly it and records index -1 for it; an index out of range changes nothing |
| ParamHeap.Heap.RemoveAt | paramheap/paramheap.go:78-80 | for an index in range: the element is removed, the rest stays a heap |
| ParamHeap.Heap.Fix | paramheap/paramheap.go:64-73 | for `i` in the heap, restores heap order and keeps the multiset (`Fixed`); at -1, or 0 on an empty heap, returns with nothing changed (`Untouched`); at any other index, the index panic of `up` with nothing changed (`IndexPanic`) |
| ParamHeap.UpStopsAtOnce | paramheap/paramheap.go:72 | `up` stops before calling `Less` exactly at slots 0 and -1, where Go's truncated `(j - 1) / 2` is `j` |
| D2Symbols.NextSymbol | d2symbols/d2symbols.go:82-95 | defined exactly on E, T, A and M, where it gives another symbol; any other byte is the "bad symbol" panic |
| D2Symbols.Step | d2symbols/d2symbols.go:82-91 | the next symbol of a symbol is a symbol |
| D2Symbols.Cycle | d2symbols/d2symbols.go:82-91 | `n` applications of `nextSymbol` stay among the symbols |
| D2Symbols.CycleIdentity | d2symbols/d2symbols.go:82-91 | `n` applications give the symbol back exactly when `n` is a multiple of 4 (E→T→A→M→E) |
| D2Symbols.CycleMod4 | d2symbols/d2symbols.go:82-91 | only `n` modulo 4 matters |
| D2Symbols.CycleAdd | d2symbols/d2symbols.go:82-91 | `m + n` applications are `m` then `n` |
| D2Symbols.SymbolsAt | d2symbols/d2symbols.go:142-149 | a string is made of symbols exactly when `checkSymbol` holds at every position |
| D2Symbols.ValidStateCells | d2symbols/d2symbols.go:142-149 | a grid is nine bytes, each passing `checkSymbol` |
| D2Symbols.AdvanceAll | d2symbols/d2symbols.go:75-80 | advancing cells of a valid grid keeps it valid |
| D2Symbols.AdvanceAllCells | d2symbols/d2symbols.go:75-80 | each cell advances once per occurrence of its index, and the cells not listed are unchanged |
| D2Symbols.AdvanceState | d2symbols/d2symbols.go:75-80 | the loop over the indexes computes `AdvanceAll` |
| D2Symbols.RowColumn | d2symbols/d2symbols.go:61-73 | a cell's row and column, as the move table uses them |
| D2Symbols.CellsCount | d2symbols/d2symbols.go:63-71 | how often a cell occurs in a five-index move |
| D2Symbols.MoveCellTop | d2symbols/d2symbols.go:63-65 | moves 0-2 advance exactly the cells in the pressed cell's row or column, once each |
| D2Symbols.MoveCellMiddle | d2symbols/d2symbols.go:66-68 | moves 3-5 likewise |
| D2Symbols.MoveCellBottom | d2symbols/d2symbols.go:69-71 | moves 6-8 likewise |
| D2Symbols.MovesAreRowAndColumn | d2symbols/d2symbols.go:61-73 | move `k` lists 5 valid cells: cell `k`, the rest of its row and the rest of its column |
| D2Symbols.MovedCell | d2symbols/d2symbols.go:61-80 | a cell after a move is a symbol |
| D2Symbols.Move | d2symbols/d2symbols.go:61-80 | a move keeps a grid valid |
| D2Symbols.MoveCells | d2symbols/d2symbols.go:61-80 | after move `e`, cells in `e`'s row or column have advanced by one and the others are unchanged |
| D2Symbols.AdvanceMove | d2symbols/d2symbols.go:63-71 | one `advanceState` call with move `e`'s indexes computes `Move` |
| D2Symbols.NextStates | d2symbols/d2symbols.go:61-73 | the nine successors, in move order |
| D2Symbols.ApplyMoves | d2symbols/d2symbols.go:25-59 | a sequence of moves keeps a grid valid |
| D2Symbols.MoveFourTimes | d2symbols/d2symbols.go:61-95 | the same move four times gives the grid back |
| D2Symbols.ApplyMovesSnoc | d2symbols/d2symbols.go:25-59 | moves plus one more is one more move after them |
| D2Symbols.ClosedReach | d2symbols/d2symbols.go:25-59 | a set of grids closed under moves holds every grid reachable from its members |
| D2Symbols.Reverse | d2symbols/d2symbols.go:37-40 | reversal: element `k` is element `n - 1 - k` of the input |
| D2Symbols.OneIndexed | d2symbols/d2symbols.go:41-44 | every move is shown plus one |
| D2Symbols.MoveAny | d2symbols/d2symbols.go:61-73 | agrees with `Move` on valid grids and moves |
| D2Symbols.RecordedValid | d2symbols/d2symbols.go:26-54 | every grid recorded in `space` from a valid start is a valid grid |
| D2Symbols.CollectEdges | d2symbols/d2symbols.go:33-36 | following the recorded points back from the goal collects moves that, reversed, lead from the start to the goal |
| D2Symbols.BackStep | d2symbols/d2symbols.go:34 | the recorded point of a grid names a valid grid queued before it and the move that reaches the grid from it |
| D2Symbols.PrependMove | d2symbols/d2symbols.go:34-35 | one more recorded move back extends the path to the goal at its front |
| D2Symbols.ReverseInPlace | d2symbols/d2symbols.go:37-40 | the swap loop reverses the moves |
| D2Symbols.ShiftUp | d2symbols/d2symbols.go:41-44 | the loop makes the moves 1-indexed |
| D2Symbols.Reconstruct | d2symbols/d2symbols.go:32-45 | the shown moves are the 1-indexed form of moves that lead from the start to the goal |
| D2Symbols.ExploredAdd | d2symbols/d2symbols.go:47-55 | queueing a grid not yet in `space` (so never queued before) keeps the bookkeeping: recorded from a grid queued earlier, by the move that reaches it |
| D2Symbols.ExpandRecord | d2symbols/d2symbols.go:51-55 | a new successor is recorded and queued at the back of the frontier |
| D2Symbols.ExpandSkip | d2symbols/d2symbols.go:48-50 | a successor already in `space` changes nothing |
| D2Symbols.Expand | d2symbols/d2symbols.go:47-56 | after the inner loop all nine successors are in `space`, and only new ones were queued |
| D2Symbols.KeysAreGrids | d2symbols/d2symbols.go:26-51 | every recorded grid is a grid of symbols of the start's size, a finite set |
| D2Symbols.Exhausted | d2symbols/d2symbols.go:28-58 | when the frontier empties without the goal, no sequence of moves reaches the goal |
| D2Symbols.SearchStep | d2symbols/d2symbols.go:28-56 | one round of the outer loop keeps the search invariant |
| D2Symbols.SearchProgress | d2symbols/d2symbols.go:28-56 | each round records a new grid or shortens the frontier, so the search ends |
| D2Symbols.Solve | d2symbols/d2symbols.go:25-59 | on success, the shown solution is the 1-indexed list of moves that lead from the start to the goal; on failure, "" and no moves reach the goal |
| D2Symbols.GridsHas | d2symbols/d2symbols.go:18 | every string of symbols is among the grids of its length |
| D2Symbols.SplitAfterSymbol | d2symbols/d2symbols.go:116 | an input that starts with one symbol and ':' splits into that symbol and the rest |
| D2Symbols.ParseInput | d2symbols/d2symbols.go:114-140 | after removing spaces and upper-casing: success exactly for one symbol, ':' and nine symbols, giving that start and a goal of nine copies of the symbol; otherwise the error for no ':', a goal not one byte, a bad goal symbol, a state not nine bytes, or a bad state symbol, checked in that order |
| Softdrink.PosOf | softdrink/softdrink.go:57-59 | the cell `k` of the row-major scan is a grid cell numbered `k` |
| Softdrink.PosOfCell | softdrink/softdrink.go:57-59 | the scan reaches `pos{r, c}` at step `4r + c` |
| Softdrink.GoalOfDrink | softdrink/softdrink.go:36-43 | the goal of a cell is `goalNamed` of the drink sold there |
| Softdrink.InitGoal | softdrink/softdrink.go:34-43 | `init` fills `goal` with exactly the 16 grid cells, each with its drink's goal |
| Softdrink.NoDrinkN | softdrink/softdrink.go:9-32 | 'N' has no entry, so its cell wants 0 drinks; every other cell wants at least one |
| Softdrink.Counts | softdrink/softdrink.go:52-60 | the counts as `disp[p]` reads them, a missing key as 0 |
| Softdrink.Shift | softdrink/softdrink.go:91-107 | applying a press keeps 16 counts |
| Softdrink.ShiftUndo | softdrink/softdrink.go:91-131 | the undo loops restore the counts the apply loops changed |
| Softdrink.ShiftChangesLine | softdrink/softdrink.go:91-107 | a press adds one exactly at the cells `Hit` names (in the pressed cell's row or column, not in the previous press's), nothing elsewhere |
| Softdrink.Replay | softdrink/softdrink.go:108-110 | replaying presses keeps 16 counts |
| Softdrink.SearchSound | softdrink/softdrink.go:55-136 | every solution `solve` returns extends the presses made so far with distinct grid cells, at most five in all, that reach the goal |
| Softdrink.TryFromSound | softdrink/softdrink.go:80-134 | the same for the candidate loop from cell `k` on |
| Softdrink.SolutionString | softdrink/softdrink.go:138-144 | the string holds the drink of each press, in order |
| Softdrink.DrinksDistinct | softdrink/softdrink.go:9-14 | no two cells sell the same drink |
| Softdrink.SolutionStringNames | softdrink/softdrink.go:138-144 | hence the string determines the presses |
| Softdrink.ScanStep | softdrink/softdrink.go:60-67 | one cell of the scan: a cell below its goal clears `solved` |
| Softdrink.ScanDone | softdrink/softdrink.go:56-70 | after the full scan with no cell over its goal, `solved` says whether every cell is at its goal |
| Softdrink.State.constructor | softdrink/softdrink.go:147 | an empty history and an empty `disp` |
| Softdrink.State.Check | softdrink/softdrink.go:56-69 | the scan reports a cell over its goal exactly when there is one, and otherwise whether all cells are at their goals |
| Softdrink.State.CheckRow | softdrink/softdrink.go:58-68 | one row of the scan |
| Softdrink.State.Seen | softdrink/softdrink.go:84-88 | the inner loop finds `p` exactly when it is in the history |
| Softdrink.State.Adjust | softdrink/softdrink.go:91-131 | the apply (+1) or undo (-1) loops change the counts by `Shift` and leave the history alone |
| Softdrink.State.Try | softdrink/softdrink.go:83-132 | one candidate: apply, recurse, undo on failure; its result is `Search` after the press; on failure the state is back as it was, on success the history is the solution and every cell is at its goal |
| Softdrink.State.Solve | softdrink/softdrink.go:55-136 | `solve` returns `Search` of the counts and history; on failure the state is unchanged |
| Softdrink.State.TryAll | softdrink/softdrink.go:76-135 | the candidate loop returns `TryFrom` from cell 0 |
| Bee.BitIndexInjective | bee/bee.go:83 | `word[i] - 'A'` as a byte is injective on bytes |
| Bee.Shl1 | bee/bee.go:84 | `1 << n` on a uint32 holds bit `n` alone, or nothing when `n >= 32` |
| Bee.Or32 | bee/bee.go:84 | `|=` on letter sets is set union |
| Bee.And32 | bee/bee.go:126 | `&` on letter sets is set intersection |
| Bee.MembersDetermine | bee/bee.go:78 | a letter set is determined by its members |
| Bee.LetterSetOf | bee/bee.go:80-87 | the letter set of a word holds exactly the indexes of its bytes (below 32) |
| Bee.IndexesSnoc | bee/bee.go:82-85 | one more byte adds its index |
| Bee.LetterSetOfSameBytes | bee/bee.go:80-87 | words with the same bytes have the same letter set, whatever their order and repetition |
| Bee.MakeLetterSet | bee/bee.go:80-87 | the loop computes `LetterSetOf` |
| Bee.MatchesIff | bee/bee.go:125-127 | `matches` holds exactly when the center is among the letters and the letters are among the puzzle's |
| Bee.MatchingPangramUsesAll | bee/bee.go:125-127 | a matching word with seven distinct letters uses exactly the puzzle's letters |
| Bee.SubsetSameSize | bee/bee.go:39-42 | a subset as large as its superset is that set |
| Bee.SolutionLessIsStrictOrder | bee/bee.go:51-60 | the `sort.Slice` comparison is irreflexive, asymmetric and transitive, with pangrams first |
| Bee.Classify | bee/bee.go:98-107 | a rune the switch takes as a letter gives an upper-case letter |
| Bee.Collect | bee/bee.go:96-109 | the letters collected from the arguments are upper-case |
| Bee.FirstDuplicateSpec | bee/bee.go:113-119 | no duplicate is reported exactly when all letters differ |
| Bee.LoadPuzzleIntended | bee/bee.go:94-123 | with capitals accepted, a loaded puzzle has seven letters and a center that is one of them |
| Bee.PuzzleMembers | bee/bee.go:120-121 | seven distinct capitals give a seven-letter `all` and a one-letter center among them |
| Bee.DistinctCapitals | bee/bee.go:113-121 | distinct capitals have distinct indexes |
| Bee.CollectErrExtends | bee/bee.go:106 | a disallowed letter stops the collection, whatever follows |
| Bee.ConcatPrefix | bee/bee.go:97 | the arguments read so far are a prefix of all of them |
| Bee.ConcatStep | bee/bee.go:97 | reading one more argument appends it |
| Bee.CollectStops | bee/bee.go:97-108 | an error inside argument `a` is the error for all the arguments |
| Bee.CollectSnoc | bee/bee.go:98-107 | one more rune adds its capital, is skipped as space, or stops the collection with "disallowed letter" |
| Bee.CollectArg | bee/bee.go:98-108 | the inner rune loop extends the collection by one argument, or stops at its first disallowed rune |
| Bee.CollectLetters | bee/bee.go:96-109 | the rune loops return the collection of the concatenated arguments, as written |
| Bee.FindDuplicate | bee/bee.go:113-119 | the nested loops find the first duplicate, by its first position |
| Bee.LoadPuzzle | bee/bee.go:94-123 | `loadPuzzle` as written: the disallowed letter, wrong count or duplicate error, else the center and all letters |
| Bee.FirstDuplicateAt | bee/bee.go:113-119 | a repeat at `i` with no repeat starting earlier is the one reported |
| Bee.ClassifiersDiffer | bee/bee.go:102 | the case `r >= 'A' && r <= 'A'` differs from `'A'..'Z'` exactly on 'B' to 'Z' |
| Bee.CapitalsRejectedAsWritten | bee/bee.go:102-106 | the puzzle "ABCDEFG" is refused with "disallowed letter 'B'" |
| Bee.LowerCaseCollectedAsWritten | bee/bee.go:98-107 | as written, a lower-case word is collected as its capitals, and with the intended range its capital spelling gives the same letters |
| Bee.CollectSameOnLower | bee/bee.go:98-107 | on lower-case input the written and intended rules agree |
| Bee.CollectLower | bee/bee.go:100-101 | lower-case letters are collected as their capitals |
| Bee.CollectIgnoresCase | bee/bee.go:98-107 | with the intended rule, upper-casing the input changes nothing |
| Bee.ConcatUpper | bee/bee.go:97 | upper-casing each argument upper-cases their concatenation |
| Bee.LoadPuzzleIgnoresCase | bee/bee.go:94-123 | with the intended rule, a puzzle loads the same in either case |
| Bee.IndexesAtMostLength | bee/bee.go:80-87 | a word's letter set has at most as many letters as the word has bytes |
| Bee.PangramScore | bee/bee.go:42-71 | a pangram (seven letters in its set) scores at least 11 |
| Bee.ScoreSumSplit | bee/bee.go:64-75 | the total is the words' lengths, less three per word, plus seven per pangram |
| Bee.TotalScore | bee/bee.go:64-75 | the loop adds `len(word) - 3`, plus 7 for a pangram, for each solution |
| SliceResponse.Pow256 | sliceresponse/sliceresponse.go:223 | a power of 256 is positive |
| SliceResponse.Shl7Positive | sliceresponse/sliceresponse.go:180 | a power of 128 is positive |
| SliceResponse.Shl7Mono | sliceresponse/sliceresponse.go:180 | a larger 7-bit group shifted into place gives a larger value |
| SliceResponse.Shl7Add | sliceresponse/sliceresponse.go:180 | shifting into place distributes over addition |
| SliceResponse.Shl7Next | sliceresponse/sliceresponse.go:180 | shifting by one more group multiplies by 128 |
| SliceResponse.Pow128Mono | sliceresponse/sliceresponse.go:180 | powers of 128 grow with the exponent |
| SliceResponse.Pow128Nine | sliceresponse/sliceresponse.go:180 | nine groups reach bit 63 and ten pass the uint64 range, which is why the tenth group may only be 0 or 1 |
| SliceResponse.Pow256Eight | sliceresponse/sliceresponse.go:223 | eight bytes hold exactly the uint64 range |
| SliceResponse.AddDigit | sliceresponse/sliceresponse.go:180 | adding group `i` to a value below `128^i` stays below `128^(i+1)` |
| SliceResponse.DigitFits | sliceresponse/sliceresponse.go:180 | a value accumulated from at most ten groups, the tenth 0 or 1, fits a uint64 |
| SliceResponse.SplitDigit | sliceresponse/sliceresponse.go:306 | a value splits into its low 7 bits and the rest shifted one group up |
| SliceResponse.Uvarint | sliceresponse/sliceresponse.go:304-309 | the bytes `binary.PutUvarint` writes: at least one |
| SliceResponse.UvarintShape | sliceresponse/sliceresponse.go:304-309 | every byte but the last has the continuation bit, the last does not, and the length is the number of 7-bit groups the value needs |
| SliceResponse.UvarintLength | sliceresponse/sliceresponse.go:304-309 | a uint64 takes at most `binary.MaxVarintLen64` (10) bytes |
| SliceResponse.UvarintLoop | sliceresponse/sliceresponse.go:180 | the loop of `binary.ReadUvarint` consumes at most ten bytes and stays in the data |
| SliceResponse.UvarintAt | sliceresponse/sliceresponse.go:180 | `binary.ReadUvarint` consumes bytes of the data only |
| SliceResponse.TenthGroupSmall | sliceresponse/sliceresponse.go:180 | a tenth group that fits a uint64 is 0 or 1 |
| SliceResponse.GroupsBelowTen | sliceresponse/sliceresponse.go:180 | a value that needs another group after group `i` has `i < 9` |
| SliceResponse.UvarintLoopContinue | sliceresponse/sliceresponse.go:180 | a byte with the continuation bit adds its group and goes on |
| SliceResponse.UvarintLoopStop | sliceresponse/sliceresponse.go:180 | a byte without it ends the value, which fits a uint64 |
| SliceResponse.UvarintLoopReadsLast | sliceresponse/sliceresponse.go:180 | the last group of a written value ends the read |
| SliceResponse.HoldsAtSplit | sliceresponse/sliceresponse.go:291-294 | bytes found at a position split into their parts |
| SliceResponse.UvarintHoldsFirst | sliceresponse/sliceresponse.go:304-309 | a value of two or more groups starts with its low group and the continuation bit, then the rest |
| SliceResponse.UvarintLoopReads | sliceresponse/sliceresponse.go:180 | the read loop, part way through a written value, finishes it |
| SliceResponse.UvarintRoundTrip | sliceresponse/sliceresponse.go:304-309 | `ReadUvarint` reads back exactly the value `writeUvarint` wrote, and stops right after it |
| SliceResponse.DivBound | sliceresponse/sliceresponse.go:223 | dropping a byte from a value below `256 p` leaves one below `p` |
| SliceResponse.BigEndian | sliceresponse/sliceresponse.go:223 | `PutUint64` writes `n` bytes |
| SliceResponse.BigEndianValue | sliceresponse/sliceresponse.go:274 | `BigEndian.Uint64` gives a value below `256^n` |
| SliceResponse.LittleEndian | sliceresponse/sliceresponse.go:229-233 | the memory of a uint64 on a little-endian machine: `n` bytes |
| SliceResponse.LittleEndianValue | sliceresponse/sliceresponse.go:277-283 | reading memory back gives a value below `256^n` |
| SliceResponse.BigEndianRoundTrip | sliceresponse/sliceresponse.go:223-274 | reading the bytes written for a value gives the value |
| SliceResponse.BigEndianOfValue | sliceresponse/sliceresponse.go:223 | writing the value read from bytes gives the bytes |
| SliceResponse.LittleEndianRoundTrip | sliceresponse/sliceresponse.go:229-283 | the same for memory order |
| SliceResponse.LittleEndianOfValue | sliceresponse/sliceresponse.go:229-233 | the same, the other way |
| SliceResponse.FixedRoundTrip | sliceresponse/sliceresponse.go:221-275 | eight bytes round-trip a uint64 in either byte order |
| SliceResponse.Writer.constructor | sliceresponse/sliceresponse.go:115 | a connection with nothing written |
| SliceResponse.Writer.Write | sliceresponse/sliceresponse.go:175-234 | `Write` appends its bytes |
| SliceResponse.Reader.constructor | sliceresponse/sliceresponse.go:116 | a reader at the start of the data |
| SliceResponse.Reader.ReadByte | sliceresponse/sliceresponse.go:291-294 | the next byte and one position on, or EOF at the end and no move |
| SliceResponse.Reader.ReadFull | sliceresponse/sliceresponse.go:271-298 | `io.ReadFull`: the bytes read, with the error `FullAt` gives |
| SliceResponse.FullAt | sliceresponse/sliceresponse.go:271-298 | succeeds exactly when `n` is 0 or `n` bytes remain, with those bytes; otherwise EOF (none left) or ErrUnexpectedEOF |
| SliceResponse.FullAtHolds | sliceresponse/sliceresponse.go:271-298 | reading `|b|` bytes where `b` stands gives `b` |
| SliceResponse.ReadOneByte | sliceresponse/sliceresponse.go:296-302 | `readByte`: the next byte, or 0 and EOF at the end |
| SliceResponse.PutUvarint | sliceresponse/sliceresponse.go:305-306 | `binary.PutUvarint` fills the buffer's first `n` bytes with `Uvarint(x)` and nothing else |
| SliceResponse.WriteUvarint | sliceresponse/sliceresponse.go:304-309 | appends `Uvarint(u)` |
| SliceResponse.ReadingStarts | sliceresponse/sliceresponse.go:180 | the read loop's invariant holds at its start |
| SliceResponse.ReadingNext | sliceresponse/sliceresponse.go:180 | one iteration: EOF or ErrUnexpectedEOF at the end of the data, overflow at a tenth byte over 1, the value at a last byte, else the next iteration |
| SliceResponse.ReadingTen | sliceresponse/sliceresponse.go:180 | ten bytes with the continuation bit are an overflow |
| SliceResponse.ReadUvarint | sliceresponse/sliceresponse.go:180 | `binary.ReadUvarint` returns `UvarintAt` and moves the reader to its end |
| SliceResponse.DecodeRequest | sliceresponse/sliceresponse.go:179-197 | decoding stays in the data |
| SliceResponse.DecodeMax | sliceresponse/sliceresponse.go:185-197 | the same from `max` on |
| SliceResponse.DecodeN | sliceresponse/sliceresponse.go:190-197 | the same from `n` on |
| SliceResponse.DecodeFormat | sliceresponse/sliceresponse.go:195-196 | the same for the format byte |
| SliceResponse.Int64VarintAt | sliceresponse/sliceresponse.go:166-184 | an int64 written as `uint64(v)` reads back as that uint64, followed by the rest |
| SliceResponse.DecodeFormatOf | sliceresponse/sliceresponse.go:195-196 | a byte present is taken as the format, with no error |
| SliceResponse.DecodeNOf | sliceresponse/sliceresponse.go:190-196 | `n` read, then the format |
| SliceResponse.DecodeMaxOf | sliceresponse/sliceresponse.go:185-196 | `max` and `n` read, then the format |
| SliceResponse.DecodeRequestOf | sliceresponse/sliceresponse.go:179-197 | the three varints and the format byte give the request |
| SliceResponse.RequestRoundTrip | sliceresponse/sliceresponse.go:165-197 | `decode` reads back exactly the request `encode` wrote, with no error, and stops right after it |
| SliceResponse.Request.constructor | sliceresponse/sliceresponse.go:65-69 | a request with the given fields |
| SliceResponse.Request.Encode | sliceresponse/sliceresponse.go:165-177 | appends the three varints and the format byte |
| SliceResponse.Request.Decode | sliceresponse/sliceresponse.go:179-197 | sets the fields read before the first error, returns that error, and moves the reader as `DecodeRequest` says |
| SliceResponse.Element | sliceresponse/sliceresponse.go:211-236 | one element: a varint, or 8 bytes in the fixed formats |
| SliceResponse.Elements | sliceresponse/sliceresponse.go:211-236 | `8 * len(s)` bytes in the fixed formats |
| SliceResponse.ElementsSnoc | sliceresponse/sliceresponse.go:214-226 | one more element appends its bytes |
| SliceResponse.Unpack | sliceresponse/sliceresponse.go:277-283 | memory of `8n` bytes is `n` uint64s |
| SliceResponse.UnpackElements | sliceresponse/sliceresponse.go:276-283 | a slice's memory, read back into a slice, is the slice |
| SliceResponse.ElementAt | sliceresponse/sliceresponse.go:261-275 | reading one element stays in the data |
| SliceResponse.Fill | sliceresponse/sliceresponse.go:259-275 | the element loops keep the format, length and capacity |
| SliceResponse.ReadMemory | sliceresponse/sliceresponse.go:276-284 | the unsafe read keeps the format, length and capacity |
| SliceResponse.DecodeElements | sliceresponse/sliceresponse.go:259-288 | decoding the elements keeps the slice within its capacity |
| SliceResponse.Zeros | sliceresponse/sliceresponse.go:257 | `make([]uint64, n)`: `n` zeros |
| SliceResponse.DecodeResponse | sliceresponse/sliceresponse.go:243-289 | decoding stays in the data and keeps the slice within its capacity |
| SliceResponse.DecodeLength | sliceresponse/sliceresponse.go:249-258 | the same from the length on |
| SliceResponse.ElementAtReads | sliceresponse/sliceresponse.go:261-275 | an element written in a fixed or varint format reads back as its value |
| SliceResponse.FillStep | sliceresponse/sliceresponse.go:261-275 | one iteration stores the element read at index `i` |
| SliceResponse.FillReadsNext | sliceresponse/sliceresponse.go:261-275 | one iteration over written elements stores the next one |
| SliceResponse.FillReads | sliceresponse/sliceresponse.go:259-275 | the loop over written elements stores all of them, with no error |
| SliceResponse.ReadMemoryReads | sliceresponse/sliceresponse.go:276-284 | the unsafe read over a written slice's memory gives the slice |
| SliceResponse.DecodeLengthOf | sliceresponse/sliceresponse.go:249-258 | the length read reuses the backing array when the capacity allows, else a new zeroed one |
| SliceResponse.DecodeResponseHeader | sliceresponse/sliceresponse.go:243-258 | a written header gives the format and length |
| SliceResponse.DecodeElementsReads | sliceresponse/sliceresponse.go:259-288 | written elements read back in every format |
| SliceResponse.ResponseRoundTrip | sliceresponse/sliceresponse.go:204-289 | `decode` reads back exactly the format and the slice `encode` wrote, in every format (for unsafe, a non-empty slice), and stops right after it |
| SliceResponse.Response.Slice | sliceresponse/sliceresponse.go:201 | the slice has the response's length |
| SliceResponse.Response.constructor | sliceresponse/sliceresponse.go:126-134 | a response holding the format and slice given |
| SliceResponse.Response.WriteUvarints | sliceresponse/sliceresponse.go:212-219 | appends each element as a varint |
| SliceResponse.Response.WriteBigEndians | sliceresponse/sliceresponse.go:220-227 | appends each element as 8 big-endian bytes |
| SliceResponse.Response.Encode | sliceresponse/sliceresponse.go:204-241 | appends what `EncodeResponse` gives: header, elements; the bad-format and empty-unsafe panics as errors |
| SliceResponse.Response.ReadElements | sliceresponse/sliceresponse.go:259-275 | the element loops compute `Fill` |
| SliceResponse.Response.ReadMemoryInto | sliceresponse/sliceresponse.go:276-284 | the unsafe read computes `ReadMemory` |
| SliceResponse.Response.ReadSlice | sliceresponse/sliceresponse.go:259-288 | the format switch computes `DecodeElements` |
| SliceResponse.Response.Decode | sliceresponse/sliceresponse.go:243-289 | `decode` computes `DecodeResponse`; the backing array is replaced, by a fresh one, only when the decoded length exceeds its capacity, and is kept otherwise |
| UseMon.FieldStart | usemon/usemon.go:134-156 | the current field starts at a position after which there is no space |
| UseMon.TerminatedFields | usemon/usemon.go:134-157 | the space-terminated fields the loop walks through contain no space |
| UseMon.TerminatedFieldsPrefix | usemon/usemon.go:135-157 | the fields seen so far are a prefix of all the fields |
| UseMon.AfterComm | usemon/usemon.go:126-133 | what follows the last ')' (with one leading space dropped) contains no ')'; no ')' at all is `None` |
| UseMon.AfterLastParen | usemon/usemon.go:126-133 | a comm containing parentheses is skipped: the rest starts after the last ')' |
| UseMon.FieldsStep | usemon/usemon.go:135-157 | a space ends the field at `start` and the next starts after it; any other byte changes neither |
| UseMon.LastIndexOfSkip | usemon/usemon.go:126 | a trailing byte other than the one sought does not change `LastIndexByte` |
| UseMon.ScanStart | usemon/usemon.go:134 | the loop invariant holds with `start` and `n` at 0 |
| UseMon.ScanAdvance | usemon/usemon.go:135-156 | one iteration keeps it, counting a field at each space |
| UseMon.FieldsOfPrefix | usemon/usemon.go:135-157 | a field already seen is that field of the whole line |
| UseMon.GroupDecides | usemon/usemon.go:140-147 | at the end of the third field, a bad number or a group other than `pgid` is the answer for the whole line |
| UseMon.GroupField | usemon/usemon.go:140-147 | the same stated on the third field itself |
| UseMon.RSSDecides | usemon/usemon.go:148-153 | at the end of the 22nd field, its number times 4096 (int64 arithmetic), or its parse error, is the answer |
| UseMon.ShortIsMalformed | usemon/usemon.go:158 | a line that ends before the 22nd field is malformed |
| UseMon.ParseStatRSS | usemon/usemon.go:125-159 | `parseStatRSS` returns `StatRSS`: malformed without ')' or with too few fields, the Atoi error or errWrongProcessGroup for field 3, the ParseInt error for field 22, else rss times 4096 |
| UseMon.CheckGroup | usemon/usemon.go:140-147 | the `case 2` branch lets the loop go on exactly when the field parses to `pgid`, and otherwise returns the line's answer |
| UseMon.ReadRSS | usemon/usemon.go:148-153 | the `case 21` branch returns the line's answer |
| UseMon.IsDigits | usemon/usemon.go:161-168 | true exactly when every byte is '0' to '9', so true for "" |
| DrainAlgo.Appended | drainalgo/drainalgo.go:83 | `append(items, 0)` keeps the old items and adds one 0 |
| DrainAlgo.SimpleSyncPool.constructor | drainalgo/drainalgo.go:64-67 | an empty pool |
| DrainAlgo.SimpleSyncPool.Get | drainalgo/drainalgo.go:69-78 | false with no change on an empty pool; otherwise true and the last item is gone |
| DrainAlgo.SimpleSyncPool.Put | drainalgo/drainalgo.go:80-84 | one more item |
| DrainAlgo.SimpleSyncPool.Gc | drainalgo/drainalgo.go:86-90 | the pool is empty |
| DrainAlgo.SimpleSyncPool.Size | drainalgo/drainalgo.go:92-96 | the number of items |
| DrainAlgo.MaxLivePool.constructor | drainalgo/drainalgo.go:102-107 | an empty pool with no item out |
| DrainAlgo.MaxLivePool.Get | drainalgo/drainalgo.go:109-122 | `live` goes up by one and `maxLive` becomes the larger of it and the old `maxLive`; the items change as in the simple pool; `live <= maxLive` is kept |
| DrainAlgo.MaxLivePool.Put | drainalgo/drainalgo.go:124-129 | `live` goes down by one, `maxLive` stays, one more item |
| DrainAlgo.MaxLivePool.Gc | drainalgo/drainalgo.go:131-138 | the items are cut to the first `maxLive` when there are more, then `maxLive` is set to `live` |
| DrainAlgo.MaxLivePool.Size | drainalgo/drainalgo.go:140-144 | the number of items |
| DrainAlgo.MinDeadPool.constructor | drainalgo/drainalgo.go:150-154 | an empty pool with `minDead` 0 |
| DrainAlgo.MinDeadPool.Get | drainalgo/drainalgo.go:156-168 | as the simple pool; a successful get lowers `minDead` to the new length when that is smaller; `0 <= minDead <= len(items)` is kept |
| DrainAlgo.MinDeadPool.Put | drainalgo/drainalgo.go:170-174 | one more item, `minDead` unchanged |
| DrainAlgo.MinDeadPool.Gc | drainalgo/drainalgo.go:176-185 | all items go when `minDead` exceeds the length, else the last `minDead` go; then `minDead` is the new length |
| DrainAlgo.MinDeadPool.Size | drainalgo/drainalgo.go:187-191 | the number of items |
| S3Put.WithDefaults | s3put/upload.go:32-40 | after defaulting the part size is at least 5 MiB and the concurrency at least 1; 0 becomes 20e6, any other size of at most 5 MiB (a negative one included) becomes 5 MiB, a size above 5 MiB is kept, a concurrency at most 0 becomes 8 and a positive one is kept |
| S3Put.WithDefaultsIdempotent | s3put/upload.go:32-40 | defaulting twice is defaulting once |
| S3Put.PlanChunks | s3put/upload.go:108-115 | between 2 and 10000 chunks; the part size only grows, and when it grows there are exactly 10000 chunks; the last part has 1 to `PartSize` bytes; `numChunks - 1` full parts plus the last make `size` exactly; unraised, the count is ⌈size/PartSize⌉ |
| S3Put.DivisionParts | s3put/upload.go:108-115 | for `0 < d < size`: at least one full part, a last part of 1 to `d` bytes, adding up to `size` |
| S3Put.RaisedPartSize | s3put/upload.go:111-114 | the raised part size ⌈size/10000⌉ is larger than the old one and gives exactly 10000 chunks |
| S3Put.MulMono | s3put/upload.go:112 | multiplying by a positive number keeps order |
| S3Put.DivAtLeast | s3put/upload.go:112 | `m d <= a` gives `a / d >= m` |
| S3Put.DivBetween | s3put/upload.go:112 | `a / d` is the `m` with `m d <= a < (m+1) d` |
| S3Put.MulCancel | s3put/upload.go:112 | a positive factor cancels in a strict comparison |
| S3Put.PartsCoverFile | s3put/upload.go:122-127 | the section readers start at 0, each part is non-empty, each part ends where the next begins, and the last ends at `size` |
| S3Put.ChoosePath | s3put/upload.go:31-115 | the single-object path is taken exactly when `size <= PartSize` after defaulting, so also for any negative size; a multipart plan has at most 10000 parts of at least 5 MiB covering `size` |
| S3Put.DelayBounded | s3put/upload.go:248-260 | the delay is never below 500 ms and always below 20 s |
| S3Put.DelaysWithinAttempts | s3put/upload.go:237-260 | within the five attempts the delay is 0.5, 1, 2, 4 and 8 s |
| S3Put.Retries.constructor | s3put/upload.go:243-246 | the zero value: no attempts, no delay |
| S3Put.Retries.Attempt | s3put/upload.go:248-260 | true exactly when fewer than five attempts were made, and then the count goes up by one and the delay is the doubling sequence's; false changes nothing |
| I128.Bitwise64 | i128/int128.go:16-41 | each bit of Go's `&`, `|`, `^` or `&^` on int64 is the operator applied to the operands' bits |
| I128.Halves | i128/int128.go:14-43 | applying the operator to `lo` and to `hi` separately applies it to each of the 128 bits |
| I128.And | i128/int128.go:13-19 | bit `k` of `i.And(j)` is set exactly when it is set in both |
| I128.Or | i128/int128.go:21-27 | bit `k` of `i.Or(j)` is set exactly when it is set in either |
| I128.Xor | i128/int128.go:29-35 | bit `k` of `i.Xor(j)` is set exactly when the two differ |
| I128.AndNot | i128/int128.go:37-43 | bit `k` of `i.AndNot(j)` is set exactly when it is set in `i` and not in `j` |
| I128.BitsDetermine128 | i128/int128.go:8-11 | two values with the same 128 bits are equal |
| I128.BitwiseCommute | i128/int128.go:14-35 | And, Or and Xor are commutative |
| I128.SelfCancel | i128/int128.go:30-43 | `x.Xor(x)` and `x.AndNot(x)` are zero |
| I128.AddWith | i128/int128.go:47-54 | the low half of the sum is `i.lo + j.lo` with int64 wrap-around |
| I128.AddWithDiffers | i128/int128.go:51-53 | the high half is bumped or not; the two results differ exactly when the bump decisions do |
| I128.AddBumpsOnSignedOverflow | i128/int128.go:46-55 | as written, `Add` bumps `hi` exactly when `i.lo + j.lo` overflows int64 |
| I128.AddZero | i128/int128.go:46-55 | adding {0, 0} gives the input back |
| I128.WrapCongruent | i128/int128.go:48-49 | values that agree modulo 2^64 wrap to the same int64 |
| I128.Wrap128 | i128/int128.go:7-8 | wrapping into the signed 128-bit range keeps the value modulo 2^128 |
| I128.AddMissesUnsignedCarry | i128/int128.go:51-53 | as written, {lo: -1, hi: 0} (2^64 - 1) plus 1 gives 0 instead of 2^64 |
| I128.AddCarry | i128/int128.go:46-55 | with the carry taken from the unsigned low halves, the sum is the 128-bit sum modulo 2^128 |
| I128.AddCarryValue | i128/int128.go:46-55 | any result with the wrapped low half and the unsigned carry in the high half is that sum |
| I128.WrapShift | i128/int128.go:49 | wrapping the high half to int64 wraps the whole value to 128 bits |
| I128.ModOf | i128/int128.go:46-55 | the remainder modulo 2^128 is the `r` of `x = r + d 2^128` with `0 <= r < 2^128` |
| I128.AddAgreesWithCarryIff | i128/int128.go:51-53 | the written `Add` is right exactly when signed overflow of the low halves coincides with unsigned carry |
| I128.SignedOverflow | i128/int128.go:51 | the test `(k.lo < i.lo) != (j.lo < 0)` holds exactly when `i.lo + j.lo` overflows int64 |
| I128.UnsignedCarry | i128/int128.go:51 | the wrapped low half, read unsigned, is below `i.lo` read unsigned exactly when the unsigned sum carries out |
| GoldmarkPos.ColumnAfter | goldmarkpos/goldmarkpos.go:64-70 | the column is between 1 and one more than the bytes read |
| GoldmarkPos.LineColFromOffset | goldmarkpos/goldmarkpos.go:61-73 | a negative offset gives line 1, column 1; otherwise the line is 1 plus the number of '\n' bytes before `offset`, and the column is `ColumnAfter` of those bytes |
| GoldmarkPos.StartIsOneOne | goldmarkpos/goldmarkpos.go:61-63 | offset 0 is line 1, column 1 |
| GoldmarkPos.LineStartOffset | goldmarkpos/goldmarkpos.go:64-70 | with no newline the column is the offset plus 1; otherwise it counts the bytes after the last '\n', which is preceded by one newline fewer |
| BtRegression.CharSet.constructor | btregression/btregression.go:3 | the zero value of the `[4]uint64` holds no byte |
| BtRegression.CharSet.Insert | btregression/btregression.go:5-13 | after `charSet[b>>6] \|= 1 << (b & 63)`, `inCharSet(c)` holds exactly when it held before or `c == b` |
| BtRegression.CharSet.InsertAll | btregression/btregression.go:10-14 | the loop adds exactly the bytes of `chars` |
| BtRegression.Init | btregression/btregression.go:9-15 | after `init`, `inCharSet(b)` holds exactly for the bytes of "qz:}t" |
| BtRegression.YellowSubmarineNotInSet | btregression/btregression_test.go:5-13 | no byte of "yellow submarine" is in the set, so the benchmark never fails |

## Left out

- The `condchan` pool and every other directory of the repository: they block on goroutines, make network, cloud or system calls, wrap other libraries, or are benchmarks.
- Reading stdin and files, `log.Fatal` and printing: inputs are parameters, fatal errors are error results, and the printed answers are results.
- Goroutines, mutexes and timing: the `drainalgo` mutexes (each method runs as one step), the S3 calls, goroutines and chunk channel of `s3put/upload.go`, and the sleep between retries (only the delay value is modelled).
- Floating point: `drainalgo`'s `getDelay`/`holdDelay`.
- `sliceresponse`: `main`, `handle` and the HTTP layer are not modelled. The "unsafe" format, which uses `reflect` and `unsafe`, is modelled as the slice's memory in little-endian byte order.
- `bee`: `loadCorpus` (file reading and map iteration order) and the printing in `main` are not modelled. The scoring and sorting rules are.
- `I128`: `Mul`, `Div`, `Rem`, `Neg`, `Comp`, `Lsh`, `Rsh` and the comparisons only panic with "unimplemented" in the source, so they are not modelled.
- `LinkedList`: `FrontBackSplit` has an empty body in the source, so it is not modelled.
- Implicit runtime panics are preconditions, not modelled panics:
  - goldmarkpos: an offset past `len(source)`. The only caller passes `Segment.Start - 1` of a Text node that follows `[` or `![`, which is never past the end.
  - drainalgo: a negative `maxLive` or `minDead` in `gc`.
  - day5: a program counter outside the list.
  - day6: `cycle` on no banks.
  - day9: `score`/`count` on a garbage node.
  - list: lists given as acyclic chains.
- `AdventDay3`: `day3b` is not modelled. Its search loop ends only because the neighbour sums grow, which is not part of the spiral's contract.
- `AdventDay3`: int64 overflow of spiral coordinates far beyond any reachable index is not modelled.
- `AdventDay5.Solve`: the jump loops of `day5a`/`day5b` are run with a `fuel` bound on the number of steps. A run that leaves the list within the fuel gives the answer; `OutOfFuel` stands for a run the bound cuts off.
- `AdventDay6.Day6`: the two unbounded loops of `day6` are run with a `fuel` bound on the number of cycles, as in day 5. When only the second loop runs out, the result keeps the first answer (`LoopOutOfFuel`), which the source has already printed by then.
- `AdventDay6.Day6`: the set of seen configurations is keyed by a ghost function proved equal to `memory.String`.
- `AdventDay7`: `findCorrectWeight`, which corrects the odd weight, is not modelled; `diffWeights` and `treeWeight`, which it uses, are.
- `AdventDay7.Tower.constructor`: `addRefs` in the source links only the programs reachable from the root; the model links every program.
- `AdventDay7.Tower.constructor`: requires the programs to form a forest under `byName`. This stands for the nil dereference (a missing child) and the endless recursion (a cycle) the source would hit.
- `AdventDay7.Tower.TreeWeight`: int overflow of sub-tower weights is not modelled.
- `AdventDay8.Day8`: the "bad instruction" error reports the offending line, not the partly parsed instruction the source prints.
- `AdventDay9`: bytes of the stream are chars; reader errors other than end of input, and int overflow of score and count, are not modelled.
- `ParamHeap.Heap.Fix`: the model proves that `Fix` restores heap order and keeps the multiset. It does not prove equivalence with `Remove` followed by `Push`, which would give the same multiset but may place elements differently.
- `GoStrings.Lines`: the 64 KiB line limit of `bufio.Scanner` (`MaxScanTokenSize`) is not modelled. On a longer line the scanner stops with `bufio.ErrTooLong`, and days 2, 4, 5, 7 and 8 then end with `log.Fatal`. The model splits lines of any length and returns answers.
- `GoStrings.ToUpper`: maps only ASCII letters. Go's `strings.ToUpper` also maps other letters, such as 'é' to 'É' and 'ſ' to 'S'. No such letter becomes one of `d2symbols`' symbols E, T, A and M, so the input is refused either way. The error may differ, though: the upper-cased letter can have a different UTF-8 length, which can change the length checks that come before the symbol checks.
- `SliceResponse.Writer.Write`: never fails. The source passes on write errors from the connection, which the model does not produce.
- `SliceResponse`: `make([]uint64, n)` for a huge decoded length is an allocation failure in the source. The model allocates any length.
- `ParamHeap.Heap.constructor`: requires `less` to be a strict weak order, which `New` does not check. The heap-order proofs need it, and `container/heap` assumes it too.
- `ParamHeap.Heap.Push`: with index recording on, requires the element not to be in the heap already, because one recorded index per element cannot describe two copies.
- `D2Symbols.Solve`: "never enqueues a state twice" is proved through `ExploredAdd`: a state is enqueued only when it is not yet in the visited map. There is no separate lemma over the whole run.
- `Bee.LoadPuzzle`: models the code as written, which accepts only 'A' among the capitals (see Findings). The rest of the model uses `Bee.LoadPuzzleIntended`.
- `I128.Add`: models the code as written, whose carry test is a signed-overflow test. It is not 128-bit addition (see Findings).
- `LinkedList.Append`: models the code as written, which drops `a`'s nodes. No concatenation is claimed for it (see Findings).

## Findings

| source | as written | input that shows it | evidently intended | confidence | as-written member | corrected member |
|---|---|---|---|---|---|---|
| bee/bee.go:102 | the capital-letter case is `r >= 'A' && r <= 'A'`, so 'B' to 'Z' fall to "disallowed letter" | the puzzle argument "ABCDEFG" is refused at 'B' | capitals 'A' to 'Z' accepted, as lower case is | not executed | Bee.CapitalsRejectedAsWritten | Bee.LoadPuzzleIntended |
| i128/int128.go:51-53 | the carry into `hi` is `(k.lo < i.lo) != (j.lo < 0)`, a signed-overflow test on the low halves | {lo: -1, hi: 0} (2^64 - 1) plus {lo: 1, hi: 0} gives 0, not 2^64 | carry when the low halves, read as uint64, wrap around | not executed | I128.AddMissesUnsignedCarry | I128.AddCarry |
| list/list.go:144-147 | the loop advances `*aRef` itself to the end of `a`, then stores `b` there | any non-empty `a`: its nodes are lost and `*aRef` ends up as `b` | walk a local reference to the last `Next` field and link `b` there | not executed | LinkedList.AppendDropsFirstList | LinkedList.AppendLists |
