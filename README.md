# nexmon telemetry core in Dafny

nexmon is a terminal dashboard. On every tick it samples the host and
updates one `AppState`. That state holds:

- a rolling 60-sample history per CPU core, plus the overall CPU mean;
- a rolling rx/tx history per network interface, reconciled by name;
- the process table: filtered by a search query, stably sorted by the
  active column, reversed when descending, and cut to `max_processes`
  rows.

Key presses edit the search query, choose the sort column and direction,
move the selected row, or quit. The GPU adapter parses the CSV output of
`nvidia-smi` into one `GpuInfo` per valid record.

The model keeps the source's own structure:

- `AppState` is a class with one field per field of the Rust struct.
  `View()` returns all of them as an `AppData` value.
- The state-changing code is written as methods with loops. These are
  `Collector.Refresh` with its CPU, network and process parts,
  `App.AppState.NextProcess`/`PreviousProcess`, `Keys.HandleKey`,
  `Gpu.GetGpuInfo` and `History.NewHistory`.
- Each such method is proved equal to a pure function: `Tick`, `SelectNext`,
  `SelectPrevious`, `Dispatch`, `GpuInfoOf` or `Zeros`. The properties the
  code promises are proved about those functions as lemmas.

What `sysinfo` reports in a tick enters as three lists of readings: cores,
interfaces and processes. The result of running `nvidia-smi` enters as an
optional exit status plus standard output.

Modules:

| file | module | models |
|---|---|---|
| wrappers.dfy | `Wrappers` | `Option`, `unwrap_or`, and collecting the present values of a loop (`FilterMap`) |
| history.dfy | `History` | the 60-slot `VecDeque<u64>` histories |
| strings.dfy | `Strings` | `to_lowercase`, `starts_with`, `contains`, `trim`, `split`, `lines` |
| numbers.dfy | `Numbers` | `u32`/`f32` parsing, `as u64` |
| app.dfy | `App` | src/app.rs |
| processorder.dfy | `ProcessOrder` | the column comparators, `sort_by`, `reverse` |
| collector.dfy | `Collector` | src/system/collector.rs |
| keys.dfy | `Keys` | the key `match` in src/main.rs |
| gpu.dfy | `Gpu` | src/system/gpu.rs |

## Model

| member | source | states |
|---|---|---|
| History.Zeros | src/system/collector.rs:11-12 | a new history holds exactly `n` samples, all zero |
| History.NewHistory | src/system/gpu.rs:44-47 | the fill loop yields exactly 60 zero samples |
| History.Push | src/system/collector.rs:26-29 | the front is popped only when 60 or more samples are held; the new sample is last and the older samples shift left by one (or stay put when there was room) |
| History.PushBounded | src/system/collector.rs:46-49 | a history of at most 60 samples stays at most 60, and a full one stays full |
| History.PushAllWindow | src/system/collector.rs:26-29 | after any run of pushes, a full history is the sliding window of the last 60 samples |
| History.PushedWindow | src/system/collector.rs:11-29 | a zero-filled history holds 60 samples after `n` pushes, and its newest `min(n, 60)` samples are the pushed values in order |
| Wrappers.Option.ToSeq | src/system/gpu.rs:34-56 | a present value becomes the one-element list holding that value, and a missing one the empty list |
| Wrappers.Option.GetOr | src/system/gpu.rs:39-42 | `unwrap_or`; defined by its body, see `Gpu.RecordFields` |
| Wrappers.FilterMap | src/system/gpu.rs:30-57 | the push-or-continue loop collects at most one value per input |
| Wrappers.FilterMapAppend | src/system/gpu.rs:32-57 | the inputs are handled independently and in order: two runs give concatenated results |
| Wrappers.FilterMapEmpty | src/system/gpu.rs:32-63 | nothing is collected if and only if every input is skipped |
| Wrappers.FilterMapFrom | src/system/gpu.rs:32-57 | every collected value comes from some input |
| Strings.LowerChar | src/system/collector.rs:78-79 | ASCII capitals map to the matching small letter; every other character is unchanged |
| Strings.Lower | src/system/collector.rs:78-79 | lower-casing keeps the length |
| Strings.ContainsIffOccurs | src/system/collector.rs:79 | the left-to-right `contains` scan succeeds if and only if the needle occurs at some index |
| Strings.ContainsWitness | src/system/collector.rs:79 | a successful scan yields an index where the needle occurs |
| Strings.OccursContains | src/system/collector.rs:79 | every occurrence is found by the scan |
| Strings.AbsentFirstChar | src/system/collector.rs:79 | a name lacking the query's first character does not contain the query |
| Strings.StartsWith | src/system/collector.rs:36 | `starts_with`; defined by its body, see `Collector.LoopbackSkipped` |
| Strings.Contains | src/system/collector.rs:79 | `contains` as a scan; defined by its body, see `Strings.ContainsIffOccurs` |
| Strings.ContainsEmpty | src/system/collector.rs:77-80 | every name contains the empty query |
| Strings.TrimStart | src/system/gpu.rs:33 | the result is a suffix; everything cut is whitespace; the result starts with a non-whitespace character or is empty |
| Strings.TrimEnd | src/system/gpu.rs:33 | the result is a prefix; everything cut is whitespace; the result ends with a non-whitespace character or is empty |
| Strings.Trim | src/system/gpu.rs:33 | the trimmed field has no whitespace at either end and is no longer than the field |
| Strings.TrimSlice | src/system/gpu.rs:33 | the trimmed field is a contiguous slice of the field with only whitespace cut on either side |
| Strings.TrimPadded | src/system/gpu.rs:33 | whitespace padding around a trimmed string is removed exactly |
| Strings.Split | src/system/gpu.rs:33 | `split(',')` yields at least one piece, and no piece contains the separator |
| Strings.SplitCount | src/system/gpu.rs:33-34 | there is exactly one more piece than there are separators |
| Strings.JoinSplit | src/system/gpu.rs:33 | joining the pieces with the separator gives the line back |
| Strings.SplitJoin | src/system/gpu.rs:33 | splitting separator-free pieces joined by the separator gives back those pieces |
| Strings.StripCarriageReturns | src/system/gpu.rs:32 | each piece loses the `\r` that ends it, if any |
| Strings.Lines | src/system/gpu.rs:32 | no line holds a newline |
| Strings.LinesTerminated | src/system/gpu.rs:32 | newline-terminated lines without a final `\r` read back as exactly those lines |
| Numbers.DigitValue | src/system/gpu.rs:42 | a digit's value is below ten |
| Numbers.DigitChar | src/system/gpu.rs:42 | the digit printed for a value below ten reads back as that value |
| Numbers.NatToString | src/system/gpu.rs:39-42 | a printed numeral is a non-empty string of digits |
| Numbers.NatToStringValue | src/system/gpu.rs:39-42 | a printed numeral reads back as the number |
| Numbers.ParseU32 | src/system/gpu.rs:42 | a string parses if and only if, after an optional leading `+`, it is a non-empty digit string whose value fits in a `u32`, and then to that value; the empty string and a leading `-` are rejected |
| Numbers.ParseU32RejectsNonDigit | src/system/gpu.rs:42 | any character other than a digit, or than a leading `+`, makes the parse fail |
| Numbers.ParseU32OfDigits | src/system/gpu.rs:42 | a digit string whose value fits in a `u32` parses to that value |
| Numbers.ParseU32RoundTrip | src/system/gpu.rs:42 | every `u32` numeral parses back to its value |
| Numbers.IndexOf | src/system/gpu.rs:39-41 | the first position of the decimal point, or `None` exactly when there is none |
| Numbers.FractionValue | src/system/gpu.rs:39-41 | the digits after the point are worth at least 0 and less than 1 |
| Numbers.DecimalValue | src/system/gpu.rs:39-41 | `w.f` lies between `w` and `w + 1` |
| Numbers.ParseDecimal | src/system/gpu.rs:39-41 | the empty string is rejected; an accepted string holds only digits, points and a leading sign; an unsigned numeral is non-negative |
| Numbers.ParseDecimalRejects | src/system/gpu.rs:39-41 | a string that starts with neither a digit, a point nor a sign, such as `[N/A]`, is rejected |
| Numbers.DigitsExclude | src/system/gpu.rs:39-42 | a digit string holds no separator, point or newline |
| Numbers.ParseDecimalOfDigits | src/system/gpu.rs:39-41 | a digit string parses as a float of the same value |
| Numbers.ParseDecimalOfNat | src/system/gpu.rs:39-41 | an integer numeral, as `nounits` prints it, parses to its value |
| Numbers.ParseDecimalOfFraction | src/system/gpu.rs:39-41 | a numeral with a fraction, such as `12.5`, parses to its value |
| Numbers.AsU64 | src/system/collector.rs:29 | `as u64` rounds toward zero into `[0, u64::MAX]`, with 0 for non-positive values and `u64::MAX` for values beyond it |
| App.ParseSortColumn | src/app.rs:63-68 | after lower-casing, `pid` gives Pid, `name` gives Name, `mem` or `memory` gives Memory, and every other string gives Cpu; each clause holds both ways |
| App.ParseSortColumnIgnoresCase | src/app.rs:63 | strings that lower-case alike pick the same column |
| App.ParseSortColumnExamples | src/app.rs:63-68 | `PID`, `Name`, `MEM`, `Memory` pick their columns; `cpu`, the empty string and `memo` pick Cpu |
| App.Initial | src/app.rs:70-88 | the new state: descending sort on the parsed column, selection 0, no table selection, not searching, empty query, empty histories and process list, no GPUs, options as given |
| App.AppState.constructor | src/app.rs:59-89 | `AppState::new` builds exactly the initial state |
| App.NextSelection | src/app.rs:95 | one row down, clamped to the last row; always a valid row |
| App.PreviousSelection | src/app.rs:103 | one row up, saturating at 0 |
| App.NextThenPrevious | src/app.rs:95-103 | down then up returns to any row but the last |
| App.PreviousThenNext | src/app.rs:95-103 | up then down returns to any row but the first |
| App.SelectNext | src/app.rs:91-97 | no change on an empty table; otherwise the selection is a valid row and the table state selects the same row |
| App.SelectPrevious | src/app.rs:99-105 | no change on an empty table; otherwise the selection does not grow and the table state selects the same row |
| App.StaleSelection | src/app.rs:95-103 | a selection past the end of a shrunk table is pulled to the last row by a move down, but a move up only steps back by one |
| App.AppState.NextProcess | src/app.rs:91-97 | `next_process` updates the fields as `SelectNext` says |
| App.AppState.PreviousProcess | src/app.rs:99-105 | `previous_process` updates the fields as `SelectPrevious` says |
| ProcessOrder.LexLeTotal | src/system/collector.rs:85 | any two names are ordered one way or the other |
| ProcessOrder.LexLeTransitive | src/system/collector.rs:85 | the name order is transitive |
| ProcessOrder.LexLeAntisymmetric | src/system/collector.rs:85 | names ordered both ways are equal |
| ProcessOrder.LexLe | src/system/collector.rs:85 | `String::cmp` as "not greater"; defined by its body, see `ProcessOrder.LexLeTotal` and `ProcessOrder.LexLeTransitive` |
| ProcessOrder.KeyLe | src/system/collector.rs:83-88 | each column's comparator; defined by its body, see `ProcessOrder.KeyLeTotal` and `ProcessOrder.SortBySorted` |
| ProcessOrder.KeyLeTotal | src/system/collector.rs:84-87 | every column's comparator is total |
| ProcessOrder.KeyLeTransitive | src/system/collector.rs:84-87 | every column's comparator is transitive |
| ProcessOrder.Insert | src/system/collector.rs:83-88 | inserting adds one element; that it adds exactly that element, keeps an ascending list ascending and goes ahead of its equal-key elements is stated in `ProcessOrder.InsertPermutation`, `ProcessOrder.InsertSorted` and `ProcessOrder.InsertClass` |
| ProcessOrder.SortBy | src/system/collector.rs:83-88 | sorting keeps the length; that the result is ascending, a permutation and stable is stated in `ProcessOrder.SortBySorted`, `ProcessOrder.SortByPermutation` and `ProcessOrder.SortByStable` |
| ProcessOrder.InsertPermutation | src/system/collector.rs:83-88 | inserting adds exactly one copy of the element |
| ProcessOrder.SortByPermutation | src/system/collector.rs:83-88 | the sorted list is a permutation of the input |
| ProcessOrder.InsertSorted | src/system/collector.rs:83-88 | inserting into an ascending list keeps it ascending |
| ProcessOrder.SortBySorted | src/system/collector.rs:83-88 | the sorted list is ascending by the active column |
| ProcessOrder.SortedPairwise | src/system/collector.rs:83-88 | in an ascending list every earlier element's key is at most every later one's |
| ProcessOrder.KeyClass | src/system/collector.rs:83-88 | the processes with a given key form a sub-list of the list; used by `ProcessOrder.SortByStable` and `Collector.SnapshotEqualKeys` |
| ProcessOrder.InsertClass | src/system/collector.rs:83-88 | inserting puts the element ahead of the elements with its key that were already there |
| ProcessOrder.SortByStable | src/system/collector.rs:83-88 | `sort_by` is stable: processes with equal keys keep their relative order |
| ProcessOrder.KeyClassAppend | src/system/collector.rs:83-88 | the equal-key processes of two lists joined are those of the first followed by those of the second |
| ProcessOrder.KeyClassReverse | src/system/collector.rs:90-92 | reversal lists the processes with a given key in reverse order |
| ProcessOrder.SortBySortedInput | src/system/collector.rs:83-88 | sorting an ascending list changes nothing |
| ProcessOrder.Reverse | src/system/collector.rs:90-92 | element `i` of the reversed list is element `n - 1 - i` of the list |
| ProcessOrder.ReverseInvolution | src/system/collector.rs:90-92 | reversing twice gives the list back |
| ProcessOrder.ReversePermutation | src/system/collector.rs:90-92 | the reversed list is a permutation of the list |
| ProcessOrder.ReverseDescending | src/system/collector.rs:90-92 | reversing an ascending list gives a descending one |
| Collector.SeedCores | src/system/collector.rs:9-19 | one new history per reported core |
| Collector.SampleCore | src/system/collector.rs:23-29 | the core keeps its name, its usage is overwritten, and the truncated usage is pushed onto its history |
| Collector.SampleCores | src/system/collector.rs:22-31 | sampling keeps the number of histories; what each history becomes is stated in `Collector.CpuTickWindows` and `Collector.SampleCoresStep` |
| Collector.Seeded | src/system/collector.rs:9-19 | histories are created only while there are none; defined by its body, see `Collector.FirstRefreshSeeds` and `Collector.LaterRefreshKeepsCores` |
| Collector.MeanUsage | src/system/collector.rs:32 | the total over the core count, 0 with no core; defined by its body, see `Collector.OverallCpuMean` and `Collector.MeanBounds` |
| Collector.CpuTick | src/system/collector.rs:7-32 | the CPU part of a tick; defined by its body, see `Collector.CpuTickWindows`, `Collector.OverallCpuMean` and `Collector.OverallCpuBounds` |
| Collector.FirstRefreshSeeds | src/system/collector.rs:9-29 | the first tick creates one history per core, named after it, holding 59 zeros followed by the core's sample |
| Collector.LaterRefreshKeepsCores | src/system/collector.rs:9-19 | later ticks neither create nor remove histories, and keep their names and order |
| Collector.CpuTickWindows | src/system/collector.rs:22-31 | every history stays at 60 samples; a sampled core's samples shift left by one with the new one last; a history with no core at its index is untouched |
| Collector.SumUsageBounds | src/system/collector.rs:21-31 | usages in `[0, 100]` sum to at most `100 n` |
| Collector.MeanBounds | src/system/collector.rs:32 | a total of at most `100 n` over at least `n` cores gives a mean in `[0, 100]` |
| Collector.OverallCpuNoCores | src/system/collector.rs:32 | with no core the overall usage is 0 |
| Collector.OverallCpuMean | src/system/collector.rs:21-32 | when every core has a history, the overall usage is the sum of the usages divided by the number of cores |
| Collector.OverallCpuBounds | src/system/collector.rs:21-32 | usages in `[0, 100]` give an overall usage in `[0, 100]` |
| Collector.SkippedCoresNotSummed | src/system/collector.rs:22-32 | cores beyond the histories add nothing to the total but still count in the divisor |
| Collector.SeedHistories | src/system/collector.rs:9-19 | the seeding loop builds the zero-filled histories in core order |
| Collector.SampleHistories | src/system/collector.rs:21-31 | the sampling loop updates the paired histories and accumulates the paired cores' usages |
| Collector.SampleCoresStep | src/system/collector.rs:22-31 | one more core updates only its own history, if it has one |
| Collector.RefreshCpu | src/system/collector.rs:7-32 | the CPU part of `refresh` updates the state as the CPU part of `Tick` says |
| Collector.FindInterface | src/system/collector.rs:43 | the first history with the interface's name, or `None` exactly when no history has that name |
| Collector.FindInterfaceIndex | src/system/collector.rs:43 | the `find` loop returns that first match |
| Collector.FindInterfaceFirst | src/system/collector.rs:43 | the first name match is the one found |
| Collector.IsLoopback | src/system/collector.rs:36 | a name starting with `lo`; defined by its body, see `Collector.LoopbackSkipped` |
| Collector.UpdateInterface | src/system/collector.rs:43-49 | a known interface's update; defined by its body, see `Collector.ExistingInterfaceUpdated` |
| Collector.NewInterface | src/system/collector.rs:50-61 | a new interface's entry; defined by its body, see `Collector.NewInterfaceAppended` |
| Collector.ReconcileOne | src/system/collector.rs:35-62 | one reported interface; defined by its body, see `Collector.ReconcileOneInvariant` |
| Collector.Reconcile | src/system/collector.rs:35-62 | the interfaces in report order; defined by its body, see `Collector.ReconcileInvariant` and `Collector.ReconcileCovers` |
| Collector.NetworkTick | src/system/collector.rs:34-62 | the network part of a tick; defined by its body, see `Collector.RefreshNetwork` |
| Collector.LoopbackSkipped | src/system/collector.rs:36-38 | with loopback hidden, an `lo*` interface leaves the histories unchanged |
| Collector.ExistingInterfaceUpdated | src/system/collector.rs:43-49 | a known interface gets both counts overwritten and pushed, each history stays within 60, and no other entry changes |
| Collector.NewInterfaceAppended | src/system/collector.rs:50-61 | an unknown interface is appended once, with its counts and two histories of 60 zeros |
| Collector.ReconcileOneInvariant | src/system/collector.rs:35-62 | one interface never removes or renames an entry; names stay distinct and windows bounded; the interface is present afterwards unless skipped |
| Collector.ReconcileInvariant | src/system/collector.rs:35-62 | over a tick the history list only grows; earlier entries keep their name and place; names stay distinct and windows bounded |
| Collector.ReconcileCovers | src/system/collector.rs:35-62 | every reported interface that is not skipped has a history after the tick |
| Collector.ReconcileAll | src/system/collector.rs:35-62 | the interface loop computes `Reconcile` |
| Collector.RefreshNetwork | src/system/collector.rs:34-62 | the network part of `refresh` updates the state as `NetworkTick` says |
| Collector.Retain | src/system/collector.rs:79 | filtering never adds processes; that it keeps the order and exactly the matching copies is stated in `Collector.RetainAppend` and `Collector.RetainCount` |
| Collector.Take | src/system/collector.rs:94-97 | truncation keeps the first `min(len, max)` processes |
| Collector.Matches | src/system/collector.rs:78-79 | the lower-cased name contains the lower-cased query; defined by its body, see `Collector.FilterMembers` |
| Collector.FilterByQuery | src/system/collector.rs:76-80 | the search filter; defined by its body, see `Collector.FilterMembers` and `Collector.EmptyQueryKeepsAll` |
| Collector.Orient | src/system/collector.rs:90-92 | reversal when descending; defined by its body, see `Collector.DescendingIsReverse`, `Collector.SnapshotEqualKeys` and `ProcessOrder.ReverseDescending` |
| Collector.Snapshot | src/system/collector.rs:75-97 | the process table of a tick; defined by its body, see `Collector.SnapshotOrdered`, `Collector.SnapshotMembers` and `Collector.SnapshotPermutation` |
| Collector.ProcessTick | src/system/collector.rs:64-97 | the process part of a tick; defined by its body, see `Collector.RefreshProcesses` |
| Collector.RetainAppend | src/system/collector.rs:79 | filtering keeps the original relative order |
| Collector.RetainCount | src/system/collector.rs:79 | filtering keeps every copy of a matching process and no copy of any other |
| Collector.FilterMembers | src/system/collector.rs:76-80 | a process survives the filter if and only if it was reported and its lower-cased name contains the lower-cased query |
| Collector.EmptyQueryKeepsAll | src/system/collector.rs:77 | an empty query keeps every process, as would filtering by it |
| Collector.SnapshotOrdered | src/system/collector.rs:82-97 | the table has `min(matching, max)` rows; it is the head of the ordered list; it is ascending when ascending and descending otherwise |
| Collector.DescendingIsReverse | src/system/collector.rs:75-97 | the descending table is the first `max` rows of the reverse of the full, stably sorted ascending table |
| Collector.KeyClassRetain | src/system/collector.rs:76-80 | the search filter and picking out the processes with one key commute |
| Collector.SnapshotEqualKeys | src/system/collector.rs:75-92 | when nothing is cut off, matching processes with equal keys appear in the order they were reported when ascending, and in the reverse of that order when descending |
| Collector.SnapshotMembers | src/system/collector.rs:64-97 | every row is a reported process that matches the query |
| Collector.SnapshotPermutation | src/system/collector.rs:64-92 | when nothing is cut off, the table is a permutation of the matching processes |
| Collector.SnapshotExample | src/system/collector.rs:82-97 | CPU usages 10, 90 and 50, descending, at most two rows: the rows are the 90 and the 50 |
| Collector.ExampleSorted | src/system/collector.rs:86 | three processes are sorted by CPU usage |
| Collector.ExampleInsertLast | src/system/collector.rs:86 | a higher CPU usage is placed after a lower one |
| Collector.ExampleReversed | src/system/collector.rs:90-92 | three processes are reversed |
| Collector.SearchExample | src/system/collector.rs:76-80 | the query `chr` keeps `chrome` and `chromium` and drops `bash` |
| Collector.ExampleNames | src/system/collector.rs:79 | `chrome` and `chromium` contain `chr` and `bash` does not |
| Collector.RetainMatching | src/system/collector.rs:79 | the `retain` loop computes `Retain` |
| Collector.CollectProcesses | src/system/collector.rs:65-74 | `clear` plus one `push` per reported process gives the reported list |
| Collector.SortProcesses | src/system/collector.rs:83-88 | the sort computes the stable ascending order `SortBy` |
| Collector.ReverseProcesses | src/system/collector.rs:90-92 | the reversal computes `Reverse` |
| Collector.BuildSnapshot | src/system/collector.rs:64-97 | the process pipeline computes `Snapshot` |
| Collector.RefreshProcesses | src/system/collector.rs:64-97 | the process part of `refresh` updates the state as `ProcessTick` says |
| Collector.Tick | src/system/collector.rs:4-98 | a tick changes only the CPU, network and process fields |
| Collector.Refresh | src/system/collector.rs:4-98 | `refresh` updates the state as `Tick` says |
| Collector.RepeatedTick | src/system/collector.rs:4-98 | a second tick with the same readings shows the same process table, and every CPU history stays a full window of the same count |
| Keys.SearchKey | src/main.rs:70-84 | search-mode keys change the search mode and the query and nothing else |
| Keys.SearchIgnoresOtherKeys | src/main.rs:83 | in search mode the arrows and every other key that is neither a character, Enter, Esc nor Backspace leave the state unchanged |
| Keys.CommandKey | src/main.rs:86-102 | keys outside search mode never touch the readings, the options or the query |
| Keys.Dispatch | src/main.rs:69-103 | no key changes the readings or options, and nothing quits in search mode |
| Keys.QuitKeys | src/main.rs:87-92 | a key quits if and only if it is `q`, `Q` or Control-`c` outside search mode |
| Keys.SearchTypes | src/main.rs:80-82 | in search mode every character, `q` included, is appended to the query |
| Keys.SearchEnds | src/main.rs:72-76 | Enter ends the search and keeps the query; Esc ends it and clears the query |
| Keys.SearchBackspace | src/main.rs:77-79 | Backspace drops the last character of the query, and does nothing to an empty one |
| Keys.TypeThenBackspace | src/main.rs:77-82 | typing a character and then Backspace restores the state |
| Keys.LowercaseCIgnored | src/main.rs:88-95 | `c` without Control changes nothing; `C` without Control selects Cpu; `C` with Control changes nothing |
| Keys.ColumnKeys | src/main.rs:96-98 | `m`/`M`, `p`/`P`, `n`/`N` select Memory, Pid, Name |
| Keys.ToggleTwice | src/main.rs:99 | `r`/`R` flips the direction, and flipping twice restores the state |
| Keys.SearchThenEnter | src/main.rs:72-100 | `/` starts a search, and Enter at once restores the state |
| Keys.NavigationKeys | src/main.rs:93-94 | Down and `j` move down, Up and `k` move up |
| Keys.DownSelectsRow | src/main.rs:93 | moving down on a non-empty table leaves a valid row selected in both fields |
| Keys.OtherKeysIgnored | src/main.rs:86-101 | any other key outside search mode changes nothing |
| Keys.HandleKey | src/main.rs:69-103 | the handler returns exactly when `Dispatch` quits, leaving the state alone, and otherwise updates it as `Dispatch` says |
| Keys.HandleSearchKey | src/main.rs:70-84 | the search-mode `match` updates the state as `SearchKey` says |
| Keys.HandleCommandKey | src/main.rs:86-102 | the other `match` quits or updates the state as `CommandKey` says |
| Gpu.ParseRecord | src/system/gpu.rs:33-56 | a line yields a GPU if and only if it has exactly 5 commas (6 fields); that GPU has 60 zero samples and a `u32` temperature |
| Gpu.RecordOf | src/system/gpu.rs:38-56 | every GPU starts with 60 zero samples and a temperature that fits in a `u32` |
| Gpu.IsRecord | src/system/gpu.rs:33-36 | a line with exactly five commas, so six fields; defined by its body, see `Gpu.ParseRecord` |
| Gpu.ValidRecords | src/system/gpu.rs:30-57 | the GPUs of the valid lines in order; defined by its body, see `Gpu.ValidRecordsEmpty`, `Gpu.ValidRecordsAppend` and `Gpu.ValidFormatted` |
| Gpu.GpuInfoOf | src/system/gpu.rs:25-63 | the result of `get_gpu_info`; defined by its body, see `Gpu.GpuInfoOfCases` and `Gpu.GpuInfoOfReport` |
| Gpu.GetGpuInfo | src/system/gpu.rs:25-63 | the method computes `GpuInfoOf` |
| Gpu.ReadRecords | src/system/gpu.rs:30-57 | the line loop collects the GPUs of the valid lines in order |
| Gpu.ReadRecord | src/system/gpu.rs:33-56 | the loop body computes `ParseRecord` |
| Gpu.GpuInfoOfCases | src/system/gpu.rs:25-63 | `None` if and only if the command is missing, failed, or printed no line with six fields; every reported GPU has 60 zero samples |
| Gpu.ValidRecordsEmpty | src/system/gpu.rs:32-63 | no GPU is read if and only if every line is skipped |
| Gpu.ValidRecordsHistories | src/system/gpu.rs:44-47 | every GPU read has a history of 60 zeros |
| Gpu.ValidRecordsAppend | src/system/gpu.rs:32-57 | lines are read independently: two runs of lines give concatenated GPU lists |
| Gpu.RecordFields | src/system/gpu.rs:33-42 | of six comma-free fields, the name is the trimmed second field; the numbers come from fields three to six, or are zero when they do not parse; the first field is ignored |
| Gpu.NotNumeralReadsZero | src/system/gpu.rs:39-42 | a field that cannot start a numeral reads as zero in every numeric field |
| Gpu.UnparsableFieldsReadZero | src/system/gpu.rs:33-42 | a six-field line whose numeric fields are not numerals still yields a GPU, named after the trimmed second field, with usage, memory and temperature zero |
| Gpu.PlaceholderReadsZero | src/system/gpu.rs:33-42 | a record whose four readings are the same placeholder reads as a GPU with every reading zero |
| Gpu.NotAvailableReadsZero | src/system/gpu.rs:33-42 | records reading `[N/A]` or `[Not Supported]` are kept, with usage, memory and temperature zero |
| Gpu.NumeralFree | src/system/gpu.rs:33 | a printed numeral holds no comma and no newline |
| Gpu.FieldsFree | src/system/gpu.rs:33 | no field of a printed record holds a comma or a newline |
| Gpu.PaddedNumeral | src/system/gpu.rs:33-42 | a space-padded numeral trims to its digits and parses to its value |
| Gpu.NumeralFieldsRead | src/system/gpu.rs:38-42 | the fields `index, name, numerals` read back as the name and the numerals' values |
| Gpu.PaddedName | src/system/gpu.rs:38 | a space-padded trimmed name trims back to itself |
| Gpu.PaddedDecimal | src/system/gpu.rs:39-41 | a space-padded numeral is read as its value by the float fields |
| Gpu.PaddedU32 | src/system/gpu.rs:42 | a space-padded numeral within `u32` is read as its value by the temperature field |
| Gpu.FieldsRead | src/system/gpu.rs:38-42 | the fields of a printed record read back as the reading's values |
| Gpu.ParseFormatRecord | src/system/gpu.rs:33-56 | a printed record parses to the GPU it describes |
| Gpu.FormatRecords | src/system/gpu.rs:32 | one printed line per GPU |
| Gpu.ExpectedAll | src/system/gpu.rs:49-56 | one expected `GpuInfo` per GPU |
| Gpu.NoNewlineInJoin | src/system/gpu.rs:32-33 | joining newline-free fields gives a newline-free line |
| Gpu.ValidFormatted | src/system/gpu.rs:32-57 | printed records are read back as their GPUs in order, and every printed line passes through `lines()` unchanged |
| Gpu.JoinEndsWithLast | src/system/gpu.rs:33 | a joined line ends with its last field |
| Gpu.FormatEndsInDigit | src/system/gpu.rs:32 | a printed record ends in a digit, never in `\r` |
| Gpu.GpuInfoOfReport | src/system/gpu.rs:25-63 | a successful run listing at least one GPU, one record per line, is read as exactly those GPUs in that order |

## Left out

- The `sysinfo` calls (`refresh_all`, `cpus()`, `networks()`,
  `processes()`) are not modelled. Their results are the parameters of
  `Collector.Refresh`: lists of readings, in the order `sysinfo` yields
  them.
- Running `nvidia-smi` is not modelled either. Its result is the parameter
  of `Gpu.GetGpuInfo`. `String::from_utf8_lossy` is left out: standard
  output is already a string.
- Nothing in src/main.rs, src/app.rs or src/system/collector.rs calls
  `get_gpu_info`, so `gpus` stays `None` from `AppState::new` on, and
  `Collector.Tick` leaves it unchanged.
- Terminal setup and teardown, drawing, event polling, the tick timer and
  command-line parsing are not modelled. They are I/O and wall-clock time.
  The key handler receives the key as a parameter. Only the Control
  modifier is represented, because it is the only one the handler reads.
- `TableState` is modelled only through the row it selects
  (`tableSelected`); its scroll offset belongs to the renderer.
- The `System` and `Networks` handles of `AppState` are not modelled, and
  neither is the `refresh_all` inside `AppState::new`.
- `ProcessInfo.status`, the `Debug` text of the process status, is carried
  as an opaque string. How it is printed is not modelled.
- `f32`/`f64` values are modelled as exact reals. Rounding in the CPU
  total and the mean is not modelled, and neither is NaN. With no NaN,
  `partial_cmp(...).unwrap_or(Equal)` is the usual order on reals.
- Numbers.AsU64: does not model NaN, which Rust casts to 0, because
  readings are reals.
- Numbers.ParseDecimal: accepts an optional sign, digits and an optional
  fractional part. It does not accept exponents, `inf`, `infinity` or
  `nan`, which Rust's float parser also accepts. `nvidia-smi` with
  `nounits` prints none of these.
- Strings.LowerChar, Strings.Lower: fold only the ASCII capitals. Rust's `to_lowercase`
  also folds the rest of Unicode, which this model does not.
- ProcessOrder.SortBy: specifies the result of `sort_by`, a stable sort,
  as a stable insertion sort. The merge-sort steps Rust takes in place are
  not modelled. Any two stable sorts by the same total preorder give the
  same list.
- `VecDeque` and `Vec` are modelled as sequences that are reassigned.
  Their capacities and in-place moves are not modelled. `pid` (`u32`),
  `memory` (`u64`), and the interfaces' rx/tx byte counts and the
  samples pushed onto their histories (`u64`) are naturals; the code does
  no arithmetic on them.
