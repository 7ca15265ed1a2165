# defrag-simulator-rs, modelled in Dafny

defrag-simulator-rs animates an MS-DOS style disk defragmenter on a grid of clusters. When it
starts, it generates a random fragmented layout. The layout holds:

- Pending clusters of data;
- a Reading and a Writing seed;
- Unused free space;
- Bad clusters, about 2% of the grid;
- one Unmovable system cluster at index 0.

The simulation then goes through four phases. Initializing lasts about 20 ticks. Analyzing sweeps
a read cursor across the grid. Defragmenting moves one randomly chosen Pending cluster at a time:
the cluster is read, a first-fit run of free clusters is marked Writing, and the cluster under the
write cursor is committed as Used. Finished waits, then either restarts (demo mode) or stops.
The application object also keeps several other pieces:

- a free-space index of the maximal Unused runs, sorted longest first, with a worst-fit lookup;
- a cache of the Pending positions;
- a drive, chosen from a catalogue of four drives by its letter; the drive's I/O operations per
  second pace the engine;
- a menu;
- a parser for the `WxH` size argument;
- a case-insensitive parser for the UI style.

The model has these modules:

| module | file | what it holds |
|---|---|---|
| `Models` | models.dfy | cluster states, phases and statistics |
| `Constants` | constants.dfy | the drive catalogue and its lookups, animation timing, grid defaults, UI styles |
| `Grid` | grid.dfy | state counts, the Pending positions, the first-fit window specification |
| `Layout` | layout.dfy | the layout generator of `App::new` and `restart`, with the random draws as data |
| `FreeSpace` | free_space.dfy | the `FreeSpaceCache` class and the maximal-run specification it is proved against |
| `Drives` | drives.dfy | `DiskDrive`, `DiskDriveCollection` and drive selection |
| `FileFragments` | files.dfy | `FileFragment` and its fragmentation check |
| `Cli` | args.dfy | `parse_size` and `Args::get_ui_style` |
| `Engine` | engine.dfy | `App::update` as a pure transition `Tick` on a `Sim` value, with the lemmas about it |
| `Application` | app.dfy | the `App` class: its fields, updated in place by methods each proved equal to the engine function it implements |
| `Arith` | arith.dfy | area, quotient and remainder as recursive functions |
| `Float32` | float32.dfy | `f32` rounding of nonnegative values that are integers over a power of two, and the truncating cast to `usize` |

`Wrappers` (wrappers.dfy) holds `Option` and `Result`.

The engine invariant `Engine.Inv` has two parts. The grid has `width * height` clusters, and both
cursors point into it. Also, the clusters already defragmented, plus the clusters still Pending,
plus the one cluster owed by a file in flight, never exceed the run's initial Pending count. That
count is `total_to_defrag - 2`, because the total also counts the Writing and Reading seeds, and
no step ever commits a seed. Every tick keeps this invariant, and `Application.App.Update` keeps
`Valid()`.

`Arith` has no counterpart in the simulator. It is a proof aid that states area, quotient and
remainder as recursive functions, so the other proofs stay within linear arithmetic.

The bad-cluster count and the restart fill are `(total as f32 * fraction) as usize` with the
constants 0.02 and 0.65. `Float32` models that arithmetic exactly, using IEEE 754 rounding to
nearest, ties to even. Both constants are stored just below their decimal value (0.65 is
`10905190 / 2^24`), so the restart fill can be one less than in exact arithmetic: a 180-cluster
grid restarts with 116 Pending clusters, not 117.

Randomness, the clock and the file-name provider are not modelled as such. Each tick's
`TickInput` supplies their outcomes:

- whether the current operation's end time has passed;
- the draw that picks a Pending cluster;
- the file size;
- the base duration;
- the file name;
- the draws a restart uses.

The constructor and `Restart` take the layout draws as a parameter. The sounds a tick would play
are returned as a sequence of `Cue`s.

## Model

| member | source | states |
|---|---|---|
| Arith.AreaIsProduct | src/app.rs:300 | the grid's cluster count is `width * height`, and it is nonzero exactly when both sides are |
| Arith.DivisionAgrees | src/app.rs:667-669 | the quotient and remainder the engine uses satisfy `a == q * b + r` with `r < b` |
| Grid.CountIsMultiplicity | src/app.rs:858-860 | `count_clusters(st)` is the number of occurrences of `st` in the grid |
| Grid.CountNotCreated | src/app.rs:858-860 | a count cannot grow when no cluster newly enters that state |
| Grid.CountAfterSet | src/app.rs:858-860 | overwriting one cluster moves exactly one unit of count from its old state to its new one |
| Grid.PendingIndices | src/app.rs:655-661 | every listed index is in the grid and Pending, and there are exactly as many as there are Pending clusters |
| Grid.PendingIndicesSortedAndComplete | src/app.rs:833-839 | the Pending indices are strictly ascending, and every Pending cluster is listed |
| Grid.CollectPending | src/app.rs:833-839 | the enumerate/filter scan yields exactly the ascending list of Pending indices |
| Grid.FirstFit | src/app.rs:799-824 | size 0 gives no answer; otherwise the answer is a window of `size` Unused clusters with no such window before it, and there is no answer only when no window exists |
| Grid.FirstFitIsUnique | src/app.rs:799-824 | any answer that meets the first-fit contract is the first-fit answer |
| Constants.FindDrive | src/constants.rs:56-58 | the first configuration with the letter; none exactly when no configuration has it |
| Constants.GetDriveByLetter | src/constants.rs:56-58 | a catalogue drive with exactly this letter, or none when no catalogue drive has it (case-sensitive) |
| Constants.GetDriveByIndex | src/constants.rs:61-63 | the catalogue entry at `index`, present exactly when `index < 4` |
| Constants.DriveLookupExamples | src/constants.rs:228-233 | 'C' finds drive C, 'F' finds drive F, 'Z' and lower-case 'c' find nothing |
| Constants.CatalogueWellFormed | src/constants.rs:18-53 | catalogue letters are distinct, every drive has at least 1 IOPS, and the default drive is the first entry |
| Constants.LetterAndIndexAgree | src/constants.rs:50-63 | looking a catalogue drive up by its own letter gives the same drive as looking it up by its index |
| Constants.MaxOne | src/app.rs:652 | `max(iops, 1)` is `iops` when that is nonzero and 1 otherwise |
| Constants.CatalogueIopsNeedNoGuard | src/constants.rs:18-49 | for every catalogue drive the `max(iops, 1)` guard changes nothing |
| Constants.StoredFractions | src/constants.rs:171-174 | the `f32` values of 0.65 and 0.02 are the nearest ones with a full 24-bit significand, and each lies strictly below its decimal literal |
| Float32.BitLength | src/app.rs:409 | `n` has `l` binary digits: it lies below `2^l` and, when positive, at least `2^(l - 1)` |
| Float32.Ulp | src/app.rs:409 | the spacing of the `f32` values near `n` is at least 1, more than `n / 2^24`, and at most `n / 2^23` once `n` needs more than 24 bits |
| Float32.RoundToF32 | src/app.rs:409 | the product rounded to `f32` is a multiple of the spacing within half a spacing of the exact value, and a tie goes to the even significand |
| Float32.RoundIsNearest | src/app.rs:409 | any multiple of the spacing closer than half a spacing is the rounded value, so rounding is to nearest |
| Float32.RoundExact | src/app.rs:409 | a total below `2^24` converts to `f32` exactly |
| Float32.RoundRelativeError | src/app.rs:409 | rounding moves a value by at most `2^-24` of itself |
| Float32.RoundToMultiple | src/app.rs:409 | a multiple of `2^k` within `n / 2^25` of `n` is the rounded value |
| Float32.UlpDividesPow2Multiple | src/app.rs:409 | below `2^(k + 24)` the spacing divides every multiple of `2^k` |
| Float32.TruncateIsQuotient | src/app.rs:409 | the cast to `usize` gives the largest `r` with `r * 2^scale` at most the value |
| Float32.F32Product | src/app.rs:409 | the rounded product is within `2^-24` of the exact product |
| Layout.NumBad | src/app.rs:304 | the `f32` bad-cluster count is at most half the grid, so it never exceeds the clusters left for data |
| Layout.RealBadCount | src/app.rs:304 | in exact arithmetic `total * 0.02` rounds down to `total / 50` |
| Layout.NumBadIsScaledCount | src/app.rs:304 | below `2^23` clusters the `f32` bad-cluster count equals the exact count `total / 50` |
| Layout.BadCountBound | src/app.rs:304 | the truncated `f32` product `total * 0.02` is at most half the total |
| Layout.BadMultipleExact | src/app.rs:304 | for a multiple of 50 the `f32` product rounds up to exactly `total / 50` |
| Layout.DefaultPending | src/app.rs:407-409 | the `f32` restart fill never exceeds the grid |
| Layout.FillCountBound | src/app.rs:407-409 | the truncated `f32` product `total * 0.65` is at most the total |
| Layout.RealFillCount | src/app.rs:407-409 | in exact arithmetic `total * 0.65` rounds down to `total * 13 / 20` |
| Layout.DefaultPendingIsScaledCount | src/app.rs:407-409 | below `2^19` clusters the `f32` restart fill equals the exact count when `total` is not a multiple of 20, and is the exact count or one less when it is |
| Layout.RestartFillFallsShort | src/app.rs:407-409 | a 180-cluster grid restarts with 116 Pending clusters where exact arithmetic gives 117 |
| Layout.FillOf180 | src/app.rs:407-409 | the `f32` restart fill of a 180-cluster grid is 116 |
| Layout.Product180Rounding | src/app.rs:409 | `180 * 10905190` rounds to `f32` as `1962934144`, just under `117 * 2^24` |
| Layout.DefaultGridBad | src/app.rs:304 | the default 78 by 16 grid has 24 bad clusters |
| Layout.DefaultGridFill | src/app.rs:407-409 | the default 78 by 16 grid restarts with 811 Pending clusters |
| Layout.ScaledF32Parts | src/app.rs:303-304 | a scaled count is the truncation of two `f32` roundings, each within `2^-24` of its exact value |
| Layout.ExactTotalProduct | src/app.rs:303-304 | below `2^24` clusters only the product is rounded, to within `2^-24` |
| Layout.RepeatMultiset | src/app.rs:308-317 | each push loop adds `n` copies of its state and nothing else |
| Layout.Swap | src/app.rs:319 | a swap exchanges two entries and leaves every other entry in place |
| Layout.SwapPermutes | src/app.rs:319 | a swap keeps the multiset of entries |
| Layout.ShuffleDownPermutes | src/app.rs:319 | every run of Fisher-Yates steps is a permutation, whatever the draws |
| Layout.ShufflePermutes | src/app.rs:319 | the shuffle is a permutation, whatever the draws |
| Layout.InsertBadMultiset | src/app.rs:324 | inserting at `pos.min(len)` adds one Bad entry and keeps all the others |
| Layout.InsertBadsMultiset | src/app.rs:323-325 | the bad-block loop adds one Bad entry per taken position and keeps all the others |
| Layout.BadPositions | src/app.rs:321-323 | the loop takes `min(num_bad, len)` shuffled positions |
| Layout.TruncateAndPin | src/app.rs:327-331 | the result has exactly `total` clusters, and cluster 0 is Unmovable whenever there is one |
| Layout.TruncateAndPinCounts | src/app.rs:327-331 | truncating and pinning adds no state except one Unmovable cluster |
| Layout.GeneratedLayout | src/app.rs:300-331 | a generated grid has exactly `width * height` clusters |
| Layout.SeededLength | src/app.rs:308-317 | the pushed sequence holds both seeds and is long enough to truncate |
| Layout.SeededMultiset | src/app.rs:308-317 | the pushed sequence is `num_pending - 2` Pending (saturating), one Writing, one Reading and Unused padding |
| Layout.SeededCounts | src/app.rs:308-317 | the pushed sequence holds no Used, Bad or Unmovable cluster |
| Layout.LayoutBeforeTruncation | src/app.rs:308-331 | before truncation the grid holds the seeds and at most `num_bad` Bad clusters |
| Layout.LayoutShape | src/app.rs:327-331 | a nonempty generated grid has exactly one Unmovable cluster, at index 0 |
| Layout.LayoutBadBound | src/app.rs:321-327 | a generated grid has at most `num_bad` Bad clusters |
| Layout.LayoutSeedBounds | src/app.rs:308-331 | a generated grid has no Used cluster, at most `num_pending - 2` Pending, and at most one Writing and one Reading seed |
| Layout.PushSeeds | src/app.rs:308-317 | the push loops build the seeded sequence |
| Layout.InsertBadEntries | src/app.rs:321-325 | the insertion loop inserts a Bad entry at each of the first `num_bad` shuffled positions, in order |
| Layout.GenerateClusters | src/app.rs:300-331 | the generation as run step by step equals the generated layout |
| Layout.TruncatePin | src/app.rs:327-331 | `truncate` and the pin of cluster 0 give the truncated, pinned grid |
| FreeSpace.InsertKeepsOrder | src/app.rs:247 | an insertion after all runs at least as long keeps the list sorted by length |
| FreeSpace.InsertStep | src/app.rs:247 | each insertion keeps the sorted prefix a length-sorted permutation of the runs seen so far |
| FreeSpace.InsertionPoint | src/app.rs:247 | the insertion point follows every run at least as long and precedes a shorter one |
| FreeSpace.SortLongestFirst | src/app.rs:247 | the sort is a permutation, sorted by length descending, and stable (equal lengths stay in grid order) |
| FreeSpace.FirstLongEnough | src/app.rs:253-256 | `find` returns the first run at least `size` long, or none when every run is shorter |
| FreeSpace.FirstLongEnoughIsWorstFit | src/app.rs:252-257 | on a longest-first list, the lookup answers exactly when the longest run fits, and then with the longest run |
| FreeSpace.MaximalRunsOverlapOnlyIfEqual | src/app.rs:225-249 | two maximal Unused runs that share a cluster are the same run |
| FreeSpace.WorstFitAgreesWithFirstFit | src/app.rs:252-257 | over a complete index, worst-fit and first-fit agree on whether `size` clusters fit, and a worst-fit answer is a window of `size` Unused clusters |
| FreeSpace.CloseRun | src/app.rs:236-245 | closing a run at a used cluster or at the end of the grid adds a maximal run, in grid order, and covers the free clusters scanned so far |
| FreeSpace.FreeRuns | src/app.rs:226-245 | the scan lists every maximal Unused run, in ascending start order, and every Unused cluster lies in one of them |
| FreeSpace.SortedRunsDescribe | src/app.rs:247 | reordering the scanned runs longest first still describes the free space exactly |
| FreeSpace.FreeSpaceCache.constructor | src/app.rs:212-217 | a new cache is empty and dirty |
| FreeSpace.FreeSpaceCache.Invalidate | src/app.rs:220-222 | the cache becomes dirty |
| FreeSpace.FreeSpaceCache.Rebuild | src/app.rs:225-249 | after a rebuild the cache is clean and lists exactly the maximal Unused runs, longest first, equal lengths left to right |
| FreeSpace.FreeSpaceCache.FindRegion | src/app.rs:252-257 | answers with a listed run's start exactly when some run is long enough; on a rebuilt cache that is the start of the longest run (worst fit) |
| Drives.FromConfig | src/app.rs:72-84 | the drive keeps its configuration, and exactly the letters other than C, D, E and F are named "Unknown Drive" |
| Drives.FromConfigs | src/app.rs:109-116 | every configuration is wrapped, in order |
| Drives.FindByLetter | src/app.rs:124-126 | the first drive with the letter; none exactly when no drive has it |
| Drives.DiskDriveCollection.GetByLetter | src/app.rs:124-126 | the collection's first drive with exactly this letter, or none when no drive has it |
| Drives.DiskDriveCollection.GetByIndex | src/app.rs:129-131 | the drive at `index`, present exactly when the index is in range |
| Drives.DiskDriveCollection.GetDefault | src/app.rs:134-136 | the first drive of the collection |
| Drives.NewCollection | src/app.rs:109-116 | the collection holds one drive per catalogue entry, in catalogue order |
| Drives.AsciiUpper | src/app.rs:341 | lower-case ASCII letters move up by 32; every other character is unchanged |
| Drives.SelectDrive | src/app.rs:339-343 | the chosen drive is in the collection: the collection's drive for the upper-cased letter when there is one, otherwise the default drive |
| Drives.FindByLetterAgrees | src/app.rs:124-126 | a lookup among the wrapped drives finds the wrapping of the catalogue lookup |
| Drives.CollectionAgreesWithCatalogue | src/app.rs:103-137 | the collection's lookups by letter and by index, and its default drive, agree with the catalogue's |
| Drives.SelectAgreesWithCatalogue | src/app.rs:339-343 | the starting drive is the catalogue entry for the upper-cased letter, or drive C when there is none |
| Drives.SelectDriveExamples | src/app.rs:339-343 | letter 'f' starts on the hybrid drive F, named "SSHD (2GB, 8 IOPS)"; 'z' starts on drive C |
| FileFragments.CheckFragmentation | src/app.rs:166-176 | a file is fragmented exactly when some adjacent pair of its clusters is not consecutive; a file of at most one cluster never is |
| FileFragments.FragmentedIffNotContiguous | src/app.rs:166-176 | fragmented is exactly not contiguous |
| FileFragments.RunsAreNotFragmented | src/app.rs:166-176 | a file in one run is not fragmented, and moving any one of its clusters elsewhere makes it fragmented |
| FileFragments.FileFragment.FirstCluster | src/app.rs:179-181 | the first cluster, present exactly when the file has one |
| FileFragments.FileFragment.LastCluster | src/app.rs:183-186 | the last cluster, present exactly when the file has one |
| FileFragments.NewFileFragment | src/app.rs:155-163 | the size is the cluster count, and the file is marked fragmented exactly when its clusters are not contiguous |
| FileFragments.ContiguousSpan | src/app.rs:155-186 | an unfragmented nonempty file ends `size - 1` clusters after it starts |
| Cli.Split | src/app.rs:890 | splitting gives one more part than there are separators, and no part contains the separator |
| Cli.SplitJoin | src/app.rs:890 | joining the parts back with the separator gives the input back |
| Cli.JoinSplit | src/app.rs:890 | splitting a join of separator-free parts gives the parts back |
| Cli.SplitTwo | src/app.rs:890 | text with exactly one separator splits into the text before it and the text after it |
| Cli.ParseUsize | src/app.rs:897-902 | after an optional leading '+', a nonempty digit string is accepted exactly when its value fits in a 64-bit `usize`, and then it parses to that value; an empty string, or any other character, is rejected |
| Cli.Decimal | src/app.rs:897-902 | the decimal rendering of `n` is a nonempty digit string with value `n` |
| Cli.ParseUsizeDecimal | src/app.rs:897-902 | every `usize` written in decimal parses back to itself |
| Cli.ParseUsizeSigns | src/app.rs:897-902 | "+" alone, any '-' sign and `usize::MAX + 1` are rejected; a '+' before digits is accepted |
| Cli.ParseSize | src/app.rs:889-904 | the format error happens exactly when the text does not contain exactly one 'x'; accepted sizes fit in a `usize` |
| Cli.ParseSizeRoundTrip | src/app.rs:889-904 | `"<w>x<h>"` written in decimal parses to `(w, h)` |
| Cli.ParseSizeParts | src/app.rs:889-904 | with one 'x', a bad width is reported first, then a bad height; otherwise both parsed numbers are returned |
| Cli.GridSizeOrDefault | src/main.rs:9 | a rejected size argument falls back to 78x16; an accepted one is used |
| Cli.LowerString | src/app.rs:52 | lower-casing keeps the length and maps each character by its ASCII lower case |
| Cli.GetUiStyle | src/app.rs:51-57 | Windows 98 exactly for "win98", "windows98" or "98", and Windows 95 exactly for "win95", "windows95" or "95", in any letter case; anything else is MS-DOS |
| Cli.LowerIdempotent | src/app.rs:52 | lower-casing twice is the same as lower-casing once |
| Cli.UiStyleIgnoresCase | src/app.rs:51-57 | an argument and its lower-cased form select the same style |
| Cli.UiStyleExamples | src/app.rs:51-57 | "Win98" and "WINDOWS95" are accepted; "msdos" and "win 98" fall back to MS-DOS |
| Engine.Due | src/app.rs:650 | with no end time, or one already set to now, the operation is due; otherwise it is due exactly when the deadline has passed |
| Engine.MarkWriting | src/app.rs:679-683 | exactly the clusters from `start` up to `n` further become Writing; positions past the end are skipped |
| Engine.MarkWritingRun | src/app.rs:679-683 | the marking loop gives exactly that marking |
| Engine.Initial | src/app.rs:333-386 | a new run starts Initializing at step 0, running and unpaused, with `total_to_defrag` equal to the Pending count plus 2 and nothing defragmented |
| Engine.Restarted | src/app.rs:404-459 | a restart regenerates the grid at the default fill, computed with the source's `f32` rounding, whatever fill the app started with, resets the statistics, phase, step, cursors, file, timer and pause, and keeps running and demo mode |
| Engine.Started | src/app.rs:664-673 | the drawn cluster becomes Reading, and the read cursor points at it |
| Engine.Tick | src/app.rs:615-774 | every tick keeps the grid's size and both cursors inside it |
| Engine.MarkWritingKeepsPending | src/app.rs:679-683 | marking a run of Unused clusters changes only Unused clusters and leaves the Pending count alone |
| Engine.InitialInv | src/app.rs:333-337 | a fresh layout meets the invariant with equality: nothing defragmented or in flight, and the total is the Pending count plus the two seeds |
| Engine.StartNextKeepsInv | src/app.rs:654-706 | starting a file keeps the invariant: the drawn cluster leaves Pending and is either owed or counted as defragmented |
| Engine.AdvanceFileKeepsInv | src/app.rs:707-748 | advancing the file in flight keeps the invariant |
| Engine.DefragmentingKeepsInv | src/app.rs:649-765 | the Defragmenting branch keeps the invariant |
| Engine.FinishedKeepsInv | src/app.rs:766-772 | the Finished branch keeps the invariant; a demo restart meets it again with equality |
| Engine.TickKeepsInv | src/app.rs:615-774 | every tick keeps the invariant, so `clusters_defragged` never exceeds the initial Pending count, `total_to_defrag - 2` |
| Engine.StartNextCellRules | src/app.rs:654-706 | a file start obeys the cell rules: Bad and Unmovable never change, nothing becomes Pending, and only Unused clusters become Writing |
| Engine.StartedCellRules | src/app.rs:672-683 | reading the drawn cluster and marking Unused clusters Writing obeys the cell rules |
| Engine.AdvanceFileCellRules | src/app.rs:707-748 | advancing the file in flight obeys the cell rules |
| Engine.DefragmentingCellRules | src/app.rs:649-765 | the Defragmenting branch obeys the cell rules |
| Engine.TickCellRules | src/app.rs:615-774 | every tick except a demo restart obeys the cell rules |
| Engine.QuietTickKeepsClusters | src/app.rs:625-648 | outside Defragmenting, a tick other than a demo restart leaves the grid unchanged |
| Engine.DrawnPending | src/app.rs:655-663 | the drawn index is a Pending cluster of the grid |
| Engine.FirstFitIgnoresOtherCells | src/app.rs:672-678 | turning the drawn Pending cluster into Reading before the search does not change the first-fit answer |
| Engine.FileStartTakesOnePending | src/app.rs:654-706 | each file start takes exactly one Pending cluster, the drawn one: it becomes Reading when a run fits and Used otherwise; the drawn name is kept only when a run fits, and a seek is cued first |
| Engine.FileStartPlacesFirstFit | src/app.rs:664-690 | when a run fits, the write cursor is the first-fit start, up to `max(iops, 1)` of its clusters turn Writing, the read cursor is the drawn cluster, and the operation lasts the base duration divided by the throughput |
| Engine.NoFitCommitsInPlace | src/app.rs:691-700 | when no run fits, the drawn cluster becomes Used, `clusters_defragged` rises by one, the cursor and name are cleared, and the next file may start at once |
| Engine.FileAdvancesOneStep | src/app.rs:707-748 | with a file in flight nothing happens until the operation is due; then the file moves exactly one step (Reading, Writing, Completed, none) |
| Engine.WriteCommitsOneCluster | src/app.rs:724-739 | a write commits only the cluster under the write cursor, and only if it is still Writing; the rest of the marked run stays Writing |
| Engine.FinishesExactlyWhenNothingPending | src/app.rs:649-706 | Defragmenting ends exactly when the operation is due, no file is in flight and nothing is Pending; otherwise it continues |
| Engine.FinishClearsFile | src/app.rs:701-706 | on finishing, both cursors and the file name are cleared and the step counter is not reset |
| Engine.StartNextFinishes | src/app.rs:654-706 | a file start finishes the run exactly when nothing is Pending |
| Engine.DefraggedMonotone | src/app.rs:615-774 | outside a demo restart, `total_to_defrag` is fixed and `clusters_defragged` rises by 0 or 1 per tick |
| Engine.DefragmentingCounts | src/app.rs:649-765 | the Defragmenting branch keeps the total and adds at most one defragmented cluster |
| Engine.StartNextCounts | src/app.rs:654-706 | a file start keeps the total and adds at most one defragmented cluster |
| Engine.RestartResetsCounters | src/app.rs:766-768 | a demo restart is the restart function, with nothing defragmented and the total recounted from the new grid |
| Engine.InitializingCountsUp | src/app.rs:625-630 | up to the 20th tick Initializing only counts steps |
| Engine.InitializingLasts21Ticks | src/app.rs:625-630 | from a fresh start the phase is still Initializing after 20 ticks, and the 21st tick enters Analyzing with the step counter at 0 |
| Engine.RunAppend | src/app.rs:615-774 | running two input sequences one after the other is running their concatenation |
| Engine.AnalyzingSweeps | src/app.rs:631-648 | the read cursor is at `min(5 * step, total - 1)` until the step exceeds `total / 5 + 10`; then Defragmenting starts with the cursor cleared and the step at 0; a seek is cued every third step |
| Engine.FinishedWaits | src/app.rs:766-772 | a demo restarts once the step exceeds 25, a normal run stops once it exceeds 50, and until then only the step counter moves |
| Engine.TogglePauseFlips | src/app.rs:389-398 | pause flips exactly in Analyzing and Defragmenting, nothing else changes, and the audio is silenced exactly when the simulation becomes paused |
| Engine.TogglePauseTwice | src/app.rs:389-398 | toggling pause twice restores the state |
| Application.App.constructor | src/app.rs:292-387 | a new app holds a generated layout at the requested fill, starts Initializing with the invariant holding, uses the drive chosen by letter, and has both caches dirty and the menu closed |
| Application.App.TogglePause | src/app.rs:389-398 | the app's state and cues are the engine's pause toggle |
| Application.App.ToggleDemoMode | src/app.rs:400-402 | demo mode flips |
| Application.App.Restart | src/app.rs:404-459 | the state becomes the restarted state, whose fill follows the source's `f32` rounding; the invariant holds again, and both caches are dirty |
| Application.App.ResetTo | src/app.rs:440-454 | the fresh-layout reset: statistics counted from the grid, phase Initializing, all cursors and timers cleared, unpaused |
| Application.App.FindContiguousUnusedClusters | src/app.rs:799-824 | the scan returns exactly the first-fit answer |
| Application.App.InvalidateCaches | src/app.rs:826-829 | both caches become dirty |
| Application.App.GetPendingIndices | src/app.rs:831-843 | a dirty cache is rebuilt to the Pending indices; a clean cache returns what it held, even if it is stale; the cache is clean afterwards |
| Application.App.HandleMenuAction | src/app.rs:776-795 | File/New restarts and marks both caches dirty, File/Exit stops, Optimize re-enters Analyzing at step 0 unless already analyzing, the two Help items open the about box, every other item does nothing; the cache flags change only on File/New, the about box only on Help, and the invariant holds |
| Application.App.InitializingStep | src/app.rs:625-630 | the Initializing branch as the engine defines it |
| Application.App.AnalyzingStep | src/app.rs:631-648 | the Analyzing branch as the engine defines it |
| Application.App.DefragmentingStep | src/app.rs:649-765 | the Defragmenting branch as the engine defines it |
| Application.App.StartNextFile | src/app.rs:654-706 | the file start as the engine defines it |
| Application.App.PlaceFile | src/app.rs:676-700 | the placement as the engine defines it |
| Application.App.CommitInPlace | src/app.rs:691-700 | the drawn cluster becomes Used, one more cluster is defragmented, and the cursor, name and timer reset |
| Application.App.AdvanceFileInFlight | src/app.rs:707-748 | the in-flight branch as the engine defines it |
| Application.App.FinishedStep | src/app.rs:766-772 | the Finished branch as the engine defines it; only a demo restart dirties the caches |
| Application.App.Update | src/app.rs:615-774 | the new state and cues are one engine tick, the invariant is kept, the tick rate returns to 80 ms, and only a demo restart dirties the caches |

## Left out

- Rendering, the terminal and Windows 95/98 user interfaces, keyboard and mouse handling, menu hit-testing and the event loop (`App::run`, src/main.rs): they are presentation and I/O. The menu's selection state is kept so that `handle_menu_action` can be modelled.
- Audio: the audio engine, `audio_playback_rate` and the playback-rate calculations in src/constants.rs use floating point and a sound device. A tick returns the sounds it would play as `Cue`s instead.
- The clock: `Instant` and `Duration` become the `OpEnd` value and a `deadlinePassed` input, and `start_time` is dropped. The duration `base / max(iops, 1)` is computed in `f64` and truncated; the model uses integer division, which gives the same value for the source's ranges (1000 to 3000 ms, at most 8 IOPS).
- The random number generator: every random outcome is an input.
  - Shuffle draws are reduced modulo `i + 1`; a missing draw means no swap.
  - `choose` becomes the pick reduced modulo the number of Pending clusters.
  - The `gen_range` values for the file size and the base duration are arbitrary naturals, not limited to 1..=5 and 1000..=3000.
- The DOS file-name provider: its choice is an input.
- `status_message`, `status_text`, `get_phase_status`, the progress, fragmentation and time-remaining estimates: they are display text or floating-point ratios.
- `find_next_cluster_in_file`: nothing in the core calls it.
- Layout.ScaledCount: the fill given to `App::new` is an arbitrary `f32`, and its product with the total is computed in exact reals, so `f32` rounding of a user-given fill is not modelled. The two built-in fractions are scaled with `f32` rounding (`NumBad`, `DefaultPending`).
- Layout.NumBadIsScaledCount: the agreement with `total / 50` is proved only for grids below `2^23` clusters. For much larger grids the `f32` count can exceed a fiftieth of the grid (52428899 clusters give 1048578 bad ones, by the same rounding rules), so `NumBad` itself promises only at most half.
- Layout.DefaultPendingIsScaledCount: the relation to the exact count is proved only for grids below `2^19` clusters.
- Machine integers: `usize` arithmetic is unbounded, so overflow of `width * height` or of the counters is not modelled. The 64-bit bound is modelled where the source checks it, in `Cli.ParseUsize`.
- Case mapping: `to_lowercase` and `to_ascii_uppercase` are modelled on ASCII letters only. `to_lowercase` also maps non-ASCII letters, which cannot match any of the style names except by lower-casing to them, and that is not modelled.
- Drives.DiskDrive: the display name is derived from the letter instead of being stored, since `from_config` fixes it from the letter.
- `Application.App.Update` has no free-space cache lookup, because the source's `update` never uses the cache: it searches first-fit with `find_contiguous_unused_clusters`. `invalidate_caches` is modelled but never called, as in the source. The worst-fit lookup is proved to agree with first-fit on whether a file fits, but not on where it goes.
- Engine.Tick requires a nonempty grid in Analyzing: the source computes `total - 1` there, which underflows for an empty grid, so that case is outside the model.
