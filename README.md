# Gitual contribution grid, modelled in Dafny

Gitual is a command-line tool. It draws a GitHub-style activity grid of one
author's commits over the last six months (183 days) in the terminal.

The tool has two parts, and this project models the core of both:

- **Statistics** (`stats.go`):
  - every commit of every known repository whose author email matches is
    counted into a "days ago" bucket, shifted by a weekday-dependent
    offset;
  - the bucket keys are sorted and cut into week columns;
  - the grid is printed: 7 day rows of 28 week cells, coloured by
    intensity, with the today cell highlighted.
- **Scanning** (`scan.go`):
  - the search for git repositories below a folder;
  - the merge of newly found paths into the already known list.

Modules, one per part of the Go code:

| module | file | models |
|---|---|---|
| `Seqs` | `seqs.dfy` | the "no element twice" property shared by the aggregator and the scanner |
| `Results` | `results.dfy` | the fatal paths (`panic`, `log.Fatal`), as a `Result` with a `Fault` |
| `GoInt` | `go_int.dfy` | Go's truncating `/` and `%` |
| `Days` | `days.dfy` | `calcOffset` and `CountDaysSinceDate` |
| `Commits` | `commits.dfy` | the `FillCommits` callback and `ProcessRepositories` |
| `Keys` | `keys.dfy` | `SortMapIntoSlice`, with `sort.Ints` as an insertion sort |
| `Columns` | `columns.dfy` | `BuildCols` |
| `Render` | `render.dfy` | `PrintCell`, `PrintDayCol` and `PrintCells` |
| `Stats` | `stats.dfy` | `PrintCommitStats`, `stats`, and the properties of the whole pipeline |
| `Scan` | `scan.dfy` | `SliceContins`, `JoinSlices`, `RecursiveScanFolder` and `ScanGitFolders` |

How the Go code's surroundings are represented:

- **Time.** An instant is an integer number of nanoseconds. The start of
  today (`GetBeginningOfDay(time.Now())`) is the parameter `nowStart`.
  Today's weekday is the parameter `w`.
- **Repositories.** A repository is its history from HEAD, as a sequence
  of (author email, instant) pairs, or `Unreadable` when go-git fails.
- **Directories.** A directory tree is a value whose entries are in the
  order the operating system lists them.
- **Output.** Printed output is the string that would be printed.
- **Go maps.** A Go map is a Dafny `map`. Reading a missing key yields 0
  (`Commits.Get`).
- **State-changing loops.** These are methods with loop invariants.
  Each method is proved equal to a specification function. The properties
  are lemmas about those functions.

In several places the code does something other than what a reader of
its names and comments would expect. The model follows the code:

- **Too-old commits are still counted.** One would expect commits
  older than 183 days to be dropped. Instead, `FillCommits` adds the
  offset to the day count *before* comparing it with `OutOfRange`
  (stats.go:60-67). So the comparison never rejects anything, and a too-old
  commit is counted at key 99999 + offset (`Commits.DaysAgoRange`). That
  key lies far outside the 28 columns that are drawn.
- **A count of 5 has no tier.** One would expect 5..9 to share a tier. The
  code's tiers are `val > 0 && val < 5` and `val > 5 && val < 10`, so 5
  stays in the default colour (`Render.StyleOf`).
- **Bucket 0 is never used.** One would expect bucket 0 to hold
  today. No commit ever lands there, because today is bucket `offset`
  (`Stats.TodayKey`), and key 0 is never initialised. So week 0's column
  holds keys 1..6 and has only six entries (`Columns.FirstWeek`).
- **The today cell needs a week-0 column.** It is only highlighted when
  the columns have an entry for week 0 (`Render.CellAt`). It is not
  highlighted whenever today is drawn, whatever the columns hold.
- **Finding a repository does not stop the scan.** Siblings of a `.git`
  directory are still scanned, and so are other directories inside a
  repository. Only `.git` itself, `vendor` and `node_modules` are not
  entered (`Scan.Found`).

## Model

| member | source | states |
|---|---|---|
| GoInt.Rem | stats.go:173-174 | Go's `k % 7`: `k == Quot(k,7)*7 + Rem(k,7)`, the remainder has the sign of `k` and is smaller than 7 in magnitude |
| GoInt.QuotRemOf7 | stats.go:173-174 | the key `7w + d` (0 <= d < 7) has week `w` and day-in-week `d` |
| Days.CalcOffset | stats.go:95-116 | the offset is `7 - weekday index`, so Sunday gives 7, Saturday gives 1, always 1..7 |
| Days.CalcOffsetInjective | stats.go:99-114 | two weekdays have the same offset only if they are the same day |
| Days.StepsIsLeast | stats.go:32-34 | the number of 24h steps is the least `n` with `date + n*24h >= nowStart` |
| Days.StepsUnique | stats.go:32-34 | no other `n` has that property |
| Days.CountDays | stats.go:29-40 | the result is OutOfRange or within 0..183; a date not before the start of today gives 0 |
| Days.CountDaysOutOfRange | stats.go:35-37 | OutOfRange exactly when the date is more than 183 days before the start of today |
| Days.CountDaysExact | stats.go:29-40 | within the window the result is the exact day difference |
| Days.CountDaysSinceDate | stats.go:29-40 | the loop returns CountDays, runs at most 184 rounds, and runs exactly `days` rounds when in range |
| Commits.DaysAgoRange | stats.go:60-67 | with a real offset `daysAgo` is never OutOfRange; too-old commits get OutOfRange + offset; the rest get 1..190 |
| Commits.Record | stats.go:59-70 | another author's commit leaves the map unchanged; a matching one adds its key if missing and increments only that bucket |
| Commits.TallyPerKey | stats.go:59-70 | after a history, each bucket grew by the number of matching commits counted there, and a key is present iff it was already or some commit reached it |
| Commits.TallyAppend | stats.go:88-90 | tallying two histories one after the other equals tallying their concatenation |
| Commits.SumOverTally | stats.go:66 | summed over a list of keys, the buckets grow by the hits on those keys |
| Commits.HitsOverAll | stats.go:59-70 | over a repetition-free list covering every matching commit's key, the hits equal the number of matching commits |
| Commits.InitialCountsShape | stats.go:83-86 | the initial map has exactly keys 1..183, all zero, and no key 0 |
| Commits.ProcessIsTally | stats.go:78-93 | processing fails iff some repository is unreadable; otherwise it tallies all histories in order |
| Commits.ProcessedCounts | stats.go:78-93 | the final map has keys 1..183 plus the buckets reached, none below 1; each bucket is its commit count; the counts add up to the number of matching commits |
| Commits.CountAtMember | stats.go:59-70 | every matching commit is counted at its own bucket |
| Commits.NoCommitBelowOne | stats.go:58-60 | no commit is ever counted at a key below 1 |
| Commits.FillCommits | stats.go:42-76 | the callback loop over one repository equals Fill: an unreadable repository fails, otherwise the history is tallied |
| Commits.ProcessRepositories | stats.go:78-93 | the init loop and the repository loop equal Process from the initial map |
| Commits.ProcessFailureSticks | stats.go:88-90 | once a repository fails, the rest cannot change the outcome |
| Commits.AggregateExample | stats.go:78-93 | 3 of a@x.com's commits today and 2 yesterday (plus one by b@x.com) give bucket[offset] = 3, bucket[offset+1] = 2, all others 0 |
| Keys.Insert | stats.go:163 | inserting into a sorted list keeps it sorted, adds exactly one occurrence of `x`, and nothing else |
| Keys.SortInts | stats.go:163 | the result is sorted and a permutation of the input |
| Keys.SortedDistinct | stats.go:156-166 | a sorted list without repeated elements is strictly increasing |
| Keys.SortMapIntoSlice | stats.go:156-166 | the keys come out strictly increasing, each map key exactly once |
| Columns.SealedWeeks | stats.go:172-185 | week `w` has a column iff `w >= 0` and key `7w+6` occurs |
| Columns.ColumnKept | stats.go:182-184 | keys other than `7w+6` never change week `w`'s column |
| Columns.BufferRun | stats.go:176-180 | over consecutive keys of one week the buffer collects their values in order, starting empty at day 0 |
| Columns.FullWeek | stats.go:168-187 | when keys `7w..7w+6` are all present, week `w`'s column is their seven values in order |
| Columns.FirstWeek | stats.go:168-187 | with no key below 1 and keys 1..6 present, week 0's column is the six values of keys 1..6 |
| Columns.BuildCols | stats.go:168-187 | the loop equals Build, and a week has a column iff key `7w+6` occurs |
| Render.StyleOf | stats.go:119-132 | today gets the highlight; otherwise 1..4 low, 6..9 medium, 10 and more high, and 0, 5 and negatives muted |
| Render.Escape | stats.go:119-131 | every style's escape sequence is ESC plus nine characters |
| Render.EscapeInjective | stats.go:119-131 | different styles have different escape sequences |
| Render.DecimalRoundTrip | stats.go:147 | reading back the digits `%d` prints gives the number |
| Render.DecimalWidth | stats.go:139-147 | a number has 1, 2 or 3 digits exactly when it is below 10, 100 or 1000 |
| Render.GlyphAsWrittenWidth | stats.go:139-145 | the padding as written is the intended one below 100; from 100 on the glyph is five characters wide because the `>= 100` case is never reached |
| Render.GlyphWidth | stats.go:134-147 | the intended padding makes every count 0..999 four characters wide, and its digits read back as the count |
| Render.CellText | stats.go:118-148 | a cell is the style's escape sequence, the glyph and the reset sequence; with the corrected padding, 18 characters for counts 0..999 |
| Render.DayLabel | stats.go:236-248 | the label has five characters and is blank except on rows 1, 3 and 5 |
| Render.CellAt | stats.go:197-208 | the cell shows the column's entry for that day, or 0 when the week or the entry is missing; it is highlighted iff it is week 0, day offset-1, and week 0 has a column |
| Render.CellAsWrittenFails | stats.go:197-208 | the cell read as written panics exactly at the today cell of a too-short week-0 column, and agrees with CellAt everywhere else |
| Render.GridLayout | stats.go:192-212 | the grid has 7 rows of 28 cells with the day labels; cell (r, c) shows week 27-c, day 6-r; the only highlighted cell is the rightmost one of row 7-offset |
| Render.GridCellIs | stats.go:192-208 | row r, column c of the grid is CellAt for week 27-c and day 6-r |
| Render.ScreenAligned | stats.go:189-213 | with the corrected padding, when every count is 0..999, every printed line has the same length |
| Render.PrintRow | stats.go:193-209 | the inner loop over weeks 27 down to 0 appends the day label and then the 28 cells of that day's row, in order |
| Render.PrintCells | stats.go:189-213 | the outer loop over days 6 down to 0, each row ended by a newline, prints exactly the Screen of the Grid |
| Stats.PrintCommitStats | stats.go:150-154 | the keys are sorted and cover the map, and the output is the grid of the columns built from them |
| Stats.Stats | stats.go:18-21 | with the corrected today read, the command fails iff some repository is unreadable; otherwise it prints the grid of the aggregated buckets |
| Stats.StatsAsWritten | stats.go:18-21 | as written, the command aborts iff some repository is unreadable or today is Sunday (the unchecked today read at stats.go:198-199) |
| Stats.PipelineColumns | stats.go:168-187 | after aggregation, weeks 1..25 have full columns of per-day commit counts, and week 0 has six entries, the counts of keys 1..6 |
| Stats.PipelineWeek | stats.go:168-187 | for one week 1..25, after aggregation the column has seven entries, the commit counts of buckets `7*week` to `7*week + 6` |
| Stats.PipelineFirstWeek | stats.go:168-187 | after aggregation week 0's column has six entries, the commit counts of buckets 1..6 |
| Stats.PipelineCells | stats.go:189-213 | the cell for weeks 1..25 and day d shows the commit count of bucket `7*week + d` and is not highlighted |
| Stats.PipelineToday | stats.go:198-200 | except on Sunday, the highlighted cell shows the number of today's matching commits |
| Stats.TodayKey | stats.go:60 | a commit made today is counted at the key equal to the offset |
| Stats.SundayRenderPanics | stats.go:198-200 | on the aggregated columns, the code as written panics at the today cell iff today is Sunday |
| Scan.SliceContains | scan.go:60-67 | true iff the value occurs in the slice |
| Scan.JoinContents | scan.go:69-76 | the merge keeps `existing` as a prefix, contains every new path, and contains only existing or new paths |
| Scan.JoinNoDuplicates | scan.go:70-74 | merging into a list without repetitions, even a list of new paths with repetitions, gives a list without repetitions |
| Scan.JoinPresent | scan.go:70-74 | merging paths that are all present already changes nothing |
| Scan.JoinIdempotent | scan.go:69-76 | merging the same paths twice equals merging them once |
| Scan.JoinExample | scan.go:69-76 | merging ["/r1","/r2"] into ["/r2","/r3"] gives ["/r2","/r3","/r1"] |
| Scan.JoinSlices | scan.go:69-76 | the loop equals Join |
| Scan.TrimSuffix | scan.go:103 | when `s` ends with the suffix, putting it back gives `s`; otherwise `s` is unchanged |
| Scan.TrimGit | scan.go:122 | trimming "/.git" off `folder + "/.git"` gives `folder` |
| Scan.ScanIsRepos | scan.go:101-134 | the scan appends exactly Repos to the incoming list (which is therefore a prefix of the result), or fails |
| Scan.ScanEntriesIsRepos | scan.go:118-132 | the same, for the entry loop from any entry on |
| Scan.ReposHealthy | scan.go:103-114 | the scan fails iff the folder trims to the empty path or it enters a directory that cannot be opened or listed |
| Scan.ReposFromHealthy | scan.go:118-132 | for an opened (so non-empty) folder, the entry loop fails iff one of the remaining entered directories is not healthy |
| Scan.RootFails | scan.go:103-108 | the root "/" trims to the empty path, whose `os.Open` fails, so the scan stops whatever the tree holds |
| Scan.PrunedIgnored | scan.go:121-129 | replacing a `.git`, `vendor` or `node_modules` directory by any other directory, or an unlistable one, leaves what the scan finds unchanged |
| Scan.ReposUnder | scan.go:101-134 | every path found below a folder starts with the trimmed folder |
| Scan.TrimUnder | scan.go:103-120 | a child path, with one trailing "/" trimmed, still starts with its parent folder |
| Scan.ScanExample | scan.go:89-91 | for root/.git, root/sub/.git and root/vendor/.git the scan finds exactly root and root/sub |
| Scan.ScanGitFolders | scan.go:101-134 | the recursive method with its entry loop equals ScanFolder |

## Left out

- main.go parses command-line flags and dispatches between modes. There is nothing to verify there.
- The go-git calls (`PlainOpen`, `Head`, `Log`, `ForEach`) are a foreign library. A repository is given as its history, or as `Unreadable` when any of them would fail.
- `time.Now`, `GetBeginningOfDay` and `Weekday()` depend on the wall clock and time zones. The start of today and the weekday are parameters.
- `PrintMonths` depends on the wall clock and Go's calendar. The month header is not part of the printed output here.
- `calcOffset` is called afresh for every repository (stats.go:58) and, in `PrintCells`, for week 0 when it has a column, so at most once per row (stats.go:197-198). The model uses one weekday for the whole run, so it does not capture a run that crosses midnight.
- Files and the environment are not modelled. This covers `GetDotFilePath`, `OpenFile`, `ParseFileLinesToSlice`, `DumpStringsSliceToFile`, `AddNewSLiceElementsToFile` and the prints in `Scan`. The model starts from the list of repositories, and `JoinSlices` receives both lists as values.
- `fmt.Println` of each found path in `ScanGitFolders` is left out, because it is output only.
- `panic` and `log.Fatal` become a `Failure` result. The output printed before the abort is not modelled.
- Commits.Record: an `int` count that wraps at 2^63 is not modelled. Counts are unbounded integers.
- Keys.SortInts: the model uses an insertion sort, not Go's `sort.Ints` algorithm. Only the sort contract matters.
- Keys.SortMapIntoSlice: Go's random map iteration order is modelled as an arbitrary choice of the next key. After sorting, the order does not matter.
- Columns.BuildCols: after a column is stored, Go's `cols[week]` shares its backing array with `col`. Later appends write beyond the stored slice's length, so the stored value cannot change. The model therefore uses sequences as values.
- Render.PrintCells: the inner week loop is the separate method `Render.PrintRow`. The model prints with the corrected cell read and the corrected padding (see Findings). The behaviour as written is `Render.CellAsWritten` and `Render.GlyphAsWritten`.
- Render.CellText: the 18-character width holds for the corrected padding. As written, counts 100..999 give a 5-character glyph and a 19-character cell (`Render.GlyphAsWrittenWidth`).
- Render.ScreenAligned: equal line lengths hold for the corrected padding. As written, a count of 100..999 makes its row one character longer per such cell.
- Stats.Stats: describes the run with the corrected today read. As written, the command also aborts on every Sunday; `Stats.StatsAsWritten` states when it aborts.
- Scan.ScanGitFolders: the tree given with a folder stands for what `os.Open` finds at the trimmed path. Path resolution by the operating system (`..`, symbolic links) is not modelled.
- Stats.PrintCommitStats, Stats.Stats: the sorted keys are returned as a ghost value, so that the contract can name them.

## Findings

| source | as written | input that shows it | evidently intended | confidence | as-written member | corrected member |
|---|---|---|---|---|---|---|
| stats.go:198-199 | the today cell is printed with `col[j]` and no length check | any run on a Sunday: the offset is 7, so `j` = 6, while week 0's column holds only keys 1..6 (six entries), so `col[6]` is out of range and the program panics | read the today cell with the same bounds check as every other cell, showing 0 when the entry is missing | high; not executed | Stats.SundayRenderPanics | Render.CellAt |
| stats.go:140-145 | `case val >= 10` comes before `case val >= 100`, so the three-digit padding is never chosen | a day with 100 commits prints " 100 ", five characters, which shifts the rest of its row | "%d " for counts of 100 and more, four characters like every other cell | medium; not executed | Render.GlyphAsWrittenWidth | Render.GlyphWidth |
