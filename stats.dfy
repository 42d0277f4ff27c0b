/** The `stats` entry point: aggregate the commits of every repository,
    sort the bucket keys, cut them into week columns and print the grid. */
module Stats {
  import opened Results
  import opened Days
  import opened Commits
  import opened Keys
  import opened Columns
  import opened Render

  /** PrintCommitStats: the sorted keys of the bucket map, the columns
      built from them and the printed grid. */
  method PrintCommitStats(commits: map<int, int>, w: Weekday) returns (out: string, ghost keys: seq<int>)
    ensures StrictlyIncreasing(keys) && (forall k :: k in keys <==> k in commits)
    ensures out == Screen(Grid(Build(keys, commits).cols, CalcOffset(w)))
  {
    var sorted := SortMapIntoSlice(commits);
    keys := sorted;
    var cols := BuildCols(sorted, commits);
    out := PrintCells(cols, w);
  }

  /** stats: fails exactly when some repository cannot be read; otherwise
      prints the grid of the aggregated buckets. */
  method Stats(email: string, repos: seq<Repository>, nowStart: int, w: Weekday) returns (r: Result<string>, ghost keys: seq<int>)
    ensures r.Failure? <==> exists i :: 0 <= i < |repos| && repos[i].Unreadable?
    ensures r.Success? ==> Process(InitialCounts(), email, repos, nowStart, CalcOffset(w)).Success?
    ensures r.Success? ==>
      var counts := Process(InitialCounts(), email, repos, nowStart, CalcOffset(w)).value;
      && StrictlyIncreasing(keys) && (forall k :: k in keys <==> k in counts)
      && r.value == Screen(Grid(Build(keys, counts).cols, CalcOffset(w)))
  {
    ProcessIsTally(InitialCounts(), email, repos, nowStart, CalcOffset(w));
    var commits := ProcessRepositories(email, repos, nowStart, w);
    match commits
    case Failure(f) =>
      r := Failure(f);
      keys := [];
    case Success(counts) =>
      var out;
      out, keys := PrintCommitStats(counts, w);
      r := Success(out);
  }

  /** The run as written aborts: a repository cannot be read, or one of
      the cell reads of the grid (with its unchecked today read) panics. */
  ghost predicate AbortsAsWritten(email: string, repos: seq<Repository>, nowStart: int, w: Weekday, keys: seq<int>)
  {
    var p := Process(InitialCounts(), email, repos, nowStart, CalcOffset(w));
    p.Failure?
    || exists week, day :: 0 <= week < 28 && 0 <= day < 7 && CellAsWritten(Build(keys, p.value).cols, CalcOffset(w), week, day).Failure?
  }

  /** The command as written aborts exactly when some repository cannot be
      read or today is Sunday; `Stats` is the run with the corrected cell
      read, which aborts only in the first case. */
  lemma StatsAsWritten(email: string, repos: seq<Repository>, nowStart: int, w: Weekday, keys: seq<int>)
    requires StrictlyIncreasing(keys)
    requires Process(InitialCounts(), email, repos, nowStart, CalcOffset(w)).Success? ==>
      forall k :: k in keys <==> k in Process(InitialCounts(), email, repos, nowStart, CalcOffset(w)).value
    ensures AbortsAsWritten(email, repos, nowStart, w, keys)
      <==> (exists i :: 0 <= i < |repos| && repos[i].Unreadable?) || w == Sunday
  {
    ProcessIsTally(InitialCounts(), email, repos, nowStart, CalcOffset(w));
    if Process(InitialCounts(), email, repos, nowStart, CalcOffset(w)).Success? {
      SundayRenderPanics(email, repos, nowStart, w, keys);
    }
  }

  /** The keys the grid is built from, for a successful aggregation. */
  ghost predicate SortedBuckets(email: string, repos: seq<Repository>, nowStart: int, w: Weekday, keys: seq<int>)
  {
    && Process(InitialCounts(), email, repos, nowStart, CalcOffset(w)).Success?
    && StrictlyIncreasing(keys)
    && forall k :: k in keys <==> k in Process(InitialCounts(), email, repos, nowStart, CalcOffset(w)).value
  }

  /** After aggregation, weeks 1 to 25 have a full column holding the
      number of matching commits per day, and week 0 has a column of
      only six entries, the counts of keys 1 to 6. */
  lemma PipelineColumns(email: string, repos: seq<Repository>, nowStart: int, w: Weekday, keys: seq<int>)
    requires SortedBuckets(email, repos, nowStart, w, keys)
    ensures var counts := Process(InitialCounts(), email, repos, nowStart, CalcOffset(w)).value;
      var cols := Build(keys, counts).cols;
      && (forall wk :: 1 <= wk <= 25 ==>
            wk in cols && cols[wk] == seq(7, d => CountAt(email, Histories(repos), nowStart, CalcOffset(w), 7 * wk + d)))
      && 0 in cols
      && cols[0] == seq(6, d => CountAt(email, Histories(repos), nowStart, CalcOffset(w), d + 1))
  {
    forall wk | 1 <= wk <= 25
      ensures var counts := Process(InitialCounts(), email, repos, nowStart, CalcOffset(w)).value;
        wk in Build(keys, counts).cols
        && Build(keys, counts).cols[wk] == seq(7, d => CountAt(email, Histories(repos), nowStart, CalcOffset(w), 7 * wk + d))
    {
      PipelineWeek(email, repos, nowStart, w, keys, wk);
    }
    PipelineFirstWeek(email, repos, nowStart, w, keys);
  }

  /** The column of one of the weeks 1 to 25. */
  lemma PipelineWeek(email: string, repos: seq<Repository>, nowStart: int, w: Weekday, keys: seq<int>, wk: int)
    requires SortedBuckets(email, repos, nowStart, w, keys)
    requires 1 <= wk <= 25
    ensures var counts := Process(InitialCounts(), email, repos, nowStart, CalcOffset(w)).value;
      wk in Build(keys, counts).cols
      && Build(keys, counts).cols[wk] == seq(7, d => CountAt(email, Histories(repos), nowStart, CalcOffset(w), 7 * wk + d))
  {
    var counts := Process(InitialCounts(), email, repos, nowStart, CalcOffset(w)).value;
    var log := Histories(repos);
    var offset := CalcOffset(w);
    ProcessedCounts(email, repos, nowStart, w, keys);
    FullWeek(keys, counts, wk);
    assert seq(7, d => Get(counts, 7 * wk + d)) == seq(7, d => CountAt(email, log, nowStart, offset, 7 * wk + d));
  }

  /** The column of week 0. */
  lemma PipelineFirstWeek(email: string, repos: seq<Repository>, nowStart: int, w: Weekday, keys: seq<int>)
    requires SortedBuckets(email, repos, nowStart, w, keys)
    ensures var counts := Process(InitialCounts(), email, repos, nowStart, CalcOffset(w)).value;
      0 in Build(keys, counts).cols
      && Build(keys, counts).cols[0] == seq(6, d => CountAt(email, Histories(repos), nowStart, CalcOffset(w), d + 1))
  {
    var counts := Process(InitialCounts(), email, repos, nowStart, CalcOffset(w)).value;
    var log := Histories(repos);
    var offset := CalcOffset(w);
    ProcessedCounts(email, repos, nowStart, w, keys);
    FirstWeek(keys, counts);
    assert seq(6, d => Get(counts, d + 1)) == seq(6, d => CountAt(email, log, nowStart, offset, d + 1));
  }

  /** In the printed grid, the cell of week 1 to 25 and day d shows the
      number of matching commits counted at bucket 7 * week + d, and is
      not highlighted. */
  lemma PipelineCells(email: string, repos: seq<Repository>, nowStart: int, w: Weekday, keys: seq<int>, r: nat, c: nat)
    requires SortedBuckets(email, repos, nowStart, w, keys)
    requires r < 7 && 2 <= c <= 26
    ensures var counts := Process(InitialCounts(), email, repos, nowStart, CalcOffset(w)).value;
      Grid(Build(keys, counts).cols, CalcOffset(w))[r].cells[c]
        == Cell(CountAt(email, Histories(repos), nowStart, CalcOffset(w), 7 * (27 - c) + (6 - r)), false)
  {
    var counts := Process(InitialCounts(), email, repos, nowStart, CalcOffset(w)).value;
    var column := seq(7, d => CountAt(email, Histories(repos), nowStart, CalcOffset(w), 7 * (27 - c) + d));
    PipelineWeek(email, repos, nowStart, w, keys, 27 - c);
    GridCellOfColumn(Build(keys, counts).cols, CalcOffset(w), r, c, column,
      CountAt(email, Histories(repos), nowStart, CalcOffset(w), 7 * (27 - c) + (6 - r)));
  }

  /** Except on Sunday, the highlighted cell is the rightmost cell of the
      row for day offset-1 and shows the number of matching commits
      authored since the start of today. */
  lemma PipelineToday(email: string, repos: seq<Repository>, nowStart: int, w: Weekday, keys: seq<int>)
    requires SortedBuckets(email, repos, nowStart, w, keys)
    requires w != Sunday
    ensures var counts := Process(InitialCounts(), email, repos, nowStart, CalcOffset(w)).value;
      Grid(Build(keys, counts).cols, CalcOffset(w))[7 - CalcOffset(w)].cells[27]
        == Cell(CountAt(email, Histories(repos), nowStart, CalcOffset(w), CalcOffset(w)), true)
  {
    var counts := Process(InitialCounts(), email, repos, nowStart, CalcOffset(w)).value;
    var column := seq(6, d => CountAt(email, Histories(repos), nowStart, CalcOffset(w), d + 1));
    PipelineFirstWeek(email, repos, nowStart, w, keys);
    GridTodayOfColumn(Build(keys, counts).cols, CalcOffset(w), column,
      CountAt(email, Histories(repos), nowStart, CalcOffset(w), CalcOffset(w)));
  }

  /** A commit of today is counted at the key equal to the offset. */
  lemma TodayKey(c: Commit, nowStart: int, w: Weekday)
    requires c.when >= nowStart
    ensures DaysAgo(c, nowStart, CalcOffset(w)) == CalcOffset(w)
  {
  }

  /** The cell loop as written panics on Sunday, at the today cell of week
      0, whose column has six entries; on every other day it draws every
      cell of the grid. */
  lemma SundayRenderPanics(email: string, repos: seq<Repository>, nowStart: int, w: Weekday, keys: seq<int>)
    requires SortedBuckets(email, repos, nowStart, w, keys)
    ensures var counts := Process(InitialCounts(), email, repos, nowStart, CalcOffset(w)).value;
      var cols := Build(keys, counts).cols;
      && (w == Sunday ==> CellAsWritten(cols, CalcOffset(w), 0, 6).Failure?)
      && ((forall week, day :: 0 <= week < 28 && 0 <= day < 7 ==> CellAsWritten(cols, CalcOffset(w), week, day).Success?)
          <==> w != Sunday)
  {
    var counts := Process(InitialCounts(), email, repos, nowStart, CalcOffset(w)).value;
    var cols := Build(keys, counts).cols;
    var offset := CalcOffset(w);
    PipelineColumns(email, repos, nowStart, w, keys);
    forall week, day | 0 <= week < 28 && 0 <= day < 7
      ensures CellAsWritten(cols, offset, week, day).Failure? <==> week == 0 && day == 6 && w == Sunday
    {
      CellAsWrittenFails(cols, offset, week, day);
    }
  }
}
