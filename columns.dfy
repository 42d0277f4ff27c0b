/** BuildCols: the sorted bucket keys are cut into week columns. A buffer
    `col` is reset at each key whose day-in-week is 0, every key's value
    is appended to it, and at day-in-week 6 the buffer is stored as the
    column of the key's week. */
module Columns {
  import opened GoInt
  import opened Keys
  import opened Commits

  /** The loop state of BuildCols. */
  datatype Builder = Builder(cols: map<int, seq<int>>, col: seq<int>)

  /** One round of the BuildCols loop for key `k`. */
  function Step(b: Builder, k: int, commits: map<int, int>): Builder
  {
    var week := Quot(k, 7);
    var dayinweek := Rem(k, 7);
    var col := (if dayinweek == 0 then [] else b.col) + [Get(commits, k)];
    Builder(if dayinweek == 6 then b.cols[week := col] else b.cols, col)
  }

  /** The BuildCols loop state after the first `n` keys. */
  function BuildUpTo(keys: seq<int>, n: nat, commits: map<int, int>): Builder
    requires n <= |keys|
  {
    if n == 0 then Builder(map[], [])
    else Step(BuildUpTo(keys, n - 1, commits), keys[n - 1], commits)
  }

  /** The BuildCols loop state after all of `keys`. */
  function Build(keys: seq<int>, commits: map<int, int>): Builder
  {
    BuildUpTo(keys, |keys|, commits)
  }

  /** A round for the key of day `d` of week `w`. */
  lemma StepIn(b: Builder, k: int, commits: map<int, int>, w: int, d: int)
    requires w >= 0 && 0 <= d < 7 && k == 7 * w + d
    ensures Step(b, k, commits).col == (if d == 0 then [] else b.col) + [Get(commits, k)]
    ensures Step(b, k, commits).cols == if d == 6 then b.cols[w := Step(b, k, commits).col] else b.cols
  {
    QuotRemOf7(w, d);
  }

  /** After `n` keys, a week has a column exactly when one of them is the
      key for its day 6. */
  lemma {:induction false} SealedUpTo(keys: seq<int>, commits: map<int, int>, n: nat)
    requires n <= |keys|
    ensures forall w :: w in BuildUpTo(keys, n, commits).cols <==>
      w >= 0 && exists t :: 0 <= t < n && keys[t] == 7 * w + 6
  {
    if n > 0 {
      SealedUpTo(keys, commits, n - 1);
      var k := keys[n - 1];
      forall w
        ensures w in BuildUpTo(keys, n, commits).cols <==>
          w >= 0 && exists t :: 0 <= t < n && keys[t] == 7 * w + 6
      {
        if w >= 0 {
          QuotRemOf7(w, 6);
        }
      }
    }
  }

  /** A week has a column exactly when the key for its day 6 was seen. */
  lemma SealedWeeks(keys: seq<int>, commits: map<int, int>)
    ensures forall w :: w in Build(keys, commits).cols <==> w >= 0 && 7 * w + 6 in keys
  {
    SealedUpTo(keys, commits, |keys|);
  }

  /** Keys that never name day 6 of week `w` leave that week's column as
      it was. */
  lemma {:induction false} ColumnKept(keys: seq<int>, commits: map<int, int>, i: nat, j: nat, w: int)
    requires i <= j <= |keys|
    requires forall t :: i <= t < j ==> keys[t] != 7 * w + 6
    ensures w in BuildUpTo(keys, j, commits).cols <==> w in BuildUpTo(keys, i, commits).cols
    ensures w in BuildUpTo(keys, i, commits).cols ==>
      BuildUpTo(keys, j, commits).cols[w] == BuildUpTo(keys, i, commits).cols[w]
    decreases j - i
  {
    if i < j {
      ColumnKept(keys, commits, i, j - 1, w);
      var k := keys[j - 1];
      if Rem(k, 7) == 6 {
        assert k == Quot(k, 7) * 7 + 6;
      }
    }
  }

  /** The values of the `n` buckets from `base` on, in key order. */
  function Values(commits: map<int, int>, base: int, n: nat): (vs: seq<int>)
    ensures |vs| == n
  {
    if n == 0 then [] else Values(commits, base, n - 1) + [Get(commits, base + n - 1)]
  }

  lemma {:induction false} ValuesAt(commits: map<int, int>, base: int, n: nat)
    ensures Values(commits, base, n) == seq(n, d => Get(commits, base + d))
  {
    if n > 0 {
      ValuesAt(commits, base, n - 1);
    }
  }

  /** The first key of a run: at day 0 the buffer restarts, otherwise it
      was empty already. */
  lemma BufferStart(keys: seq<int>, commits: map<int, int>, p: nat, w: int, a: int)
    requires p < |keys| && w >= 0 && 0 <= a < 7
    requires a == 0 || BuildUpTo(keys, p, commits).col == []
    requires keys[p] == 7 * w + a
    ensures BuildUpTo(keys, p + 1, commits).col == Values(commits, 7 * w + a, 1)
  {
    StepIn(BuildUpTo(keys, p, commits), keys[p], commits, w, a);
  }

  /** A later key of a run, not at day 0: its value is appended. */
  lemma BufferNext(keys: seq<int>, commits: map<int, int>, i: nat, w: int, base: int, n: nat)
    requires i < |keys| && w >= 0 && 0 < n && 0 <= base - 7 * w && base - 7 * w + n < 7
    requires BuildUpTo(keys, i, commits).col == Values(commits, base, n)
    requires keys[i] == base + n
    ensures BuildUpTo(keys, i + 1, commits).col == Values(commits, base, n + 1)
  {
    StepIn(BuildUpTo(keys, i, commits), keys[i], commits, w, base - 7 * w + n);
  }

  /** Over a run of consecutive keys inside one week, the buffer collects
      their values in order, when the run starts at day 0 or with an
      empty buffer. */
  lemma {:induction false} BufferRun(keys: seq<int>, commits: map<int, int>, p: nat, i: nat, w: int, a: int)
    requires p < i <= |keys|
    requires w >= 0 && 0 <= a && a + (i - p) <= 7
    requires a == 0 || BuildUpTo(keys, p, commits).col == []
    requires forall t :: p <= t < i ==> keys[t] == 7 * w + a + (t - p)
    ensures BuildUpTo(keys, i, commits).col == Values(commits, 7 * w + a, i - p)
    decreases i - p
  {
    if i - 1 > p {
      BufferRun(keys, commits, p, i - 1, w, a);
      BufferNext(keys, commits, i - 1, w, 7 * w + a, i - 1 - p);
    } else {
      BufferStart(keys, commits, p, w, a);
    }
  }

  /** Seven consecutive keys of week `w` at position p, and no later key
      for its day 6: the column of week `w` holds their values. */
  lemma WeekColumn(keys: seq<int>, commits: map<int, int>, p: nat, w: int)
    requires w >= 0 && p + 7 <= |keys|
    requires forall t :: p <= t < p + 7 ==> keys[t] == 7 * w + (t - p)
    requires forall t :: p + 7 <= t < |keys| ==> keys[t] != 7 * w + 6
    ensures w in Build(keys, commits).cols
    ensures Build(keys, commits).cols[w] == Values(commits, 7 * w, 7)
  {
    BufferRun(keys, commits, p, p + 6, w, 0);
    StepIn(BuildUpTo(keys, p + 6, commits), keys[p + 6], commits, w, 6);
    ColumnKept(keys, commits, p + 7, |keys|, w);
  }

  /** Keys 1..6 first, and no later key 6: week 0's column holds their
      six values. */
  lemma FirstColumn(keys: seq<int>, commits: map<int, int>)
    requires 6 <= |keys|
    requires forall t :: 0 <= t < 6 ==> keys[t] == 1 + t
    requires forall t :: 6 <= t < |keys| ==> keys[t] != 6
    ensures 0 in Build(keys, commits).cols
    ensures Build(keys, commits).cols[0] == Values(commits, 1, 6)
  {
    BufferRun(keys, commits, 0, 5, 0, 1);
    StepIn(BuildUpTo(keys, 5, commits), keys[5], commits, 0, 6);
    ColumnKept(keys, commits, 6, |keys|, 0);
  }

  /** Every key from `lo` up to but excluding `hi` occurs in `keys`. */
  predicate AllPresent(keys: seq<int>, lo: int, hi: int)
  {
    forall k :: lo <= k < hi ==> k in keys
  }

  /** In a strictly increasing sequence holding `base` at `p` and also
      base+1 .. base+n-1, those values follow `base` directly. */
  lemma {:induction false} Consecutive(keys: seq<int>, p: nat, base: int, n: nat)
    requires StrictlyIncreasing(keys)
    requires p < |keys| && keys[p] == base
    requires AllPresent(keys, base, base + n)
    ensures n <= |keys| - p
    ensures forall t :: p <= t < p + n ==> keys[t] == base + (t - p)
    decreases n
  {
    if n > 1 {
      Consecutive(keys, p, base, n - 1);
      assert base + (n - 1) in keys;
      var r :| 0 <= r < |keys| && keys[r] == base + (n - 1);
      assert keys[p + (n - 2)] == base + (n - 2);
      assert r > p + (n - 2);
      assert keys[p + (n - 1)] == base + (n - 1);
    }
  }

  /** A week whose seven keys are all present gets exactly their values,
      in order, as its column. */
  lemma FullWeek(keys: seq<int>, commits: map<int, int>, w: int)
    requires StrictlyIncreasing(keys)
    requires w >= 0
    requires AllPresent(keys, 7 * w, 7 * w + 7)
    ensures w in Build(keys, commits).cols
    ensures Build(keys, commits).cols[w] == seq(7, d => Get(commits, 7 * w + d))
  {
    assert 7 * w in keys;
    var p :| 0 <= p < |keys| && keys[p] == 7 * w;
    Consecutive(keys, p, 7 * w, 7);
    forall t | p + 7 <= t < |keys|
      ensures keys[t] != 7 * w + 6
    {
      assert keys[p + 6] < keys[t];
    }
    WeekColumn(keys, commits, p, w);
    ValuesAt(commits, 7 * w, 7);
  }

  /** With no key below 1, week 0 is sealed at key 6 from the values of
      keys 1..6 only: its column has six entries. */
  lemma FirstWeek(keys: seq<int>, commits: map<int, int>)
    requires StrictlyIncreasing(keys)
    requires forall k :: k in keys ==> k >= 1
    requires AllPresent(keys, 1, 7)
    ensures 0 in Build(keys, commits).cols
    ensures Build(keys, commits).cols[0] == seq(6, d => Get(commits, d + 1))
  {
    assert 1 in keys;
    var q :| 0 <= q < |keys| && keys[q] == 1;
    assert keys[0] in keys;
    assert q == 0;
    Consecutive(keys, 0, 1, 6);
    forall t | 6 <= t < |keys|
      ensures keys[t] != 6
    {
      assert keys[5] < keys[t];
    }
    FirstColumn(keys, commits);
    ValuesAt(commits, 1, 6);
  }

  /** BuildCols. */
  method BuildCols(keys: seq<int>, commits: map<int, int>) returns (cols: map<int, seq<int>>)
    ensures cols == Build(keys, commits).cols
    ensures forall w :: w in cols <==> w >= 0 && 7 * w + 6 in keys
  {
    cols := map[];
    var col: seq<int> := [];
    for i := 0 to |keys|
      invariant Builder(cols, col) == BuildUpTo(keys, i, commits)
    {
      var k := keys[i];
      var week := Quot(k, 7);
      var dayinweek := Rem(k, 7);
      if dayinweek == 0 {
        col := [];
      }
      col := col + [Get(commits, k)];
      if dayinweek == 6 {
        cols := cols[week := col];
      }
    }
    SealedWeeks(keys, commits);
  }
}
