/** The commit aggregator: the bucket map is created with keys 183 down to
    1, and every commit of every repository whose author email matches
    increments the bucket of its "days ago" value. The source's git
    traversal is replaced by each repository's history as a sequence. */
module Commits {
  import opened Days
  import opened Results
  import opened Seqs

  /** The two fields of a git commit the aggregator reads. */
  datatype Commit = Commit(authorEmail: string, when: int)

  /** A repository path as the aggregator sees it: either its history from
      HEAD, in traversal order, or a path that cannot be opened, whose head
      cannot be resolved or whose history cannot be walked. */
  datatype Repository = Readable(log: seq<Commit>) | Unreadable

  /** Reading a Go map: a missing key yields the zero value. */
  function Get(m: map<int, int>, k: int): int
  {
    if k in m then m[k] else 0
  }

  /** daysAgo in the FillCommits callback: the offset is added to the day
      count before anything is compared with OutOfRange. */
  function DaysAgo(c: Commit, nowStart: int, offset: int): int
  {
    CountDays(c.when, nowStart) + offset
  }

  /** With a real offset the callback's `daysAgo != OutOfRange` test never
      fails: commits older than the window are counted at OutOfRange plus
      the offset, and no commit lands at key 0. */
  lemma DaysAgoRange(c: Commit, nowStart: int, w: Weekday)
    ensures DaysAgo(c, nowStart, CalcOffset(w)) != OutOfRange
    ensures CountDays(c.when, nowStart) == OutOfRange ==> DaysAgo(c, nowStart, CalcOffset(w)) == OutOfRange + CalcOffset(w)
    ensures CountDays(c.when, nowStart) != OutOfRange ==> 1 <= DaysAgo(c, nowStart, CalcOffset(w)) <= DaysInLastSixMonths + 7
  {
  }

  /** The FillCommits callback for one commit. */
  function Record(m: map<int, int>, email: string, c: Commit, nowStart: int, offset: int): (r: map<int, int>)
    ensures c.authorEmail != email ==> r == m
    ensures c.authorEmail == email && DaysAgo(c, nowStart, offset) != OutOfRange ==>
      var d := DaysAgo(c, nowStart, offset);
      && r.Keys == m.Keys + {d}
      && Get(r, d) == Get(m, d) + 1
      && forall k :: k != d ==> Get(r, k) == Get(m, k)
  {
    var daysAgo := DaysAgo(c, nowStart, offset);
    if c.authorEmail != email then m
    else if daysAgo != OutOfRange then m[daysAgo := Get(m, daysAgo) + 1]
    else m
  }

  /** The callback applied to a history, in traversal order. */
  function Tally(m: map<int, int>, email: string, log: seq<Commit>, nowStart: int, offset: int): map<int, int>
    decreases |log|
  {
    if log == [] then m
    else Record(Tally(m, email, log[..|log| - 1], nowStart, offset), email, log[|log| - 1], nowStart, offset)
  }

  /** How many commits of `log` carry the author email. */
  function MatchCount(email: string, log: seq<Commit>): nat
  {
    if log == [] then 0
    else MatchCount(email, log[..|log| - 1]) + (if log[|log| - 1].authorEmail == email then 1 else 0)
  }

  /** How many commits of `log` carry the author email and are counted at
      key `k`. */
  function CountAt(email: string, log: seq<Commit>, nowStart: int, offset: int, k: int): nat
  {
    if log == [] then 0
    else
      var c := log[|log| - 1];
      CountAt(email, log[..|log| - 1], nowStart, offset, k)
      + (if c.authorEmail == email && DaysAgo(c, nowStart, offset) == k && k != OutOfRange then 1 else 0)
  }

  /** After a history, every bucket has grown by the number of matching
      commits that fall into it, and nothing else has changed. */
  lemma {:induction false} TallyPerKey(m: map<int, int>, email: string, log: seq<Commit>, nowStart: int, offset: int, k: int)
    ensures Get(Tally(m, email, log, nowStart, offset), k) == Get(m, k) + CountAt(email, log, nowStart, offset, k)
    ensures k in Tally(m, email, log, nowStart, offset) <==> k in m || CountAt(email, log, nowStart, offset, k) > 0
    decreases |log|
  {
    if log != [] {
      TallyPerKey(m, email, log[..|log| - 1], nowStart, offset, k);
    }
  }

  /** Tallying two histories one after the other is tallying their
      concatenation. */
  lemma {:induction false} TallyAppend(m: map<int, int>, email: string, a: seq<Commit>, b: seq<Commit>, nowStart: int, offset: int)
    ensures Tally(Tally(m, email, a, nowStart, offset), email, b, nowStart, offset) == Tally(m, email, a + b, nowStart, offset)
    decreases |b|
  {
    if b == [] {
      assert a + b == a;
    } else {
      TallyAppend(m, email, a, b[..|b| - 1], nowStart, offset);
      assert (a + b)[..|a + b| - 1] == a + b[..|b| - 1];
    }
  }

  /** The values of `m` at `keys`, added up. */
  function SumOver(m: map<int, int>, keys: seq<int>): int
  {
    if keys == [] then 0 else SumOver(m, keys[..|keys| - 1]) + Get(m, keys[|keys| - 1])
  }

  /** The matching commits counted at `keys`, added up. */
  function HitsOver(email: string, log: seq<Commit>, nowStart: int, offset: int, keys: seq<int>): nat
  {
    if keys == [] then 0
    else HitsOver(email, log, nowStart, offset, keys[..|keys| - 1]) + CountAt(email, log, nowStart, offset, keys[|keys| - 1])
  }

  /** How often `k` occurs in `keys`. */
  function Occurrences(keys: seq<int>, k: int): nat
  {
    if keys == [] then 0
    else Occurrences(keys[..|keys| - 1], k) + (if keys[|keys| - 1] == k then 1 else 0)
  }

  /** In a list without duplicates a key occurs once if present. */
  lemma {:induction false} OccurrencesOnce(keys: seq<int>, k: int)
    requires NoDuplicates(keys)
    ensures Occurrences(keys, k) == if k in keys then 1 else 0
    decreases |keys|
  {
    if keys != [] {
      var init := keys[..|keys| - 1];
      OccurrencesOnce(init, k);
      assert k in keys <==> k in init || keys[|keys| - 1] == k;
    }
  }

  /** Tallying a history raises the sum at `keys` by the hits at `keys`. */
  lemma {:induction false} SumOverTally(m: map<int, int>, email: string, log: seq<Commit>, nowStart: int, offset: int, keys: seq<int>)
    ensures SumOver(Tally(m, email, log, nowStart, offset), keys) == SumOver(m, keys) + HitsOver(email, log, nowStart, offset, keys)
    decreases |keys|
  {
    if keys != [] {
      SumOverTally(m, email, log, nowStart, offset, keys[..|keys| - 1]);
      TallyPerKey(m, email, log, nowStart, offset, keys[|keys| - 1]);
    }
  }

  /** One more commit adds its bucket's occurrences to the hits. */
  lemma {:induction false} HitsOverStep(email: string, log: seq<Commit>, c: Commit, nowStart: int, offset: int, keys: seq<int>)
    ensures HitsOver(email, log + [c], nowStart, offset, keys) == HitsOver(email, log, nowStart, offset, keys)
      + (if c.authorEmail == email && DaysAgo(c, nowStart, offset) != OutOfRange then Occurrences(keys, DaysAgo(c, nowStart, offset)) else 0)
    decreases |keys|
  {
    assert (log + [c])[..|log + [c]| - 1] == log;
    if keys != [] {
      HitsOverStep(email, log, c, nowStart, offset, keys[..|keys| - 1]);
    }
  }

  /** An empty history hits nothing. */
  lemma {:induction false} ZeroHits(email: string, nowStart: int, offset: int, keys: seq<int>)
    ensures HitsOver(email, [], nowStart, offset, keys) == 0
    decreases |keys|
  {
    if keys != [] {
      ZeroHits(email, nowStart, offset, keys[..|keys| - 1]);
    }
  }

  /** When every matching commit's bucket is listed once in `keys`, the
      hits at `keys` are the number of matching commits. */
  lemma {:induction false} HitsOverAll(email: string, log: seq<Commit>, nowStart: int, w: Weekday, keys: seq<int>)
    requires NoDuplicates(keys)
    requires forall c :: c in log && c.authorEmail == email ==> DaysAgo(c, nowStart, CalcOffset(w)) in keys
    ensures HitsOver(email, log, nowStart, CalcOffset(w), keys) == MatchCount(email, log)
    decreases |log|
  {
    var offset := CalcOffset(w);
    if log == [] {
      ZeroHits(email, nowStart, offset, keys);
    } else {
      var init := log[..|log| - 1];
      var c := log[|log| - 1];
      assert init + [c] == log;
      assert forall x :: x in init ==> x in log;
      HitsOverAll(email, init, nowStart, w, keys);
      HitsOverStep(email, init, c, nowStart, offset, keys);
      DaysAgoRange(c, nowStart, w);
      OccurrencesOnce(keys, DaysAgo(c, nowStart, offset));
    }
  }

  /** A map that is zero at every key sums to zero. */
  lemma {:induction false} SumOverZero(m: map<int, int>, keys: seq<int>)
    requires forall k :: Get(m, k) == 0
    ensures SumOver(m, keys) == 0
    decreases |keys|
  {
    if keys != [] {
      SumOverZero(m, keys[..|keys| - 1]);
    }
  }

  /** The keys ProcessRepositories initialises. */
  predicate InWindow(k: int)
  {
    1 <= k <= DaysInLastSixMonths
  }

  /** The map ProcessRepositories starts from: keys 183 down to 1, zero.
      The range bounds the map; `InWindow` gives its quantifier a trigger. */
  function InitialCounts(): map<int, int>
  {
    map k | 1 <= k <= DaysInLastSixMonths && InWindow(k) :: 0
  }

  /** The initial map holds exactly the keys 1..183, each zero; key 0 is
      absent, and the total is zero. */
  lemma InitialCountsShape()
    ensures forall k :: k in InitialCounts() <==> 1 <= k <= DaysInLastSixMonths
    ensures 0 !in InitialCounts()
    ensures forall k :: Get(InitialCounts(), k) == 0
  {
  }

  /** FillCommits for one repository. */
  function Fill(m: map<int, int>, email: string, repo: Repository, nowStart: int, offset: int): Result<map<int, int>>
  {
    match repo
    case Unreadable => Failure(RepositoryUnreadable)
    case Readable(log) => Success(Tally(m, email, log, nowStart, offset))
  }

  /** The repository loop of ProcessRepositories, threading the map. */
  function Process(m: map<int, int>, email: string, repos: seq<Repository>, nowStart: int, offset: int): Result<map<int, int>>
    decreases |repos|
  {
    if repos == [] then Success(m)
    else
      match Process(m, email, repos[..|repos| - 1], nowStart, offset)
      case Failure(f) => Failure(f)
      case Success(acc) => Fill(acc, email, repos[|repos| - 1], nowStart, offset)
  }

  /** Every commit of every repository, repository by repository. */
  function Histories(repos: seq<Repository>): seq<Commit>
  {
    if repos == [] then []
    else
      var last := repos[|repos| - 1];
      Histories(repos[..|repos| - 1]) + (if last.Readable? then last.log else [])
  }

  /** Processing the repositories fails exactly when one of them is
      unreadable; otherwise it tallies all their histories in order. */
  lemma ProcessIsTally(m: map<int, int>, email: string, repos: seq<Repository>, nowStart: int, offset: int)
    ensures Process(m, email, repos, nowStart, offset).Failure? <==> exists i :: 0 <= i < |repos| && repos[i].Unreadable?
    ensures Process(m, email, repos, nowStart, offset).Success? ==>
      Process(m, email, repos, nowStart, offset).value == Tally(m, email, Histories(repos), nowStart, offset)
  {
    ProcessFails(m, email, repos, nowStart, offset);
    ProcessValue(m, email, repos, nowStart, offset);
  }

  /** Some repository is unreadable. */
  predicate SomeUnreadable(repos: seq<Repository>)
  {
    exists i :: 0 <= i < |repos| && repos[i].Unreadable?
  }

  /** An unreadable repository is among the first ones or is the last. */
  lemma SomeUnreadableSnoc(repos: seq<Repository>)
    requires repos != []
    ensures SomeUnreadable(repos) <==> SomeUnreadable(repos[..|repos| - 1]) || repos[|repos| - 1].Unreadable?
  {
    var init := repos[..|repos| - 1];
    if SomeUnreadable(init) {
      var i :| 0 <= i < |init| && init[i].Unreadable?;
      assert repos[i].Unreadable?;
    }
    if SomeUnreadable(repos) {
      var i :| 0 <= i < |repos| && repos[i].Unreadable?;
      if i < |init| {
        assert init[i].Unreadable?;
      }
    }
  }

  lemma {:induction false} ProcessFails(m: map<int, int>, email: string, repos: seq<Repository>, nowStart: int, offset: int)
    ensures Process(m, email, repos, nowStart, offset).Failure? <==> SomeUnreadable(repos)
    decreases |repos|
  {
    if repos != [] {
      ProcessFails(m, email, repos[..|repos| - 1], nowStart, offset);
      SomeUnreadableSnoc(repos);
    }
  }

  lemma {:induction false} ProcessValue(m: map<int, int>, email: string, repos: seq<Repository>, nowStart: int, offset: int)
    ensures Process(m, email, repos, nowStart, offset).Success? ==>
      Process(m, email, repos, nowStart, offset).value == Tally(m, email, Histories(repos), nowStart, offset)
    decreases |repos|
  {
    if repos != [] {
      var init := repos[..|repos| - 1];
      var last := repos[|repos| - 1];
      ProcessValue(m, email, init, nowStart, offset);
      if Process(m, email, init, nowStart, offset).Success? && last.Readable? {
        TallyAppend(m, email, Histories(init), last.log, nowStart, offset);
      }
    }
  }

  /** What ProcessRepositories hands to the grid builder: keys 1..183 plus
      the buckets some matching commit reached, never key 0 or below; each bucket
      holds the number of matching commits counted there; and summed over
      any list of its keys without repetition, the values add up to the
      number of matching commits. */
  lemma ProcessedCounts(email: string, repos: seq<Repository>, nowStart: int, w: Weekday, keys: seq<int>)
    requires Process(InitialCounts(), email, repos, nowStart, CalcOffset(w)).Success?
    requires NoDuplicates(keys)
    requires forall k :: k in Process(InitialCounts(), email, repos, nowStart, CalcOffset(w)).value ==> k in keys
    ensures var r := Process(InitialCounts(), email, repos, nowStart, CalcOffset(w)).value;
      && (forall k :: k in r <==> 1 <= k <= DaysInLastSixMonths || CountAt(email, Histories(repos), nowStart, CalcOffset(w), k) > 0)
      && (forall k :: k in r ==> k >= 1)
      && (forall k :: Get(r, k) == CountAt(email, Histories(repos), nowStart, CalcOffset(w), k))
      && SumOver(r, keys) == MatchCount(email, Histories(repos))
  {
    var offset := CalcOffset(w);
    var log := Histories(repos);
    var init := InitialCounts();
    var r := Tally(init, email, log, nowStart, offset);
    ProcessIsTally(init, email, repos, nowStart, offset);
    InitialCountsShape();
    forall k ensures Get(r, k) == CountAt(email, log, nowStart, offset, k)
      && (k in r <==> 1 <= k <= DaysInLastSixMonths || CountAt(email, log, nowStart, offset, k) > 0)
    {
      TallyPerKey(init, email, log, nowStart, offset, k);
    }
    forall k | k < 1 ensures CountAt(email, log, nowStart, offset, k) == 0 {
      NoCommitBelowOne(email, log, nowStart, w, k);
    }
    forall c | c in log && c.authorEmail == email
      ensures DaysAgo(c, nowStart, offset) in keys
    {
      CountAtMember(email, log, c, nowStart, w);
    }
    SumOverTally(init, email, log, nowStart, offset, keys);
    SumOverZero(init, keys);
    HitsOverAll(email, log, nowStart, w, keys);
  }

  /** A matching commit of the history is counted at its own bucket. */
  lemma {:induction false} CountAtMember(email: string, log: seq<Commit>, c: Commit, nowStart: int, w: Weekday)
    requires c in log && c.authorEmail == email
    ensures CountAt(email, log, nowStart, CalcOffset(w), DaysAgo(c, nowStart, CalcOffset(w))) > 0
    decreases |log|
  {
    DaysAgoRange(c, nowStart, w);
    if log[|log| - 1] != c {
      var init := log[..|log| - 1];
      assert log == init + [log[|log| - 1]];
      assert c in init;
      CountAtMember(email, init, c, nowStart, w);
    }
  }

  /** No commit is ever counted at key 0 or below. */
  lemma {:induction false} NoCommitBelowOne(email: string, log: seq<Commit>, nowStart: int, w: Weekday, k: int)
    requires k < 1
    ensures CountAt(email, log, nowStart, CalcOffset(w), k) == 0
    decreases |log|
  {
    if log != [] {
      NoCommitBelowOne(email, log[..|log| - 1], nowStart, w, k);
      DaysAgoRange(log[|log| - 1], nowStart, w);
    }
  }

  /** One round of the FillCommits callback loop: the map after commit
      `i` is the tally of the history up to and including it. */
  lemma FillRound(commits: map<int, int>, email: string, log: seq<Commit>, i: nat, nowStart: int, offset: int,
                  daysAgo: int, before: map<int, int>, after: map<int, int>)
    requires i < |log|
    requires before == Tally(commits, email, log[..i], nowStart, offset)
    requires daysAgo == CountDays(log[i].when, nowStart) + offset
    requires after == if log[i].authorEmail == email && daysAgo != OutOfRange then before[daysAgo := Get(before, daysAgo) + 1] else before
    ensures after == Tally(commits, email, log[..i + 1], nowStart, offset)
  {
    assert log[..i + 1][..i] == log[..i];
  }

  /** The FillCommits callback loop over one repository's history. */
  method FillCommits(email: string, repo: Repository, commits: map<int, int>, nowStart: int, w: Weekday)
    returns (r: Result<map<int, int>>)
    ensures r == Fill(commits, email, repo, nowStart, CalcOffset(w))
  {
    if repo.Unreadable? {
      return Failure(RepositoryUnreadable);
    }
    var log := repo.log;
    var offset := CalcOffset(w);
    var m := commits;
    var i := 0;
    while i < |log|
      invariant 0 <= i <= |log|
      invariant m == Tally(commits, email, log[..i], nowStart, offset)
    {
      var c := log[i];
      ghost var before := m;
      var raw;
      ghost var rounds;
      raw, rounds := CountDaysSinceDate(c.when, nowStart);
      var daysAgo := raw + offset;
      if c.authorEmail == email && daysAgo != OutOfRange {
        m := m[daysAgo := Get(m, daysAgo) + 1];
      }
      FillRound(commits, email, log, i, nowStart, offset, daysAgo, before, m);
      i := i + 1;
    }
    assert log[..i] == log;
    r := Success(m);
  }

  /** ProcessRepositories with the repository list as a parameter. */
  method ProcessRepositories(email: string, repos: seq<Repository>, nowStart: int, w: Weekday)
    returns (r: Result<map<int, int>>)
    ensures r == Process(InitialCounts(), email, repos, nowStart, CalcOffset(w))
  {
    var commits: map<int, int> := map[];
    var i := DaysInLastSixMonths;
    while i > 0
      invariant 0 <= i <= DaysInLastSixMonths
      invariant forall k :: k in commits <==> i < k <= DaysInLastSixMonths
      invariant forall k :: k in commits ==> commits[k] == 0
    {
      commits := commits[i := 0];
      i := i - 1;
    }
    assert commits == InitialCounts();
    var j := 0;
    while j < |repos|
      invariant 0 <= j <= |repos|
      invariant Process(InitialCounts(), email, repos[..j], nowStart, CalcOffset(w)) == Success(commits)
    {
      assert repos[..j + 1][..j] == repos[..j];
      var filled := FillCommits(email, repos[j], commits, nowStart, w);
      if filled.Failure? {
        ProcessFailureSticks(email, repos, j + 1, nowStart, CalcOffset(w));
        return filled;
      }
      commits := filled.value;
      j := j + 1;
    }
    assert repos[..j] == repos;
    r := Success(commits);
  }

  /** Once a prefix of the repositories fails, the whole run fails with the
      same fault. */
  lemma {:induction false} ProcessFailureSticks(email: string, repos: seq<Repository>, n: nat, nowStart: int, offset: int)
    requires n <= |repos|
    requires Process(InitialCounts(), email, repos[..n], nowStart, offset).Failure?
    ensures Process(InitialCounts(), email, repos, nowStart, offset) == Process(InitialCounts(), email, repos[..n], nowStart, offset)
    decreases |repos| - n
  {
    if n < |repos| {
      assert repos[..n + 1][..n] == repos[..n];
      ProcessFailureSticks(email, repos, n + 1, nowStart, offset);
    } else {
      assert repos[..n] == repos;
    }
  }

  /** Two repositories: the first with three commits of a@x.com and one of
      b@x.com today, the second with two commits of a@x.com yesterday.
      Aggregated for a@x.com, the bucket of today (the offset) holds 3,
      the next one 2, and every other bucket 0. */
  lemma AggregateExample(nowStart: int, w: Weekday)
    ensures var today := Commit("a@x.com", nowStart);
      var other := Commit("b@x.com", nowStart);
      var yesterday := Commit("a@x.com", nowStart - Day);
      var repos := [Readable([today, other, today, today]), Readable([yesterday, yesterday])];
      var r := Process(InitialCounts(), "a@x.com", repos, nowStart, CalcOffset(w));
      && r.Success?
      && Get(r.value, CalcOffset(w)) == 3
      && Get(r.value, CalcOffset(w) + 1) == 2
      && forall k :: k != CalcOffset(w) && k != CalcOffset(w) + 1 ==> Get(r.value, k) == 0
  {
    var today := Commit("a@x.com", nowStart);
    var other := Commit("b@x.com", nowStart);
    var yesterday := Commit("a@x.com", nowStart - Day);
    var repos := [Readable([today, other, today, today]), Readable([yesterday, yesterday])];
    var offset := CalcOffset(w);
    var init := InitialCounts();
    ProcessIsTally(init, "a@x.com", repos, nowStart, offset);
    assert repos[..1] == [repos[0]];
    assert repos[..1][..0] == [];
    assert Histories(repos[..1]) == [today, other, today, today];
    assert Histories(repos) == [today, other, today, today] + [yesterday, yesterday];
    var log := Histories(repos);
    assert DaysAgo(today, nowStart, offset) == offset;
    assert Steps(nowStart - Day, nowStart) == 1;
    assert DaysAgo(yesterday, nowStart, offset) == offset + 1;
    InitialCountsShape();
    forall k
      ensures Get(Tally(init, "a@x.com", log, nowStart, offset), k)
        == (if k == offset then 3 else if k == offset + 1 then 2 else 0)
    {
      TallyPerKey(init, "a@x.com", log, nowStart, offset, k);
      ExampleCount(nowStart, w, k);
    }
  }

  /** The bucket counts of the example history, one key at a time. */
  lemma ExampleCount(nowStart: int, w: Weekday, k: int)
    ensures var today := Commit("a@x.com", nowStart);
      var other := Commit("b@x.com", nowStart);
      var yesterday := Commit("a@x.com", nowStart - Day);
      CountAt("a@x.com", [today, other, today, today] + [yesterday, yesterday], nowStart, CalcOffset(w), k)
        == (if k == CalcOffset(w) then 3 else if k == CalcOffset(w) + 1 then 2 else 0)
  {
    var today := Commit("a@x.com", nowStart);
    var other := Commit("b@x.com", nowStart);
    var yesterday := Commit("a@x.com", nowStart - Day);
    ExampleFacts(nowStart, w);
    CountSix("a@x.com", today, other, yesterday, nowStart, CalcOffset(w), k);
  }

  /** The days-ago values and authors of the example's commits. */
  lemma ExampleFacts(nowStart: int, w: Weekday)
    ensures DaysAgo(Commit("a@x.com", nowStart), nowStart, CalcOffset(w)) == CalcOffset(w)
    ensures DaysAgo(Commit("a@x.com", nowStart - Day), nowStart, CalcOffset(w)) == CalcOffset(w) + 1
    ensures "b@x.com" != "a@x.com"
  {
    assert Steps(nowStart - Day, nowStart) == 1;
    assert "b@x.com"[0] != "a@x.com"[0];
  }

  /** Three matching commits at one key, one other author, then two
      matching commits at the next key. */
  lemma CountSix(email: string, today: Commit, other: Commit, yesterday: Commit, nowStart: int, offset: int, k: int)
    requires today.authorEmail == email && yesterday.authorEmail == email && other.authorEmail != email
    requires 1 <= offset <= 7
    requires DaysAgo(today, nowStart, offset) == offset && DaysAgo(yesterday, nowStart, offset) == offset + 1
    ensures CountAt(email, [today, other, today, today] + [yesterday, yesterday], nowStart, offset, k)
      == (if k == offset then 3 else if k == offset + 1 then 2 else 0)
  {
    var l0: seq<Commit> := [];
    var l1 := l0 + [today];
    var l2 := l1 + [other];
    var l3 := l2 + [today];
    var l4 := l3 + [today];
    var l5 := l4 + [yesterday];
    CountAtSnoc(email, l0, today, nowStart, offset, k);
    CountAtSnoc(email, l1, other, nowStart, offset, k);
    CountAtSnoc(email, l2, today, nowStart, offset, k);
    CountAtSnoc(email, l3, today, nowStart, offset, k);
    CountAtSnoc(email, l4, yesterday, nowStart, offset, k);
    CountAtSnoc(email, l5, yesterday, nowStart, offset, k);
    assert [today, other, today, today] + [yesterday, yesterday] == l5 + [yesterday];
  }

  /** CountAt over one more commit. */
  lemma CountAtSnoc(email: string, log: seq<Commit>, c: Commit, nowStart: int, offset: int, k: int)
    ensures CountAt(email, log + [c], nowStart, offset, k)
      == CountAt(email, log, nowStart, offset, k) + (if c.authorEmail == email && DaysAgo(c, nowStart, offset) == k && k != OutOfRange then 1 else 0)
  {
    assert (log + [c])[..|log|] == log;
  }
}
