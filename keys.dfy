/** SortMapIntoSlice: the keys of the bucket map, collected in the map's
    (unspecified) iteration order and then sorted with sort.Ints. */
module Keys {

  predicate Sorted(s: seq<int>)
  {
    forall i, j :: 0 <= i < j < |s| ==> s[i] <= s[j]
  }

  predicate StrictlyIncreasing(s: seq<int>)
  {
    forall i, j :: 0 <= i < j < |s| ==> s[i] < s[j]
  }

  /** A set with no members is empty. */
  lemma EmptyWithoutMembers(s: set<int>)
    ensures (forall x :: x !in s) ==> s == {}
  {
    if forall x :: x !in s {
      assert forall x :: x in s <==> x in {};
    }
  }

  /** `x` placed into a sorted sequence. */
  function Insert(s: seq<int>, x: int): (r: seq<int>)
    requires Sorted(s)
    ensures forall y :: y in r <==> y == x || y in s
    ensures Sorted(r)
    ensures multiset(r) == multiset(s) + multiset{x}
  {
    if s == [] then [x]
    else if x <= s[0] then
      InsertFront(s, x);
      [x] + s
    else
      SortedTail(s);
      var rest := Insert(s[1..], x);
      InsertBehind(s, x, rest);
      [s[0]] + rest
  }

  /** The tail of a sorted sequence is sorted and bounded by its head. */
  lemma SortedTail(s: seq<int>)
    requires Sorted(s) && s != []
    ensures Sorted(s[1..])
    ensures forall k :: 0 <= k < |s[1..]| ==> s[0] <= s[1..][k]
  {
  }

  /** `x` goes first when it is no larger than the head. */
  lemma InsertFront(s: seq<int>, x: int)
    requires Sorted(s) && s != [] && x <= s[0]
    ensures forall y :: y in [x] + s <==> y == x || y in s
    ensures Sorted([x] + s)
    ensures multiset([x] + s) == multiset(s) + multiset{x}
  {
  }

  /** `x` goes behind a smaller head, into the tail. */
  lemma InsertBehind(s: seq<int>, x: int, rest: seq<int>)
    requires Sorted(s) && s != [] && s[0] < x
    requires forall y :: y in rest <==> y == x || y in s[1..]
    requires Sorted(rest)
    requires multiset(rest) == multiset(s[1..]) + multiset{x}
    ensures forall y :: y in [s[0]] + rest <==> y == x || y in s
    ensures Sorted([s[0]] + rest)
    ensures multiset([s[0]] + rest) == multiset(s) + multiset{x}
  {
    assert s == [s[0]] + s[1..];
    forall k | 0 <= k < |rest|
      ensures s[0] <= rest[k]
    {
      assert rest[k] in rest;
    }
  }

  /** sort.Ints: sorts, keeping every element with its multiplicity. */
  method SortInts(xs: seq<int>) returns (r: seq<int>)
    ensures Sorted(r)
    ensures multiset(r) == multiset(xs)
  {
    r := [];
    for i := 0 to |xs|
      invariant Sorted(r)
      invariant multiset(r) == multiset(xs[..i])
    {
      assert xs[..i + 1] == xs[..i] + [xs[i]];
      r := Insert(r, xs[i]);
    }
    assert xs[..|xs|] == xs;
  }

  /** A sorted sequence in which no element occurs twice is strictly
      increasing. */
  lemma SortedDistinct(s: seq<int>)
    requires Sorted(s)
    requires forall x :: multiset(s)[x] <= 1
    ensures StrictlyIncreasing(s)
  {
    forall i, j | 0 <= i < j < |s|
      ensures s[i] < s[j]
    {
      RepeatCountsTwice(s, i, j);
    }
  }

  /** An element found at two positions occurs at least twice. */
  lemma RepeatCountsTwice(s: seq<int>, i: int, j: int)
    requires 0 <= i < j < |s|
    ensures s[i] == s[j] ==> multiset(s)[s[i]] >= 2
  {
    assert s == s[..j] + s[j..];
    assert s[i] in s[..j] && s[j] in s[j..];
  }

  /** SortMapIntoSlice: every key of `m` exactly once, ascending. */
  method SortMapIntoSlice(m: map<int, int>) returns (keys: seq<int>)
    ensures StrictlyIncreasing(keys)
    ensures multiset(keys) == multiset(m.Keys)
    ensures forall k :: k in keys <==> k in m
  {
    var collected: seq<int> := [];
    var rest := m.Keys;
    while |rest| > 0
      invariant rest <= m.Keys
      invariant multiset(collected) + multiset(rest) == multiset(m.Keys)
      decreases |rest|
    {
      EmptyWithoutMembers(rest);
      var k :| k in rest;
      assert multiset(rest) == multiset(rest - {k}) + multiset{k};
      collected := collected + [k];
      rest := rest - {k};
    }
    assert forall k :: multiset(rest)[k] == 0;
    keys := SortInts(collected);
    assert forall k :: multiset(keys)[k] == multiset(m.Keys)[k];
    assert forall k :: multiset(m.Keys)[k] == if k in m.Keys then 1 else 0;
    assert forall k :: k in keys <==> multiset(keys)[k] > 0;
    SortedDistinct(keys);
  }
}
