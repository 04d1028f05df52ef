/** The order of the summary (find.py, the two `sorted(..., key=count,
    reverse=True)` calls): entries by non-increasing count. How ties are
    broken is left open; this sort happens to keep tied entries in their
    original order, as Python's does. */
module Ranking {
  import opened Seqs

  /** A directory with a number: its dupe count, or the number of files it
      shares with another directory. */
  datatype Tally = Tally(dir: string, n: nat)

  function Dirs(items: seq<Tally>): (dirs: seq<string>)
    ensures |dirs| == |items|
    ensures forall i :: 0 <= i < |items| ==> dirs[i] == items[i].dir
  {
    seq(|items|, i requires 0 <= i < |items| => items[i].dir)
  }

  predicate NonIncreasing(items: seq<Tally>) {
    forall i, j :: 0 <= i < j < |items| ==> items[i].n >= items[j].n
  }

  /** `items` lists the entries of `m`: every key exactly once, each with its
      value. */
  predicate Lists(items: seq<Tally>, m: map<string, nat>) {
    && IsEnumeration(Dirs(items), m.Keys)
    && forall i :: 0 <= i < |items| ==> items[i].dir in m && items[i].n == m[items[i].dir]
  }

  /** `items` lists the entries of `m` by non-increasing value. */
  predicate Ranks(items: seq<Tally>, m: map<string, nat>) {
    Lists(items, m) && NonIncreasing(items)
  }

  /** Places `x` before the first entry whose count is not larger. */
  function Insert(x: Tally, sorted: seq<Tally>): (r: seq<Tally>)
    ensures multiset(r) == multiset(sorted) + multiset{x}
  {
    if sorted == [] || sorted[0].n <= x.n then [x] + sorted
    else
      assert sorted == [sorted[0]] + sorted[1..];
      [sorted[0]] + Insert(x, sorted[1..])
  }

  lemma {:induction false} InsertBound(x: Tally, sorted: seq<Tally>, bound: nat)
    requires x.n <= bound
    requires forall k :: 0 <= k < |sorted| ==> sorted[k].n <= bound
    ensures forall k :: 0 <= k < |Insert(x, sorted)| ==> Insert(x, sorted)[k].n <= bound
  {
    if sorted != [] && sorted[0].n > x.n {
      InsertBound(x, sorted[1..], bound);
    }
  }

  /** Inserting into a sorted sequence keeps it sorted. */
  lemma {:induction false} InsertSorted(x: Tally, sorted: seq<Tally>)
    requires NonIncreasing(sorted)
    ensures NonIncreasing(Insert(x, sorted))
  {
    if sorted != [] && sorted[0].n > x.n {
      InsertSorted(x, sorted[1..]);
      InsertBound(x, sorted[1..], sorted[0].n);
    }
  }

  /** Sorts by non-increasing count: the result is a permutation of the input
      and its counts never go up. */
  function SortByCount(items: seq<Tally>): (r: seq<Tally>)
    ensures multiset(r) == multiset(items)
    ensures NonIncreasing(r)
  {
    if items == [] then []
    else
      assert items == [items[0]] + items[1..];
      var rest := SortByCount(items[1..]);
      InsertSorted(items[0], rest);
      Insert(items[0], rest)
  }

  /** Sorting a listing of a map gives a ranking of the same map: still every
      key once with its value, now by non-increasing value. */
  lemma SortRanks(items: seq<Tally>, m: map<string, nat>)
    requires Lists(items, m)
    ensures Ranks(SortByCount(items), m)
  {
    var r := SortByCount(items);
    PermutationKeepsValues(items, r, m);
    PermutationKeepsKeys(items, r, m);
    PermutationKeepsNoDup(items, r, m);
  }

  lemma PermutationKeepsValues(items: seq<Tally>, r: seq<Tally>, m: map<string, nat>)
    requires multiset(items) == multiset(r)
    requires forall i :: 0 <= i < |items| ==> items[i].dir in m && items[i].n == m[items[i].dir]
    ensures forall i :: 0 <= i < |r| ==> r[i].dir in m && r[i].n == m[r[i].dir]
  {
    forall i | 0 <= i < |r|
      ensures r[i].dir in m && r[i].n == m[r[i].dir]
    {
      assert r[i] in multiset(items);
    }
  }

  lemma PermutationKeepsKeys(items: seq<Tally>, r: seq<Tally>, m: map<string, nat>)
    requires multiset(items) == multiset(r)
    requires Lists(items, m)
    requires forall i :: 0 <= i < |r| ==> r[i].dir in m && r[i].n == m[r[i].dir]
    ensures Elems(Dirs(r)) == m.Keys
  {
    forall k | k in m.Keys
      ensures k in Dirs(r)
    {
      assert k in Elems(Dirs(items));
      var i :| 0 <= i < |items| && items[i].dir == k;
      assert items[i] in multiset(r);
      var j :| 0 <= j < |r| && r[j] == items[i];
      assert Dirs(r)[j] == k;
    }
  }

  lemma PermutationKeepsNoDup(items: seq<Tally>, r: seq<Tally>, m: map<string, nat>)
    requires multiset(items) == multiset(r)
    requires Lists(items, m)
    requires forall i :: 0 <= i < |r| ==> r[i].dir in m && r[i].n == m[r[i].dir]
    ensures NoDup(Dirs(r))
  {
    assert NoDup(items) by {
      forall i, j | 0 <= i < j < |items|
        ensures items[i] != items[j]
      {
        assert Dirs(items)[i] != Dirs(items)[j];
      }
    }
    NoDupPermutation(items, r);
    forall i, j | 0 <= i < j < |r|
      ensures Dirs(r)[i] != Dirs(r)[j]
    {
      assert r[i] != r[j];
    }
  }
}
