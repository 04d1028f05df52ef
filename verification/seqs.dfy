/** Sequence vocabulary: element sets, duplicate-freedom, enumerations of a
    set, first-occurrence order and sums over a sequence of keys. */
module Seqs {

  function Elems<T>(s: seq<T>): set<T> {
    set x | x in s
  }

  predicate NoDup<T(==)>(s: seq<T>) {
    forall i, j :: 0 <= i < j < |s| ==> s[i] != s[j]
  }

  /** `s` lists every member of `S` exactly once (the order a dictionary's
      iteration produces its keys in, for instance). */
  predicate IsEnumeration<T(==)>(s: seq<T>, S: set<T>) {
    NoDup(s) && Elems(s) == S
  }

  lemma ElemsAppend<T>(a: seq<T>, b: seq<T>)
    ensures Elems(a + b) == Elems(a) + Elems(b)
  {
  }

  lemma SeqHeadTail<T>(s: seq<T>)
    requires s != []
    ensures [s[0]] + s[1..] == s
  {
  }

  lemma AppendAssoc<T>(a: seq<T>, b: seq<T>, c: seq<T>)
    ensures a + b + c == a + (b + c)
  {
  }

  /** Two duplicate-free sequences with no common value concatenate to a
      duplicate-free sequence. */
  lemma NoDupAppend<T>(a: seq<T>, b: seq<T>)
    requires NoDup(a) && NoDup(b)
    requires Elems(a) !! Elems(b)
    ensures NoDup(a + b)
  {
    forall i, j | 0 <= i < j < |a + b|
      ensures (a + b)[i] != (a + b)[j]
    {
      if i < |a| && j >= |a| {
        assert (a + b)[i] in Elems(a) && (a + b)[j] in Elems(b);
      }
    }
  }

  /** Dropping the first element keeps a sequence duplicate-free. */
  lemma NoDupTail<T>(s: seq<T>)
    requires NoDup(s) && s != []
    ensures NoDup(s[1..]) && s[0] !in s[1..]
  {
    forall i, j | 0 <= i < j < |s| - 1
      ensures s[1..][i] != s[1..][j]
    {
      assert s[i + 1] != s[j + 1];
    }
  }

  /** A duplicate-free sequence holds each value at most once. */
  lemma {:induction false} NoDupAtMostOnce<T>(s: seq<T>, x: T)
    requires NoDup(s)
    ensures multiset(s)[x] <= 1
  {
    if s != [] {
      assert s == [s[0]] + s[1..];
      NoDupAtMostOnce(s[1..], x);
      if x == s[0] {
        assert x !in s[1..];
      }
    }
  }

  /** Reordering a duplicate-free sequence leaves it duplicate-free. */
  lemma NoDupPermutation<T>(a: seq<T>, b: seq<T>)
    requires multiset(a) == multiset(b)
    requires NoDup(a)
    ensures NoDup(b)
  {
    forall i, j | 0 <= i < j < |b|
      ensures b[i] != b[j]
    {
      if b[i] == b[j] {
        var x := b[i];
        assert b == b[..j] + [x] + b[j + 1..];
        assert x in b[..j];
        assert multiset(b)[x] >= 2;
        NoDupAtMostOnce(a, x);
        assert false;
      }
    }
  }

  /** `n` copies of `x`. */
  function Copies<T>(x: T, n: nat): (s: seq<T>)
    ensures |s| == n
    ensures forall i :: 0 <= i < n ==> s[i] == x
  {
    seq(n, i => x)
  }

  lemma CopiesSucc<T>(x: T, n: nat)
    ensures [x] + Copies(x, n) == Copies(x, n + 1)
    ensures Copies(x, n) + [x] == Copies(x, n + 1)
  {
  }

  /** Scans `s` left to right and appends each value to `seen` the first time
      it occurs: the insertion order of a dictionary fed with `s`. */
  function FirstOccurrencesFrom<T(==)>(seen: seq<T>, s: seq<T>): (r: seq<T>)
    requires NoDup(seen)
    ensures NoDup(r)
    ensures Elems(r) == Elems(seen) + Elems(s)
    ensures |r| >= |seen| && r[..|seen|] == seen
    decreases |s|
  {
    if s == [] then seen
    else
      var next := if s[0] in seen then seen else seen + [s[0]];
      assert Elems(s) == {s[0]} + Elems(s[1..]);
      var r := FirstOccurrencesFrom(next, s[1..]);
      assert r[..|seen|] == r[..|next|][..|seen|];
      r
  }

  function FirstOccurrences<T(==)>(s: seq<T>): (r: seq<T>)
    ensures IsEnumeration(r, Elems(s))
  {
    FirstOccurrencesFrom([], s)
  }

  /** Sum of `w` over the keys, counting a key as often as it is listed. */
  function Sum<K>(keys: seq<K>, w: K -> nat): nat {
    if keys == [] then 0 else w(keys[0]) + Sum(keys[1..], w)
  }

  lemma {:induction false} SumAppend<K>(a: seq<K>, b: seq<K>, w: K -> nat)
    ensures Sum(a + b, w) == Sum(a, w) + Sum(b, w)
  {
    if a != [] {
      assert (a + b)[1..] == a[1..] + b;
      SumAppend(a[1..], b, w);
    } else {
      assert a + b == b;
    }
  }

  /** Two weights that agree on every key have the same sum. */
  lemma {:induction false} SumPointwise<K>(keys: seq<K>, v: K -> nat, w: K -> nat)
    requires forall k :: k in keys ==> v(k) == w(k)
    ensures Sum(keys, v) == Sum(keys, w)
  {
    if keys != [] {
      SumPointwise(keys[1..], v, w);
    }
  }

  /** Taking one key out of the list takes its weight out of the sum. */
  lemma SumRemove<K>(b: seq<K>, i: nat, w: K -> nat)
    requires i < |b|
    ensures Sum(b, w) == w(b[i]) + Sum(b[..i] + b[i + 1..], w)
  {
    assert b == b[..i] + b[i..];
    assert b[i..][1..] == b[i + 1..];
    SumAppend(b[..i], b[i..], w);
    SumAppend(b[..i], b[i + 1..], w);
  }

  /** Removing the same value from two permutations of each other leaves two
      permutations of each other. */
  lemma MultisetRemove<K>(a: seq<K>, b: seq<K>, i: nat)
    requires multiset(a) == multiset(b)
    requires a != [] && i < |b| && b[i] == a[0]
    ensures multiset(a[1..]) == multiset(b[..i] + b[i + 1..])
  {
    var k := a[0];
    assert a == [k] + a[1..];
    assert b == b[..i] + [k] + b[i + 1..];
    var rest := b[..i] + b[i + 1..];
    assert multiset(a) == multiset([k]) + multiset(a[1..]);
    assert multiset(b) == multiset(b[..i]) + multiset([k]) + multiset(b[i + 1..]);
    assert multiset(rest) == multiset(b[..i]) + multiset(b[i + 1..]);
    forall x
      ensures multiset(a[1..])[x] == multiset(rest)[x]
    {
      assert multiset(a)[x] == multiset([k])[x] + multiset(a[1..])[x];
      assert multiset(b)[x] == multiset(b[..i])[x] + multiset([k])[x] + multiset(b[i + 1..])[x];
    }
  }

  /** A sum does not depend on the order the keys are listed in. */
  lemma {:induction false} SumPermutation<K>(a: seq<K>, b: seq<K>, w: K -> nat)
    requires multiset(a) == multiset(b)
    ensures Sum(a, w) == Sum(b, w)
    decreases |a|
  {
    if a == [] {
      assert |b| == |multiset(b)| == 0;
    } else {
      assert a[0] in multiset(b);
      var i :| 0 <= i < |b| && b[i] == a[0];
      MultisetRemove(a, b, i);
      SumPermutation(a[1..], b[..i] + b[i + 1..], w);
      SumRemove(b, i, w);
    }
  }

  /** An element listed twice occurs twice. */
  lemma TwiceCounted<T>(x: T)
    ensures multiset([x, x])[x] == 2
  {
  }

  lemma CopiesTwo<T>(x: T)
    ensures Copies(x, 2) == [x, x]
  {
  }

  /** A map with a single key is the one-entry display of that key. */
  lemma SingletonMap<K, V>(m: map<K, V>, k: K, v: V)
    requires m.Keys == {k} && m[k] == v
    ensures m == map[k := v]
  {
  }
}
