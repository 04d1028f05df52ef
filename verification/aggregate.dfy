/** Aggregation of the catalog (find.py, the loops of `write_to_output`):
    which names are duplicated, how often each directory takes part in a
    duplicated name, and how many duplicated files each pair of directories
    has in common.

    Dictionary iteration order is not fixed by the program, so the names are
    visited in an order given as a parameter; the results are then shown not
    to depend on it. */
module Aggregate {
  import opened Text
  import opened Seqs
  import opened Catalog

  /** Only a name whose list has more than one entry is reported and counted.
      The list may repeat one directory, so this does not require two
      distinct directories. */
  predicate HasDuplicates(cat: Catalog, name: string) {
    name in cat && |cat[name]| > 1
  }

  /** The reported part of the catalog. */
  function Duplicates(cat: Catalog): (dups: Catalog)
    ensures forall name :: name in dups <==> HasDuplicates(cat, name)
    ensures forall name :: name in dups ==> name in cat && dups[name] == cat[name]
  {
    map name | name in cat && |cat[name]| > 1 :: cat[name]
  }

  // ---- reference definitions ------------------------------------------------

  /** How often `dir` occurs in the list of `name`, counting only a reported
      name. */
  function Weight(cat: Catalog, name: string, dir: string): nat {
    if HasDuplicates(cat, name) then multiset(cat[name])[dir] else 0
  }

  /** The number of occurrences of `dir` across the lists of the reported
      names among `names`. */
  function Occurrences(cat: Catalog, names: seq<string>, dir: string): nat {
    Sum(names, name => Weight(cat, name, dir))
  }

  /** For each reported name, every occurrence of `a` in its list pairs with
      every occurrence of `b`: the sum over the names of the product of the
      two multiplicities. */
  function Shared(cat: Catalog, names: seq<string>, a: string, b: string): nat {
    Sum(names, name => Weight(cat, name, a) * Weight(cat, name, b))
  }

  /** The lists of the reported names among `names`, concatenated in order. */
  function DupeDirs(cat: Catalog, names: seq<string>): seq<string> {
    if names == [] then []
    else (if HasDuplicates(cat, names[0]) then cat[names[0]] else []) + DupeDirs(cat, names[1..])
  }

  /** Every directory of the reported lists comes from the catalog, so it is
      free of tabs and newlines when the catalog is. */
  lemma {:induction false} DupeDirsPlain(cat: Catalog, names: seq<string>)
    requires Plain(cat)
    ensures forall i :: 0 <= i < |DupeDirs(cat, names)| ==> IsField(DupeDirs(cat, names)[i])
  {
    if names != [] {
      DupeDirsPlain(cat, names[1..]);
      var first := if HasDuplicates(cat, names[0]) then cat[names[0]] else [];
      var rest := DupeDirs(cat, names[1..]);
      assert DupeDirs(cat, names) == first + rest;
      forall i | 0 <= i < |first + rest|
        ensures IsField((first + rest)[i])
      {
        if i >= |first| {
          assert (first + rest)[i] == rest[i - |first|];
        }
      }
    }
  }

  lemma OccurrencesStep(cat: Catalog, names: seq<string>, dir: string)
    requires names != []
    ensures Occurrences(cat, names, dir) == Weight(cat, names[0], dir) + Occurrences(cat, names[1..], dir)
  {
  }

  lemma SharedStep(cat: Catalog, names: seq<string>, a: string, b: string)
    requires names != []
    ensures Shared(cat, names, a, b) == Weight(cat, names[0], a) * Weight(cat, names[0], b) + Shared(cat, names[1..], a, b)
  {
  }

  // ---- the tables the loops fill ---------------------------------------------

  /** `dirpaths_with_dupes_counts` and `dirpaths_to_paths_with_common_files`. */
  datatype Tables = Tables(counts: map<string, nat>, common: map<string, map<string, nat>>)

  /** A count as read from a `defaultdict(int)`: zero when absent. */
  function Count(counts: map<string, nat>, dir: string): nat {
    if dir in counts then counts[dir] else 0
  }

  /** The partners of `a` as read from the nested `defaultdict`. */
  function Row(common: map<string, map<string, nat>>, a: string): map<string, nat> {
    if a in common then common[a] else map[]
  }

  /** The entry for the pair `(a, b)`: zero when absent. */
  function Common(common: map<string, map<string, nat>>, a: string, b: string): nat {
    Count(Row(common, a), b)
  }

  /** No directory is paired with itself, and every stored entry is positive. */
  predicate Consistent(common: map<string, map<string, nat>>) {
    forall a, b :: a in common && b in common[a] ==> a != b && common[a][b] > 0
  }

  /** Every directory stored in the matrix, on either side, belongs to `dirs`. */
  predicate Within(common: map<string, map<string, nat>>, dirs: set<string>) {
    forall a :: a in common ==> a in dirs && common[a].Keys <= dirs
  }

  /** `dirpaths_with_dupes_counts[dirpath] += 1` */
  function IncCount(counts: map<string, nat>, dir: string): map<string, nat> {
    counts[dir := Count(counts, dir) + 1]
  }

  /** `dirpaths_to_paths_with_common_files[a][b] += 1` */
  function IncCommon(common: map<string, map<string, nat>>, a: string, b: string): map<string, map<string, nat>> {
    common[a := Row(common, a)[b := Common(common, a, b) + 1]]
  }

  /** The innermost loop for one `dirpath` = `a`: every entry of the list
      other than `a` itself adds one to the pair (a, entry). */
  function VisitPartners(common: map<string, map<string, nat>>, a: string, paths: seq<string>): map<string, map<string, nat>>
    decreases |paths|
  {
    if paths == [] then common
    else VisitPartners(if a == paths[0] then common else IncCommon(common, a, paths[0]), a, paths[1..])
  }

  /** The loop over the entries `rest` of one reported list `paths`: each
      entry's count goes up by one and its partners within `paths` are
      visited. */
  function VisitDirs(t: Tables, rest: seq<string>, paths: seq<string>): Tables
    decreases |rest|
  {
    if rest == [] then t
    else VisitDirs(Tables(IncCount(t.counts, rest[0]), VisitPartners(t.common, rest[0], paths)), rest[1..], paths)
  }

  /** The loop over the catalog's names: only a reported name's list is
      visited. */
  function VisitNames(t: Tables, cat: Catalog, names: seq<string>): Tables
    decreases |names|
  {
    if names == [] then t
    else VisitNames(if HasDuplicates(cat, names[0]) then VisitDirs(t, cat[names[0]], cat[names[0]]) else t, cat, names[1..])
  }

  /** The two tables `write_to_output` fills, starting empty. */
  function Tabulate(cat: Catalog, names: seq<string>): Tables {
    VisitNames(Tables(map[], map[]), cat, names)
  }

  // ---- what the loops compute -----------------------------------------------

  lemma {:induction false} VisitPartnersCommon(common: map<string, map<string, nat>>, a: string, paths: seq<string>, x: string, y: string)
    ensures Common(VisitPartners(common, a, paths), x, y)
         == Common(common, x, y) + (if x == a && y != a then multiset(paths)[y] else 0)
    decreases |paths|
  {
    if paths != [] {
      var next := if a == paths[0] then common else IncCommon(common, a, paths[0]);
      VisitPartnersCommon(next, a, paths[1..], x, y);
      assert paths == [paths[0]] + paths[1..];
    }
  }

  lemma IncCommonShape(common: map<string, map<string, nat>>, a: string, b: string, dirs: set<string>)
    requires a != b
    ensures Consistent(common) ==> Consistent(IncCommon(common, a, b))
    ensures Within(common, dirs) && a in dirs && b in dirs ==> Within(IncCommon(common, a, b), dirs)
  {
    var r := IncCommon(common, a, b);
    forall x, y | x in r && y in r[x]
      ensures (x in common && y in common[x] && r[x][y] == common[x][y]) || (x == a && y == b && r[x][y] > 0)
    {
      if x != a {
        assert r[x] == common[x];
      } else if y != b {
        assert r[a] == Row(common, a)[b := Common(common, a, b) + 1];
        assert y in Row(common, a);
      }
    }
    if Within(common, dirs) && a in dirs && b in dirs {
      forall x, y | x in r && y in r[x]
        ensures x in dirs && y in dirs
      {
        if x != a || y != b {
          assert x in common && y in common[x];
        }
      }
    }
  }

  lemma {:induction false} VisitPartnersShape(common: map<string, map<string, nat>>, a: string, paths: seq<string>, dirs: set<string>)
    ensures Consistent(common) ==> Consistent(VisitPartners(common, a, paths))
    ensures Within(common, dirs) && a in dirs && Elems(paths) <= dirs ==> Within(VisitPartners(common, a, paths), dirs)
    decreases |paths|
  {
    if paths != [] {
      var next := if a == paths[0] then common else IncCommon(common, a, paths[0]);
      assert paths[0] in Elems(paths) && Elems(paths[1..]) <= Elems(paths);
      if a != paths[0] {
        IncCommonShape(common, a, paths[0], dirs);
      }
      VisitPartnersShape(next, a, paths[1..], dirs);
    }
  }

  lemma {:induction false} VisitDirsCount(t: Tables, rest: seq<string>, paths: seq<string>, dir: string)
    ensures Count(VisitDirs(t, rest, paths).counts, dir) == Count(t.counts, dir) + multiset(rest)[dir]
    ensures VisitDirs(t, rest, paths).counts.Keys == t.counts.Keys + Elems(rest)
    decreases |rest|
  {
    if rest != [] {
      var next := Tables(IncCount(t.counts, rest[0]), VisitPartners(t.common, rest[0], paths));
      VisitDirsCount(next, rest[1..], paths, dir);
      assert rest == [rest[0]] + rest[1..];
      ElemsAppend([rest[0]], rest[1..]);
    }
  }

  lemma {:induction false} VisitDirsCommon(t: Tables, rest: seq<string>, paths: seq<string>, x: string, y: string)
    ensures Common(VisitDirs(t, rest, paths).common, x, y)
         == Common(t.common, x, y) + (if x != y then multiset(rest)[x] * multiset(paths)[y] else 0)
    decreases |rest|
  {
    if rest != [] {
      var a := rest[0];
      var next := Tables(IncCount(t.counts, a), VisitPartners(t.common, a, paths));
      VisitPartnersCommon(t.common, a, paths, x, y);
      VisitDirsCommon(next, rest[1..], paths, x, y);
      assert VisitDirs(t, rest, paths) == VisitDirs(next, rest[1..], paths);
      assert rest == [a] + rest[1..];
      var m := multiset(rest[1..])[x];
      var p := multiset(paths)[y];
      if x != y && x == a {
        assert multiset(rest)[x] == m + 1;
        MulSucc(m, p);
      } else if x != y {
        assert multiset(rest)[x] == m;
      }
    }
  }

  lemma MulSucc(m: nat, p: nat)
    ensures (m + 1) * p == m * p + p
  {
  }

  lemma {:induction false} VisitDirsShape(t: Tables, rest: seq<string>, paths: seq<string>, dirs: set<string>)
    ensures Consistent(t.common) ==> Consistent(VisitDirs(t, rest, paths).common)
    ensures Within(t.common, dirs) && Elems(rest) <= dirs && Elems(paths) <= dirs ==> Within(VisitDirs(t, rest, paths).common, dirs)
    decreases |rest|
  {
    if rest != [] {
      var next := Tables(IncCount(t.counts, rest[0]), VisitPartners(t.common, rest[0], paths));
      VisitPartnersShape(t.common, rest[0], paths, dirs);
      VisitDirsShape(next, rest[1..], paths, dirs);
    }
  }

  lemma {:induction false} VisitNamesCount(t: Tables, cat: Catalog, names: seq<string>, dir: string)
    ensures Count(VisitNames(t, cat, names).counts, dir) == Count(t.counts, dir) + Occurrences(cat, names, dir)
    ensures VisitNames(t, cat, names).counts.Keys == t.counts.Keys + Elems(DupeDirs(cat, names))
    decreases |names|
  {
    if names != [] {
      var name := names[0];
      var next := if HasDuplicates(cat, name) then VisitDirs(t, cat[name], cat[name]) else t;
      if HasDuplicates(cat, name) {
        VisitDirsCount(t, cat[name], cat[name], dir);
      }
      VisitNamesCount(next, cat, names[1..], dir);
      OccurrencesStep(cat, names, dir);
      ElemsAppend(if HasDuplicates(cat, name) then cat[name] else [], DupeDirs(cat, names[1..]));
    }
  }

  lemma {:induction false} VisitNamesCommon(t: Tables, cat: Catalog, names: seq<string>, x: string, y: string)
    ensures Common(VisitNames(t, cat, names).common, x, y)
         == Common(t.common, x, y) + (if x != y then Shared(cat, names, x, y) else 0)
    decreases |names|
  {
    if names != [] {
      var name := names[0];
      var next := if HasDuplicates(cat, name) then VisitDirs(t, cat[name], cat[name]) else t;
      if HasDuplicates(cat, name) {
        VisitDirsCommon(t, cat[name], cat[name], x, y);
      }
      VisitNamesCommon(next, cat, names[1..], x, y);
      SharedStep(cat, names, x, y);
    }
  }

  lemma {:induction false} VisitNamesShape(t: Tables, cat: Catalog, names: seq<string>, dirs: set<string>)
    ensures Consistent(t.common) ==> Consistent(VisitNames(t, cat, names).common)
    ensures Within(t.common, dirs) && Elems(DupeDirs(cat, names)) <= dirs ==> Within(VisitNames(t, cat, names).common, dirs)
    decreases |names|
  {
    if names != [] {
      var name := names[0];
      var next := if HasDuplicates(cat, name) then VisitDirs(t, cat[name], cat[name]) else t;
      if HasDuplicates(cat, name) {
        VisitDirsShape(t, cat[name], cat[name], dirs);
      }
      VisitNamesShape(next, cat, names[1..], dirs);
      ElemsAppend(if HasDuplicates(cat, name) then cat[name] else [], DupeDirs(cat, names[1..]));
    }
  }

  // ---- the aggregation's guarantees -------------------------------------------

  /** A directory's dupe count is the number of its occurrences across the
      lists of the reported names, and a directory has a count exactly when it
      occurs in one of those lists. */
  lemma AggregateCounts(cat: Catalog, names: seq<string>, dir: string)
    ensures Count(Tabulate(cat, names).counts, dir) == Occurrences(cat, names, dir)
    ensures Tabulate(cat, names).counts.Keys == Elems(DupeDirs(cat, names))
  {
    VisitNamesCount(Tables(map[], map[]), cat, names, dir);
  }

  /** The entry for a pair of distinct directories is the number of
      (occurrence of a, occurrence of b) pairs over the reported lists; the
      diagonal is always zero. */
  lemma AggregateCommon(cat: Catalog, names: seq<string>, a: string, b: string)
    ensures Common(Tabulate(cat, names).common, a, b) == if a == b then 0 else Shared(cat, names, a, b)
  {
    VisitNamesCommon(Tables(map[], map[]), cat, names, a, b);
  }

  /** The matrix never stores a directory against itself, stores only positive
      entries, and only pairs directories that have a count. */
  lemma AggregateShape(cat: Catalog, names: seq<string>)
    ensures Consistent(Tabulate(cat, names).common)
    ensures Within(Tabulate(cat, names).common, Tabulate(cat, names).counts.Keys)
  {
    var dirs := Elems(DupeDirs(cat, names));
    VisitNamesShape(Tables(map[], map[]), cat, names, dirs);
    AggregateCounts(cat, names, "");
  }

  /** The matrix is symmetric: (a, b) and (b, a) hold the same number. */
  lemma CommonSymmetric(cat: Catalog, names: seq<string>, a: string, b: string)
    ensures Common(Tabulate(cat, names).common, a, b) == Common(Tabulate(cat, names).common, b, a)
  {
    AggregateCommon(cat, names, a, b);
    AggregateCommon(cat, names, b, a);
    SumPointwise(names, name => Weight(cat, name, a) * Weight(cat, name, b),
                        name => Weight(cat, name, b) * Weight(cat, name, a));
  }

  /** The count as the definition states it: a directory's occurrences across
      the reported lists are its multiplicity in their concatenation. */
  lemma {:induction false} OccurrencesAreMultiplicity(cat: Catalog, names: seq<string>, dir: string)
    ensures Occurrences(cat, names, dir) == multiset(DupeDirs(cat, names))[dir]
  {
    if names != [] {
      OccurrencesStep(cat, names, dir);
      OccurrencesAreMultiplicity(cat, names[1..], dir);
    }
  }

  /** A name listed once contributes nothing: aggregating the whole catalog
      and aggregating only its reported part give the same tables. */
  lemma {:induction false} SingletonsIgnored(cat: Catalog, names: seq<string>)
    ensures Tabulate(cat, names) == Tabulate(Duplicates(cat), names)
  {
    VisitNamesAgree(Tables(map[], map[]), cat, names);
  }

  lemma {:induction false} VisitNamesAgree(t: Tables, cat: Catalog, names: seq<string>)
    ensures VisitNames(t, cat, names) == VisitNames(t, Duplicates(cat), names)
    decreases |names|
  {
    if names != [] {
      var name := names[0];
      assert HasDuplicates(cat, name) <==> HasDuplicates(Duplicates(cat), name);
      var next := if HasDuplicates(cat, name) then VisitDirs(t, cat[name], cat[name]) else t;
      VisitNamesAgree(next, cat, names[1..]);
    }
  }

  /** The tables do not depend on the order the names are visited in: any two
      orders listing the same names give the same count for every directory
      and the same entry for every pair. */
  lemma OrderIndependent(cat: Catalog, names1: seq<string>, names2: seq<string>, a: string, b: string)
    requires multiset(names1) == multiset(names2)
    ensures Count(Tabulate(cat, names1).counts, a) == Count(Tabulate(cat, names2).counts, a)
    ensures Common(Tabulate(cat, names1).common, a, b) == Common(Tabulate(cat, names2).common, a, b)
  {
    CountsOrderIndependent(cat, names1, names2, a);
    CommonOrderIndependent(cat, names1, names2, a, b);
  }

  lemma CountsOrderIndependent(cat: Catalog, names1: seq<string>, names2: seq<string>, a: string)
    requires multiset(names1) == multiset(names2)
    ensures Count(Tabulate(cat, names1).counts, a) == Count(Tabulate(cat, names2).counts, a)
  {
    AggregateCounts(cat, names1, a);
    AggregateCounts(cat, names2, a);
    SumPermutation(names1, names2, name => Weight(cat, name, a));
  }

  lemma CommonOrderIndependent(cat: Catalog, names1: seq<string>, names2: seq<string>, a: string, b: string)
    requires multiset(names1) == multiset(names2)
    ensures Common(Tabulate(cat, names1).common, a, b) == Common(Tabulate(cat, names2).common, a, b)
  {
    AggregateCommon(cat, names1, a, b);
    AggregateCommon(cat, names2, a, b);
    SumPermutation(names1, names2, name => Weight(cat, name, a) * Weight(cat, name, b));
  }

  // ---- the tables as maps -----------------------------------------------------

  /** The dupe count every directory should get: its occurrences across the
      reported lists, for each directory occurring in one. */
  function DupeCounts(cat: Catalog, names: seq<string>): map<string, nat> {
    map dir | dir in Elems(DupeDirs(cat, names)) :: Occurrences(cat, names, dir)
  }

  /** The partners `a` should get: every other directory with which it shares
      at least one duplicated file, with the number shared. */
  function Partners(cat: Catalog, names: seq<string>, a: string): map<string, nat> {
    map b | b in Elems(DupeDirs(cat, names)) && b != a && Shared(cat, names, a, b) > 0 :: Shared(cat, names, a, b)
  }

  /** The count table is exactly the reference count map. */
  lemma CountsMatch(cat: Catalog, names: seq<string>)
    ensures Tabulate(cat, names).counts == DupeCounts(cat, names)
  {
    var counts := Tabulate(cat, names).counts;
    AggregateCounts(cat, names, "");
    forall dir | dir in counts
      ensures counts[dir] == DupeCounts(cat, names)[dir]
    {
      AggregateCounts(cat, names, dir);
    }
  }

  /** The row of every directory in the matrix is exactly its reference
      partner map. */
  lemma RowMatches(cat: Catalog, names: seq<string>, a: string)
    ensures Row(Tabulate(cat, names).common, a) == Partners(cat, names, a)
  {
    var t := Tabulate(cat, names);
    var row := Row(t.common, a);
    var spec := Partners(cat, names, a);
    AggregateShape(cat, names);
    AggregateCounts(cat, names, a);
    forall b | b in row
      ensures b in spec && row[b] == spec[b]
    {
      AggregateCommon(cat, names, a, b);
      assert a in t.common && b in t.common[a];
    }
    forall b | b in spec
      ensures b in row
    {
      AggregateCommon(cat, names, a, b);
    }
  }
}
