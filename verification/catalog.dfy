/** The catalog: for every file name met during the walk of the folder
    arguments, the directories it was met in (find.py, `get_all_files_in_dir`
    and the folder loop of `main`).

    The walk itself is an input: for each folder argument, the sequence of
    `(root, files)` pairs `os.walk` would produce, in the order it would
    produce them. */
module Catalog {
  import opened Wrappers
  import opened Text
  import opened Seqs

  /** One directory reported by the walk: its path and the names of the files
      directly inside it. The walk's list of sub-directories plays no part in
      the catalog. */
  datatype WalkStep = WalkStep(root: string, files: seq<string>)

  /** The walk of one folder argument. */
  type Walk = seq<WalkStep>

  /** Lower-cased file name -> lower-cased directory of every accepted file
      with that name, in discovery order. This is a list, not a set: the same
      directory appears twice when two names fold to the same key or when a
      folder is walked twice. */
  type Catalog = map<string, seq<string>>

  /** The list stored under `name`; a name never met reads as the empty list,
      as a `defaultdict(list)` does. */
  function Lookup(cat: Catalog, name: string): seq<string> {
    if name in cat then cat[name] else []
  }

  /** What accumulation keeps true: a name is stored only with a non-empty
      list, and names and directories are lower-cased. */
  predicate Valid(cat: Catalog) {
    forall name :: name in cat ==>
      && cat[name] != []
      && IsLower(name)
      && forall i :: 0 <= i < |cat[name]| ==> IsLower(cat[name][i])
  }

  /** No name and no directory of the catalog holds a tab or a newline: the
      characters the report uses to separate fields and lines. */
  predicate Plain(cat: Catalog) {
    forall name :: name in cat ==>
      && IsField(name)
      && forall i :: 0 <= i < |cat[name]| ==> IsField(cat[name][i])
  }

  /** The extension filter in effect: none when the extension list is empty,
      otherwise the set of the given extensions lower-cased. */
  function ExtensionFilter(extensions: seq<string>): (filter: Option<set<string>>)
    ensures filter.None? <==> extensions == []
    ensures filter.Some? ==> forall e :: e in filter.value ==> IsLower(e)
  {
    if extensions == [] then None else Some(set e | e in extensions :: Lower(e))
  }

  /** Whether a file passes the filter. The file's extension is compared as it
      is written: it is not lower-cased. */
  predicate Accepts(filter: Option<set<string>>, name: string) {
    match filter
    case None => true
    case Some(allowed) => Extension(name) in allowed
  }

  /** A file passes exactly when no extension was given or its extension
      equals the lower-cased form of one of the given extensions. */
  lemma AcceptsExactly(extensions: seq<string>, name: string)
    ensures Accepts(ExtensionFilter(extensions), name)
        <==> extensions == [] || exists e :: e in extensions && Lower(e) == Extension(name)
  {
  }

  /** Since only the filter is lower-cased, a file whose extension holds an
      upper-case letter never passes a non-empty filter, whatever the filter
      says: "photo.JPG" is skipped even with `--extensions JPG`. */
  lemma UpperCaseExtensionRejected(extensions: seq<string>, name: string)
    requires extensions != []
    requires !IsLower(Extension(name))
    ensures !Accepts(ExtensionFilter(extensions), name)
  {
  }

  /** The folded names of the accepted files among `names`, in order. */
  function AcceptedKeys(filter: Option<set<string>>, names: seq<string>): seq<string> {
    if names == [] then []
    else (if Accepts(filter, names[0]) then [Lower(names[0])] else []) + AcceptedKeys(filter, names[1..])
  }

  /** The number of accepted files among `names` whose name folds to `key`. */
  function Matches(filter: Option<set<string>>, names: seq<string>, key: string): nat {
    multiset(AcceptedKeys(filter, names))[key]
  }

  /** Records one file (the body of the inner loop). An accepted file appends
      its folded directory to the list under its folded name; no other list
      changes, and a rejected file changes nothing. */
  function AddFile(cat: Catalog, filter: Option<set<string>>, root: string, name: string): (r: Catalog)
    ensures r.Keys == cat.Keys + (if Accepts(filter, name) then {Lower(name)} else {})
    ensures Valid(cat) ==> Valid(r)
  {
    if Accepts(filter, name) then
      var key := Lower(name);
      cat[key := Lookup(cat, key) + [Lower(root)]]
    else
      cat
  }

  /** An accepted file appends its folded directory to the list under its
      folded name; no other list changes, and a rejected file changes
      nothing. */
  lemma AddFileLookup(cat: Catalog, filter: Option<set<string>>, root: string, name: string, key: string)
    ensures Lookup(AddFile(cat, filter, root, name), key)
         == Lookup(cat, key) + (if Accepts(filter, name) && key == Lower(name) then [Lower(root)] else [])
  {
  }

  /** Records the files of one directory in listed order (the inner loop). */
  function AddFiles(cat: Catalog, filter: Option<set<string>>, root: string, names: seq<string>): Catalog
    decreases |names|
  {
    if names == [] then cat else AddFiles(AddFile(cat, filter, root, names[0]), filter, root, names[1..])
  }

  /** The directories one walk contributes under `key`, in walk order. */
  function WalkContribution(filter: Option<set<string>>, walk: Walk, key: string): seq<string> {
    if walk == [] then []
    else Copies(Lower(walk[0].root), Matches(filter, walk[0].files, key)) + WalkContribution(filter, walk[1..], key)
  }

  /** The folded names of the accepted files of one walk, in walk order. */
  function WalkKeys(filter: Option<set<string>>, walk: Walk): seq<string> {
    if walk == [] then [] else AcceptedKeys(filter, walk[0].files) + WalkKeys(filter, walk[1..])
  }

  /** Records every directory of one walk, in walk order (the outer loop). */
  function AddWalk(cat: Catalog, filter: Option<set<string>>, walk: Walk): Catalog
    decreases |walk|
  {
    if walk == [] then cat else AddWalk(AddFiles(cat, filter, walk[0].root, walk[0].files), filter, walk[1..])
  }

  /** `get_all_files_in_dir`: adds one folder argument's files to the catalog. */
  function GetAllFilesInDir(cat: Catalog, extensions: seq<string>, walk: Walk): Catalog {
    AddWalk(cat, ExtensionFilter(extensions), walk)
  }

  /** The directories all walks contribute under `key`: the per-folder
      contributions concatenated in folder-argument order. */
  function Contribution(filter: Option<set<string>>, walks: seq<Walk>, key: string): seq<string> {
    if walks == [] then [] else WalkContribution(filter, walks[0], key) + Contribution(filter, walks[1..], key)
  }

  /** The folded names of all accepted files, in folder order then walk order. */
  function AllKeys(filter: Option<set<string>>, walks: seq<Walk>): seq<string> {
    if walks == [] then [] else WalkKeys(filter, walks[0]) + AllKeys(filter, walks[1..])
  }

  /** The folder loop of `main`: one `get_all_files_in_dir` per folder
      argument, in argument order. */
  function AddWalks(cat: Catalog, extensions: seq<string>, walks: seq<Walk>): Catalog
    decreases |walks|
  {
    if walks == [] then cat else AddWalks(GetAllFilesInDir(cat, extensions, walks[0]), extensions, walks[1..])
  }

  /** The catalog `main` builds, starting from an empty dictionary. */
  function BuildCatalog(walks: seq<Walk>, extensions: seq<string>): Catalog {
    AddWalks(map[], extensions, walks)
  }

  // ---- what the loops compute -----------------------------------------------

  /** The files of one directory extend the list under each key by the folded
      directory, once per accepted file of that key, and change nothing else. */
  lemma {:induction false} AddFilesLookup(cat: Catalog, filter: Option<set<string>>, root: string, names: seq<string>, key: string)
    ensures Lookup(AddFiles(cat, filter, root, names), key)
         == Lookup(cat, key) + Copies(Lower(root), Matches(filter, names, key))
    decreases |names|
  {
    if names != [] {
      var next := AddFile(cat, filter, root, names[0]);
      AddFilesLookup(next, filter, root, names[1..], key);
      MatchesStep(filter, names, key);
      AddFileLookup(cat, filter, root, names[0], key);
      assert AddFiles(cat, filter, root, names) == AddFiles(next, filter, root, names[1..]);
      if Accepts(filter, names[0]) && key == Lower(names[0]) {
        AppendCopy(Lookup(cat, key), Lower(root), Matches(filter, names[1..], key));
      }
    }
  }

  lemma AppendCopy(prefix: seq<string>, dir: string, m: nat)
    ensures prefix + [dir] + Copies(dir, m) == prefix + Copies(dir, m + 1)
  {
    CopiesSucc(dir, m);
    assert prefix + [dir] + Copies(dir, m) == prefix + ([dir] + Copies(dir, m));
  }

  /** The first file adds one match for its folded name when it passes the
      filter, and none otherwise. */
  lemma MatchesStep(filter: Option<set<string>>, names: seq<string>, key: string)
    requires names != []
    ensures Matches(filter, names, key)
         == Matches(filter, names[1..], key) + (if Accepts(filter, names[0]) && key == Lower(names[0]) then 1 else 0)
  {
    var head := if Accepts(filter, names[0]) then [Lower(names[0])] else [];
    assert AcceptedKeys(filter, names) == head + AcceptedKeys(filter, names[1..]);
    assert multiset(head + AcceptedKeys(filter, names[1..])) == multiset(head) + multiset(AcceptedKeys(filter, names[1..]));
  }

  lemma {:induction false} AddFilesKeys(cat: Catalog, filter: Option<set<string>>, root: string, names: seq<string>)
    ensures AddFiles(cat, filter, root, names).Keys == cat.Keys + Elems(AcceptedKeys(filter, names))
    ensures Valid(cat) ==> Valid(AddFiles(cat, filter, root, names))
    decreases |names|
  {
    if names != [] {
      AddFilesKeys(AddFile(cat, filter, root, names[0]), filter, root, names[1..]);
      assert AddFiles(cat, filter, root, names) == AddFiles(AddFile(cat, filter, root, names[0]), filter, root, names[1..]);
      ElemsAppend(if Accepts(filter, names[0]) then [Lower(names[0])] else [], AcceptedKeys(filter, names[1..]));
    }
  }

  lemma {:induction false} AddWalkLookup(cat: Catalog, filter: Option<set<string>>, walk: Walk, key: string)
    ensures Lookup(AddWalk(cat, filter, walk), key) == Lookup(cat, key) + WalkContribution(filter, walk, key)
    decreases |walk|
  {
    if walk != [] {
      var next := AddFiles(cat, filter, walk[0].root, walk[0].files);
      AddFilesLookup(cat, filter, walk[0].root, walk[0].files, key);
      AddWalkLookup(next, filter, walk[1..], key);
      AppendAssoc(Lookup(cat, key), Copies(Lower(walk[0].root), Matches(filter, walk[0].files, key)), WalkContribution(filter, walk[1..], key));
    }
  }

  lemma {:induction false} AddWalkKeys(cat: Catalog, filter: Option<set<string>>, walk: Walk)
    ensures AddWalk(cat, filter, walk).Keys == cat.Keys + Elems(WalkKeys(filter, walk))
    ensures Valid(cat) ==> Valid(AddWalk(cat, filter, walk))
    decreases |walk|
  {
    if walk != [] {
      var next := AddFiles(cat, filter, walk[0].root, walk[0].files);
      AddFilesKeys(cat, filter, walk[0].root, walk[0].files);
      AddWalkKeys(next, filter, walk[1..]);
      assert AddWalk(cat, filter, walk) == AddWalk(next, filter, walk[1..]);
      ElemsAppend(AcceptedKeys(filter, walk[0].files), WalkKeys(filter, walk[1..]));
    }
  }

  /** `get_all_files_in_dir` extends every key's list at its end by that
      folder's contribution; keys the folder does not contribute to keep
      their list, and the catalog stays lower-cased with no empty list. */
  lemma GetAllFilesInDirSpec(cat: Catalog, extensions: seq<string>, walk: Walk, key: string)
    ensures Lookup(GetAllFilesInDir(cat, extensions, walk), key)
         == Lookup(cat, key) + WalkContribution(ExtensionFilter(extensions), walk, key)
    ensures GetAllFilesInDir(cat, extensions, walk).Keys
         == cat.Keys + Elems(WalkKeys(ExtensionFilter(extensions), walk))
    ensures Valid(cat) ==> Valid(GetAllFilesInDir(cat, extensions, walk))
  {
    AddWalkLookup(cat, ExtensionFilter(extensions), walk, key);
    AddWalkKeys(cat, ExtensionFilter(extensions), walk);
  }

  lemma {:induction false} AddWalksLookup(cat: Catalog, extensions: seq<string>, walks: seq<Walk>, key: string)
    ensures Lookup(AddWalks(cat, extensions, walks), key)
         == Lookup(cat, key) + Contribution(ExtensionFilter(extensions), walks, key)
    decreases |walks|
  {
    if walks != [] {
      var filter := ExtensionFilter(extensions);
      var next := GetAllFilesInDir(cat, extensions, walks[0]);
      AddWalkLookup(cat, filter, walks[0], key);
      AddWalksLookup(next, extensions, walks[1..], key);
      AppendAssoc(Lookup(cat, key), WalkContribution(filter, walks[0], key), Contribution(filter, walks[1..], key));
    }
  }

  lemma {:induction false} AddWalksKeys(cat: Catalog, extensions: seq<string>, walks: seq<Walk>)
    ensures AddWalks(cat, extensions, walks).Keys == cat.Keys + Elems(AllKeys(ExtensionFilter(extensions), walks))
    ensures Valid(cat) ==> Valid(AddWalks(cat, extensions, walks))
    decreases |walks|
  {
    if walks != [] {
      var filter := ExtensionFilter(extensions);
      var next := GetAllFilesInDir(cat, extensions, walks[0]);
      AddWalkKeys(cat, filter, walks[0]);
      AddWalksKeys(next, extensions, walks[1..]);
      assert AddWalks(cat, extensions, walks) == AddWalks(next, extensions, walks[1..]);
      ElemsAppend(WalkKeys(filter, walks[0]), AllKeys(filter, walks[1..]));
    }
  }

  /** The folder loop, from any starting catalog, appends each folder's
      contribution in argument order and adds the folded accepted names to
      the keys. */
  lemma AddWalksSpec(cat: Catalog, extensions: seq<string>, walks: seq<Walk>, key: string)
    ensures Lookup(AddWalks(cat, extensions, walks), key)
         == Lookup(cat, key) + Contribution(ExtensionFilter(extensions), walks, key)
    ensures AddWalks(cat, extensions, walks).Keys == cat.Keys + Elems(AllKeys(ExtensionFilter(extensions), walks))
    ensures Valid(cat) ==> Valid(AddWalks(cat, extensions, walks))
  {
    AddWalksLookup(cat, extensions, walks, key);
    AddWalksKeys(cat, extensions, walks);
  }

  /** The catalog after all folders: under every key, the per-folder
      contributions in folder-argument order, each in walk order; its keys
      are exactly the folded names of the accepted files; it is lower-cased
      and holds no empty list. */
  lemma BuildCatalogSpec(walks: seq<Walk>, extensions: seq<string>, key: string)
    ensures Lookup(BuildCatalog(walks, extensions), key) == Contribution(ExtensionFilter(extensions), walks, key)
    ensures BuildCatalog(walks, extensions).Keys == Elems(AllKeys(ExtensionFilter(extensions), walks))
    ensures Valid(BuildCatalog(walks, extensions))
  {
    AddWalksSpec(map[], extensions, walks, key);
  }

  lemma {:induction false} WalkContributionLength(filter: Option<set<string>>, walk: Walk, key: string)
    ensures |WalkContribution(filter, walk, key)| == multiset(WalkKeys(filter, walk))[key]
  {
    if walk != [] {
      WalkContributionLength(filter, walk[1..], key);
    }
  }

  lemma {:induction false} ContributionLength(filter: Option<set<string>>, walks: seq<Walk>, key: string)
    ensures |Contribution(filter, walks, key)| == multiset(AllKeys(filter, walks))[key]
  {
    if walks != [] {
      WalkContributionLength(filter, walks[0], key);
      ContributionLength(filter, walks[1..], key);
    }
  }

  /** Each accepted file adds exactly one entry: the length of a key's list is
      the number of accepted files, over all folders, whose name folds to the
      key. */
  lemma EntryPerAcceptedFile(walks: seq<Walk>, extensions: seq<string>, key: string)
    ensures |Lookup(BuildCatalog(walks, extensions), key)|
         == multiset(AllKeys(ExtensionFilter(extensions), walks))[key]
  {
    BuildCatalogSpec(walks, extensions, key);
    ContributionLength(ExtensionFilter(extensions), walks, key);
  }

  /** Walking more folders only appends: the catalog of `first + second`
      holds, under every key, the list of `first` followed by the list of
      `second`. */
  lemma {:induction false} FolderOrder(first: seq<Walk>, second: seq<Walk>, extensions: seq<string>, key: string)
    ensures Lookup(BuildCatalog(first + second, extensions), key)
         == Lookup(BuildCatalog(first, extensions), key) + Lookup(BuildCatalog(second, extensions), key)
  {
    BuildCatalogSpec(first + second, extensions, key);
    BuildCatalogSpec(first, extensions, key);
    BuildCatalogSpec(second, extensions, key);
    ContributionAppend(ExtensionFilter(extensions), first, second, key);
  }

  lemma {:induction false} ContributionAppend(filter: Option<set<string>>, first: seq<Walk>, second: seq<Walk>, key: string)
    ensures Contribution(filter, first + second, key) == Contribution(filter, first, key) + Contribution(filter, second, key)
  {
    if first == [] {
      assert first + second == second;
    } else {
      assert (first + second)[1..] == first[1..] + second;
      ContributionAppend(filter, first[1..], second, key);
    }
  }

  // ---- names free of separators ---------------------------------------------

  /** No directory path and no file name of the walk holds a tab or a
      newline. */
  predicate PlainStep(step: WalkStep) {
    IsField(step.root) && forall i :: 0 <= i < |step.files| ==> IsField(step.files[i])
  }

  predicate PlainWalks(walks: seq<Walk>) {
    forall w, j :: 0 <= w < |walks| && 0 <= j < |walks[w]| ==> PlainStep(walks[w][j])
  }

  lemma AddFilePlain(cat: Catalog, filter: Option<set<string>>, root: string, name: string)
    requires Plain(cat) && IsField(root) && IsField(name)
    ensures Plain(AddFile(cat, filter, root, name))
  {
    if Accepts(filter, name) {
      var key := Lower(name);
      var list := Lookup(cat, key) + [Lower(root)];
      LowerKeepsField(root);
      LowerKeepsField(name);
      forall i | 0 <= i < |list|
        ensures IsField(list[i])
      {
        if i < |list| - 1 {
          assert list[i] == Lookup(cat, key)[i];
        }
      }
      PlainUpdate(cat, key, list);
    }
  }

  /** Storing a plain list under a plain name keeps the catalog plain. */
  lemma PlainUpdate(cat: Catalog, key: string, list: seq<string>)
    requires Plain(cat) && IsField(key)
    requires forall i :: 0 <= i < |list| ==> IsField(list[i])
    ensures Plain(cat[key := list])
  {
  }

  lemma {:induction false} AddFilesPlain(cat: Catalog, filter: Option<set<string>>, root: string, names: seq<string>)
    requires Plain(cat) && IsField(root)
    requires forall i :: 0 <= i < |names| ==> IsField(names[i])
    ensures Plain(AddFiles(cat, filter, root, names))
    decreases |names|
  {
    if names != [] {
      AddFilePlain(cat, filter, root, names[0]);
      AddFilesPlain(AddFile(cat, filter, root, names[0]), filter, root, names[1..]);
    }
  }

  lemma {:induction false} AddWalkPlain(cat: Catalog, filter: Option<set<string>>, walk: Walk)
    requires Plain(cat)
    requires forall j :: 0 <= j < |walk| ==> PlainStep(walk[j])
    ensures Plain(AddWalk(cat, filter, walk))
    decreases |walk|
  {
    if walk != [] {
      AddFilesPlain(cat, filter, walk[0].root, walk[0].files);
      AddWalkPlain(AddFiles(cat, filter, walk[0].root, walk[0].files), filter, walk[1..]);
    }
  }

  lemma {:induction false} AddWalksPlain(cat: Catalog, extensions: seq<string>, walks: seq<Walk>)
    requires Plain(cat) && PlainWalks(walks)
    ensures Plain(AddWalks(cat, extensions, walks))
    decreases |walks|
  {
    if walks != [] {
      AddWalkPlain(cat, ExtensionFilter(extensions), walks[0]);
      assert PlainWalks(walks[1..]) by {
        forall w, j | 0 <= w < |walks[1..]| && 0 <= j < |walks[1..][w]|
          ensures PlainStep(walks[1..][w][j])
        {
          assert walks[1..][w] == walks[w + 1];
        }
      }
      AddWalksPlain(GetAllFilesInDir(cat, extensions, walks[0]), extensions, walks[1..]);
    }
  }

  /** When no folder path and no file name holds a tab or a newline, no name
      and no directory of the catalog does: folding creates neither. */
  lemma BuildCatalogPlain(walks: seq<Walk>, extensions: seq<string>)
    requires PlainWalks(walks)
    ensures Plain(BuildCatalog(walks, extensions))
  {
    AddWalksPlain(map[], extensions, walks);
  }

  // ---- a folder of one directory ------------------------------------------

  /** One folder holding one directory: its keys are that directory's
      accepted keys. */
  lemma SingleStepKeys(filter: Option<set<string>>, root: string, files: seq<string>)
    ensures AllKeys(filter, [[WalkStep(root, files)]]) == AcceptedKeys(filter, files)
  {
    assert WalkKeys(filter, [WalkStep(root, files)]) == AcceptedKeys(filter, files) + [];
  }

  /** One folder holding one directory: it contributes that directory once
      per matching file. */
  lemma SingleStepContribution(filter: Option<set<string>>, root: string, files: seq<string>, key: string)
    ensures Contribution(filter, [[WalkStep(root, files)]], key) == Copies(Lower(root), Matches(filter, files, key))
  {
    assert WalkContribution(filter, [WalkStep(root, files)], key) == Copies(Lower(root), Matches(filter, files, key)) + [];
  }

  /** Two accepted files give their two folded names, in order. */
  lemma TwoAcceptedKeys(filter: Option<set<string>>, x: string, y: string)
    requires Accepts(filter, x) && Accepts(filter, y)
    ensures AcceptedKeys(filter, [x, y]) == [Lower(x), Lower(y)]
  {
    assert [x, y][1..] == [y];
    assert AcceptedKeys(filter, [y]) == [Lower(y)] + [];
  }

  /** One folder holding one directory whose accepted files all fold to
      `key`, twice: the catalog lists that directory twice under `key`. */
  lemma SingleStepTwice(root: string, files: seq<string>, extensions: seq<string>, key: string)
    requires AcceptedKeys(ExtensionFilter(extensions), files) == [key, key]
    ensures BuildCatalog([[WalkStep(root, files)]], extensions) == map[key := [Lower(root), Lower(root)]]
  {
    var cat := BuildCatalog([[WalkStep(root, files)]], extensions);
    SingleStepTwiceKeys(root, files, extensions, key);
    SingleStepTwiceLookup(root, files, extensions, key);
    SingletonMap(cat, key, [Lower(root), Lower(root)]);
  }

  lemma SingleStepTwiceKeys(root: string, files: seq<string>, extensions: seq<string>, key: string)
    requires AcceptedKeys(ExtensionFilter(extensions), files) == [key, key]
    ensures BuildCatalog([[WalkStep(root, files)]], extensions).Keys == {key}
  {
    SingleStepKeys(ExtensionFilter(extensions), root, files);
    BuildCatalogSpec([[WalkStep(root, files)]], extensions, key);
    assert Elems([key, key]) == {key};
  }

  lemma SingleStepTwiceLookup(root: string, files: seq<string>, extensions: seq<string>, key: string)
    requires AcceptedKeys(ExtensionFilter(extensions), files) == [key, key]
    ensures Lookup(BuildCatalog([[WalkStep(root, files)]], extensions), key) == [Lower(root), Lower(root)]
  {
    SingleStepContribution(ExtensionFilter(extensions), root, files, key);
    BuildCatalogSpec([[WalkStep(root, files)]], extensions, key);
    TwiceCounted(key);
    CopiesTwo(Lower(root));
  }
}
