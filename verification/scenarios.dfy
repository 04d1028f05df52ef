/** Worked examples of the model on small concrete inputs. */
module Scenarios {
  import opened Wrappers
  import opened Text
  import opened Seqs
  import opened Catalog
  import opened Aggregate
  import opened Report

  /** `a.txt` in `/x` and `/y`, `b.txt` only in `/x`. */
  function TwoDirs(): Catalog {
    map["a.txt" := ["/x", "/y"], "b.txt" := ["/x"]]
  }

  /** Only `a.txt` is reported: `/x` and `/y` each count one duplicate and
      share one file, in both directions, and neither is its own partner. */
  lemma TwoDirsTables()
    ensures Tabulate(TwoDirs(), ["a.txt", "b.txt"]).counts == map["/x" := 1, "/y" := 1]
    ensures Tabulate(TwoDirs(), ["a.txt", "b.txt"]).common == map["/x" := map["/y" := 1], "/y" := map["/x" := 1]]
  {
    var cat := TwoDirs();
    var names := ["a.txt", "b.txt"];
    assert HasDuplicates(cat, "a.txt") && !HasDuplicates(cat, "b.txt");
    var t0 := Tables(map[], map[]);
    var t1 := VisitDirs(t0, ["/x", "/y"], ["/x", "/y"]);
    assert VisitPartners(map[], "/x", ["/x", "/y"]) == map["/x" := map["/y" := 1]];
    assert VisitPartners(map["/x" := map["/y" := 1]], "/y", ["/x", "/y"]) == map["/x" := map["/y" := 1], "/y" := map["/x" := 1]];
    assert t1 == Tables(map["/x" := 1, "/y" := 1], map["/x" := map["/y" := 1], "/y" := map["/x" := 1]]);
    assert Tabulate(cat, names) == VisitNames(t1, cat, ["b.txt"]);
  }

  /** The report of that catalog names `a.txt` alone, on the line
      `a.txt<TAB>/x<TAB>/y`. */
  lemma TwoDirsEntries()
    ensures Entries(TwoDirs(), ["a.txt", "b.txt"]) == [Entry("a.txt", ["/x", "/y"])]
    ensures EntryLine(Entry("a.txt", ["/x", "/y"])) == "a.txt\t/x\t/y"
  {
    var cat := TwoDirs();
    assert HasDuplicates(cat, "a.txt") && !HasDuplicates(cat, "b.txt");
    assert ["a.txt", "b.txt"][1..] == ["b.txt"];
    assert AppendFields("a.txt\t/x\t/y", []) == "a.txt\t/x\t/y";
  }

  /** One folder `/Data` holding `A.txt` and `a.txt`. */
  function MixedCase(): seq<Walk> {
    [[WalkStep("/Data", ["A.txt", "a.txt"])]]
  }

  lemma LowerTxt()
    ensures Lower("txt") == "txt"
    ensures Lower("TXT") == "txt"
    ensures Lower("A.txt") == "a.txt"
    ensures Lower("a.txt") == "a.txt"
    ensures Lower("/Data") == "/data"
  {
  }

  lemma NoDotInTxt()
    ensures '.' !in "txt" && '.' !in "TXT"
  {
  }

  lemma MixedCaseExtensions()
    ensures Extension("A.txt") == "txt"
    ensures Extension("a.txt") == "txt"
  {
    NoDotInTxt();
    ExtensionOf("A", "txt");
    ExtensionOf("a", "txt");
    assert "A" + "." + "txt" == "A.txt";
    assert "a" + "." + "txt" == "a.txt";
  }

  lemma CaseKeptExtensions()
    ensures Extension("b.txt") == "txt"
    ensures Extension("b.TXT") == "TXT"
  {
    NoDotInTxt();
    ExtensionOf("b", "txt");
    ExtensionOf("b", "TXT");
    assert "b" + "." + "txt" == "b.txt";
    assert "b" + "." + "TXT" == "b.TXT";
  }

  lemma MixedCaseAccepted()
    ensures Accepts(ExtensionFilter(["txt"]), "A.txt") && Accepts(ExtensionFilter(["txt"]), "a.txt")
  {
    LowerTxt();
    MixedCaseExtensions();
    assert "txt" in ExtensionFilter(["txt"]).value;
  }

  /** Both files fold to `a.txt`, so the walk's accepted keys are `a.txt`
      twice. */
  lemma MixedCaseKeys()
    ensures AllKeys(ExtensionFilter(["txt"]), MixedCase()) == ["a.txt", "a.txt"]
  {
    var filter := ExtensionFilter(["txt"]);
    MixedCaseAccepted();
    LowerTxt();
    TwoAcceptedKeys(filter, "A.txt", "a.txt");
    SingleStepKeys(filter, "/Data", ["A.txt", "a.txt"]);
  }

  /** Names are folded before they are grouped, so the two files are one name
      found twice in the same directory: `a.txt` is reported with `/data`
      listed twice. */
  lemma MixedCaseMerged()
    ensures BuildCatalog(MixedCase(), ["txt"]) == map["a.txt" := ["/data", "/data"]]
  {
    MixedCaseAccepted();
    LowerTxt();
    TwoAcceptedKeys(ExtensionFilter(["txt"]), "A.txt", "a.txt");
    SingleStepTwice("/Data", ["A.txt", "a.txt"], ["txt"], "a.txt");
  }

  /** The same file twice in one directory counts twice for that directory
      but never pairs the directory with itself. */
  lemma MixedCaseTables()
    ensures Tabulate(map["a.txt" := ["/data", "/data"]], ["a.txt"]) == Tables(map["/data" := 2], map[])
  {
    var paths := ["/data", "/data"];
    assert VisitPartners(map[], "/data", paths) == map[];
  }

  /** A name without a dot is its own extension, compared as written: the
      file `readme` passes the filter `readme`, and the file `README` fails
      it. */
  lemma DotlessName()
    ensures Accepts(ExtensionFilter(["readme"]), "readme")
    ensures !Accepts(ExtensionFilter(["readme"]), "README")
  {
    assert Lower("readme") == "readme";
    assert '.' !in "README" && '.' !in "readme";
    assert "README" != "readme";
    UpperCaseExtensionRejected(["readme"], "README");
  }

  /** The file's extension is compared as written: `b.TXT` fails the filter
      `TXT` while `b.txt` passes it, and without a filter every file passes. */
  lemma ExtensionCaseKept()
    ensures !Accepts(ExtensionFilter(["TXT"]), "b.TXT")
    ensures Accepts(ExtensionFilter(["TXT"]), "b.txt")
    ensures Accepts(ExtensionFilter([]), "b.TXT")
  {
    LowerTxt();
    CaseKeptExtensions();
    UpperCaseExtensionRejected(["TXT"], "b.TXT");
  }

  /** With no output path, or an empty one, the report goes to
      `./file_duplicates.txt`, whatever the folders hold; a given path is used
      as it is. */
  lemma DefaultPath(walks: seq<Walk>, extensions: seq<string>, path: string)
    ensures Run(walks, extensions, None).path == "./file_duplicates.txt"
    ensures Run(walks, extensions, Some("")).path == "./file_duplicates.txt"
    ensures path != "" ==> Run(walks, extensions, Some(path)).path == path
  {
  }
}
