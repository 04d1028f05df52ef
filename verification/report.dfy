/** The report `write_to_output` produces (find.py:44-68) and the program run
    as a whole (`main`, find.py:35-40).

    The report is modelled as a value (output path, one entry per reported
    name, the ranked summary) together with the lines it is written as; the
    program writes every line followed by a newline. A reader for that text
    shows that the format loses nothing when no name or directory holds a tab
    or a newline. */
module Report {
  import opened Wrappers
  import opened Text
  import opened Seqs
  import opened Catalog
  import opened Aggregate
  import opened Ranking

  const DefaultOutputPath: string := "./file_duplicates.txt"

  /** The number of `#` characters in the separator line. */
  const SeparatorWidth: nat := 200

  /** A missing or empty output path falls back to the default; any other path
      is used as given. */
  function OutputPath(outPath: Option<string>): (path: string)
    ensures path != ""
    ensures outPath.Some? && outPath.value != "" ==> path == outPath.value
    ensures outPath.None? || outPath.value == "" ==> path == DefaultOutputPath
  {
    if outPath.None? || outPath.value == "" then DefaultOutputPath else outPath.value
  }

  /** One line per reported name: the name and its directory list. */
  datatype Entry = Entry(name: string, dirs: seq<string>)

  /** One directory of the summary with its count, then its partners. */
  datatype Block = Block(head: Tally, partners: seq<Tally>)

  datatype Output = Output(path: string, entries: seq<Entry>, summary: seq<Block>)

  function Names(entries: seq<Entry>): (names: seq<string>)
    ensures |names| == |entries|
    ensures forall i :: 0 <= i < |entries| ==> names[i] == entries[i].name
  {
    seq(|entries|, i requires 0 <= i < |entries| => entries[i].name)
  }

  function Heads(summary: seq<Block>): (heads: seq<Tally>)
    ensures |heads| == |summary|
    ensures forall i :: 0 <= i < |summary| ==> heads[i] == summary[i].head
  {
    seq(|summary|, i requires 0 <= i < |summary| => summary[i].head)
  }

  // ---- building the report ----------------------------------------------------

  /** The entries of the reported names, in visiting order. */
  function Entries(cat: Catalog, names: seq<string>): seq<Entry> {
    if names == [] then []
    else (if HasDuplicates(cat, names[0]) then [Entry(names[0], cat[names[0]])] else []) + Entries(cat, names[1..])
  }

  /** The names visited, in order, keeping only the reported ones. */
  function ReportedNames(cat: Catalog, names: seq<string>): seq<string> {
    if names == [] then []
    else (if HasDuplicates(cat, names[0]) then [names[0]] else []) + ReportedNames(cat, names[1..])
  }

  lemma {:induction false} EntriesShape(cat: Catalog, names: seq<string>)
    ensures Names(Entries(cat, names)) == ReportedNames(cat, names)
    ensures forall i :: 0 <= i < |Entries(cat, names)| ==>
      HasDuplicates(cat, Entries(cat, names)[i].name) && Entries(cat, names)[i].dirs == cat[Entries(cat, names)[i].name]
  {
    if names != [] {
      EntriesShape(cat, names[1..]);
    }
  }

  lemma {:induction false} ReportedNamesShape(cat: Catalog, names: seq<string>)
    ensures Elems(ReportedNames(cat, names)) == set name | name in names && HasDuplicates(cat, name)
    ensures NoDup(names) ==> NoDup(ReportedNames(cat, names))
  {
    if names != [] {
      ReportedNamesShape(cat, names[1..]);
      var head := if HasDuplicates(cat, names[0]) then [names[0]] else [];
      ElemsAppend(head, ReportedNames(cat, names[1..]));
      if NoDup(names) {
        NoDupTail(names);
        assert names[0] !in Elems(ReportedNames(cat, names[1..]));
        NoDupAppend(head, ReportedNames(cat, names[1..]));
      }
    }
  }

  /** The reported names exactly, each once, when the names visited are the
      dictionary's keys, each once. */
  lemma EntriesListDuplicates(cat: Catalog, names: seq<string>)
    requires IsEnumeration(names, cat.Keys)
    ensures IsEnumeration(Names(Entries(cat, names)), Duplicates(cat).Keys)
    ensures forall i :: 0 <= i < |Entries(cat, names)| ==>
      HasDuplicates(cat, Entries(cat, names)[i].name) && Entries(cat, names)[i].dirs == cat[Entries(cat, names)[i].name]
  {
    EntriesShape(cat, names);
    ReportedNamesShape(cat, names);
  }

  /** `(dir, m[dir])` for each directory of `dirs` that is a key of `m`, in the
      order of `dirs`: the iteration of a dictionary whose keys were inserted
      in that order. */
  function Listing(m: map<string, nat>, dirs: seq<string>): seq<Tally> {
    if dirs == [] then []
    else (if dirs[0] in m then [Tally(dirs[0], m[dirs[0]])] else []) + Listing(m, dirs[1..])
  }

  /** The listing gives each entry of `m` whose key is among `dirs`, with its
      value, and repeats no key when `dirs` repeats none. */
  lemma ListingShape(m: map<string, nat>, dirs: seq<string>)
    ensures Elems(Dirs(Listing(m, dirs))) == Elems(dirs) * m.Keys
    ensures forall i :: 0 <= i < |Listing(m, dirs)| ==>
      Listing(m, dirs)[i].dir in m && Listing(m, dirs)[i].n == m[Listing(m, dirs)[i].dir]
    ensures NoDup(dirs) ==> NoDup(Dirs(Listing(m, dirs)))
  {
    ListingElems(m, dirs);
    ListingValues(m, dirs);
    if NoDup(dirs) {
      ListingNoDup(m, dirs);
    }
  }

  /** The first directory contributes its own entry, if any, ahead of the
      rest. */
  lemma ListingStep(m: map<string, nat>, dirs: seq<string>)
    requires dirs != []
    ensures Dirs(Listing(m, dirs))
         == (if dirs[0] in m then [dirs[0]] else []) + Dirs(Listing(m, dirs[1..]))
  {
    var first: seq<Tally> := if dirs[0] in m then [Tally(dirs[0], m[dirs[0]])] else [];
    var rest := Listing(m, dirs[1..]);
    assert Listing(m, dirs) == first + rest;
    DirsAppend(first, rest);
    if dirs[0] in m {
      assert Dirs(first) == [dirs[0]];
    } else {
      assert Dirs(first) == [];
    }
  }

  lemma DirsAppend(a: seq<Tally>, b: seq<Tally>)
    ensures Dirs(a + b) == Dirs(a) + Dirs(b)
  {
  }

  lemma {:induction false} ListingElems(m: map<string, nat>, dirs: seq<string>)
    ensures Elems(Dirs(Listing(m, dirs))) == Elems(dirs) * m.Keys
  {
    if dirs != [] {
      ListingElems(m, dirs[1..]);
      ListingStep(m, dirs);
      var first: seq<string> := if dirs[0] in m then [dirs[0]] else [];
      ElemsAppend(first, Dirs(Listing(m, dirs[1..])));
      assert Elems(dirs) == {dirs[0]} + Elems(dirs[1..]);
      assert Elems(first) == {dirs[0]} * m.Keys;
      assert Elems(dirs) * m.Keys == ({dirs[0]} * m.Keys) + (Elems(dirs[1..]) * m.Keys);
    }
  }

  lemma {:induction false} ListingValues(m: map<string, nat>, dirs: seq<string>)
    ensures forall i :: 0 <= i < |Listing(m, dirs)| ==>
      Listing(m, dirs)[i].dir in m && Listing(m, dirs)[i].n == m[Listing(m, dirs)[i].dir]
  {
    if dirs != [] {
      ListingValues(m, dirs[1..]);
      var first: seq<Tally> := if dirs[0] in m then [Tally(dirs[0], m[dirs[0]])] else [];
      var rest := Listing(m, dirs[1..]);
      assert Listing(m, dirs) == first + rest;
      forall i | 0 <= i < |first + rest|
        ensures (first + rest)[i].dir in m && (first + rest)[i].n == m[(first + rest)[i].dir]
      {
        if i >= |first| {
          assert (first + rest)[i] == rest[i - |first|];
        }
      }
    }
  }

  lemma {:induction false} ListingNoDup(m: map<string, nat>, dirs: seq<string>)
    requires NoDup(dirs)
    ensures NoDup(Dirs(Listing(m, dirs)))
  {
    if dirs != [] {
      NoDupTail(dirs);
      ListingNoDup(m, dirs[1..]);
      ListingElems(m, dirs[1..]);
      ListingStep(m, dirs);
      var first: seq<string> := if dirs[0] in m then [dirs[0]] else [];
      assert dirs[0] !in Elems(Dirs(Listing(m, dirs[1..])));
      NoDupAppend(first, Dirs(Listing(m, dirs[1..])));
    }
  }

  /** The entries of `m` by non-increasing value, `dirs` giving the order of
      the dictionary before sorting. */
  function Ranked(m: map<string, nat>, dirs: seq<string>): seq<Tally> {
    SortByCount(Listing(m, dirs))
  }

  /** The sorted listing ranks `m` when `dirs` names every key once. */
  lemma RankedRanks(m: map<string, nat>, dirs: seq<string>)
    requires NoDup(dirs) && m.Keys <= Elems(dirs)
    ensures Ranks(Ranked(m, dirs), m)
  {
    ListingShape(m, dirs);
    SortRanks(Listing(m, dirs), m);
  }

  /** The summary of `write_to_output`: the directories by non-increasing
      count, each with its partners by non-increasing shared count. `dirs` is
      the iteration order of the count dictionary and `rowOrder(a)` that of
      the row of `a`; each may also list directories the dictionary lacks,
      which the listing skips. */
  function Summarize(t: Tables, dirs: seq<string>, rowOrder: string -> seq<string>): seq<Block> {
    var heads := Ranked(t.counts, dirs);
    seq(|heads|, i requires 0 <= i < |heads| => Block(heads[i], Ranked(Row(t.common, heads[i].dir), rowOrder(heads[i].dir))))
  }

  /** Given iteration orders of the count dictionary and of every row, the
      summary lists every counted directory once with its count, by
      non-increasing count, and under each directory every partner once with
      its shared count, by non-increasing shared count. */
  lemma SummarizeRanks(t: Tables, dirs: seq<string>, rowOrder: string -> seq<string>)
    requires IsEnumeration(dirs, t.counts.Keys)
    requires forall a :: a in t.counts ==> NoDup(rowOrder(a)) && Row(t.common, a).Keys <= Elems(rowOrder(a))
    ensures Ranks(Heads(Summarize(t, dirs, rowOrder)), t.counts)
    ensures forall i :: 0 <= i < |Summarize(t, dirs, rowOrder)| ==>
      Ranks(Summarize(t, dirs, rowOrder)[i].partners, Row(t.common, Summarize(t, dirs, rowOrder)[i].head.dir))
  {
    var summary := Summarize(t, dirs, rowOrder);
    RankedRanks(t.counts, dirs);
    assert Heads(summary) == Ranked(t.counts, dirs);
    forall i | 0 <= i < |summary|
      ensures Ranks(summary[i].partners, Row(t.common, summary[i].head.dir))
    {
      var a := summary[i].head.dir;
      assert Heads(summary)[i] == summary[i].head;
      assert a in t.counts;
      RankedRanks(Row(t.common, a), rowOrder(a));
    }
  }

  /** `write_to_output`, given the iteration order `names` of the catalog,
      `dirs` of the count dictionary and `rowOrder(a)` of the row of each
      counted directory `a`. */
  function WriteToOutput(outPath: Option<string>, cat: Catalog, names: seq<string>,
                         dirs: seq<string>, rowOrder: string -> seq<string>): (r: Output)
    requires IsEnumeration(names, cat.Keys)
    requires IsEnumeration(dirs, DupeCounts(cat, names).Keys)
    requires forall a :: a in DupeCounts(cat, names) ==>
      NoDup(rowOrder(a)) && Partners(cat, names, a).Keys <= Elems(rowOrder(a))
    ensures r.path == OutputPath(outPath)
    ensures IsEnumeration(Names(r.entries), Duplicates(cat).Keys)
    ensures forall i :: 0 <= i < |r.entries| ==> HasDuplicates(cat, r.entries[i].name) && r.entries[i].dirs == cat[r.entries[i].name]
    ensures Ranks(Heads(r.summary), DupeCounts(cat, names))
    ensures forall i :: 0 <= i < |r.summary| ==> Ranks(r.summary[i].partners, Partners(cat, names, r.summary[i].head.dir))
  {
    var t := Tabulate(cat, names);
    EntriesListDuplicates(cat, names);
    CountsMatch(cat, names);
    assert forall a :: a in t.counts ==> Row(t.common, a) == Partners(cat, names, a) by {
      forall a | a in t.counts
        ensures Row(t.common, a) == Partners(cat, names, a)
      {
        RowMatches(cat, names, a);
      }
    }
    SummarizeRanks(t, dirs, rowOrder);
    Output(OutputPath(outPath), Entries(cat, names), Summarize(t, dirs, rowOrder))
  }

  // ---- the lines of the report ------------------------------------------------

  /** `line += "\t%s" % dirpath` for every directory, in order. */
  function AppendFields(line: string, dirs: seq<string>): string
    decreases |dirs|
  {
    if dirs == [] then line else AppendFields(line + "\t" + dirs[0], dirs[1..])
  }

  function EntryLine(e: Entry): string {
    AppendFields(e.name, e.dirs)
  }

  /** `"%s\t%s\n" % (dirpath, count)` without its newline. */
  function HeadLine(t: Tally): string {
    t.dir + "\t" + NatToString(t.n)
  }

  /** `"\t%s\t%s\n" % (partner, shared)` without its newline. */
  function PartnerLine(t: Tally): string {
    "\t" + t.dir + "\t" + NatToString(t.n)
  }

  function Separator(): (line: string)
    ensures |line| == SeparatorWidth
    ensures forall i :: 0 <= i < |line| ==> line[i] == '#'
  {
    Copies('#', SeparatorWidth)
  }

  function EntryLines(entries: seq<Entry>): (lines: seq<string>)
    ensures |lines| == |entries|
    ensures forall i :: 0 <= i < |entries| ==> lines[i] == EntryLine(entries[i])
  {
    seq(|entries|, i requires 0 <= i < |entries| => EntryLine(entries[i]))
  }

  function PartnerLines(partners: seq<Tally>): (lines: seq<string>)
    ensures |lines| == |partners|
    ensures forall i :: 0 <= i < |partners| ==> lines[i] == PartnerLine(partners[i])
  {
    seq(|partners|, i requires 0 <= i < |partners| => PartnerLine(partners[i]))
  }

  function SummaryLines(summary: seq<Block>): seq<string> {
    if summary == [] then []
    else [HeadLine(summary[0].head)] + PartnerLines(summary[0].partners) + SummaryLines(summary[1..])
  }

  /** The lines of the report file, in the order they are written. */
  function Lines(r: Output): seq<string> {
    EntryLines(r.entries) + [Separator()] + SummaryLines(r.summary)
  }

  // ---- reading the lines back -------------------------------------------------

  function ReadEntry(line: string): Option<Entry> {
    var fields := Split(line, '\t');
    if |fields| >= 2 then Some(Entry(fields[0], fields[1..])) else None
  }

  function ReadHead(line: string): Option<Tally> {
    var fields := Split(line, '\t');
    if |fields| == 2 && IsDecimal(fields[1]) then Some(Tally(fields[0], ParseNat(fields[1]))) else None
  }

  function ReadPartner(line: string): Option<Tally> {
    var fields := Split(line, '\t');
    if |fields| == 3 && fields[0] == "" && IsDecimal(fields[2]) then Some(Tally(fields[1], ParseNat(fields[2]))) else None
  }

  /** Reads entry lines up to the first line that is not one; returns the
      entries and the number of lines consumed. */
  function ReadEntries(lines: seq<string>): (r: (seq<Entry>, nat))
    ensures r.1 <= |lines|
  {
    if lines == [] then ([], 0)
    else match ReadEntry(lines[0])
      case None => ([], 0)
      case Some(e) => var rest := ReadEntries(lines[1..]); ([e] + rest.0, rest.1 + 1)
  }

  function ReadPartners(lines: seq<string>): (r: (seq<Tally>, nat))
    ensures r.1 <= |lines|
  {
    if lines == [] then ([], 0)
    else match ReadPartner(lines[0])
      case None => ([], 0)
      case Some(p) => var rest := ReadPartners(lines[1..]); ([p] + rest.0, rest.1 + 1)
  }

  function ReadSummary(lines: seq<string>): Option<seq<Block>>
    decreases |lines|
  {
    if lines == [] then Some([])
    else match ReadHead(lines[0])
      case None => None
      case Some(head) =>
        var partners := ReadPartners(lines[1..]);
        match ReadSummary(lines[1 + partners.1..])
        case None => None
        case Some(rest) => Some([Block(head, partners.0)] + rest)
  }

  /** Reads a whole report: entry lines, the separator, then the summary. */
  function ReadReport(lines: seq<string>): Option<(seq<Entry>, seq<Block>)> {
    var entries := ReadEntries(lines);
    if entries.1 < |lines| && lines[entries.1] == Separator() then
      match ReadSummary(lines[entries.1 + 1..])
      case None => None
      case Some(summary) => Some((entries.0, summary))
    else None
  }

  /** No name or directory in the report holds a tab or a newline, and every
      entry lists at least one directory. */
  predicate Printable(r: Output) {
    && (forall i :: 0 <= i < |r.entries| ==> PrintableEntry(r.entries[i]))
    && (forall i :: 0 <= i < |r.summary| ==> PrintableBlock(r.summary[i]))
  }

  predicate PrintableEntry(e: Entry) {
    IsField(e.name) && |e.dirs| >= 1 && forall j :: 0 <= j < |e.dirs| ==> IsField(e.dirs[j])
  }

  predicate PrintableBlock(b: Block) {
    IsField(b.head.dir) && forall j :: 0 <= j < |b.partners| ==> IsField(b.partners[j].dir)
  }

  lemma {:induction false} AppendFieldsJoin(line: string, dirs: seq<string>)
    ensures AppendFields(line, dirs) == Join([line] + dirs, '\t')
    decreases |dirs|
  {
    if dirs != [] {
      AppendFieldsJoin(line + "\t" + dirs[0], dirs[1..]);
      var rest := [dirs[0]] + dirs[1..];
      assert [line] + dirs == [line] + rest;
      assert ([line] + rest)[1..] == rest;
      if dirs[1..] != [] {
        assert ([line + "\t" + dirs[0]] + dirs[1..])[1..] == dirs[1..];
        assert rest[1..] == dirs[1..];
      }
    }
  }

  /** An entry line splits back into its name and directories. */
  lemma EntryRoundTrip(e: Entry)
    requires PrintableEntry(e)
    ensures ReadEntry(EntryLine(e)) == Some(e)
  {
    AppendFieldsJoin(e.name, e.dirs);
    SplitJoin([e.name] + e.dirs, '\t');
  }

  /** A directory line reads back as its directory and count, and is never
      taken for a partner line. */
  lemma HeadRoundTrip(t: Tally)
    requires '\t' !in t.dir
    ensures ReadHead(HeadLine(t)) == Some(t)
    ensures ReadPartner(HeadLine(t)).None?
  {
    var num := NatToString(t.n);
    assert HeadLine(t) == Join([t.dir, num], '\t');
    SplitJoin([t.dir, num], '\t');
    ParseNatToString(t.n);
  }

  /** A partner line reads back as its partner and shared count. */
  lemma PartnerRoundTrip(t: Tally)
    requires '\t' !in t.dir
    ensures ReadPartner(PartnerLine(t)) == Some(t)
  {
    var num := NatToString(t.n);
    assert Join([num], '\t') == num;
    assert Join([t.dir, num], '\t') == t.dir + "\t" + num;
    assert ["", t.dir, num][1..] == [t.dir, num];
    assert PartnerLine(t) == "" + "\t" + Join([t.dir, num], '\t');
    SplitJoin(["", t.dir, num], '\t');
    ParseNatToString(t.n);
  }

  lemma {:induction false} ReadEntriesOf(entries: seq<Entry>, rest: seq<string>)
    requires forall i :: 0 <= i < |entries| ==> PrintableEntry(entries[i])
    requires rest == [] || ReadEntry(rest[0]).None?
    ensures ReadEntries(EntryLines(entries) + rest) == (entries, |entries|)
  {
    if entries != [] {
      var lines := EntryLines(entries) + rest;
      EntryRoundTrip(entries[0]);
      assert lines[0] == EntryLine(entries[0]);
      assert lines[1..] == EntryLines(entries[1..]) + rest;
      ReadEntriesOf(entries[1..], rest);
      assert [entries[0]] + entries[1..] == entries;
    } else {
      assert EntryLines(entries) + rest == rest;
    }
  }

  lemma {:induction false} ReadPartnersOf(partners: seq<Tally>, rest: seq<string>)
    requires forall i :: 0 <= i < |partners| ==> '\t' !in partners[i].dir
    requires rest == [] || ReadPartner(rest[0]).None?
    ensures ReadPartners(PartnerLines(partners) + rest) == (partners, |partners|)
  {
    if partners != [] {
      var lines := PartnerLines(partners) + rest;
      PartnerRoundTrip(partners[0]);
      assert lines[0] == PartnerLine(partners[0]);
      assert lines[1..] == PartnerLines(partners[1..]) + rest;
      ReadPartnersOf(partners[1..], rest);
      assert [partners[0]] + partners[1..] == partners;
    } else {
      assert PartnerLines(partners) + rest == rest;
    }
  }

  lemma {:induction false} ReadSummaryOf(summary: seq<Block>)
    requires forall i :: 0 <= i < |summary| ==> PrintableBlock(summary[i])
    ensures ReadSummary(SummaryLines(summary)) == Some(summary)
  {
    if summary != [] {
      var b := summary[0];
      var later := SummaryLines(summary[1..]);
      var lines := SummaryLines(summary);
      assert lines == [HeadLine(b.head)] + (PartnerLines(b.partners) + later);
      if later != [] {
        HeadRoundTrip(summary[1].head);
      }
      ReadPartnersOf(b.partners, later);
      ReadSummaryOf(summary[1..]);
      HeadRoundTrip(b.head);
      assert lines[1..] == PartnerLines(b.partners) + later;
      assert lines[1 + |b.partners|..] == later;
      ReadSummaryStep(lines, b.head, b.partners, |b.partners|);
      assert ReadSummary(lines) == Some([b] + summary[1..]);
      SeqHeadTail(summary);
    }
  }

  /** A head line, `k` partner lines and what follows read as one block
      followed by what the rest reads as. */
  lemma ReadSummaryStep(lines: seq<string>, head: Tally, partners: seq<Tally>, k: nat)
    requires lines != [] && ReadHead(lines[0]) == Some(head)
    requires ReadPartners(lines[1..]) == (partners, k)
    requires ReadSummary(lines[1 + k..]).Some?
    ensures ReadSummary(lines) == Some([Block(head, partners)] + ReadSummary(lines[1 + k..]).value)
  {
  }

  /** The separator holds no tab, so it is never read as an entry line. */
  lemma SeparatorNotEntry()
    ensures ReadEntry(Separator()).None?
  {
    assert '\t' !in Separator();
    assert Split(Separator(), '\t') == [Separator()];
  }

  /** Reading the written lines gives back every entry and the whole summary,
      as long as no name or directory holds a tab or a newline. */
  lemma ReadReportOf(r: Output)
    requires Printable(r)
    ensures ReadReport(Lines(r)) == Some((r.entries, r.summary))
  {
    var lines := Lines(r);
    var rest := [Separator()] + SummaryLines(r.summary);
    assert lines == EntryLines(r.entries) + rest;
    SeparatorNotEntry();
    ReadEntriesOf(r.entries, rest);
    assert lines[|r.entries|] == Separator();
    assert lines[|r.entries| + 1..] == SummaryLines(r.summary);
    ReadSummaryOf(r.summary);
  }

  /** The text of the report file: every line followed by a newline. */
  function FileText(r: Output): string {
    Terminated(Lines(r))
  }

  /** Reads a report file: cuts the text into lines, then reads the lines. */
  function ReadFile(text: string): Option<(seq<Entry>, seq<Block>)> {
    match ReadLines(text)
    case None => None
    case Some(lines) => ReadReport(lines)
  }

  predicate NoNewline(lines: seq<string>) {
    forall i :: 0 <= i < |lines| ==> '\n' !in lines[i]
  }

  lemma EntryLineNoNewline(e: Entry)
    requires PrintableEntry(e)
    ensures '\n' !in EntryLine(e)
  {
    AppendFieldsJoin(e.name, e.dirs);
    JoinAvoids([e.name] + e.dirs, '\t', '\n');
  }

  lemma {:induction false} SummaryLinesNoNewline(summary: seq<Block>)
    requires forall i :: 0 <= i < |summary| ==> PrintableBlock(summary[i])
    ensures NoNewline(SummaryLines(summary))
  {
    if summary != [] {
      SummaryLinesNoNewline(summary[1..]);
      var b := summary[0];
      TallyLinesNoNewline(b.head);
      assert NoNewline(PartnerLines(b.partners)) by {
        forall j | 0 <= j < |b.partners|
          ensures '\n' !in PartnerLines(b.partners)[j]
        {
          TallyLinesNoNewline(b.partners[j]);
        }
      }
      NoNewlineAppend([HeadLine(b.head)], PartnerLines(b.partners));
      NoNewlineAppend([HeadLine(b.head)] + PartnerLines(b.partners), SummaryLines(summary[1..]));
    }
  }

  /** Neither line of a tally holds a newline when its directory holds none. */
  lemma TallyLinesNoNewline(t: Tally)
    requires IsField(t.dir)
    ensures '\n' !in HeadLine(t) && '\n' !in PartnerLine(t)
  {
    assert forall i :: 0 <= i < |NatToString(t.n)| ==> IsDigit(NatToString(t.n)[i]);
    assert '\n' !in NatToString(t.n);
  }

  lemma NoNewlineAppend(a: seq<string>, b: seq<string>)
    requires NoNewline(a) && NoNewline(b)
    ensures NoNewline(a + b)
  {
    forall i | 0 <= i < |a + b|
      ensures '\n' !in (a + b)[i]
    {
      if i >= |a| {
        assert (a + b)[i] == b[i - |a|];
      }
    }
  }

  /** No line of a printable report holds a newline. */
  lemma LinesNoNewline(r: Output)
    requires Printable(r)
    ensures NoNewline(Lines(r))
  {
    var entries := EntryLines(r.entries);
    var summary := SummaryLines(r.summary);
    SummaryLinesNoNewline(r.summary);
    forall i | 0 <= i < |Lines(r)|
      ensures '\n' !in Lines(r)[i]
    {
      if i < |entries| {
        EntryLineNoNewline(r.entries[i]);
      } else if i == |entries| {
        assert Lines(r)[i] == Separator();
      } else {
        assert Lines(r)[i] == summary[i - |entries| - 1];
      }
    }
  }

  /** The report file loses nothing: reading the text written to it gives back
      every entry and the whole summary, as long as no name or directory holds
      a tab or a newline. */
  lemma ReadFileOf(r: Output)
    requires Printable(r)
    ensures ReadFile(FileText(r)) == Some((r.entries, r.summary))
  {
    LinesNoNewline(r);
    ReadLinesOf(Lines(r));
    ReadReportOf(r);
  }

  // ---- the whole run ----------------------------------------------------------

  /** The catalog `main` builds holds, under every name, the directories of
      its accepted files in walk order, and the names in first-met order list
      its keys once each. */
  lemma CatalogOfWalks(walks: seq<Walk>, extensions: seq<string>)
    ensures IsEnumeration(FirstOccurrences(AllKeys(ExtensionFilter(extensions), walks)), BuildCatalog(walks, extensions).Keys)
    ensures forall name :: Lookup(BuildCatalog(walks, extensions), name) == Contribution(ExtensionFilter(extensions), walks, name)
  {
    BuildCatalogSpec(walks, extensions, "");
    forall name
      ensures Lookup(BuildCatalog(walks, extensions), name) == Contribution(ExtensionFilter(extensions), walks, name)
    {
      BuildCatalogSpec(walks, extensions, name);
    }
  }

  /** The same iteration order for every row. */
  function SameOrder(dirs: seq<string>): string -> seq<string> {
    a => dirs
  }

  /** The directories of the reported lists in first-met order: an iteration
      order for the count dictionary, and one for every row, that lists each
      of their keys once. */
  lemma FirstMetDirs(cat: Catalog, names: seq<string>)
    ensures IsEnumeration(FirstOccurrences(DupeDirs(cat, names)), DupeCounts(cat, names).Keys)
    ensures forall a :: a in DupeCounts(cat, names) ==>
      NoDup(SameOrder(FirstOccurrences(DupeDirs(cat, names)))(a))
      && Partners(cat, names, a).Keys <= Elems(SameOrder(FirstOccurrences(DupeDirs(cat, names)))(a))
  {
  }

  /** `main`: builds the catalog from the walks of the folder arguments, then
      writes the report. The catalog is taken to iterate in the order in which
      names were first met, and the count dictionary and every row in the
      order in which directories first occur in the reported lists. */
  function Run(walks: seq<Walk>, extensions: seq<string>, outPath: Option<string>): (r: Output)
    ensures r.path == OutputPath(outPath)
    ensures forall i :: 0 <= i < |r.entries| ==>
      r.entries[i].dirs == Contribution(ExtensionFilter(extensions), walks, r.entries[i].name)
      && |r.entries[i].dirs| > 1
  {
    var cat := BuildCatalog(walks, extensions);
    var names := FirstOccurrences(AllKeys(ExtensionFilter(extensions), walks));
    var dirs := FirstOccurrences(DupeDirs(cat, names));
    CatalogOfWalks(walks, extensions);
    FirstMetDirs(cat, names);
    var r := WriteToOutput(outPath, cat, names, dirs, SameOrder(dirs));
    assert forall i :: 0 <= i < |r.entries| ==> r.entries[i].dirs == Lookup(cat, r.entries[i].name);
    r
  }

  /** A name is reported exactly when more than one accepted file, over all
      folders, folds to it. */
  lemma RunReportsDuplicates(walks: seq<Walk>, extensions: seq<string>, outPath: Option<string>, name: string)
    ensures name in Names(Run(walks, extensions, outPath).entries) <==> |Contribution(ExtensionFilter(extensions), walks, name)| > 1
  {
    var cat := BuildCatalog(walks, extensions);
    var names := FirstOccurrences(AllKeys(ExtensionFilter(extensions), walks));
    var dirs := FirstOccurrences(DupeDirs(cat, names));
    CatalogOfWalks(walks, extensions);
    FirstMetDirs(cat, names);
    var r := Run(walks, extensions, outPath);
    assert r == WriteToOutput(outPath, cat, names, dirs, SameOrder(dirs));
    assert Elems(Names(r.entries)) == Duplicates(cat).Keys;
    assert name in Duplicates(cat) <==> |Lookup(cat, name)| > 1;
  }

  /** When no folder path and no file name holds a tab or a newline, the
      report of the run is printable, so its file reads back as exactly its
      entries and its summary. */
  lemma RunPrintable(walks: seq<Walk>, extensions: seq<string>, outPath: Option<string>)
    requires PlainWalks(walks)
    ensures Printable(Run(walks, extensions, outPath))
    ensures ReadFile(FileText(Run(walks, extensions, outPath)))
         == Some((Run(walks, extensions, outPath).entries, Run(walks, extensions, outPath).summary))
  {
    var cat := BuildCatalog(walks, extensions);
    var names := FirstOccurrences(AllKeys(ExtensionFilter(extensions), walks));
    CatalogOfWalks(walks, extensions);
    BuildCatalogPlain(walks, extensions);
    DupeDirsPlain(cat, names);
    var dirs := FirstOccurrences(DupeDirs(cat, names));
    FirstMetDirs(cat, names);
    var r := Run(walks, extensions, outPath);
    assert r == WriteToOutput(outPath, cat, names, dirs, SameOrder(dirs));
    forall i | 0 <= i < |r.summary|
      ensures PrintableBlock(r.summary[i])
    {
      var b := r.summary[i];
      assert Heads(r.summary)[i] == b.head;
      assert b.head.dir in DupeCounts(cat, names);
      forall j | 0 <= j < |b.partners|
        ensures IsField(b.partners[j].dir)
      {
        assert b.partners[j].dir in Partners(cat, names, b.head.dir);
      }
    }
    ReadFileOf(r);
  }
}
