# Duplicate-file finder: a Dafny model

`find.py` walks one or more folders and groups files by name. A name is
lower-cased before grouping, and the files can be restricted to a set of
extensions. The program then writes a report with three parts:

- every name found more than once, with the directories holding it. A name
  found twice in the same directory counts;
- a separator line of 200 `#`;
- a summary. It lists each directory by the number of duplicated files it
  holds, largest first. Under each directory come the other directories it
  shares files with, again largest first.

This project models that core and proves properties of it. The modules are:

- `Text`: ASCII case folding (the program runs under Python 2 on byte
  strings), `rfind`, the extension of a file name, tab-separated fields,
  newline-terminated lines and decimal numerals.
- `Seqs`: element sets, duplicate-free sequences, first-occurrence order, and
  sums over a sequence of keys.
- `Catalog`: the name-to-directories dictionary built by
  `get_all_files_in_dir` and the folder loop of `main`. `os.walk` is a
  parameter here: one `Walk` per folder argument, a sequence of
  `(root, files)` steps.
- `Aggregate`: the duplicate filter, the dupe counts and the common-files
  matrix of `write_to_output`. Each is given a reference definition and an
  all-inputs lemma that ties the loops to it.
- `Ranking`: the descending sort of the summary.
- `Report`: the report as a value and the lines it is written as. It also
  holds a reader for those lines and the whole run.
- `Scenarios`: worked examples on small concrete inputs.

A dictionary's iteration order is not fixed by the program. The model takes
each order as a parameter, and the properties hold for every order.
`Report.WriteToOutput` takes three of them: one for the catalog, one for the
count dictionary and one for each row of the common-files matrix. `Report.Run`
fixes one choice. Names are taken in the order they were first met.
Directories, in the count dictionary and in every row, are taken in the order
they first occur in the reported lists.

## Model

| member | source | states |
|---|---|---|
| Text.LowerChar | find.py:30 | folding a character leaves no upper-case ASCII letter; an upper-case letter becomes its own lower-case letter (its code plus 32); every other character is unchanged |
| Text.Lower | find.py:19 | `lower()` keeps the length, folds each character in place, and leaves no upper-case letter |
| Text.LowerOfLower | find.py:19 | folding an already folded string changes nothing |
| Text.LowerKeepsCaseless | find.py:30 | folding neither adds nor removes a character that has no case, such as the tab or the dot |
| Text.LowerKeepsField | find.py:30 | a folded name holds a tab or a newline exactly when the name does |
| Text.LastIndexOf | find.py:24 | `rfind` gives -1 or an index holding the character, with no later occurrence |
| Text.Extension | find.py:24-25 | the extension holds no dot; a dot-less name is its own extension; otherwise the name is the stem, a dot, then the extension |
| Text.SplitJoin | find.py:60-61 | cutting a tab-joined line at its tabs gives back the fields, when no field holds a tab |
| Text.NatToString | find.py:66-68 | a count is written as its decimal numeral: a non-empty run of digits with no leading zero, so `0` alone starts with `0` |
| Text.ParseNatToString | find.py:66 | reading a written count back gives the count |
| Text.ReadLinesOf | find.py:61-68 | writing every line followed by a newline and cutting the text at its newlines gives the lines back, when no line holds a newline |
| Seqs.FirstOccurrences | find.py:30 | the order in which keys are first inserted lists every key once and nothing else |
| Seqs.SumPermutation | find.py:51 | a sum over the names does not depend on the order the names are visited in |
| Catalog.ExtensionFilter | find.py:16-19 | no filter exactly when no extension is given; otherwise every allowed extension is lower-case |
| Catalog.AcceptsExactly | find.py:23-29 | a file passes exactly when no extension is given or its extension equals the lower-cased form of one given |
| Catalog.UpperCaseExtensionRejected | find.py:24-26 | under a non-empty filter, a file whose extension holds an upper-case letter never passes |
| Catalog.AddFile | find.py:22-30 | an accepted file adds its folded name to the keys and a rejected one adds nothing; the catalog stays lower-cased with no empty list |
| Catalog.AddFileLookup | find.py:22-30 | an accepted file appends its folded directory to the list of its folded name; no other list changes; a rejected file changes nothing |
| Catalog.GetAllFilesInDirSpec | find.py:15-30 | one folder extends each key's list at its end by that folder's accepted files in walk order; the key set grows by their folded names; the catalog stays lower-cased with no empty list |
| Catalog.AddWalksLookup | find.py:38-39 | the folder loop, from any starting catalog, appends under every name each folder's contribution in argument order |
| Catalog.AddWalksKeys | find.py:38-39 | the folder loop adds exactly the folded accepted names to the keys and keeps the catalog lower-cased with no empty list |
| Catalog.AddWalksSpec | find.py:38-39 | the two above together: the folder loop appends each folder's contribution in argument order, adds the folded accepted names to the keys and keeps the catalog lower-cased with no empty list |
| Catalog.BuildCatalogSpec | find.py:35-39 | the final catalog holds, under every name, the contributions of all folders in argument order; its keys are exactly the folded accepted names; it is lower-cased with no empty list |
| Catalog.EntryPerAcceptedFile | find.py:21-30 | a name's list has one entry per accepted file, over all folders, whose name folds to it |
| Catalog.FolderOrder | find.py:38-39 | walking `first + second` gives, under every name, the list of `first` followed by the list of `second` |
| Catalog.BuildCatalogPlain | find.py:21-39 | when no folder path and no file name holds a tab or a newline, no name and no directory of the catalog does |
| Aggregate.DupeDirsPlain | find.py:51-54 | every directory of a reported list comes from the catalog, so it holds no tab or newline when the catalog holds none |
| Aggregate.Duplicates | find.py:51-52 | the reported names are exactly those whose list has more than one entry, each with its full list |
| Aggregate.AggregateCounts | find.py:54-55 | a directory's dupe count is its number of occurrences across the reported lists; it has a count exactly when it occurs in one |
| Aggregate.OccurrencesAreMultiplicity | find.py:54-55 | that number of occurrences is the directory's multiplicity in the reported lists concatenated |
| Aggregate.AggregateCommon | find.py:56-59 | the matrix entry for two distinct directories is the sum, over reported names, of the product of their multiplicities; the diagonal is zero |
| Aggregate.AggregateShape | find.py:56-59 | the matrix stores no diagonal entry and no zero, and pairs only directories that have a count |
| Aggregate.CommonSymmetric | find.py:56-59 | entries (a, b) and (b, a) are equal |
| Aggregate.SingletonsIgnored | find.py:52 | names with a single entry contribute nothing to either table |
| Aggregate.OrderIndependent | find.py:51-59 | any two visiting orders of the same names give the same counts and the same matrix entries |
| Aggregate.CountsMatch | find.py:48-55 | the count table equals the map from each directory of a reported list to its number of occurrences |
| Aggregate.RowMatches | find.py:49-59 | a directory's row equals the map from every other directory sharing at least one reported name with it to the number shared |
| Ranking.Insert | find.py:65 | inserting adds exactly the inserted entry |
| Ranking.InsertSorted | find.py:65 | inserting into a list of non-increasing counts keeps it non-increasing |
| Ranking.SortByCount | find.py:65 | the sort returns a permutation of its input with non-increasing counts |
| Ranking.SortRanks | find.py:65-68 | sorting a listing of a dictionary keeps every key once, with its value, now by non-increasing value |
| Report.OutputPath | find.py:45-46 | a missing or empty output path becomes `./file_duplicates.txt`; any other path is used as given |
| Report.ListingShape | find.py:65-67 | iterating a dictionary gives each of its entries once, with its value |
| Report.RankedRanks | find.py:65-67 | the sorted items of a dictionary rank it: every key once, with its value, by non-increasing value |
| Report.EntriesListDuplicates | find.py:51-53 | the entry lines name every reported name exactly once, each with its full list |
| Report.SummarizeRanks | find.py:65-68 | for any iteration order of the count dictionary and of every row, the summary ranks the count table, and under each directory it ranks that directory's row |
| Report.WriteToOutput | find.py:44-68 | for any iteration orders of the catalog, the count dictionary and the rows, the report goes to the chosen path. Its entries are the reported names, each once with its list. Its summary ranks every directory of a reported list by occurrences, each with its partners ranked by files shared |
| Report.Separator | find.py:63 | the separator line is 200 `#` characters |
| Report.EntryRoundTrip | find.py:53-61 | an entry line splits back into its name and its directories |
| Report.HeadRoundTrip | find.py:66 | a summary line reads back as its directory and count, and is never taken for a partner line |
| Report.PartnerRoundTrip | find.py:68 | a partner line reads back as its directory and shared count |
| Report.ReadReportOf | find.py:50-68 | reading the written lines gives back every entry and the whole summary, when no name or directory holds a tab or a newline |
| Report.LinesNoNewline | find.py:53-68 | no written line holds a newline when no name or directory does |
| Report.ReadFileOf | find.py:50-68 | reading the text of the report file, every line followed by its newline, gives back every entry and the whole summary, when no name or directory holds a tab or a newline |
| Report.FirstMetDirs | find.py:65-67 | the first-occurrence order of the reported directories lists every counted directory once, and covers every row of the matrix |
| Report.CatalogOfWalks | find.py:35-39 | the first-met order of names lists every catalog key once; every list is the contribution of all folders |
| Report.Run | find.py:35-40 | every reported entry lists exactly the directories of the accepted files folding to its name, and more than one of them |
| Report.RunReportsDuplicates | find.py:35-52 | a name is reported exactly when more than one accepted file, over all folders, folds to it |
| Report.RunPrintable | find.py:21-68 | when no folder path and no file name holds a tab or a newline, the report of the run is printable and its file reads back as exactly its entries and summary |
| Scenarios.TwoDirsTables | find.py:51-59 | `a.txt` in `/x` and `/y` plus `b.txt` in `/x` gives count 1 for each directory and entry 1 each way between them |
| Scenarios.TwoDirsEntries | find.py:51-61 | that catalog reports only `a.txt`, on the line `a.txt<TAB>/x<TAB>/y` |
| Scenarios.MixedCaseKeys | find.py:24-30 | `A.txt` and `a.txt` both pass the filter `txt` and both fold to `a.txt` |
| Scenarios.MixedCaseMerged | find.py:30 | `A.txt` and `a.txt` in `/Data` become one name `a.txt` listing `/data` twice |
| Scenarios.MixedCaseTables | find.py:54-59 | a name listed twice in one directory counts 2 for it and pairs it with nothing |
| Scenarios.DotlessName | find.py:24-26 | a dot-less name is its own extension, compared as written: `readme` passes the filter `readme` and `README` fails it |
| Scenarios.ExtensionCaseKept | find.py:19-26 | `b.TXT` fails the filter `TXT`, `b.txt` passes it, and with no filter every file passes |
| Scenarios.DefaultPath | find.py:45-46 | with no output path, or an empty one, the report of any run goes to `./file_duplicates.txt`; any other path is used as given |

## Left out

- Argument parsing (`parse_args`, find.py:6-12) is left out: the folders, the extensions and the output path are parameters of `Report.Run`.
- `os.walk` is left out and becomes a parameter, one sequence of `(root, files)` steps per folder. The model makes no claim about which files it yields or in what order; the sub-directory list it also yields is unused by the program.
- Opening, buffering and writing the file is left out: the report is the sequence of lines written, each followed by a newline.
- Python 2's dictionary iteration order is not modelled. Every order is a parameter of `Report.WriteToOutput`, and its properties hold for every order. A row's order may also list directories the row lacks; the listing skips them. `Report.Run` picks one order: names in first-met order, and directories in the order they first occur in the reported lists, for the count dictionary and every row alike. Only the order of tied summary lines depends on this choice.
- Ranking.SortByCount: only a permutation with non-increasing counts is promised. Python's `sorted` keeps tied entries in their iteration order; the model's sort does the same, but no property states it, because that order is unspecified anyway.
- Text.Lower: folds 'A'..'Z' only. This matches `lower()` on Python 2 byte strings; Unicode case folding is not modelled.
- The program uses `dict.iteritems`, which exists only in Python 2; the model follows Python 2 semantics throughout.
- Reading a `defaultdict` entry inserts an empty entry. The summary loop does this for a directory with no partners (find.py:67). This changes nothing that is written, so it is not modelled.
- The help text at find.py:9 calls the extension match "NOT case-sensitive". The code lower-cases only the given extensions and not the file's (find.py:19, find.py:24-26), so `photo.JPG` never passes a filter. The model follows the code; see `Catalog.UpperCaseExtensionRejected` and `Scenarios.ExtensionCaseKept`.
- Report.ReadReportOf: the round trip needs every name and directory to be free of tabs and newlines. A tab in a file or directory name makes the written line ambiguous, a newline splits it in two, and the program does nothing about either. `Report.RunPrintable` shows that a run whose folder paths and file names hold neither meets this condition.
- Report.ReadFileOf: the same condition as `Report.ReadReportOf`, for the same reason.
- `main` crashes with a `TypeError` at find.py:38 when `--folders` is not given: `options.folders` is then `None`. The crash is not modelled. `Report.Run` also accepts an empty list of walks, which the program cannot receive, since `nargs='+'` demands at least one folder.
