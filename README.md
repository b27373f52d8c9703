# CodeMeter: a Dafny model of the directory scan

CodeMeter is a small interactive tool. Given a directory, it counts the
files and lines in it. When `git rev-parse --is-inside-work-tree` succeeds in
the directory, it also lists the contributors: the lines `git blame` attributes to each author, and
the author's commit count from `git shortlog`. This project models the core
of that tool, `scanDirectory` and `getGitContributors` in `main.go`, and
proves properties of the model.

The model has eight modules:

- `Wrappers`: the `Option` type used for results that may be absent.
- `Text`: the pieces of Go's standard library the tool relies on, written
  out. These are the `bufio.Scanner` line splitter (`ScanLines`, which drops
  one trailing `\r` per line), `strings.Fields` with ASCII white space,
  `strings.Join` with a single space, `strings.HasPrefix`,
  `strings.Contains`, and the `%d` verb of `fmt.Sscanf` into a 64-bit `int`.
- `FileTree`: the directory tree, and the order in which `filepath.Walk`
  calls a walk function. A tree entry is a file, a directory, or an entry
  the walk cannot read. Each file carries what opening and reading it gives.
  It also carries the output of its `git blame --line-porcelain` command,
  or `None` when that command fails.
- `Records`: `FileContributor`, the contributor map, and Go's zero-value
  map lookup.
- `Attribution`: the blame pass. Each `author <name>` line adds one line to
  `<name>`'s record.
- `CommitSummary`: the `git shortlog -sn --all` pass. It writes commit
  counts into the records that already exist.
- `Contributors`: `getGitContributors`.
- `Scan`: the `DirStats` class, the counting walk, and `scanDirectory`.

Each walk is modelled twice:

- As a method. It recurses over the tree and loops over each directory's
  children, updating the counters or the map in place.
- As a fold of the walk function over `Visits`, the sequence of calls
  `filepath.Walk` makes.

Each method's postcondition says that it ends in the state, and with the
error, that the fold gives. The lemmas about the fold then say what the
counts and records are.

The git commands and the file system are inputs of the model:

- whether `git rev-parse --is-inside-work-tree` succeeds (`probe`). Only
  its exit status counts: inside a `.git` directory or a bare repository it
  prints `false` but succeeds, and the repository flag is set all the same;
- the shortlog output, or `None` when that command fails;
- the tree itself.

### Where the code differs from what one might expect

The model follows the code in each case below.

- A file that cannot be opened or read stops the counting walk. But
  `scanDirectory` drops that error: main.go:124 assigns it, and main.go:158
  overwrites it before it is read. So the scan still succeeds, with the
  counts reached up to that file. `Scan.ScanDirectory` states this: the
  counters are those of the walk, the error is never the walk's, and the
  scan's error comes from the contributor pipeline alone.
- Only hidden files are skipped by name. The counting walk descends into
  every directory except `.git`, hidden directories included
  (`Scan.DirectoryDescended`). A file in a hidden directory is counted when
  its own name is not hidden and its path does not contain `.git`
  (`Scan.HiddenDirectoryFileCounted`). So nothing under `.github` is counted:
  that path contains `.git` (`Scan.GithubCountsNothing`).
- A shortlog line whose first field is not a number is still applied, with
  a commit count of 0. This is because `commitCount` starts at 0 and the
  failure of `Sscanf` is ignored (`CommitSummary.NonNumericCountApplied`).
- The counting walk skips any path that contains `.git` anywhere. So a scan
  rooted at a path such as `site.github.io` counts no files
  (`Scan.NothingCountedBelowGit` holds for the root path too).
- The attribution walk does not filter anything. Tracked hidden files such
  as `.gitignore`, and the files under `.github`, are attributed by blame.
  The counting walk skips them, so the two passes disagree on such files.
  Blame fails on the untracked files inside `.git`, and that failure is
  ignored. But an entry that cannot be read, even inside `.git`, still
  stops the attribution walk, and then fails the scan
  (`Contributors.ContributorsOfFails`).

## Model

| member | source | states |
|---|---|---|
| Text.SplitLinesCount | main.go:148-151 | The scanner yields one token per newline, plus one for a non-empty last line with no newline; an empty text yields none |
| Text.SplitLines | main.go:78-81 | `bufio.ScanLines`: no token holds a newline, and an input yields tokens exactly when it is not empty |
| Text.SplitLinesOfJoin | main.go:78-81 | `bufio.ScanLines` gives back the lines of a text: every newline-terminated line, then the unterminated last line when it is not empty, when no line holds a newline or ends in a carriage return |
| Text.Fields | main.go:105 | Every field is a non-empty run of characters that are not white space |
| Text.FieldsOfJoin | main.go:105-109 | Splitting a single-space join of fields into fields gives the same fields back |
| Text.FieldsOfSpaced | main.go:105 | Words separated by non-empty runs of any white space, with optional white space before the first and after the last, split back into exactly those words |
| Text.JoinSpace | main.go:109 | `strings.Join` with one space: nothing joins to the empty string, and a join has one character more per word after the first than the words together |
| Text.JoinSpaceTrimmed | main.go:109 | A single-space join of fields is empty exactly when there are no fields, and never starts or ends with white space |
| Text.ScanDecimal | main.go:107-108 | `%d` stores a value only when the field starts with a digit, after an optional sign, and any value it stores fits a 64-bit int |
| Text.ScanDecimalDigits | main.go:107-108 | A field made of an optional `+` or `-`, digits, and a tail that does not start with a digit stores the signed value of the digits when it fits a 64-bit int, and nothing when it does not |
| Text.HasPrefix | main.go:82 | A string starts with a prefix exactly when it is at least as long and agrees with the prefix character by character |
| Text.Contains | main.go:137 | A string contains a substring exactly when the substring occurs in it at some index |
| FileTree.Visits | main.go:67 | The walk calls the walk function first on the root entry itself; directories are listed before the entries below them |
| FileTree.ChildVisitsPrefix | main.go:67 | The calls made for a directory's first i children come before those made for later children |
| Records.Lookup | main.go:84 | Looking up a key gives its record when the key is in the map, and the zero record when it is not |
| Attribution.AuthorLineIff | main.go:82-83 | A blame line attributes a line to an author exactly when it is `author ` followed by that name, verbatim |
| Attribution.AuthorsOccur | main.go:82-87 | An author gets a record exactly when at least one blame line names it |
| Attribution.BlameMerge | main.go:80-88 | After attribution an author has a record exactly when it had one or some line names it; a named author's record takes its name and gains one line per author line naming it; other records are unchanged |
| Attribution.Bump | main.go:84-87 | One author line: the author's record, or the zero record, takes the author's name and one more line, keeps its commits; no other record changes |
| Attribution.BlameMergeStep | main.go:82-87 | An author line adds one line to that author's record and sets its name; creates the record from the zero record if it is missing; any other line changes nothing |
| Attribution.BlameMergeWellFormed | main.go:84-87 | Attribution keeps every record filed under its own name with at least one line, and adds exactly the keys of the authors named |
| Attribution.BlameMergeAppend | main.go:67-91 | Attributing two outputs in turn equals attributing their concatenation |
| Attribution.AttributeBlame | main.go:78-89 | The loop over one file's blame output leaves the map that attribution of its lines gives |
| Attribution.AttributeVisit | main.go:67-90 | The walk function never prunes; it returns the walk's own error, skips directories, ignores a failing blame, and otherwise attributes the file's lines |
| Attribution.AttributionStep | main.go:67-90 | The walk function fails exactly on an entry handed over with an error, with that entry's error; only a file with blame output changes the map, and no record is dropped |
| Attribution.AttributionRun | main.go:67-91 | The attribution walk never drops a record, and ends only with an entry error, never an open or read error |
| Attribution.AttributionRunFails | main.go:67-94 | The attribution walk fails exactly when some entry cannot be read, and then with the error of the first such entry |
| Attribution.AttributionRunAppend | main.go:67-91 | Walking two runs of visits in turn equals walking them together; an error in the first ends the walk |
| Attribution.AttributionRunReadable | main.go:67-91 | When every entry can be read, the walk ends without error, with all blame lines of all files attributed |
| Attribution.AttributionFailureIgnored | main.go:74-77 | A file whose blame command fails leaves the walk's result unchanged, as if the file were absent |
| Attribution.AttributionRunWellFormed | main.go:67-91 | The attribution walk keeps records well formed, even when an error ends it early |
| Attribution.AttributionWalk | main.go:67-91 | The recursive walk ends with the map and error that folding the walk function over the visits gives |
| CommitSummary.CommitCount | main.go:107-108 | The commit count fits a 64-bit int, and is 0 when the first field starts with neither a digit nor a sign |
| CommitSummary.ParseSummaryLine | main.go:105-109 | A line yields an entry exactly when it has at least two fields; the name is non-empty and neither starts nor ends with white space |
| CommitSummary.SummaryLineOfWords | main.go:105-109 | A count field followed by name words, separated by non-empty runs of any white space and with optional white space at either end, as the padded, tab-separated summary lines are, parses to that count and the name words joined by single spaces |
| CommitSummary.SummaryMerge | main.go:104-114 | The summary creates no record and drops none; it changes no name and no line count |
| CommitSummary.SummaryMergeKeepsRecords | main.go:110-113 | Since it changes nothing but commit counts, the summary keeps records well formed |
| CommitSummary.LastCommitsAt | main.go:104-113 | The count of the last entry naming an author is the one that stays |
| CommitSummary.LastCommitsNone | main.go:104-113 | With no entry naming an author, its commit count stays as it was |
| CommitSummary.SummaryOverwrites | main.go:110-112 | The last entry naming a recorded author sets its commit count, whatever the count was before |
| CommitSummary.SummaryShortLineSkipped | main.go:106 | A line with fewer than two fields changes nothing |
| CommitSummary.SummaryMergeIdempotent | main.go:103-115 | Applying the same summary twice gives the same map as applying it once |
| CommitSummary.SummaryMissesUntrimmedNames | main.go:105-110 | A recorded author whose name is empty, or starts or ends with white space, never gets a commit count from the summary |
| CommitSummary.NonNumericCountApplied | main.go:106-112 | A line of two or more fields whose first field is not a number still sets the named record's commit count to 0, and adds or drops no record |
| CommitSummary.SummaryExample | main.go:103-115 | Over Bob's record, the entries "3 Bob" and "1 Carol" set Bob's count to 3 and create no record for Carol |
| CommitSummary.SummaryMergeStep | main.go:104-114 | The summary is its lines applied one after the other: an entry naming a recorded author sets that record's commit count, and any other line changes nothing |
| CommitSummary.ApplyEntry | main.go:105-113 | The loop body reads one line into the records exactly as that one-line step does |
| CommitSummary.ApplySummary | main.go:103-115 | The loop over the shortlog output leaves the map that the summary merge of its lines gives |
| Contributors.ContributorsOf | main.go:58-117 | When the repository probe fails: no records, not a repository, no error; when it succeeds: a repository, with well-formed records even when an error cut the passes short |
| Contributors.ContributorsOfReadable | main.go:58-117 | With every entry readable and shortlog succeeding: no error; one record per author in the blame output; its line count is the number of its author lines; its commit count is that of its last shortlog entry, or 0 |
| Contributors.ContributorsOfFails | main.go:67-101 | When the repository probe succeeds, the pipeline fails exactly when the attribution walk meets an unreadable entry (a walk error) or shortlog fails (a summary error, only when the walk succeeded); when it fails, the pipeline never does |
| Contributors.GetGitContributors | main.go:58-117 | The method returns exactly what `ContributorsOf` describes, including which error stops it: the walk's error, then shortlog's failure |
| Scan.CountRunNoFailure | main.go:124-156 | With no failure, the walk ends without error, having added one per counted file to the file counter and each counted file's line count to the line counter |
| Scan.Counted | main.go:133-139 | A file is counted exactly when its name does not start with a dot and its path has no occurrence of `.git` |
| Scan.CountStep | main.go:124-156 | One call adds one file exactly for a counted file, adds that file's lines when it does not fail, never lowers the line count, and fails exactly on an unreadable entry or a counted file that does not read to its end |
| Scan.CountRun | main.go:124-156 | The walk never lowers either counter and adds at most one file per visit |
| Scan.CountRunFails | main.go:124-156 | The counting walk fails exactly when some entry cannot be read or some counted file cannot be opened or read to its end |
| Scan.CountRunFileFailure | main.go:141-154 | A counted file that cannot be opened or read ends the walk with its error; it is counted as a file; the lines read before a read error are counted; nothing after it is |
| Scan.CountRunEntryFailure | main.go:124-127 | An entry the walk cannot read ends it with that error and the counts reached before it |
| Scan.SumIgnoresOrder | main.go:141-151 | A sum over the visits is the same for any permutation of them |
| Scan.CountRunIgnoresOrder | main.go:124-156 | A walk with no failure counts the same in whatever order it visits the entries |
| Scan.NothingCountedBelowGit | main.go:137-139 | Nothing at or below a path containing `.git` is counted, whether or not `.git` directories are pruned |
| Scan.GitNamedSubtreeCountsNothing | main.go:129-139 | The subtree of a directory whose name contains `.git` adds nothing to either counter, whether or not the walk descends into it |
| Scan.GithubCountsNothing | main.go:129-139 | The walk descends into a `.github` directory, yet nothing below it is counted |
| Scan.DirectoryDescended | main.go:129-135 | Every child of a directory not named `.git`, hidden or not, is visited |
| Scan.SumRemove | main.go:141-151 | A sum over the visits is exactly the weight of any one visit plus the sum over the others |
| Scan.CountedMember | main.go:133-151 | A visited file adds one to the counted files exactly when it is counted, and adds exactly its own lines to the counted lines, nothing when it is not counted |
| Scan.HiddenDirectoryFileCounted | main.go:129-151 | A file in a directory not named `.git`, hidden or not, is visited; it adds one file and exactly its lines when its own name is not hidden and its path does not contain `.git`, and nothing otherwise |
| Scan.DirStats.constructor | main.go:120-122 | New stats start with zero counters, an empty contributor map and no repository flag |
| Scan.DirStats.CountLines | main.go:148-151 | The scanning loop adds exactly the file's line count to the line counter |
| Scan.DirStats.CountVisit | main.go:124-156 | The walk function updates the counters and returns the error given by the counting step; it prunes exactly the directories named `.git` |
| Scan.DirStats.CountWalk | main.go:124-156 | The recursive walk leaves the counters, and returns the error, that folding the walk function over the pruned visits gives |
| Scan.ScanDirectory | main.go:119-166 | The counters are those of the counting walk even when it failed; its error is dropped; the contributor error, when any, is returned with empty records and the repository flag off; otherwise the pipeline's records and flag are kept, and they are well formed |

## Left out

- `main`, `repl`, `handleScanCommand` and `handleSaveCommand` (main.go:13-42, 168 onward): console input and output, report formatting and file writing.
- The git commands are not run: their success and output are inputs. This covers the repository probe, the per-file blame (with its working directory and base name) and the shortlog. Their standard error is not modelled.
- The operating-system side of `filepath.Walk`: children come in the order the tree gives, not sorted by name. Symbolic links are not followed, and are not modelled as a separate kind of entry. `filepath.Join` and `filepath.Clean` are modelled as joining with `/`, without lexical clean-up of `..` or repeated separators.
- `bufio.Scanner`'s 64 KiB token limit: a longer line is an error in Go, but here it is a line like any other.
- The blame and shortlog loops ignore `scanner.Err()`. The model reads their whole output, which is the same thing for in-memory readers.
- `strings.Fields` splits on Unicode white space. The model uses the ASCII white-space characters only.
- The `LastCommit` field of `FileContributor` is never written by the core, and is not modelled.
- Scan.DirStats.CountWalk: the counters are unbounded integers. Go's `int` would wrap around after 2^63 increments.
- Attribution.BlameMerge: unbounded integers as well. A per-author line count cannot wrap in the model.
- The errors are modelled as the entry path and the kind of failure. The message text and the wrapped operating-system error are left out.
