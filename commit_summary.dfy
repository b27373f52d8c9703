/** The commit-summary pass: the repository-wide per-author commit counts
    (the `-sn --all` form of the shortlog command) read line by line, and
    written into the records the attribution pass created. */
module CommitSummary {
  import opened Wrappers
  import opened Text
  import opened Records

  /** A commit count and the author name it is for. */
  datatype SummaryEntry = SummaryEntry(commits: int, name: string)

  /** `commitCount := 0; fmt.Sscanf(field, "%d", &commitCount)`: the scanned
      value, or 0 when nothing is scanned. */
  function CommitCount(field: string): (n: int)
    ensures Int64Min <= n <= Int64Max
    ensures field == [] || !(IsDigit(field[0]) || field[0] == '+' || field[0] == '-') ==> n == 0
  {
    match ScanDecimal(field)
    case Some(v) => v
    case None => 0
  }

  /** One summary line as main.go:105-109 reads it: `None` when it has
      fewer than two fields, else the count scanned from the first field and
      the name made of the other fields joined by single spaces. Such a name
      is never empty and neither starts nor ends with white space. */
  function ParseSummaryLine(line: string): (e: Option<SummaryEntry>)
    ensures e.Some? <==> |Fields(line)| >= 2
    ensures e.Some? ==> e.value.name != []
    ensures e.Some? ==> !IsSpace(e.value.name[0]) && !IsSpace(e.value.name[|e.value.name| - 1])
  {
    var fields := Fields(line);
    if |fields| >= 2 then
      JoinSpaceTrimmed(fields[1..]);
      Some(SummaryEntry(CommitCount(fields[0]), JoinSpace(fields[1..])))
    else None
  }

  /** A line made of a count field and name words, separated by non-empty
      runs of any white space and with optional white space at either end
      (as the padded, tab-separated lines of the commit summary), gives back
      that count and the name words joined by single spaces. */
  lemma SummaryLineOfWords(count: string, names: seq<string>, gaps: seq<string>, trail: string)
    requires IsWord(count)
    requires names != [] && forall k :: 0 <= k < |names| ==> IsWord(names[k])
    requires |gaps| == 1 + |names|
    requires forall k :: 0 <= k < |gaps| ==> IsSpaces(gaps[k])
    requires forall k :: 0 < k < |gaps| ==> gaps[k] != []
    requires IsSpaces(trail)
    ensures ParseSummaryLine(Spaced([count] + names, gaps, trail)) == Some(SummaryEntry(CommitCount(count), JoinSpace(names)))
  {
    var words := [count] + names;
    forall k | 0 <= k < |words| ensures IsWord(words[k]) {
      if k > 0 {
        assert words[k] == names[k - 1];
      }
    }
    FieldsOfSpaced(words, gaps, trail);
    assert words[0] == count && words[1..] == names;
  }

  /** `line` is a summary entry for `name`. */
  ghost predicate Names(line: string, name: string) {
    ParseSummaryLine(line).Some? && ParseSummaryLine(line).value.name == name
  }

  /** The commit count of the last entry of `lines` that names `name`, or
      `default` when no entry names it. */
  function LastCommits(lines: seq<string>, name: string, default: int): int
    decreases |lines|
  {
    if lines == [] then default
    else
      var e := ParseSummaryLine(lines[|lines| - 1]);
      if e.Some? && e.value.name == name then e.value.commits
      else LastCommits(lines[..|lines| - 1], name, default)
  }

  /** The count of the last entry naming `name` is the one that stays. */
  lemma {:induction false} LastCommitsAt(lines: seq<string>, name: string, default: int, k: nat)
    requires k < |lines| && Names(lines[k], name)
    requires forall j :: k < j < |lines| ==> !Names(lines[j], name)
    ensures LastCommits(lines, name, default) == ParseSummaryLine(lines[k]).value.commits
    decreases |lines|
  {
    var n := |lines|;
    if k < n - 1 {
      assert !Names(lines[n - 1], name);
      var init := lines[..n - 1];
      forall j | k < j < |init| ensures !Names(init[j], name) {
        assert init[j] == lines[j];
      }
      assert init[k] == lines[k];
      LastCommitsAt(init, name, default, k);
    }
  }

  /** With no entry naming `name`, the default stays. */
  lemma {:induction false} LastCommitsNone(lines: seq<string>, name: string, default: int)
    requires forall k :: 0 <= k < |lines| ==> !Names(lines[k], name)
    ensures LastCommits(lines, name, default) == default
    decreases |lines|
  {
    var n := |lines|;
    if n > 0 {
      assert !Names(lines[n - 1], name);
      var init := lines[..n - 1];
      forall j | 0 <= j < |init| ensures !Names(init[j], name) {
        assert init[j] == lines[j];
      }
      LastCommitsNone(init, name, default);
    }
  }

  /** The map after the summary `lines` are applied to `m`: the same keys,
      and each record's commit count replaced by that of the last entry
      naming it, when there is one. The summary creates no record, drops
      none, and changes nothing but commit counts. */
  function SummaryMerge(m: ContributorMap, lines: seq<string>): (r: ContributorMap)
    ensures r.Keys == m.Keys
    ensures forall key :: key in m ==> r[key].name == m[key].name && r[key].lineCount == m[key].lineCount
  {
    map key | key in m :: m[key].(commits := LastCommits(lines, key, m[key].commits))
  }

  /** So the summary keeps the records well formed. */
  lemma SummaryMergeKeepsRecords(m: ContributorMap, lines: seq<string>)
    requires WellFormed(m)
    ensures WellFormed(SummaryMerge(m, lines))
  {
  }

  /** An entry overwrites the commit count: the last entry naming a
      recorded author decides it, whatever the count was before. */
  lemma SummaryOverwrites(m: ContributorMap, lines: seq<string>, line: string)
    requires ParseSummaryLine(line).Some? && ParseSummaryLine(line).value.name in m
    ensures var e := ParseSummaryLine(line).value;
      SummaryMerge(m, lines + [line])[e.name].commits == e.commits
  {
    var all := lines + [line];
    assert all[|all| - 1] == line;
  }

  /** A line with fewer than two fields is skipped. */
  lemma SummaryShortLineSkipped(m: ContributorMap, lines: seq<string>, line: string)
    requires |Fields(line)| < 2
    ensures SummaryMerge(m, lines + [line]) == SummaryMerge(m, lines)
  {
    var all := lines + [line];
    assert all[..|all| - 1] == lines;
  }

  lemma {:induction false} LastCommitsSettled(lines: seq<string>, name: string, default: int)
    ensures LastCommits(lines, name, LastCommits(lines, name, default)) == LastCommits(lines, name, default)
    decreases |lines|
  {
    if lines != [] {
      var e := ParseSummaryLine(lines[|lines| - 1]);
      if !(e.Some? && e.value.name == name) {
        LastCommitsSettled(lines[..|lines| - 1], name, default);
      }
    }
  }

  /** Applying the same summary twice gives the same map as applying it once. */
  lemma SummaryMergeIdempotent(m: ContributorMap, lines: seq<string>)
    ensures SummaryMerge(SummaryMerge(m, lines), lines) == SummaryMerge(m, lines)
  {
    var once := SummaryMerge(m, lines);
    var twice := SummaryMerge(once, lines);
    forall key | key in m ensures twice[key] == once[key] {
      LastCommitsSettled(lines, key, m[key].commits);
    }
  }

  lemma {:induction false} LastCommitsUnnamed(lines: seq<string>, name: string, default: int)
    requires name == [] || IsSpace(name[0]) || IsSpace(name[|name| - 1])
    ensures LastCommits(lines, name, default) == default
    decreases |lines|
  {
    if lines != [] {
      LastCommitsUnnamed(lines[..|lines| - 1], name, default);
    }
  }

  /** Summary names are joined from fields, so a recorded author whose name
      is empty or starts or ends with white space never gets a commit count
      from the summary. */
  lemma SummaryMissesUntrimmedNames(m: ContributorMap, lines: seq<string>, key: string)
    requires key in m
    requires key == [] || IsSpace(key[0]) || IsSpace(key[|key| - 1])
    ensures SummaryMerge(m, lines)[key] == m[key]
  {
    LastCommitsUnnamed(lines, key, m[key].commits);
  }

  /** A line whose first field is not a number is still applied: the
      record it names gets a commit count of 0, whatever it had before, and
      no record is added or dropped. */
  lemma NonNumericCountApplied(m: ContributorMap, lines: seq<string>, line: string)
    requires |Fields(line)| >= 2
    requires ScanDecimal(Fields(line)[0]).None?
    requires JoinSpace(Fields(line)[1..]) in m
    ensures var name := JoinSpace(Fields(line)[1..]);
      SummaryMerge(m, lines + [line]).Keys == m.Keys &&
      SummaryMerge(m, lines + [line])[name].commits == 0
  {
    SummaryOverwrites(m, lines, line);
  }

  lemma BobLine()
    ensures ParseSummaryLine("3 Bob") == Some(SummaryEntry(3, "Bob"))
  {
    assert Spaced(["3", "Bob"], ["", " "], "") == "3 Bob";
    SummaryLineOfWords("3", ["Bob"], ["", " "], "");
    assert DecimalValue("3") == 3;
    ScanDecimalDigits("", "3", "");
    assert "" + ("3" + "") == "3";
  }

  lemma CarolLine()
    ensures ParseSummaryLine("1 Carol").Some? && ParseSummaryLine("1 Carol").value.name == "Carol"
  {
    assert Spaced(["1", "Carol"], ["", " "], "") == "1 Carol";
    SummaryLineOfWords("1", ["Carol"], ["", " "], "");
  }

  lemma BobLastCommits()
    ensures LastCommits(["3 Bob", "1 Carol"], "Bob", 0) == 3
  {
    BobLine();
    CarolLine();
    var lines := ["3 Bob", "1 Carol"];
    assert lines[..1] == ["3 Bob"];
    assert LastCommits(lines, "Bob", 0) == LastCommits(["3 Bob"], "Bob", 0);
  }

  /** The summary "3 Bob", "1 Carol" over Bob's record: Bob's commit count
      becomes 3, and Carol, who has no record, gets none. */
  lemma SummaryExample()
    ensures SummaryMerge(map["Bob" := FileContributor("Bob", 0, 30)], ["3 Bob", "1 Carol"]) ==
      map["Bob" := FileContributor("Bob", 3, 30)]
  {
    BobLastCommits();
  }

  /** One more summary line decides the count of the name it gives. */
  /** What one summary line does to the records: an entry naming a recorded
      author sets that record's commit count; anything else changes
      nothing. */
  function ApplyLine(m: ContributorMap, line: string): ContributorMap {
    var e := ParseSummaryLine(line);
    if e.Some? && e.value.name in m then m[e.value.name := m[e.value.name].(commits := e.value.commits)]
    else m
  }

  /** The summary is its lines applied one after the other. */
  lemma SummaryMergeStep(m: ContributorMap, lines: seq<string>, line: string)
    ensures SummaryMerge(m, lines + [line]) == ApplyLine(SummaryMerge(m, lines), line)
  {
    var all := lines + [line];
    assert all[..|all| - 1] == lines;
    assert all[|all| - 1] == line;
  }

  /** The body of the loop over the commit summary (main.go:105-113): one
      line read into the records. */
  method ApplyEntry(m: ContributorMap, line: string) returns (r: ContributorMap)
    ensures r == ApplyLine(m, line)
  {
    r := m;
    var fields := Fields(line);
    if |fields| >= 2 {
      var commitCount := 0;
      var scanned := ScanDecimal(fields[0]);
      if scanned.Some? {
        commitCount := scanned.value;
      }
      var name := JoinSpace(fields[1..]);
      assert ParseSummaryLine(line) == Some(SummaryEntry(commitCount, name));
      if name in r {
        var contrib := r[name];
        contrib := contrib.(commits := commitCount);
        r := r[name := contrib];
      }
    }
  }

  /** `for scanner.Scan() { ... }` over the commit summary (main.go:103-115). */
  method ApplySummary(m0: ContributorMap, output: string) returns (m: ContributorMap)
    ensures m == SummaryMerge(m0, SplitLines(output))
  {
    var lines := SplitLines(output);
    m := m0;
    var i := 0;
    while i < |lines|
      invariant 0 <= i <= |lines|
      invariant m == SummaryMerge(m0, lines[..i])
    {
      SummaryMergeStep(m0, lines[..i], lines[i]);
      assert lines[..i + 1] == lines[..i] + [lines[i]];
      m := ApplyEntry(m, lines[i]);
      i := i + 1;
    }
    assert lines[..i] == lines;
  }
}
