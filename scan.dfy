/** `scanDirectory` (main.go:119-166): the counting walk over the tree, which
    fills the file and line counters of a `DirStats`, then the contributor
    pipeline, whose records and repository flag complete it. */
module Scan {
  import opened Wrappers
  import opened Text
  import opened FileTree
  import opened Records
  import opened Contributors

  // ---------------------------------------------------------------------
  // The counting walk as a function of the visits
  // ---------------------------------------------------------------------

  /** The two counters, and the error that ended the counting walk, if any. */
  datatype Tally = Tally(files: int, lines: int, error: Option<WalkError>)

  /** The counting walk counts a file unless its name is hidden
      (dot-prefixed) or its whole path contains `.git`. */
  function Counted(path: string, name: string): (counted: bool)
    ensures counted <==> (name == [] || name[0] != '.') && forall i :: !OccursAt(path, GitDir, i)
  {
    !HasPrefix(name, ".") && !Contains(path, GitDir)
  }

  /** What the counting walk function does with one entry, from the
      counters `files` and `lines`: an entry handed over with an error ends
      the walk with it; directories and files that are not counted change
      nothing; a counted file adds one file before it is opened, then its
      lines, and a failure to open or read it ends the walk with the lines
      read so far added. */
  function CountStep(files: int, lines: int, v: Visit): (t: Tally)
    ensures t.files == files + FileWeight(v)
    ensures t.error.None? ==> t.lines == lines + FileLines(v)
    ensures lines <= t.lines
    ensures t.error.Some? <==> v.node.Unreadable? || (IsCountedFile(v) && !v.node.data.Readable?)
  {
    match v.node
    case Unreadable(_) => Tally(files, lines, Some(EntryFailed(v.path)))
    case Dir(_, _) => Tally(files, lines, None)
    case File(name, data, _) =>
      if !Counted(v.path, name) then Tally(files, lines, None)
      else
        match data
        case Readable(text) => Tally(files + 1, lines + LineCount(text), None)
        case OpenFails => Tally(files + 1, lines, Some(OpenFailed(v.path)))
        case ReadFails(prefix) => Tally(files + 1, lines + LineCount(prefix), Some(ReadFailed(v.path)))
  }

  /** The counting walk function applied to the visits in turn, up to the
      first error. */
  function CountRun(files: int, lines: int, vs: seq<Visit>): (t: Tally)
    ensures files <= t.files <= files + |vs|
    ensures lines <= t.lines
    decreases |vs|
  {
    if vs == [] then Tally(files, lines, None)
    else
      var t := CountStep(files, lines, vs[0]);
      if t.error.Some? then t else CountRun(t.files, t.lines, vs[1..])
  }

  lemma {:induction false} CountRunAppend(files: int, lines: int, a: seq<Visit>, b: seq<Visit>)
    ensures CountRun(files, lines, a + b) ==
      var t := CountRun(files, lines, a);
      if t.error.Some? then t else CountRun(t.files, t.lines, b)
    decreases |a|
  {
    if a == [] {
      assert a + b == b;
    } else {
      assert (a + b)[0] == a[0];
      assert (a + b)[1..] == a[1..] + b;
      var t := CountStep(files, lines, a[0]);
      if t.error.None? {
        CountRunAppend(t.files, t.lines, a[1..], b);
      }
    }
  }

  // ---------------------------------------------------------------------
  // The counts as sums over the counted files
  // ---------------------------------------------------------------------

  predicate IsCountedFile(v: Visit) {
    v.node.File? && Counted(v.path, v.node.name)
  }

  /** No entry ends the counting walk: every entry can be read, and every
      counted file opens and reads to its end. */
  predicate NoCountFailure(vs: seq<Visit>) {
    forall k :: 0 <= k < |vs| ==>
      !vs[k].node.Unreadable? && (IsCountedFile(vs[k]) ==> vs[k].node.data.Readable?)
  }

  /** The total of a weight over the visits. */
  function Sum(vs: seq<Visit>, weight: Visit -> nat): nat
    decreases |vs|
  {
    if vs == [] then 0 else weight(vs[0]) + Sum(vs[1..], weight)
  }

  /** One for a counted file, else nothing. */
  function FileWeight(v: Visit): nat {
    if IsCountedFile(v) then 1 else 0
  }

  /** The lines of a counted file that reads to its end, else nothing. */
  function FileLines(v: Visit): nat {
    if IsCountedFile(v) && v.node.data.Readable? then LineCount(v.node.data.text) else 0
  }

  /** The number of counted files among the visits. */
  function CountedFiles(vs: seq<Visit>): nat {
    Sum(vs, FileWeight)
  }

  /** The total of the lines of the counted files among the visits. */
  function CountedLines(vs: seq<Visit>): nat {
    Sum(vs, FileLines)
  }

  /** When nothing fails, the walk ends without error, having added one
      file per counted file and that file's newline-delimited line count
      per counted file. */
  lemma {:induction false} CountRunNoFailure(files: int, lines: int, vs: seq<Visit>)
    requires NoCountFailure(vs)
    ensures CountRun(files, lines, vs) == Tally(files + CountedFiles(vs), lines + CountedLines(vs), None)
    decreases |vs|
  {
    if vs != [] {
      var t := CountStep(files, lines, vs[0]);
      assert t.error.None?;
      CountRunNoFailure(t.files, t.lines, vs[1..]);
    }
  }

  /** The counting walk fails exactly when some entry cannot be read or
      some counted file cannot be opened or read to its end. */
  lemma {:induction false} CountRunFails(files: int, lines: int, vs: seq<Visit>)
    ensures CountRun(files, lines, vs).error.None? <==> NoCountFailure(vs)
    decreases |vs|
  {
    if vs != [] {
      var t := CountStep(files, lines, vs[0]);
      if t.error.None? {
        CountRunFails(t.files, t.lines, vs[1..]);
        assert NoCountFailure(vs) <==> NoCountFailure(vs[1..]) by {
          assert forall k :: 0 < k < |vs| ==> vs[k] == vs[1..][k - 1];
        }
      }
    }
  }

  lemma {:induction false} SumAppend(a: seq<Visit>, b: seq<Visit>, weight: Visit -> nat)
    ensures Sum(a + b, weight) == Sum(a, weight) + Sum(b, weight)
    decreases |a|
  {
    if a == [] {
      assert a + b == b;
    } else {
      assert (a + b)[0] == a[0];
      assert (a + b)[1..] == a[1..] + b;
      SumAppend(a[1..], b, weight);
    }
  }

  lemma SumSingle(v: Visit, weight: Visit -> nat)
    ensures Sum([v], weight) == weight(v)
  {
    assert [v][1..] == [];
  }

  lemma CountedAppend(a: seq<Visit>, b: seq<Visit>)
    ensures CountedFiles(a + b) == CountedFiles(a) + CountedFiles(b)
    ensures CountedLines(a + b) == CountedLines(a) + CountedLines(b)
  {
    SumAppend(a, b, FileWeight);
    SumAppend(a, b, FileLines);
  }

  /** The failure that ends the walk: a counted file that cannot be opened
      or read has already been counted as a file, the lines read before a
      read error are counted too, and nothing after it is. */
  lemma CountRunFileFailure(files: int, lines: int, before: seq<Visit>, v: Visit, after: seq<Visit>)
    requires NoCountFailure(before)
    requires IsCountedFile(v) && !v.node.data.Readable?
    ensures CountRun(files, lines, before + [v] + after) ==
      Tally(files + CountedFiles(before) + 1,
            lines + CountedLines(before) + (if v.node.data.ReadFails? then LineCount(v.node.data.prefix) else 0),
            Some(if v.node.data.OpenFails? then OpenFailed(v.path) else ReadFailed(v.path)))
  {
    CountRunAppend(files, lines, before + [v], after);
    CountRunAppend(files, lines, before, [v]);
    CountRunNoFailure(files, lines, before);
  }

  /** An entry the walk cannot read ends it, with the counts reached before it. */
  lemma CountRunEntryFailure(files: int, lines: int, before: seq<Visit>, v: Visit, after: seq<Visit>)
    requires NoCountFailure(before)
    requires v.node.Unreadable?
    ensures CountRun(files, lines, before + [v] + after) ==
      Tally(files + CountedFiles(before), lines + CountedLines(before), Some(EntryFailed(v.path)))
  {
    CountRunAppend(files, lines, before + [v], after);
    CountRunAppend(files, lines, before, [v]);
    CountRunNoFailure(files, lines, before);
  }

  /** Taking the first element off `a` and a matching element off `b`
      leaves two sequences with the same elements. */
  lemma MultisetRemoveBoth(a: seq<Visit>, b: seq<Visit>, j: nat)
    requires multiset(a) == multiset(b)
    requires a != [] && j < |b| && b[j] == a[0]
    ensures multiset(a[1..]) == multiset(b[..j] + b[j + 1..])
  {
    assert b == b[..j] + [b[j]] + b[j + 1..];
    assert multiset(b[..j] + b[j + 1..]) == multiset(b) - multiset{b[j]};
    assert a == [a[0]] + a[1..];
  }

  /** An element of `b` by value has an index in `b`. */
  lemma IndexOf(b: seq<Visit>, x: Visit) returns (j: nat)
    requires x in multiset(b)
    ensures j < |b| && b[j] == x
  {
    assert x in b;
    j :| 0 <= j < |b| && b[j] == x;
  }

  /** A visit adds exactly its weight to a sum over the visits. */
  lemma SumRemove(b: seq<Visit>, j: nat, weight: Visit -> nat)
    requires j < |b|
    ensures Sum(b, weight) == Sum(b[..j] + b[j + 1..], weight) + weight(b[j])
  {
    var before, x, after := b[..j], b[j], b[j + 1..];
    assert b == (before + [x]) + after;
    SumAppend(before + [x], after, weight);
    SumAppend(before, [x], weight);
    SumAppend(before, after, weight);
    assert [x][1..] == [];
  }

  /** A sum over the visits does not depend on their order. */
  lemma {:induction false} SumIgnoresOrder(a: seq<Visit>, b: seq<Visit>, weight: Visit -> nat)
    requires multiset(a) == multiset(b)
    ensures Sum(a, weight) == Sum(b, weight)
    decreases |a|
  {
    if a == [] {
      assert |b| == |multiset(b)| == 0;
    } else {
      var j := IndexOf(b, a[0]);
      MultisetRemoveBoth(a, b, j);
      SumIgnoresOrder(a[1..], b[..j] + b[j + 1..], weight);
      SumRemove(b, j, weight);
    }
  }

  /** A walk that meets no failure counts the same, in whatever order it
      visits the entries. */
  lemma CountRunIgnoresOrder(files: int, lines: int, a: seq<Visit>, b: seq<Visit>)
    requires multiset(a) == multiset(b)
    requires NoCountFailure(a)
    ensures CountRun(files, lines, a) == CountRun(files, lines, b)
  {
    forall k | 0 <= k < |b|
      ensures !b[k].node.Unreadable? && (IsCountedFile(b[k]) ==> b[k].node.data.Readable?)
    {
      assert b[k] in multiset(a);
    }
    CountRunNoFailure(files, lines, a);
    CountRunNoFailure(files, lines, b);
    SumIgnoresOrder(a, b, FileWeight);
    SumIgnoresOrder(a, b, FileLines);
  }

  // ---------------------------------------------------------------------
  // Paths below `.git`
  // ---------------------------------------------------------------------

  lemma ContainsExtended(s: string, more: string, sub: string)
    requires Contains(s, sub)
    ensures Contains(s + more, sub)
  {
    var i: nat :| OccursAt(s, sub, i);
    assert (s + more)[i..i + |sub|] == s[i..i + |sub|];
    assert OccursAt(s + more, sub, i);
  }

  /** The path of an entry whose name contains `.git` contains it too. */
  lemma GitNamePath(path: string, name: string)
    requires Contains(name, GitDir)
    ensures Contains(ChildPath(path, name), GitDir)
  {
    var i: nat :| OccursAt(name, GitDir, i);
    var p := ChildPath(path, name);
    var j := |path| + 1 + i;
    assert p == (path + "/") + name;
    assert p[j..j + |GitDir|] == name[i..i + |GitDir|];
    assert OccursAt(p, GitDir, j);
  }

  /** Nothing at or below a path that contains `.git` is counted, whether
      or not the walk prunes `.git` directories: the path filter alone
      keeps the whole `.git` subtree out of both counters. */
  lemma {:induction false} NothingCountedBelowGit(path: string, n: Node, pruneGit: bool)
    requires Contains(path, GitDir)
    ensures CountedFiles(Visits(path, n, pruneGit)) == 0
    ensures CountedLines(Visits(path, n, pruneGit)) == 0
    decreases n, 1
  {
    SumSingle(Visit(path, n), FileWeight);
    SumSingle(Visit(path, n), FileLines);
    if n.Dir? && !(pruneGit && n.name == GitDir) {
      ChildrenNothingCounted(path, n, |n.children|, pruneGit);
      CountedAppend([Visit(path, n)], ChildVisits(path, n, |n.children|, pruneGit));
    }
  }

  lemma {:induction false} ChildrenNothingCounted(path: string, n: Node, k: nat, pruneGit: bool)
    requires Contains(path, GitDir)
    requires n.Dir? && k <= |n.children|
    ensures CountedFiles(ChildVisits(path, n, k, pruneGit)) == 0
    ensures CountedLines(ChildVisits(path, n, k, pruneGit)) == 0
    decreases n, 0, k
  {
    if k > 0 {
      var child := n.children[k - 1];
      ChildrenNothingCounted(path, n, k - 1, pruneGit);
      ContainsExtended(path, "/" + child.name, GitDir);
      assert ChildPath(path, child.name) == path + ("/" + child.name);
      NothingCountedBelowGit(ChildPath(path, child.name), child, pruneGit);
      CountedAppend(ChildVisits(path, n, k - 1, pruneGit), Visits(ChildPath(path, child.name), child, pruneGit));
    }
  }

  /** The whole subtree of a directory whose name contains `.git` adds
      nothing to either counter, even when the walk descends into it: so
      not only `.git` but also, say, `.github` is never counted. */
  lemma GitNamedSubtreeCountsNothing(path: string, name: string, children: seq<Node>, pruneGit: bool)
    requires Contains(name, GitDir)
    ensures var vs := Visits(ChildPath(path, name), Dir(name, children), pruneGit);
      CountedFiles(vs) == 0 && CountedLines(vs) == 0
  {
    GitNamePath(path, name);
    NothingCountedBelowGit(ChildPath(path, name), Dir(name, children), pruneGit);
  }

  /** Nothing in a `.github` directory is counted, although the counting
      walk descends into it. */
  lemma GithubCountsNothing(path: string, children: seq<Node>)
    ensures Visits(ChildPath(path, ".github"), Dir(".github", children), true) ==
      [Visit(ChildPath(path, ".github"), Dir(".github", children))] +
      ChildVisits(ChildPath(path, ".github"), Dir(".github", children), |children|, true)
    ensures var vs := Visits(ChildPath(path, ".github"), Dir(".github", children), true);
      CountedFiles(vs) == 0 && CountedLines(vs) == 0
  {
    assert ".github"[0..|GitDir|] == GitDir;
    assert OccursAt(".github", GitDir, 0);
    GitNamedSubtreeCountsNothing(path, ".github", children, true);
  }

  /** Every child of a directory not named `.git` is visited, hidden or not:
      the walk descends into hidden directories. */
  lemma DirectoryDescended(path: string, name: string, children: seq<Node>, k: nat)
    requires name != GitDir && k < |children|
    ensures Visit(ChildPath(path, children[k].name), children[k]) in Visits(path, Dir(name, children), true)
  {
    var d := Dir(name, children);
    var c := children[k];
    ChildVisitsPrefix(path, d, k + 1, |children|, true);
    var below := ChildVisits(path, d, k + 1, true);
    assert below == ChildVisits(path, d, k, true) + Visits(ChildPath(path, c.name), c, true);
    assert below[|ChildVisits(path, d, k, true)|] == Visit(ChildPath(path, c.name), c);
    assert Visits(path, d, true)[1 + |ChildVisits(path, d, k, true)|] == Visit(ChildPath(path, c.name), c);
  }

  /** So a file in a directory not named `.git`, hidden or not, is visited,
      and it is one of the counted files, adding exactly its lines, when its
      own name is not hidden and its path does not contain `.git`; otherwise
      it adds nothing. */
  lemma HiddenDirectoryFileCounted(path: string, name: string, children: seq<Node>, k: nat)
    requires name != GitDir && k < |children| && children[k].File?
    ensures var vs := Visits(path, Dir(name, children), true);
      var v := Visit(ChildPath(path, children[k].name), children[k]);
      && v in vs
      && (FileWeight(v) == 1 <==> Counted(v.path, children[k].name))
      && (FileWeight(v) == 0 ==> FileLines(v) == 0)
      && exists j ::
           && 0 <= j < |vs| && vs[j] == v
           && CountedFiles(vs) == FileWeight(v) + CountedFiles(vs[..j] + vs[j + 1..])
           && CountedLines(vs) == FileLines(v) + CountedLines(vs[..j] + vs[j + 1..])
  {
    DirectoryDescended(path, name, children, k);
    CountedMember(Visits(path, Dir(name, children), true), Visit(ChildPath(path, children[k].name), children[k]));
  }

  /** A visit adds exactly its weight to the counted files and its lines to
      the counted lines; only a counted file has any. */
  lemma CountedMember(vs: seq<Visit>, v: Visit)
    requires v in vs && v.node.File?
    ensures FileWeight(v) == 1 <==> Counted(v.path, v.node.name)
    ensures FileWeight(v) == 0 ==> FileLines(v) == 0
    ensures exists j ::
              && 0 <= j < |vs| && vs[j] == v
              && CountedFiles(vs) == FileWeight(v) + CountedFiles(vs[..j] + vs[j + 1..])
              && CountedLines(vs) == FileLines(v) + CountedLines(vs[..j] + vs[j + 1..])
  {
    var j :| 0 <= j < |vs| && vs[j] == v;
    SumRemove(vs, j, FileWeight);
    SumRemove(vs, j, FileLines);
  }

  // ---------------------------------------------------------------------
  // The walk itself
  // ---------------------------------------------------------------------

  lemma CountRunFirst(files: int, lines: int, path: string, node: Node)
    ensures CountRun(files, lines, [Visit(path, node)]) == CountStep(files, lines, Visit(path, node))
    ensures var t := CountStep(files, lines, Visit(path, node));
      t.error.Some? ==> CountRun(files, lines, Visits(path, node, true)) == t
  {
    var all := Visits(path, node, true);
    assert all == [Visit(path, node)] + all[1..];
    CountRunAppend(files, lines, [Visit(path, node)], all[1..]);
  }

  lemma CountRunChild(files: int, lines: int, path: string, node: Node, i: nat, t: Tally)
    requires node.Dir? && node.name != GitDir && i < |node.children|
    requires var prefix := [Visit(path, node)] + ChildVisits(path, node, i, true);
      CountRun(files, lines, prefix).error.None?
    requires var child := node.children[i];
      var s := CountRun(files, lines, [Visit(path, node)] + ChildVisits(path, node, i, true));
      t == CountRun(s.files, s.lines, Visits(ChildPath(path, child.name), child, true))
    ensures CountRun(files, lines, [Visit(path, node)] + ChildVisits(path, node, i + 1, true)) == t
    ensures t.error.Some? ==> CountRun(files, lines, Visits(path, node, true)) == t
  {
    var child := node.children[i];
    var start := [Visit(path, node)];
    var prefix := start + ChildVisits(path, node, i, true);
    var done := start + ChildVisits(path, node, i + 1, true);
    CountRunAppend(files, lines, prefix, Visits(ChildPath(path, child.name), child, true));
    assert done == prefix + Visits(ChildPath(path, child.name), child, true);
    if t.error.Some? {
      ChildVisitsPrefix(path, node, i + 1, |node.children|, true);
      var all := Visits(path, node, true);
      assert all == start + ChildVisits(path, node, |node.children|, true);
      assert all == done + all[|done|..];
      CountRunAppend(files, lines, done, all[|done|..]);
    }
  }

  /** The errors `scanDirectory` returns: "error getting git contributors". */
  datatype ScanError = ContributorsFailed(cause: GitError)

  /** The statistics of one scan. */
  class DirStats {
    var fileCount: int
    var lineCount: int
    var contributors: ContributorMap
    var isGitRepo: bool

    constructor ()
      ensures fileCount == 0 && lineCount == 0 && contributors == map[] && !isGitRepo
    {
      fileCount := 0;
      lineCount := 0;
      contributors := map[];
      isGitRepo := false;
    }

    /** `for scanner.Scan() { stats.LineCount++ }` over a file's text
        (main.go:148-151). */
    method CountLines(text: string)
      modifies this`lineCount
      ensures lineCount == old(lineCount) + LineCount(text)
    {
      var lines := SplitLines(text);
      SplitLinesCount(text);
      var i := 0;
      while i < |lines|
        invariant 0 <= i <= |lines|
        invariant lineCount == old(lineCount) + i
      {
        lineCount := lineCount + 1;
        i := i + 1;
      }
    }

    /** The counting walk function (main.go:124-156). */
    method CountVisit(path: string, node: Node) returns (r: WalkFnResult)
      modifies this`fileCount, this`lineCount
      ensures Tally(fileCount, lineCount, StopError(r)) == CountStep(old(fileCount), old(lineCount), Visit(path, node))
      ensures r.SkipDir? <==> node.Dir? && node.name == GitDir
    {
      match node
      case Unreadable(_) =>
        return Stop(EntryFailed(path));
      case Dir(name, _) =>
        if name == GitDir {
          return SkipDir;
        }
        return Continue;
      case File(name, data, _) =>
        if HasPrefix(name, ".") {
          return Continue;
        }
        if Contains(path, GitDir) {
          return Continue;
        }
        fileCount := fileCount + 1;
        match data
        case OpenFails =>
          return Stop(OpenFailed(path));
        case Readable(text) =>
          CountLines(text);
          return Continue;
        case ReadFails(prefix) =>
          CountLines(prefix);
          return Stop(ReadFailed(path));
    }

    /** `filepath.Walk(path, fn)` with the counting walk function: the
        counters end as the walk function folded over the visits, which
        skip the inside of `.git` directories. */
    method CountWalk(path: string, node: Node) returns (err: Option<WalkError>)
      modifies this`fileCount, this`lineCount
      ensures Tally(fileCount, lineCount, err) == CountRun(old(fileCount), old(lineCount), Visits(path, node, true))
      decreases node
    {
      ghost var files, lines := fileCount, lineCount;
      var r := CountVisit(path, node);
      CountRunFirst(files, lines, path, node);
      if r.Stop? {
        return Some(r.error);
      }
      if r.SkipDir? {
        return None;
      }
      if node.Dir? {
        var i := 0;
        while i < |node.children|
          invariant 0 <= i <= |node.children|
          invariant CountRun(files, lines, [Visit(path, node)] + ChildVisits(path, node, i, true)) ==
            Tally(fileCount, lineCount, None)
        {
          var child := node.children[i];
          var e := CountWalk(ChildPath(path, child.name), child);
          CountRunChild(files, lines, path, node, i, Tally(fileCount, lineCount, e));
          if e.Some? {
            return e;
          }
          i := i + 1;
        }
        assert Visits(path, node, true) == [Visit(path, node)] + ChildVisits(path, node, i, true);
      }
      return None;
    }
  }

  /** `scanDirectory(dirPath)`, with the file system and the commands' answers
      given: the counters are those of the counting walk, even when it
      stopped on an error (that error is dropped); the records and the
      repository flag are those of the contributor pipeline, unless it
      failed, in which case they stay empty and false and its error is
      returned. Stats that are not a repository's have no records. */
  method ScanDirectory(dirPath: string, root: Node, probe: bool, summary: Option<string>)
    returns (stats: DirStats, err: Option<ScanError>)
    ensures fresh(stats)
    ensures var t := CountRun(0, 0, Visits(dirPath, root, true));
      stats.fileCount == t.files && stats.lineCount == t.lines
    ensures var g := ContributorsOf(dirPath, root, probe, summary);
      if g.error.Some? then
        err == Some(ContributorsFailed(g.error.value)) && stats.contributors == map[] && !stats.isGitRepo
      else
        err.None? && stats.contributors == g.contributors && stats.isGitRepo == g.isGitRepo
    ensures !probe ==> err.None? && stats.contributors == map[] && !stats.isGitRepo
    ensures !stats.isGitRepo ==> stats.contributors == map[]
    ensures WellFormed(stats.contributors)
  {
    stats := new DirStats();
    var countErr := stats.CountWalk(dirPath, root);
    var contributors, isGitRepo, gitErr := GetGitContributors(dirPath, root, probe, summary);
    if gitErr.Some? {
      return stats, Some(ContributorsFailed(gitErr.value));
    }
    stats.contributors := contributors;
    stats.isGitRepo := isGitRepo;
    return stats, None;
  }
}
