/** The attribution pass: every file's line-attribution output (the
    `--line-porcelain` form of the blame command) read line by line, each
    `author <name>` line adding one attributed line to `<name>`. */
module Attribution {
  import opened Wrappers
  import opened Text
  import opened FileTree
  import opened Records

  /** The exact prefix of a line that names the author of one source line. */
  const AuthorTag: string := "author "

  predicate IsAuthorLine(line: string) {
    HasPrefix(line, AuthorTag)
  }

  /** The author named by an author line: the rest of the line, verbatim. */
  function AuthorOf(line: string): string
    requires IsAuthorLine(line)
  {
    line[|AuthorTag|..]
  }

  /** A line attributes a source line to `author` exactly when it is
      `author ` followed by that name; `author-mail`, `author-time` and
      `author-tz` lines attribute nothing. */
  lemma AuthorLineIff(line: string, author: string)
    ensures (IsAuthorLine(line) && AuthorOf(line) == author) <==> line == AuthorTag + author
  {
    if line == AuthorTag + author {
      assert line[..|AuthorTag|] == AuthorTag;
      assert line[|AuthorTag|..] == author;
    }
    if IsAuthorLine(line) && AuthorOf(line) == author {
      assert line == line[..|AuthorTag|] + line[|AuthorTag|..];
    }
  }

  /** The number of lines of `lines` that attribute a line to `author`. */
  function Occurrences(lines: seq<string>, author: string): nat
    decreases |lines|
  {
    if lines == [] then 0
    else
      Occurrences(lines[..|lines| - 1], author) + (if lines[|lines| - 1] == AuthorTag + author then 1 else 0)
  }

  /** The authors named by the author lines of `lines`. */
  function Authors(lines: seq<string>): set<string>
    decreases |lines|
  {
    if lines == [] then {}
    else
      var last := lines[|lines| - 1];
      Authors(lines[..|lines| - 1]) + (if IsAuthorLine(last) then {AuthorOf(last)} else {})
  }

  lemma {:induction false} AuthorsOccur(lines: seq<string>, author: string)
    ensures author in Authors(lines) <==> Occurrences(lines, author) > 0
    decreases |lines|
  {
    if lines != [] {
      AuthorsOccur(lines[..|lines| - 1], author);
      AuthorLineIff(lines[|lines| - 1], author);
    }
  }

  lemma {:induction false} OccurrencesAppend(a: seq<string>, b: seq<string>, author: string)
    ensures Occurrences(a + b, author) == Occurrences(a, author) + Occurrences(b, author)
    ensures Authors(a + b) == Authors(a) + Authors(b)
    decreases |b|
  {
    if b == [] {
      assert a + b == a;
    } else {
      assert (a + b)[..|a + b| - 1] == a + b[..|b| - 1];
      OccurrencesAppend(a, b[..|b| - 1], author);
    }
  }

  /** Every author named by some line, and no other. */
  lemma AuthorsAreNamed(lines: seq<string>)
    ensures forall author :: author in Authors(lines) <==> Occurrences(lines, author) > 0
  {
    forall author
      ensures author in Authors(lines) <==> Occurrences(lines, author) > 0
    {
      AuthorsOccur(lines, author);
    }
  }

  /** The map after the attribution lines `lines` are applied to `m`. An
      author has a record when it had one or some line names it; a named
      author's record takes its name and gains one line per line naming it;
      every other record is as before. */
  function BlameMerge(m: ContributorMap, lines: seq<string>): (r: ContributorMap)
    ensures forall key :: key in r <==> key in m || Occurrences(lines, key) > 0
    ensures forall key :: key in r ==>
      r[key] ==
        if Occurrences(lines, key) > 0 then
          Lookup(m, key).(name := key, lineCount := Lookup(m, key).lineCount + Occurrences(lines, key))
        else m[key]
  {
    AuthorsAreNamed(lines);
    map key | key in m.Keys + Authors(lines) ::
      if key in Authors(lines) then
        var c := Lookup(m, key);
        c.(name := key, lineCount := c.lineCount + Occurrences(lines, key))
      else m[key]
  }

  /** What one author line does to the map (main.go:84-87): the author's
      record, or the zero record, takes the author's name and one more
      line; every other record stays as it is. */
  function Bump(m: ContributorMap, author: string): (r: ContributorMap)
    ensures r.Keys == m.Keys + {author}
    ensures r[author].name == author && r[author].lineCount == Lookup(m, author).lineCount + 1
    ensures r[author].commits == Lookup(m, author).commits
    ensures forall key :: key in m && key != author ==> r[key] == m[key]
  {
    var c := Lookup(m, author);
    m[author := c.(name := author, lineCount := c.lineCount + 1)]
  }

  lemma BlameMergeNone(m: ContributorMap)
    ensures BlameMerge(m, []) == m
  {
  }

  lemma OccurrencesSnoc(lines: seq<string>, line: string, key: string)
    ensures Occurrences(lines + [line], key) ==
      Occurrences(lines, key) + (if line == AuthorTag + key then 1 else 0)
  {
    assert (lines + [line])[..|lines|] == lines;
  }

  lemma BlameMergeAuthorLine(m: ContributorMap, lines: seq<string>, line: string)
    requires IsAuthorLine(line)
    ensures BlameMerge(m, lines + [line]) == Bump(BlameMerge(m, lines), AuthorOf(line))
  {
    var author := AuthorOf(line);
    var before := BlameMerge(m, lines);
    var after := BlameMerge(m, lines + [line]);
    var expected := Bump(before, author);
    forall key
      ensures key in after <==> key in expected
      ensures key in after ==> after[key] == expected[key]
    {
      OccurrencesSnoc(lines, line, key);
      AuthorLineIff(line, key);
      if key == author {
        assert Lookup(before, key).lineCount == Lookup(m, key).lineCount + Occurrences(lines, key);
      } else {
        assert Occurrences(lines + [line], key) == Occurrences(lines, key);
      }
    }
  }

  lemma BlameMergeOtherLine(m: ContributorMap, lines: seq<string>, line: string)
    requires !IsAuthorLine(line)
    ensures BlameMerge(m, lines + [line]) == BlameMerge(m, lines)
  {
    var after := BlameMerge(m, lines + [line]);
    var before := BlameMerge(m, lines);
    forall key
      ensures key in after <==> key in before
      ensures key in after ==> after[key] == before[key]
    {
      OccurrencesSnoc(lines, line, key);
      AuthorLineIff(line, key);
    }
  }

  /** Applying the lines one by one is applying them all at once. */
  lemma BlameMergeStep(m: ContributorMap, lines: seq<string>, line: string)
    ensures BlameMerge(m, lines + [line]) ==
      if IsAuthorLine(line) then Bump(BlameMerge(m, lines), AuthorOf(line)) else BlameMerge(m, lines)
  {
    if IsAuthorLine(line) {
      BlameMergeAuthorLine(m, lines, line);
    } else {
      BlameMergeOtherLine(m, lines, line);
    }
  }

  /** Attribution keeps every record filed under its own name with at least
      one line, and the records it creates are of that kind. */
  lemma BlameMergeWellFormed(m: ContributorMap, lines: seq<string>)
    requires WellFormed(m)
    ensures WellFormed(BlameMerge(m, lines))
    ensures BlameMerge(m, lines).Keys == m.Keys + Authors(lines)
  {
    forall key | key in Authors(lines) ensures Occurrences(lines, key) > 0 {
      AuthorsOccur(lines, key);
    }
  }

  /** Attributing the lines of two outputs in turn is attributing their
      concatenation: the order of the files does not matter to the sum. */
  lemma BlameMergeAppend(m: ContributorMap, a: seq<string>, b: seq<string>)
    ensures BlameMerge(BlameMerge(m, a), b) == BlameMerge(m, a + b)
  {
    var middle := BlameMerge(m, a);
    var left := BlameMerge(middle, b);
    var right := BlameMerge(m, a + b);
    forall key
      ensures key in left <==> key in right
      ensures key in left ==> left[key] == right[key]
    {
      OccurrencesAppend(a, b, key);
    }
    assert left == right;
  }

  /** `for scanner.Scan() { ... }` over one file's attribution output
      (main.go:78-89). */
  method AttributeBlame(m0: ContributorMap, output: string) returns (m: ContributorMap)
    ensures m == BlameMerge(m0, SplitLines(output))
  {
    var lines := SplitLines(output);
    m := m0;
    BlameMergeNone(m0);
    var i := 0;
    while i < |lines|
      invariant 0 <= i <= |lines|
      invariant m == BlameMerge(m0, lines[..i])
    {
      var line := lines[i];
      if HasPrefix(line, AuthorTag) {
        var currentAuthor := line[|AuthorTag|..];
        var contrib := Lookup(m, currentAuthor);
        contrib := contrib.(name := currentAuthor);
        contrib := contrib.(lineCount := contrib.lineCount + 1);
        m := m[currentAuthor := contrib];
      }
      BlameMergeStep(m0, lines[..i], line);
      assert lines[..i + 1] == lines[..i] + [line];
      i := i + 1;
    }
    assert lines[..i] == lines;
  }

  // ---------------------------------------------------------------------
  // The attribution walk (main.go:67-91)
  // ---------------------------------------------------------------------

  /** The records so far, and the error that ended the walk, if any. */
  datatype AttributionState = AttributionState(contributors: ContributorMap, error: Option<WalkError>)

  /** What the attribution walk function does with one entry: an entry
      handed over with an error ends the walk with it; directories, and
      files whose attribution command fails, change nothing; any other file
      has its attribution output applied. No entry is skipped by name. */
  function AttributionStep(m: ContributorMap, v: Visit): (r: AttributionState)
    ensures r.error.Some? <==> v.node.Unreadable?
    ensures r.error.Some? ==> r.error.value == EntryFailed(v.path)
    ensures !(v.node.File? && v.node.blame.Some?) ==> r.contributors == m
    ensures m.Keys <= r.contributors.Keys
  {
    match v.node
    case Unreadable(_) => AttributionState(m, Some(EntryFailed(v.path)))
    case Dir(_, _) => AttributionState(m, None)
    case File(_, _, blame) =>
      if blame.None? then AttributionState(m, None)
      else AttributionState(BlameMerge(m, SplitLines(blame.value)), None)
  }

  /** The walk function applied to the visits in turn, up to the first
      error. The walk never drops a record, and the only error that ends
      it is one handed over for an entry. */
  function AttributionRun(m: ContributorMap, vs: seq<Visit>): (r: AttributionState)
    ensures m.Keys <= r.contributors.Keys
    ensures r.error.Some? ==> r.error.value.EntryFailed?
    decreases |vs|
  {
    if vs == [] then AttributionState(m, None)
    else
      var s := AttributionStep(m, vs[0]);
      if s.error.Some? then s else AttributionRun(s.contributors, vs[1..])
  }

  /** The walk fails exactly when some entry cannot be read, and then with
      the error of the first such entry. */
  lemma {:induction false} AttributionRunFails(m: ContributorMap, vs: seq<Visit>)
    ensures AttributionRun(m, vs).error.None? <==> AllReadable(vs)
    ensures AttributionRun(m, vs).error.Some? ==>
              exists k :: 0 <= k < |vs| && vs[k].node.Unreadable? && AllReadable(vs[..k]) &&
                          AttributionRun(m, vs).error.value == EntryFailed(vs[k].path)
    decreases |vs|
  {
    if vs != [] {
      var s := AttributionStep(m, vs[0]);
      if s.error.Some? {
        assert AllReadable(vs[..0]);
      } else {
        AttributionRunFails(s.contributors, vs[1..]);
        if AttributionRun(m, vs).error.Some? {
          var k :| 0 <= k < |vs| - 1 && vs[1..][k].node.Unreadable? && AllReadable(vs[1..][..k]) &&
                   AttributionRun(s.contributors, vs[1..]).error.value == EntryFailed(vs[1..][k].path);
          assert vs[..k + 1] == [vs[0]] + vs[1..][..k];
          assert vs[k + 1].node.Unreadable?;
        } else {
          assert vs == [vs[0]] + vs[1..];
        }
      }
    }
  }

  lemma {:induction false} AttributionRunAppend(m: ContributorMap, a: seq<Visit>, b: seq<Visit>)
    ensures AttributionRun(m, a + b) ==
      var s := AttributionRun(m, a);
      if s.error.Some? then s else AttributionRun(s.contributors, b)
    decreases |a|
  {
    if a == [] {
      assert a + b == b;
    } else {
      assert (a + b)[0] == a[0];
      assert (a + b)[1..] == a[1..] + b;
      var s := AttributionStep(m, a[0]);
      if s.error.None? {
        AttributionRunAppend(s.contributors, a[1..], b);
      }
    }
  }

  /** Every entry is one the walk can read. */
  predicate AllReadable(vs: seq<Visit>) {
    forall k :: 0 <= k < |vs| ==> !vs[k].node.Unreadable?
  }

  /** The attribution output of every file whose command succeeds, split
      into lines and concatenated in visit order. */
  function BlameLines(vs: seq<Visit>): seq<string>
    decreases |vs|
  {
    if vs == [] then []
    else
      var v := vs[|vs| - 1];
      BlameLines(vs[..|vs| - 1]) +
        (if v.node.File? && v.node.blame.Some? then SplitLines(v.node.blame.value) else [])
  }

  /** When every entry can be read, the attribution walk ends without error
      and its map is that of all the attribution lines of all the files. */
  lemma {:induction false} AttributionRunReadable(m: ContributorMap, vs: seq<Visit>)
    requires AllReadable(vs)
    ensures AttributionRun(m, vs) == AttributionState(BlameMerge(m, BlameLines(vs)), None)
    decreases |vs|
  {
    if vs == [] {
      BlameMergeNone(m);
    } else {
      var init := vs[..|vs| - 1];
      var v := vs[|vs| - 1];
      assert vs == init + [v];
      AttributionRunReadable(m, init);
      AttributionRunAppend(m, init, [v]);
      var lines := if v.node.File? && v.node.blame.Some? then SplitLines(v.node.blame.value) else [];
      BlameMergeAppend(m, BlameLines(init), lines);
      if lines == [] {
        BlameMergeNone(BlameMerge(m, BlameLines(init)));
        assert BlameLines(init) + lines == BlameLines(init);
      }
    }
  }

  /** A file whose attribution command fails is as if it were absent: it
      creates no record, adds no line, and the walk goes on past it. */
  lemma AttributionFailureIgnored(m: ContributorMap, before: seq<Visit>, path: string,
                                  file: Node, after: seq<Visit>)
    requires file.File? && file.blame.None?
    ensures AttributionRun(m, before + [Visit(path, file)] + after) == AttributionRun(m, before + after)
  {
    AttributionRunAppend(m, before + [Visit(path, file)], after);
    AttributionRunAppend(m, before, [Visit(path, file)]);
    AttributionRunAppend(m, before, after);
  }

  /** The attribution walk keeps every record filed under its own name with
      at least one line, also when it ends with an error. */
  lemma {:induction false} AttributionRunWellFormed(m: ContributorMap, vs: seq<Visit>)
    requires WellFormed(m)
    ensures WellFormed(AttributionRun(m, vs).contributors)
    decreases |vs|
  {
    if vs != [] {
      var v := vs[0];
      if v.node.File? && v.node.blame.Some? {
        BlameMergeWellFormed(m, SplitLines(v.node.blame.value));
      }
      var s := AttributionStep(m, v);
      if s.error.None? {
        AttributionRunWellFormed(s.contributors, vs[1..]);
      }
    }
  }

  /** The walk function of the attribution pass (main.go:67-91). */
  method AttributeVisit(path: string, node: Node, m0: ContributorMap) returns (m: ContributorMap, r: WalkFnResult)
    ensures !r.SkipDir?
    ensures AttributionState(m, StopError(r)) == AttributionStep(m0, Visit(path, node))
  {
    match node
    case Unreadable(_) =>
      return m0, Stop(EntryFailed(path));
    case Dir(_, _) =>
      return m0, Continue;
    case File(_, _, blame) =>
      if blame.None? {
        return m0, Continue;
      }
      m := AttributeBlame(m0, blame.value);
      return m, Continue;
  }

  /** The visit of the entry itself comes first. */
  lemma AttributionRunFirst(m0: ContributorMap, path: string, node: Node)
    ensures AttributionRun(m0, [Visit(path, node)]) == AttributionStep(m0, Visit(path, node))
    ensures var s := AttributionStep(m0, Visit(path, node));
      s.error.Some? ==> AttributionRun(m0, Visits(path, node, false)) == s
  {
    var all := Visits(path, node, false);
    assert all == [Visit(path, node)] + all[1..];
    AttributionRunAppend(m0, [Visit(path, node)], all[1..]);
  }

  /** One more child walked: its visits follow those of the children before
      it, and an error there ends the walk of the whole directory. */
  lemma AttributionRunChild(m0: ContributorMap, path: string, node: Node, i: nat,
                            m: ContributorMap, m': ContributorMap, e: Option<WalkError>)
    requires node.Dir? && i < |node.children|
    requires AttributionRun(m0, [Visit(path, node)] + ChildVisits(path, node, i, false)) == AttributionState(m, None)
    requires var child := node.children[i];
      AttributionState(m', e) == AttributionRun(m, Visits(ChildPath(path, child.name), child, false))
    ensures AttributionRun(m0, [Visit(path, node)] + ChildVisits(path, node, i + 1, false)) == AttributionState(m', e)
    ensures e.Some? ==> AttributionRun(m0, Visits(path, node, false)) == AttributionState(m', e)
  {
    var child := node.children[i];
    var start := [Visit(path, node)];
    var prefix := start + ChildVisits(path, node, i, false);
    var done := start + ChildVisits(path, node, i + 1, false);
    AttributionRunAppend(m0, prefix, Visits(ChildPath(path, child.name), child, false));
    assert done == prefix + Visits(ChildPath(path, child.name), child, false);
    if e.Some? {
      ChildVisitsPrefix(path, node, i + 1, |node.children|, false);
      var all := Visits(path, node, false);
      assert all == start + ChildVisits(path, node, |node.children|, false);
      assert all == done + all[|done|..];
      AttributionRunAppend(m0, done, all[|done|..]);
    }
  }

  /** `filepath.Walk(path, fn)` with the attribution walk function: the
      result is the walk function folded over the visits, which prune
      nothing. */
  method AttributionWalk(path: string, node: Node, m0: ContributorMap) returns (m: ContributorMap, err: Option<WalkError>)
    ensures AttributionState(m, err) == AttributionRun(m0, Visits(path, node, false))
    decreases node
  {
    var r;
    m, r := AttributeVisit(path, node, m0);
    AttributionRunFirst(m0, path, node);
    if r.Stop? {
      return m, Some(r.error);
    }
    if node.Dir? {
      var i := 0;
      while i < |node.children|
        invariant 0 <= i <= |node.children|
        invariant AttributionRun(m0, [Visit(path, node)] + ChildVisits(path, node, i, false)) == AttributionState(m, None)
      {
        var child := node.children[i];
        var m1, e := AttributionWalk(ChildPath(path, child.name), child, m);
        AttributionRunChild(m0, path, node, i, m, m1, e);
        m := m1;
        if e.Some? {
          return m, e;
        }
        i := i + 1;
      }
      assert Visits(path, node, false) == [Visit(path, node)] + ChildVisits(path, node, i, false);
    }
    return m, None;
  }
}
