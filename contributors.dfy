/** `getGitContributors` (main.go:58-117): the repository probe, then the
    attribution walk, then the commit summary. The three commands are
    inputs: whether the probe succeeds, each file's attribution output
    (carried by the tree), and the summary output (`None` when the command
    fails). */
module Contributors {
  import opened Wrappers
  import opened Text
  import opened FileTree
  import opened Records
  import opened Attribution
  import opened CommitSummary

  /** The errors `getGitContributors` returns. */
  datatype GitError = WalkFailed(cause: WalkError) | SummaryFailed

  /** The three results of `getGitContributors`. */
  datatype GitResult = GitResult(contributors: ContributorMap, isGitRepo: bool, error: Option<GitError>)

  /** What `getGitContributors` returns. Outside a repository: no records,
      not a repository, no error. Inside: a repository, and records that
      are filed under their own names and have at least one line each, also
      when an error cut the passes short. */
  function ContributorsOf(path: string, root: Node, probe: bool, summary: Option<string>): (r: GitResult)
    ensures !probe ==> r == GitResult(map[], false, None)
    ensures probe ==> r.isGitRepo
    ensures WellFormed(r.contributors)
  {
    if !probe then GitResult(map[], false, None)
    else
      var a := AttributionRun(map[], Visits(path, root, false));
      AttributionRunWellFormed(map[], Visits(path, root, false));
      if a.error.Some? then GitResult(a.contributors, true, Some(WalkFailed(a.error.value)))
      else if summary.None? then GitResult(a.contributors, true, Some(SummaryFailed))
      else
        SummaryMergeKeepsRecords(a.contributors, SplitLines(summary.value));
        GitResult(SummaryMerge(a.contributors, SplitLines(summary.value)), true, None)
  }

  /** Inside a repository whose every entry can be read and whose summary
      command succeeds: no error, one record per author named by some
      attribution line of some file, that author's line count is the number
      of those lines, and its commit count is that of the last summary
      entry naming it, or 0. Authors that only the summary names get no
      record. */
  lemma ContributorsOfReadable(path: string, root: Node, summary: string)
    requires AllReadable(Visits(path, root, false))
    ensures var r := ContributorsOf(path, root, true, Some(summary));
      var blame := BlameLines(Visits(path, root, false));
      && r.error.None?
      && r.contributors.Keys == Authors(blame)
      && forall author :: author in r.contributors ==>
           r.contributors[author] ==
             FileContributor(author, LastCommits(SplitLines(summary), author, 0), Occurrences(blame, author))
  {
    var vs := Visits(path, root, false);
    AttributionRunReadable(map[], vs);
  }

  /** The pipeline fails exactly inside a repository whose attribution walk
      meets an entry it cannot read, or whose summary command fails; the
      walk's error comes first. */
  lemma ContributorsOfFails(path: string, root: Node, probe: bool, summary: Option<string>)
    ensures var r := ContributorsOf(path, root, probe, summary);
      var vs := Visits(path, root, false);
      && (r.error.Some? <==> probe && (!AllReadable(vs) || summary.None?))
      && (probe && !AllReadable(vs) ==> r.error.value.WalkFailed? && r.error.value.cause.EntryFailed?)
      && (probe && AllReadable(vs) && summary.None? ==> r.error == Some(SummaryFailed))
  {
    AttributionRunFails(map[], Visits(path, root, false));
  }

  /** `getGitContributors` itself. */
  method GetGitContributors(path: string, root: Node, probe: bool, summary: Option<string>)
    returns (contributors: ContributorMap, isGitRepo: bool, err: Option<GitError>)
    ensures GitResult(contributors, isGitRepo, err) == ContributorsOf(path, root, probe, summary)
  {
    contributors := map[];
    if !probe {
      return contributors, false, None;
    }
    var walkErr;
    contributors, walkErr := AttributionWalk(path, root, contributors);
    if walkErr.Some? {
      return contributors, true, Some(WalkFailed(walkErr.value));
    }
    if summary.None? {
      return contributors, true, Some(SummaryFailed);
    }
    contributors := ApplySummary(contributors, summary.value);
    return contributors, true, None;
  }
}
