/** The per-author record the tool builds, and the map that holds them. */
module Records {

  /** A contributor: the author name as the version-control tool prints it,
      the number of commits the commit summary gives it, and the number of
      lines attributed to it. */
  datatype FileContributor = FileContributor(name: string, commits: int, lineCount: int)

  /** The records, keyed by author name. */
  type ContributorMap = map<string, FileContributor>

  /** What indexing a Go map yields for a missing key: the zero record. */
  const ZeroContributor: FileContributor := FileContributor("", 0, 0)

  /** `contributors[key]` in Go: the record, or the zero record. */
  function Lookup(m: ContributorMap, key: string): (c: FileContributor)
    ensures key in m ==> c == m[key]
    ensures key !in m ==> c == ZeroContributor
  {
    if key in m then m[key] else ZeroContributor
  }

  /** Every record is filed under its own name and has at least one
      attributed line. */
  ghost predicate WellFormed(m: ContributorMap) {
    forall key :: key in m ==> m[key].name == key && m[key].lineCount >= 1
  }
}
