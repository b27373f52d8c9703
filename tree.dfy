/** The directory tree the tool walks, and the order in which Go's
    `filepath.Walk` hands its entries to a walk function.

    The tree stands for the file system together with what the version
    control tool answers about each file: every file carries the output of
    its line-attribution command (`None` when that command fails). */
module FileTree {
  import opened Wrappers
  import opened Text

  /** What reading a file gives: its whole text, a failure to open it, or a
      read error after `prefix` was read. */
  datatype FileData = Readable(text: string) | OpenFails | ReadFails(prefix: string)

  /** An entry of the tree. `Unreadable` is an entry the walk cannot look
      into: a directory whose names cannot be listed, or an entry whose
      metadata cannot be read; in both cases the walk function is handed an
      error for it. */
  datatype Node =
    | File(name: string, data: FileData, blame: Option<string>)
    | Dir(name: string, children: seq<Node>)
    | Unreadable(name: string)

  /** The name of the version-control metadata directory. */
  const GitDir: string := ".git"

  /** `filepath.Join(dir, name)`, without the lexical clean-up. */
  function ChildPath(dir: string, name: string): string {
    dir + "/" + name
  }

  /** One call of the walk function: the path it is handed and the entry
      found there. */
  datatype Visit = Visit(path: string, node: Node)

  /** What a walk function returns: go on, `filepath.SkipDir`, or an error
      that ends the walk. */
  datatype WalkFnResult = Continue | SkipDir | Stop(error: WalkError)

  /** The errors the walk functions return. */
  datatype WalkError =
    | EntryFailed(path: string)   // handed to the walk function by the walk
    | OpenFailed(path: string)    // "failed to open file <path>"
    | ReadFailed(path: string)    // "failed to scan file <path>"

  function StopError(r: WalkFnResult): Option<WalkError> {
    if r.Stop? then Some(r.error) else None
  }

  /** The calls `filepath.Walk(path, fn)` makes when `fn` returns an error on
      `Unreadable` entries only, and `SkipDir` exactly on directories named
      `.git` when `pruneGit` holds: pre-order, every entry before the entries
      below it, children in the order of the tree. A walk function that
      returns an error ends the walk; that is left to the fold over this
      sequence. */
  function Visits(path: string, n: Node, pruneGit: bool): (vs: seq<Visit>)
    ensures vs != [] && vs[0] == Visit(path, n)
    decreases n
  {
    match n
    case Dir(name, children) =>
      if pruneGit && name == GitDir then [Visit(path, n)]
      else [Visit(path, n)] + ChildVisits(path, n, |children|, pruneGit)
    case _ => [Visit(path, n)]
  }

  /** The calls made below directory `n` for its first `k` children. */
  function ChildVisits(path: string, n: Node, k: nat, pruneGit: bool): seq<Visit>
    requires n.Dir? && k <= |n.children|
    decreases n, k
  {
    if k == 0 then []
    else
      var child := n.children[k - 1];
      ChildVisits(path, n, k - 1, pruneGit) + Visits(ChildPath(path, child.name), child, pruneGit)
  }

  /** The calls made for the first `i` children come first among those
      made for the first `j`. */
  lemma {:induction false} ChildVisitsPrefix(path: string, n: Node, i: nat, j: nat, pruneGit: bool)
    requires n.Dir? && i <= j <= |n.children|
    ensures ChildVisits(path, n, i, pruneGit) <= ChildVisits(path, n, j, pruneGit)
    decreases j
  {
    if i < j {
      ChildVisitsPrefix(path, n, i, j - 1, pruneGit);
    }
  }
}
