/**
 The part of git the two integration queues lean on: content-addressed commits,
 ancestry, a three-way merge of trees, and the commands `merge`, `cherry`,
 `rev-list` and `revert` as functions of commits.

 A commit is named by its content (parents, tree, message), so equality of
 `Commit` values is equality of object ids and the history is acyclic by
 construction.
 */
module Git {
  import opened Basics

  type Blob = string
  type Tree = map<string, Blob>

  datatype Commit = Commit(parents: seq<Commit>, tree: Tree, message: string)

  /** What git decides by looking inside files, left as oracles: the line merge of
      one file, the (possibly virtual) common ancestor of two histories, and
      `git patch-id --stable`. */
  datatype Git = Git(
    mergeFile: (Option<Blob>, Option<Blob>, Option<Blob>) -> Option<Option<Blob>>,
    mergeBase: (Commit, Commit) -> Option<Tree>,
    patchId: Commit -> string)

  /** Everything reachable from `c`, `c` included. */
  function Reach(c: Commit): (r: set<Commit>)
    ensures c in r
  {
    {c} + set p, x | p in c.parents && x in Reach(p) :: x
  }

  lemma {:induction false} ReachTransitive(a: Commit, b: Commit)
    requires a in Reach(b)
    ensures Reach(a) <= Reach(b)
    decreases b
  {
    if a != b {
      var p :| p in b.parents && a in Reach(p);
      ReachTransitive(a, p);
    }
  }

  lemma {:induction false} ParentBelow(p: Commit, c: Commit)
    requires p in c.parents
    ensures p in Reach(c) && Reach(p) <= Reach(c)
  {
    assert p in Reach(p);
    forall x | x in Reach(p)
      ensures x in Reach(c)
    {
    }
  }

  /** A commit is never reachable from one of its proper ancestors. */
  lemma {:induction false} ReachSmaller(a: Commit, b: Commit)
    requires a in Reach(b)
    ensures a == b || a < b
    decreases b
  {
    if a != b {
      var p :| p in b.parents && a in Reach(p);
      ReachSmaller(a, p);
    }
  }

  lemma {:induction false} NotReachableFromAncestor(c: Commit, a: Commit)
    requires a in Reach(c) && a != c
    ensures c !in Reach(a)
  {
    ReachSmaller(a, c);
    if c in Reach(a) {
      ReachSmaller(c, a);
      assert false;
    }
  }

  // ---- three-way merge -------------------------------------------------------

  function At(t: Tree, path: string): Option<Blob> {
    if path in t then Some(t[path]) else None
  }

  /** One path of a three-way merge: `None` is a conflict, `Some(None)` an absent file. */
  function MergePath(g: Git, base: Option<Blob>, ours: Option<Blob>, theirs: Option<Blob>): Option<Option<Blob>> {
    if ours == theirs then Some(ours)
    else if base == ours then Some(theirs)
    else if base == theirs then Some(ours)
    else g.mergeFile(base, ours, theirs)
  }

  function Merge3(g: Git, base: Tree, ours: Tree, theirs: Tree): Option<Tree> {
    var paths := base.Keys + ours.Keys + theirs.Keys;
    if exists p | p in paths :: MergePath(g, At(base, p), At(ours, p), At(theirs, p)).None? then None
    else Some(map p | p in paths && MergePath(g, At(base, p), At(ours, p), At(theirs, p)).value.Some?
                :: MergePath(g, At(base, p), At(ours, p), At(theirs, p)).value.value)
  }

  /** A side that did not move takes the other side's tree, whatever the file oracle says. */
  lemma {:induction false} Merge3Unmoved(g: Git, x: Tree, y: Tree)
    ensures Merge3(g, x, x, y) == Some(y)
    ensures Merge3(g, x, y, x) == Some(y)
  {
    var paths := x.Keys + x.Keys + y.Keys;
    forall p | p in paths
      ensures MergePath(g, At(x, p), At(x, p), At(y, p)) == Some(At(y, p))
      ensures MergePath(g, At(x, p), At(y, p), At(x, p)) == Some(At(y, p))
    {
    }
    assert Merge3(g, x, x, y).value == y;
    assert Merge3(g, x, y, x).value == y;
  }

  /** Where the sides agree, or ours did not move, the merge is theirs, wherever they came from. */
  lemma {:induction false} Merge3Theirs(g: Git, base: Tree, ours: Tree, theirs: Tree)
    requires forall p :: At(ours, p) == At(theirs, p) || At(base, p) == At(ours, p)
    ensures Merge3(g, base, ours, theirs) == Some(theirs)
  {
    forall p | p in base.Keys + ours.Keys + theirs.Keys
      ensures MergePath(g, At(base, p), At(ours, p), At(theirs, p)) == Some(At(theirs, p))
    {
    }
    assert Merge3(g, base, ours, theirs).value == theirs;
  }

  // ---- commands --------------------------------------------------------------

  datatype MergeResult = UpToDate | Merged(commit: Commit) | Conflicted

  /** `git merge --no-ff -m message head` on a worktree detached at `tip`. A head the
      worktree already contains exits 0 without making a commit. */
  function Merge(g: Git, tip: Commit, head: Commit, message: string): MergeResult {
    if head in Reach(tip) then UpToDate
    else
      var base := g.mergeBase(tip, head);
      if base.None? then Conflicted
      else
        var tree := Merge3(g, base.value, tip.tree, head.tree);
        if tree.None? then Conflicted else Merged(Commit([tip, head], tree.value, message))
  }

  /** The commits `git cherry upstream head` marks `+`: not merges, not in `upstream`, and
      with no equivalent patch among the commits only `upstream` has. */
  function CherryPlus(g: Git, upstream: Commit, head: Commit): set<Commit> {
    set c | c in Reach(head) && c !in Reach(upstream) && |c.parents| <= 1
            && forall d | d in Reach(upstream) && d !in Reach(head) && |d.parents| <= 1
                 :: g.patchId(d) != g.patchId(c)
  }

  /** `git rev-list --first-parent --merges base..tip`, newest first. */
  function RevListMerges(base: Commit, tip: Commit): seq<Commit> {
    if tip in Reach(base) then []
    else (if |tip.parents| >= 2 then [tip] else [])
         + (if tip.parents == [] then [] else RevListMerges(base, tip.parents[0]))
  }

  /** `git revert -m 1 merge` on a worktree detached at `tip`: the three-way merge that
      takes `merge` back to its first parent. A conflict fails, and so does a result
      equal to what is already there, because git refuses to record an empty commit. */
  function Revert(g: Git, tip: Commit, merge: Commit): Option<Commit>
    requires merge.parents != []
  {
    var tree := Merge3(g, merge.tree, tip.tree, merge.parents[0].tree);
    if tree.None? || tree.value == tip.tree then None
    else Some(Commit([tip], tree.value, "Revert \"" + merge.message + "\""))
  }
}
