/** What the train promises: the shape of its spine, why each entry got its fate, and that a
    reverted train is undone. */
module MergeTrainProofs {
  import opened Basics
  import opened Git
  import opened MergeTrain
  import Decimal

  function Reverse<T>(s: seq<T>): seq<T> {
    if s == [] then [] else Reverse(s[1..]) + [s[0]]
  }

  lemma {:induction false} ReverseSnoc<T>(s: seq<T>, x: T)
    ensures Reverse(s + [x]) == [x] + Reverse(s)
  {
    if s == [] {
      assert (s + [x])[1..] == [];
    } else {
      ReverseSnoc(s[1..], x);
      assert (s + [x])[1..] == s[1..] + [x];
    }
  }

  /** The train tip after the first `i` merges of `spine`. */
  function Node(base: Commit, spine: seq<Commit>, i: nat): Commit
    requires i <= |spine|
  {
    if i == 0 then base else spine[i - 1]
  }

  function Tip(base: Commit, spine: seq<Commit>): Commit {
    Node(base, spine, |spine|)
  }

  ghost predicate RestsOn(base: Commit, spine: seq<Commit>, i: nat)
    requires i < |spine|
  {
    |spine[i].parents| == 2 && spine[i].parents[0] == Node(base, spine, i)
  }

  /** Two-parent commits, each resting on the one before it, the first on `base`. */
  ghost predicate Spine(base: Commit, spine: seq<Commit>) {
    forall i :: 0 <= i < |spine| ==> RestsOn(base, spine, i)
  }

  // ---- every head the train would merge as a no-op is recognized first --------

  lemma {:induction false} ContainedIsRecognized(g: Git, tip: Commit, head: Commit)
    requires head in Reach(tip)
    ensures CherryPlus(g, tip, head) == {}
  {
    ReachTransitive(head, tip);
  }

  // ---- the fate of one entry -------------------------------------------------

  /** Why entry `e` for `head`, met by a train at `tip`, says what it says. */
  ghost predicate Explained(g: Git, tip: Commit, head: Commit, position: nat, e: TrainEntry) {
    // recognized: every ordinary commit of the head is in the train, itself or as an equal patch
    && (e.alreadyLanded <==>
        forall c | c in Reach(head) && |c.parents| <= 1 ::
          c in Reach(tip) || exists d :: d in Reach(tip) && d !in Reach(head) && |d.parents| <= 1 && g.patchId(d) == g.patchId(c))
    // merged: a new commit on top of the tip with the head as its second parent
    && (e.merged <==> e.merge.Some?)
    && (e.merged ==>
        && !e.alreadyLanded && head !in Reach(tip)
        && e.merge.value.parents == [tip, head]
        && e.merge.value.message == "choir train: PR #" + Decimal.Print(e.id)
        && e.note == "train position " + Decimal.Print(position)
        && g.mergeBase(tip, head).Some?
        && Merge3(g, g.mergeBase(tip, head).value, tip.tree, head.tree) == Some(e.merge.value.tree))
    // otherwise left out, for exactly one of two reasons, and it says which
    && (e.alreadyLanded ==> !e.merged && e.note == "already landed (patch identity)")
    && (!e.merged && !e.alreadyLanded ==> e.note == "conflicts with train")
    && (!e.merged && !e.alreadyLanded ==>
        || g.mergeBase(tip, head).None?
        || Merge3(g, g.mergeBase(tip, head).value, tip.tree, head.tree).None?)
  }

  lemma {:induction false} StepExplained(g: Git, t: Train, id: nat, name: string, head: Commit)
    ensures var next := Step(g, t, id, name, head);
      && next.entries[..|t.entries|] == t.entries && |next.entries| == |t.entries| + 1
      && next.entries[|t.entries|].id == id && next.entries[|t.entries|].head == name
      && Explained(g, t.tip, head, |Merges(t.entries)| + 1, next.entries[|t.entries|])
      && next.tip == (if next.entries[|t.entries|].merge.Some? then next.entries[|t.entries|].merge.value else t.tip)
  {
    if head in Reach(t.tip) {
      ContainedIsRecognized(g, t.tip, head);
    }
    var plus := CherryPlus(g, t.tip, head);
    if plus != {} {
      var c :| c in plus;
      assert c in Reach(head) && |c.parents| <= 1 && c !in Reach(t.tip);
    }
  }

  // ---- the whole train -------------------------------------------------------

  ghost predicate WellBuilt(g: Git, refs: Refs, base: Commit, prs: seq<(nat, string)>, t: Train) {
    && |t.entries| == |prs|
    && t.tip == Tip(base, Merges(t.entries))
    && Spine(base, Merges(t.entries))
    && forall i :: 0 <= i < |prs| ==> EntryExplained(g, refs, base, prs[i], t.entries, i)
  }

  /** Entry `i` is for pull request `pr`, and its fate is explained by the train of the entries before it. */
  ghost predicate EntryExplained(g: Git, refs: Refs, base: Commit, pr: (nat, string), entries: seq<TrainEntry>, i: nat)
    requires i < |entries|
  {
    var before := Merges(entries[..i]);
    && entries[i].id == pr.0
    && entries[i].head == pr.1
    && pr.1 in refs
    && Explained(g, Tip(base, before), refs[pr.1], |before| + 1, entries[i])
  }

  lemma {:induction false} SpineGrows(base: Commit, spine: seq<Commit>, c: Commit)
    requires Spine(base, spine) && |c.parents| == 2 && c.parents[0] == Tip(base, spine)
    ensures Spine(base, spine + [c])
  {
    forall i | 0 <= i < |spine| + 1
      ensures RestsOn(base, spine + [c], i)
    {
      assert i < |spine| ==> RestsOn(base, spine, i);
    }
  }

  lemma {:induction false} WellBuiltExtends(g: Git, refs: Refs, base: Commit, prs: seq<(nat, string)>, before: Train, t: Train)
    requires prs != [] && prs[|prs| - 1].1 in refs
    requires WellBuilt(g, refs, base, prs[..|prs| - 1], before)
    requires |t.entries| == |prs| && t.entries[..|prs| - 1] == before.entries
    requires var (id, name) := prs[|prs| - 1];
      var e := t.entries[|prs| - 1];
      && e.id == id && e.head == name
      && Explained(g, before.tip, refs[name], |Merges(before.entries)| + 1, e)
      && t.tip == if e.merge.Some? then e.merge.value else before.tip
    ensures WellBuilt(g, refs, base, prs, t)
  {
    var n := |prs| - 1;
    assert before.entries[..n] == before.entries;
    if t.entries[n].merge.Some? {
      SpineGrows(base, Merges(before.entries), t.entries[n].merge.value);
    }
    forall i | 0 <= i < n
      ensures EntryExplained(g, refs, base, prs[i], t.entries, i)
    {
      assert EntryExplained(g, refs, base, prs[..n][i], before.entries, i);
      assert t.entries[..i] == before.entries[..i];
    }
  }

  /** Entries match the pull requests one for one, each fate is explained by the train it met,
      and the merge commits of the merged entries are the spine from base to tip. */
  lemma {:induction false} TrainIsWellBuilt(g: Git, refs: Refs, base: string, prs: seq<(nat, string)>)
    requires Build(g, refs, base, prs).Ok?
    ensures base in refs && WellBuilt(g, refs, refs[base], prs, Build(g, refs, base, prs).value)
  {
    if prs != [] {
      var n := |prs| - 1;
      TrainIsWellBuilt(g, refs, base, prs[..n]);
      var before := Build(g, refs, base, prs[..n]).value;
      StepExplained(g, before, prs[n].0, prs[n].1, refs[prs[n].1]);
      WellBuiltExtends(g, refs, refs[base], prs, before, Build(g, refs, base, prs).value);
    }
  }

  /** A build fails exactly when the base or one of the heads does not resolve. */
  lemma {:induction false} BuildFailsIffUnresolved(g: Git, refs: Refs, base: string, prs: seq<(nat, string)>)
    ensures Build(g, refs, base, prs).Ok? <==> base in refs && forall i :: 0 <= i < |prs| ==> prs[i].1 in refs
  {
    if prs != [] {
      BuildFailsIffUnresolved(g, refs, base, prs[..|prs| - 1]);
    }
  }

  lemma {:induction false} BaseBelowSpine(base: Commit, spine: seq<Commit>, i: nat)
    requires Spine(base, spine) && i <= |spine|
    ensures base in Reach(Node(base, spine, i))
    ensures i > 0 ==> spine[i - 1] !in Reach(base)
  {
    if i > 0 {
      BaseBelowSpine(base, spine, i - 1);
      var c := spine[i - 1];
      assert RestsOn(base, spine, i - 1);
      ParentBelow(c.parents[0], c);
      assert base in Reach(c.parents[0]);
      ReachSmaller(base, c.parents[0]);
      NotReachableFromAncestor(c, base);
    }
  }

  lemma {:induction false} RevListOne(base: Commit, tip: Commit)
    requires tip !in Reach(base) && |tip.parents| == 2
    ensures RevListMerges(base, tip) == [tip] + RevListMerges(base, tip.parents[0])
  {
  }

  /** `rev-list --first-parent --merges base..tip` lists exactly the spine, newest first. */
  lemma {:induction false} RevListIsSpine(base: Commit, spine: seq<Commit>, i: nat)
    requires Spine(base, spine) && i <= |spine|
    ensures RevListMerges(base, Node(base, spine, i)) == Reverse(spine[..i])
  {
    if i > 0 {
      BaseBelowSpine(base, spine, i);
      RevListIsSpine(base, spine, i - 1);
      assert RestsOn(base, spine, i - 1);
      RevListOne(base, spine[i - 1]);
      assert spine[..i] == spine[..i - 1] + [spine[i - 1]];
      ReverseSnoc(spine[..i - 1], spine[i - 1]);
    } else {
      assert spine[..0] == [];
    }
  }

  /** `Merges` holds the merge of every merged entry and nothing else. */
  lemma {:induction false} MergesAll(entries: seq<TrainEntry>)
    ensures forall m :: m in Merges(entries) <==> exists e :: e in entries && e.merge == Some(m)
  {
    if entries != [] {
      var n := |entries| - 1;
      MergesAll(entries[..n]);
      assert entries == entries[..n] + [entries[n]];
    }
  }

  /** The first-parent merges between base and tip are the merged entries' commits, newest
      first, and the tip is the base exactly when nothing merged. */
  lemma {:induction false} TrainSpine(g: Git, refs: Refs, base: string, prs: seq<(nat, string)>)
    requires Build(g, refs, base, prs).Ok?
    ensures base in refs
    ensures var t := Build(g, refs, base, prs).value;
      && RevListMerges(refs[base], t.tip) == Reverse(Merges(t.entries))
      && refs[base] in Reach(t.tip)
      && (t.tip == refs[base] <==> forall e :: e in t.entries ==> !e.merged)
  {
    TrainIsWellBuilt(g, refs, base, prs);
    var t := Build(g, refs, base, prs).value;
    var spine := Merges(t.entries);
    RevListIsSpine(refs[base], spine, |spine|);
    assert spine[..|spine|] == spine;
    BaseBelowSpine(refs[base], spine, |spine|);
    NoMerges(t.entries);
    MergedHasMerge(g, refs, refs[base], prs, t);
  }

  lemma {:induction false} NoMerges(entries: seq<TrainEntry>)
    ensures Merges(entries) == [] <==> forall e :: e in entries ==> e.merge.None?
  {
    MergesAll(entries);
    if Merges(entries) != [] {
      assert Merges(entries)[0] in Merges(entries);
    }
  }

  lemma {:induction false} MergedHasMerge(g: Git, refs: Refs, base: Commit, prs: seq<(nat, string)>, t: Train)
    requires WellBuilt(g, refs, base, prs, t)
    ensures forall e :: e in t.entries ==> (e.merged <==> e.merge.Some?)
  {
    forall e | e in t.entries
      ensures e.merged <==> e.merge.Some?
    {
      var i :| 0 <= i < |prs| && t.entries[i] == e;
      assert EntryExplained(g, refs, base, prs[i], t.entries, i);
    }
  }

  // ---- revert ----------------------------------------------------------------

  ghost predicate Changed(merge: Commit) {
    merge.parents != [] && merge.tree != merge.parents[0].tree
  }

  /** Reverting a merge on top of exactly its own tree. */
  ghost predicate TakesBack(revert: RevertFn, tip: Commit, merge: Commit) {
    merge.parents != [] && tip.tree == merge.tree ==>
      && (revert(tip, merge).Some? <==> Changed(merge))
      && (Changed(merge) ==> revert(tip, merge).value.tree == merge.parents[0].tree && tip in Reach(revert(tip, merge).value))
  }

  lemma {:induction false} GitRevertTakesBack(g: Git, tip: Commit, merge: Commit)
    ensures TakesBack(GitRevert(g), tip, merge)
  {
    if merge.parents != [] && tip.tree == merge.tree {
      Merge3Unmoved(g, merge.tree, merge.parents[0].tree);
      if Changed(merge) {
        ParentBelow(tip, Revert(g, tip, merge).value);
      }
    }
  }

  ghost predicate ChangedFrom(spine: seq<Commit>, k: nat) {
    forall i :: k <= i < |spine| ==> Changed(spine[i])
  }

  /** Reverting `done` on top of the spine's tip leads back to node `k`, unless a merge from `k`
      on changed nothing. */
  ghost predicate BackAt(revert: RevertFn, base: Commit, spine: seq<Commit>, done: seq<Commit>, k: nat)
    requires k <= |spine|
  {
    var tip, back := Tip(base, spine), RevertAll(revert, Tip(base, spine), done);
    && (back.Some? <==> ChangedFrom(spine, k))
    && (back.Some? ==> back.value.tree == Node(base, spine, k).tree && tip in Reach(back.value))
  }

  lemma {:induction false} BackOneMore(revert: RevertFn, base: Commit, spine: seq<Commit>, done: seq<Commit>, k: nat)
    requires forall tip, merge :: TakesBack(revert, tip, merge)
    requires k < |spine| && RestsOn(base, spine, k) && |done| == |spine| - k && done[|done| - 1] == spine[k]
    requires BackAt(revert, base, spine, done[..|done| - 1], k + 1)
    ensures BackAt(revert, base, spine, done, k)
  {
    var tip, merge, before := Tip(base, spine), spine[k], done[..|done| - 1];
    assert done == before + [merge];
    var back := RevertAll(revert, tip, before);
    assert ChangedFrom(spine, k) <==> Changed(merge) && ChangedFrom(spine, k + 1);
    if back.Some? {
      assert TakesBack(revert, back.value, merge);
      if Changed(merge) {
        ReachTransitive(back.value, RevertAll(revert, tip, done).value);
      }
    }
  }

  /** Reverting the merges from `k` on, newest first, puts back the tree the spine had before
      them, on top of the tip; it fails exactly when one of them changed nothing. */
  lemma {:induction false} RevertSpine(revert: RevertFn, base: Commit, spine: seq<Commit>, newest: seq<Commit>, k: nat)
    requires forall tip, merge :: TakesBack(revert, tip, merge)
    requires Spine(base, spine) && k <= |spine| && newest == Reverse(spine)
    ensures |newest| == |spine|
    ensures BackAt(revert, base, spine, newest[..|spine| - k], k)
    decreases |spine| - k
  {
    ReverseAt(spine);
    if k < |spine| {
      RevertSpine(revert, base, spine, newest, k + 1);
      assert RestsOn(base, spine, k);
      var done := newest[..|spine| - k];
      assert done[..|spine| - k - 1] == newest[..|spine| - (k + 1)];
      BackOneMore(revert, base, spine, done, k);
    }
  }

  lemma {:induction false} ReverseAt<T>(s: seq<T>)
    ensures |Reverse(s)| == |s| && forall i :: 0 <= i < |s| ==> Reverse(s)[|s| - 1 - i] == s[i]
  {
    if s != [] {
      ReverseAt(s[1..]);
    }
  }

  /** The revert of a train that `build_train` produced goes through exactly when something
      merged and every merge changed its first parent's tree. The new tip then carries base's
      tree on top of the train tip. */
  lemma {:induction false} RevertUndoesTrain(g: Git, refs: Refs, base: string, prs: seq<(nat, string)>)
    requires Build(g, refs, base, prs).Ok?
    ensures base in refs
    ensures var t := Build(g, refs, base, prs).value;
      var back := Reverted(g, refs[base], t.tip);
      && (back.Some? <==> t.tip != refs[base]
                          && forall e :: e in t.entries && e.merge.Some? ==> Changed(e.merge.value))
      && (back.Some? ==> back.value.tree == refs[base].tree && t.tip in Reach(back.value))
  {
    TrainIsWellBuilt(g, refs, base, prs);
    TrainSpine(g, refs, base, prs);
    var t := Build(g, refs, base, prs).value;
    MergesAll(t.entries);
    RevertWholeSpine(g, refs[base], Merges(t.entries));
  }

  lemma {:induction false} RevertWholeSpine(g: Git, base: Commit, spine: seq<Commit>)
    requires Spine(base, spine) && RevListMerges(base, Tip(base, spine)) == Reverse(spine)
    ensures var back := Reverted(g, base, Tip(base, spine));
      && (back.Some? <==> spine != [] && forall m :: m in spine ==> Changed(m))
      && (back.Some? ==> back.value.tree == base.tree && Tip(base, spine) in Reach(back.value))
  {
    var newest := Reverse(spine);
    forall tip, merge
      ensures TakesBack(GitRevert(g), tip, merge)
    {
      GitRevertTakesBack(g, tip, merge);
    }
    RevertSpine(GitRevert(g), base, spine, newest, 0);
    assert newest[..|spine|] == newest;
    assert ChangedFrom(spine, 0) <==> forall m :: m in spine ==> Changed(m);
  }

  /** A revert keeps history, so a train rebuilt on it recognizes every reverted pull request
      as already landed although its content is gone. */
  lemma {:induction false} RevertedWorkIsNotMergedAgain(g: Git, refs: Refs, base: string, prs: seq<(nat, string)>, i: nat, back: Commit)
    requires Build(g, refs, base, prs).Ok? && i < |prs| && base in refs && prs[i].1 in refs
    requires Reverted(g, refs[base], Build(g, refs, base, prs).value.tip) == Some(back)
    requires i < |Build(g, refs, base, prs).value.entries| && Build(g, refs, base, prs).value.entries[i].merged
    ensures CherryPlus(g, back, refs[prs[i].1]) == {}
  {
    TrainIsWellBuilt(g, refs, base, prs);
    RevertUndoesTrain(g, refs, base, prs);
    var t := Build(g, refs, base, prs).value;
    var head, merge := refs[prs[i].1], t.entries[i].merge.value;
    MergesAll(t.entries);
    assert t.entries[i] in t.entries;
    MergedHeadBelowTip(refs[base], Merges(t.entries), merge, head);
    ReachTransitive(t.tip, back);
    ContainedIsRecognized(g, back, head);
  }

  lemma {:induction false} MergedHeadBelowTip(base: Commit, spine: seq<Commit>, merge: Commit, head: Commit)
    requires Spine(base, spine) && merge in spine && head in merge.parents
    ensures head in Reach(Tip(base, spine))
  {
    var k :| 0 <= k < |spine| && spine[k] == merge;
    ParentBelow(head, merge);
    SpineBelowTip(base, spine, k + 1, |spine|);
    ReachTransitive(merge, Tip(base, spine));
  }

  lemma {:induction false} SpineBelowTip(base: Commit, spine: seq<Commit>, i: nat, j: nat)
    requires Spine(base, spine) && i <= j <= |spine|
    ensures Node(base, spine, i) in Reach(Node(base, spine, j))
    decreases j - i
  {
    if i < j {
      SpineBelowTip(base, spine, i, j - 1);
      var c := spine[j - 1];
      assert RestsOn(base, spine, j - 1);
      ParentBelow(c.parents[0], c);
    }
  }

  /** A push never loses history: all that was reachable from the branch still is. */
  lemma {:induction false} PushKeepsHistory(branches: Refs, tip: Commit, branch: string)
    requires branch in branches
    ensures FastForward(branches, tip, branch) <==> Reach(branches[branch]) <= Reach(tip)
  {
    if FastForward(branches, tip, branch) {
      ReachTransitive(branches[branch], tip);
    }
  }

  /** Landing a train on the base it was built from and reverting it before the branch moves
      is accepted by the remote, both times. */
  lemma {:induction false} LandThenRevertIsAccepted(g: Git, refs: Refs, base: string, prs: seq<(nat, string)>, branches: Refs, branch: string)
    requires Build(g, refs, base, prs).Ok? && base in refs
    requires branch in branches && branches[branch] == refs[base]
    ensures var t := Build(g, refs, base, prs).value;
      && FastForward(branches, t.tip, branch)
      && (Reverted(g, refs[base], t.tip).Some? ==>
          FastForward(branches[branch := t.tip], Reverted(g, refs[base], t.tip).value, branch))
  {
    TrainSpine(g, refs, base, prs);
    RevertUndoesTrain(g, refs, base, prs);
  }

  // ---- a train that cannot be reverted -----------------------------------------

  const ROOT := Commit([], map["f" := "1"], "root")
  const EMPTY := Commit([ROOT], map["f" := "1"], "nothing changed")

  /** One root, one pull request holding an empty commit. */
  function EmptyPullRequest(): (Git, Refs, seq<(nat, string)>) {
    (Git((base, ours, theirs) => None, (tip, head) => Some(ROOT.tree), (c: Commit) => c.message),
     map["main" := ROOT, "pr" := EMPTY],
     [(7, "pr")])
  }

  /** Such a train merges and lands, and its revert is refused: the side condition of
      `RevertUndoesTrain` is needed. */
  lemma {:induction false} EmptyMergeBlocksRevert()
    ensures var (g, refs, prs) := EmptyPullRequest();
      var built := Build(g, refs, "main", prs);
      && built.Ok? && built.value.tip.parents == [ROOT, EMPTY]
      && Reverted(g, ROOT, built.value.tip).None?
  {
    var (g, refs, prs) := EmptyPullRequest();
    assert prs[..|prs| - 1] == [];
    assert Build(g, refs, "main", []) == Ok(Train(ROOT, []));
    BuildFailsIffUnresolved(g, refs, "main", prs);
    ParentBelow(ROOT, EMPTY);
    assert EMPTY in CherryPlus(g, ROOT, EMPTY) by {
      assert Reach(ROOT) == {ROOT};
    }
    Merge3Unmoved(g, ROOT.tree, EMPTY.tree);
    var t := Build(g, refs, "main", prs).value;
    assert Reach(ROOT) == {ROOT};
    assert t == Step(g, Train(ROOT, []), 7, "pr", EMPTY);
    assert Merge(g, ROOT, EMPTY, "choir train: PR #" + Decimal.Print(7)).Merged?;
    assert Merges(t.entries) == [t.tip];
    TrainSpine(g, refs, "main", prs);
    RevertUndoesTrain(g, refs, "main", prs);
    assert t.entries[0] in t.entries;
  }
}
