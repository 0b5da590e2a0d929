/**
 The speculative merge train (crates/choir-bridge/src/queue.rs): building it, landing
 it by fast-forward, and reverting it.
 */
module MergeTrain {
  import opened Basics
  import opened Git
  import Decimal

  datatype TrainEntry = TrainEntry(
    id: nat, head: string, merged: bool, merge: Option<Commit>, note: string, alreadyLanded: bool)

  datatype Train = Train(tip: Commit, entries: seq<TrainEntry>)

  type Refs = map<string, Commit>

  // ---- building --------------------------------------------------------------

  /** The merge commits of the merged entries, in train order. */
  function Merges(entries: seq<TrainEntry>): seq<Commit> {
    if entries == [] then []
    else
      var rest, last := Merges(entries[..|entries| - 1]), entries[|entries| - 1];
      if last.merge.Some? then rest + [last.merge.value] else rest
  }

  /** What one round of the loop appends, given the train so far. */
  function Step(g: Git, t: Train, id: nat, name: string, head: Commit): Train {
    if CherryPlus(g, t.tip, head) == {} then
      Train(t.tip, t.entries + [TrainEntry(id, name, false, None, "already landed (patch identity)", true)])
    else
      match Merge(g, t.tip, head, "choir train: PR #" + Decimal.Print(id))
      case Conflicted =>
        Train(t.tip, t.entries + [TrainEntry(id, name, false, None, "conflicts with train", false)])
      case UpToDate =>
        Train(t.tip, t.entries + [TrainEntry(id, name, true, Some(t.tip), Position(t), false)])
      case Merged(commit) =>
        Train(commit, t.entries + [TrainEntry(id, name, true, Some(commit), Position(t), false)])
  }

  function Position(t: Train): string {
    "train position " + Decimal.Print(|Merges(t.entries)| + 1)
  }

  function Build(g: Git, refs: Refs, base: string, prs: seq<(nat, string)>): Result<Train> {
    if base !in refs then Err("unknown revision")
    else if prs == [] then Ok(Train(refs[base], []))
    else
      var before := Build(g, refs, base, prs[..|prs| - 1]);
      var (id, name) := prs[|prs| - 1];
      if before.Err? then before
      else if name !in refs then Err("unknown revision")
      else Ok(Step(g, before.value, id, name, refs[name]))
  }

  /** A clone whose worktree the queue owns. */
  class Clone {
    var refs: Refs
    var head: Commit

    constructor (refs: Refs, head: Commit)
      ensures this.refs == refs && this.head == head
    {
      this.refs := refs;
      this.head := head;
    }

    method BuildTrain(g: Git, base: string, prs: seq<(nat, string)>) returns (r: Result<Train>)
      modifies this`head
      ensures r == Build(g, refs, base, prs)
      ensures r.Ok? ==> head == r.value.tip
    {
      if base !in refs {
        Unresolved(g, refs, base, prs, 0);
        return Err("unknown revision");
      }
      head := refs[base];
      var entries: seq<TrainEntry> := [];
      var position := 0;
      for i := 0 to |prs|
        invariant Build(g, refs, base, prs[..i]) == Ok(Train(head, entries))
        invariant position == |Merges(entries)|
      {
        var (id, name) := prs[i];
        assert prs[..i + 1][..i] == prs[..i];
        if name !in refs {
          Unresolved(g, refs, base, prs, i + 1);
          return Err("unknown revision");
        }
        var pr := refs[name];
        if CherryPlus(g, head, pr) == {} {
          entries := entries + [TrainEntry(id, name, false, None, "already landed (patch identity)", true)];
          continue;
        }
        match Merge(g, head, pr, "choir train: PR #" + Decimal.Print(id)) {
          case Conflicted =>
            entries := entries + [TrainEntry(id, name, false, None, "conflicts with train", false)];
          case UpToDate =>
            position := position + 1;
            entries := entries + [TrainEntry(id, name, true, Some(head), "train position " + Decimal.Print(position), false)];
          case Merged(commit) =>
            position := position + 1;
            head := commit;
            entries := entries + [TrainEntry(id, name, true, Some(head), "train position " + Decimal.Print(position), false)];
        }
      }
      assert prs[..|prs|] == prs;
      r := Ok(Train(head, entries));
    }

    /** Lands a green train: a push without force, so fast-forward only. */
    method Land(remote: Remote, tip: Commit, branch: string) returns (ok: bool)
      modifies remote
      ensures ok <==> FastForward(old(remote.branches), tip, branch)
      ensures remote.branches == if ok then old(remote.branches)[branch := tip] else old(remote.branches)
    {
      ok := remote.Push(tip, branch);
    }

    method RevertTrain(g: Git, remote: Remote, base: Commit, tip: Commit, branch: string) returns (r: Result<Commit>)
      modifies this`head, remote
      ensures r.Ok? <==> Reverted(g, base, tip).Some? && FastForward(old(remote.branches), Reverted(g, base, tip).value, branch)
      ensures r.Ok? ==> Some(r.value) == Reverted(g, base, tip) && head == r.value
      ensures r.Err? ==> r.message == if RevListMerges(base, tip) == [] then "no train merges between base and tip"
                                    else if Reverted(g, base, tip).None? then "revert conflicts, leaving branch alone"
                                    else "push rejected"
      ensures remote.branches == if r.Ok? then old(remote.branches)[branch := r.value] else old(remote.branches)
    {
      var merges := RevListMerges(base, tip);
      if merges == [] {
        return Err("no train merges between base and tip");
      }
      var reverted := RevertEach(GitRevert(g), tip, merges);
      if !reverted {
        return Err("revert conflicts, leaving branch alone");
      }
      var pushed := remote.Push(head, branch);
      r := if pushed then Ok(head) else Err("push rejected");
    }

    method RevertEach(revert: RevertFn, tip: Commit, merges: seq<Commit>) returns (ok: bool)
      modifies this`head
      ensures ok <==> RevertAll(revert, tip, merges).Some?
      ensures ok ==> Some(head) == RevertAll(revert, tip, merges)
    {
      head := tip;
      for i := 0 to |merges|
        invariant RevertAll(revert, tip, merges[..i]) == Some(head)
      {
        assert merges[..i + 1][..i] == merges[..i];
        var reverted := revert(head, merges[i]);
        if reverted.None? {
          RevertStops(revert, tip, merges, i + 1);
          return false;
        }
        head := reverted.value;
      }
      assert merges[..|merges|] == merges;
      ok := true;
    }
  }

  /** The server side of a push: branches move forward only. */
  class Remote {
    var branches: Refs

    method Push(tip: Commit, branch: string) returns (ok: bool)
      modifies this
      ensures ok <==> FastForward(old(branches), tip, branch)
      ensures branches == if ok then old(branches)[branch := tip] else old(branches)
    {
      ok := branch !in branches || branches[branch] in Reach(tip);
      if ok {
        branches := branches[branch := tip];
      }
    }
  }

  predicate FastForward(branches: Refs, tip: Commit, branch: string) {
    branch in branches ==> branches[branch] in Reach(tip)
  }

  /** One `git revert` on a checked-out commit; `None` when git exits nonzero. */
  type RevertFn = (Commit, Commit) -> Option<Commit>

  function GitRevert(g: Git): RevertFn {
    (tip, merge: Commit) => if merge.parents == [] then None else Revert(g, tip, merge)
  }

  /** Reverts `merges` in list order on top of `tip`; `None` as soon as one revert fails. */
  function RevertAll(revert: RevertFn, tip: Commit, merges: seq<Commit>): Option<Commit> {
    if merges == [] then Some(tip)
    else
      var before := RevertAll(revert, tip, merges[..|merges| - 1]);
      if before.None? then None else revert(before.value, merges[|merges| - 1])
  }

  /** The commit `revert_train` would push; `None` when there is nothing to revert or a revert fails. */
  function Reverted(g: Git, base: Commit, tip: Commit): Option<Commit> {
    var merges := RevListMerges(base, tip);
    if merges == [] then None else RevertAll(GitRevert(g), tip, merges)
  }

  lemma {:induction false} Unresolved(g: Git, refs: Refs, base: string, prs: seq<(nat, string)>, i: nat)
    requires i <= |prs| && Build(g, refs, base, prs[..i]) == Err("unknown revision")
    ensures Build(g, refs, base, prs) == Err("unknown revision")
    decreases |prs| - i
  {
    if i < |prs| {
      assert prs[..i + 1][..i] == prs[..i];
      Unresolved(g, refs, base, prs, i + 1);
    } else {
      assert prs[..i] == prs;
    }
  }

  lemma {:induction false} RevertStops(revert: RevertFn, tip: Commit, merges: seq<Commit>, i: nat)
    requires i <= |merges| && RevertAll(revert, tip, merges[..i]).None?
    ensures RevertAll(revert, tip, merges).None?
    decreases |merges| - i
  {
    if i < |merges| {
      assert merges[..i + 1][..i] == merges[..i];
      RevertStops(revert, tip, merges, i + 1);
    } else {
      assert merges[..i] == merges;
    }
  }
}
