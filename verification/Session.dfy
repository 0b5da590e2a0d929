/**
 The held worktrees of a calibration run (`DifferentialSession`, crates/choir-bridge/src/queue.rs).
 The disk maps every linked worktree to the revision it is really on; a checkout or a creation
 may fail, and then leaves its worktree alone.
 */
module Session {
  import opened Basics
  import opened Seating
  import Decimal

  datatype Held = Held(path: string, head: Rev)

  type Disk = map<string, Rev>

  function TreePath(root: string, i: nat): string {
    root + "/tree-" + Decimal.Print(i)
  }

  lemma {:induction false} TreePathsDiffer(root: string, i: nat, j: nat)
    requires TreePath(root, i) == TreePath(root, j)
    ensures i == j
  {
    var prefix := root + "/tree-";
    assert TreePath(root, i)[|prefix|..] == Decimal.Print(i);
    assert TreePath(root, j)[|prefix|..] == Decimal.Print(j);
    Decimal.PrintInjective(i, j);
  }

  function Heads(trees: seq<Held>): (h: seq<Rev>)
    ensures |h| == |trees| && forall i :: 0 <= i < |trees| ==> h[i] == trees[i].head
  {
    if trees == [] then [] else Heads(trees[..|trees| - 1]) + [trees[|trees| - 1].head]
  }

  /** The recorded heads are the real ones, and the trees are different trees. */
  ghost predicate Truthful(trees: seq<Held>, disk: Disk) {
    && (forall i :: 0 <= i < |trees| ==> trees[i].path in disk && disk[trees[i].path] == trees[i].head)
    && DistinctPaths(trees)
  }

  ghost predicate DistinctPaths(trees: seq<Held>) {
    forall i, j :: 0 <= i < j < |trees| ==> trees[i].path != trees[j].path
  }

  // ---- the effect of the first `n` checkouts ---------------------------------------

  ghost predicate Seats(seats: seq<nat>, trees: seq<Held>, revisions: seq<Rev>) {
    Bijective(seats, |trees|) && |revisions| == |trees|
  }

  ghost function Moved(trees: seq<Held>, seats: seq<nat>, revisions: seq<Rev>, n: nat): (t: seq<Held>)
    requires Seats(seats, trees, revisions) && n <= |trees|
    ensures |t| == |trees| && forall i :: 0 <= i < |trees| ==> t[i].path == trees[i].path
  {
    if n == 0 then trees
    else
      var t, i := Moved(trees, seats, revisions, n - 1), seats[n - 1];
      t[i := Held(t[i].path, revisions[n - 1])]
  }

  ghost function MovedDisk(disk: Disk, trees: seq<Held>, seats: seq<nat>, revisions: seq<Rev>, n: nat): Disk
    requires Seats(seats, trees, revisions) && n <= |trees|
  {
    if n == 0 then disk
    else MovedDisk(disk, trees, seats, revisions, n - 1)[trees[seats[n - 1]].path := revisions[n - 1]]
  }

  /** However far the checkouts got, the record is truthful and no other worktree moved. */
  lemma {:induction false} MovedIsTruthful(disk: Disk, trees: seq<Held>, seats: seq<nat>, revisions: seq<Rev>, n: nat)
    requires Seats(seats, trees, revisions) && n <= |trees| && Truthful(trees, disk)
    ensures Truthful(Moved(trees, seats, revisions, n), MovedDisk(disk, trees, seats, revisions, n))
    ensures var after := MovedDisk(disk, trees, seats, revisions, n);
      && after.Keys == disk.Keys
      && forall p :: p in disk && (forall i :: 0 <= i < |trees| ==> trees[i].path != p) ==> after[p] == disk[p]
  {
    if n > 0 {
      MovedIsTruthful(disk, trees, seats, revisions, n - 1);
    }
  }

  /** The roles done so far sit on their revisions, the others where they were. */
  lemma {:induction false} MovedHeads(trees: seq<Held>, seats: seq<nat>, revisions: seq<Rev>, n: nat)
    requires Seats(seats, trees, revisions) && n <= |trees|
    ensures forall r :: 0 <= r < |trees| ==>
      Moved(trees, seats, revisions, n)[seats[r]].head == if r < n then revisions[r] else trees[seats[r]].head
  {
    if n > 0 {
      MovedHeads(trees, seats, revisions, n - 1);
    }
  }

  /** One worktree of its own for every role, sitting on the role's revision. */
  ghost predicate OnePerRole(paths: seq<string>, disk: Disk, revisions: seq<Rev>) {
    && |paths| == |revisions|
    && (forall q :: 0 <= q < |paths| ==> paths[q] in disk && disk[paths[q]] == revisions[q])
    && (forall q, s :: 0 <= q < s < |paths| ==> paths[q] != paths[s])
  }

  lemma {:induction false} EachOnItsRevision(disk: Disk, trees: seq<Held>, seats: seq<nat>, revisions: seq<Rev>, paths: seq<string>)
    requires Seats(seats, trees, revisions) && Truthful(trees, disk)
    requires |paths| == |trees| && forall q :: 0 <= q < |paths| ==> paths[q] == trees[seats[q]].path
    ensures OnePerRole(paths, MovedDisk(disk, trees, seats, revisions, |trees|), revisions)
  {
    var n := |trees|;
    MovedIsTruthful(disk, trees, seats, revisions, n);
    MovedHeads(trees, seats, revisions, n);
    var t := Moved(trees, seats, revisions, n);
    forall q | 0 <= q < n
      ensures paths[q] == t[seats[q]].path && t[seats[q]].head == revisions[q]
    {
    }
    forall q, s | 0 <= q < s < n
      ensures paths[q] != paths[s]
    {
      assert seats[q] != seats[s];
    }
  }

  // ---- the session -------------------------------------------------------------------

  class DifferentialSession {
    const root: string
    var trees: array?<Held>
    var disk: Disk

    constructor (root: string, disk: Disk)
      ensures this.root == root && this.disk == disk && trees == null
    {
      this.root, this.disk, trees := root, disk, null;
    }

    /** The checkouts of one observation, role by role; `able` says which of them git can do.
        Stops at the first that fails. */
    method CheckoutAll(seats: seq<nat>, revisions: seq<Rev>, able: (string, Rev) -> bool) returns (done: nat)
      requires trees != null && Seats(seats, trees[..], revisions)
      modifies this`disk, trees
      ensures done <= |revisions|
      ensures trees[..] == Moved(old(trees[..]), seats, revisions, done)
      ensures disk == MovedDisk(old(disk), old(trees[..]), seats, revisions, done)
      ensures done < |revisions| ==> !able(old(trees[..])[seats[done]].path, revisions[done])
      ensures forall n :: 0 <= n < done ==> able(old(trees[..])[seats[n]].path, revisions[n])
    {
      ghost var before := trees[..];
      done := 0;
      while done < |revisions|
        invariant done <= |revisions|
        invariant trees[..] == Moved(before, seats, revisions, done)
        invariant disk == MovedDisk(old(disk), before, seats, revisions, done)
        invariant forall n :: 0 <= n < done ==> able(before[seats[n]].path, revisions[n])
      {
        var index := seats[done];
        assert trees[..][index].path == before[index].path;
        if !able(trees[index].path, revisions[done]) {
          return;
        }
        disk := disk[trees[index].path := revisions[done]];
        trees[index] := Held(trees[index].path, revisions[done]);
        done := done + 1;
      }
    }

    /** A later observation: assign the roles, then check out. */
    method Move(revisions: seq<Rev>, able: (string, Rev) -> bool) returns (seats: seq<nat>, done: nat, paths: seq<string>)
      requires trees != null && trees.Length == |revisions|
      modifies this`disk, trees
      ensures Seats(seats, old(trees[..]), revisions) && InTurn(seats, Heads(old(trees[..])), revisions) && done <= |revisions|
      ensures NoOps(seats, Heads(old(trees[..])), revisions) == |multiset(Heads(old(trees[..]))) * multiset(revisions)|
      ensures trees[..] == Moved(old(trees[..]), seats, revisions, done)
      ensures disk == MovedDisk(old(disk), old(trees[..]), seats, revisions, done)
      ensures done < |revisions| ==> !able(old(trees[..])[seats[done]].path, revisions[done])
      ensures forall n :: 0 <= n < done ==> able(old(trees[..])[seats[n]].path, revisions[n])
      ensures |paths| == |seats| && forall q :: 0 <= q < |paths| ==> paths[q] == old(trees[..])[seats[q]].path
    {
      var before := trees[..];
      seats := Assign(Heads(before), revisions);
      done := CheckoutAll(seats, revisions, able);
      paths := seq(|seats|, q requires 0 <= q < |seats| && seats[q] < |before| => before[seats[q]].path);
    }

    /** The worktrees of a first observation, one per role. */
    method AddAll(revisions: seq<Rev>, able: (string, Rev) -> bool) returns (created: seq<Held>)
      modifies this`disk
      ensures |created| <= |revisions| && created == NewTrees(root, revisions, |created|)
      ensures disk == Added(old(disk), created)
      ensures AllAddable(able, root, old(disk), revisions, |created|)
      ensures |created| < |revisions| ==> !Addable(able, root, old(disk), revisions, |created|)
    {
      created := [];
      while |created| < |revisions|
        invariant |created| <= |revisions| && created == NewTrees(root, revisions, |created|)
        invariant disk == Added(old(disk), created)
        invariant AllAddable(able, root, old(disk), revisions, |created|)
        decreases |revisions| - |created|
      {
        var path := TreePath(root, |created|);
        StillFree(old(disk), root, revisions, |created|);
        if path in disk || !able(path, revisions[|created|]) {
          return;
        }
        AddOneMore(old(disk), root, revisions, |created|);
        disk := disk[path := revisions[|created|]];
        created := created + [Held(path, revisions[|created|])];
      }
    }

    /** The first observation: one new worktree per role, all of them or none. */
    method Create(revisions: seq<Rev>, able: (string, Rev) -> bool) returns (r: Result<seq<string>>)
      requires trees == null
      modifies this
      ensures r.Ok? <==> AllAddable(able, root, old(disk), revisions, |revisions|)
      ensures r.Ok? ==>
        && trees != null && fresh(trees) && trees[..] == NewTrees(root, revisions, |revisions|)
        && disk == Added(old(disk), trees[..])
        && |r.value| == |revisions| && forall k :: 0 <= k < |revisions| ==> r.value[k] == TreePath(root, k)
      ensures r.Err? ==> trees == null && disk == old(disk)
    {
      var created := AddAll(revisions, able);
      if |created| < |revisions| {
        AllAddableMeans(able, root, old(disk), revisions, |revisions|);
        AllAddableMeans(able, root, old(disk), revisions, |created|);
        NewTreesWereFree(able, root, old(disk), revisions, |created|);
        RemoveAdded(old(disk), created);
        disk := disk - PathSet(created);
        return Err("worktree add failed");
      }
      trees := new Held[|created|](i requires 0 <= i < |created| => created[i]);
      assert trees[..] == created;
      NewTreeAt(root, revisions, |created|);
      r := Ok(seq(|created|, i requires 0 <= i < |created| => created[i].path));
    }

    method Open(revisions: seq<Rev>, able: (string, Rev) -> bool) returns (r: Result<seq<string>>)
      requires trees == null
      modifies this
      ensures r.Ok? <==> forall k: nat :: k < |revisions| ==> Addable(able, root, old(disk), revisions, k)
      ensures r.Ok? ==> trees != null && trees.Length == |revisions| && Truthful(trees[..], disk) && OnePerRole(r.value, disk, revisions)
      ensures r.Ok? ==> forall p :: p in old(disk) ==> p in disk && disk[p] == old(disk)[p]
      ensures r.Err? ==> trees == null && disk == old(disk)
    {
      r := Create(revisions, able);
      AllAddableMeans(able, root, old(disk), revisions, |revisions|);
      if r.Ok? {
        CreatedOnePerRole(old(disk), root, revisions, r.value);
        NewTreesWereFree(able, root, old(disk), revisions, |revisions|);
        AddedKeeps(old(disk), trees[..]);
      }
    }

    /** Puts one tree on each requested revision, creating them on the first call and moving them
        on every later one. The answer is an error exactly when git cannot do what it takes: on the first
        call all trees or none; later the roles' checkouts, in order, as far as the first that fails. */
    method Prepare(revisions: seq<Rev>, able: (string, Rev) -> bool) returns (r: Result<seq<string>>, ghost seats: seq<nat>, ghost done: nat)
      requires trees != null ==> trees.Length == |revisions| && Truthful(trees[..], disk)
      modifies this, trees
      ensures trees != null ==> trees.Length == |revisions| && Truthful(trees[..], disk)
      ensures r.Ok? ==> trees != null && OnePerRole(r.value, disk, revisions)
      ensures old(trees) == null ==>
        && (r.Ok? <==> forall k: nat :: k < |revisions| ==> Addable(able, root, old(disk), revisions, k))
        && (r.Err? ==> trees == null && disk == old(disk))
        && (forall p :: p in old(disk) ==> p in disk && disk[p] == old(disk)[p])
      ensures old(trees) != null ==>
        && trees == old(trees) && Seats(seats, old(trees[..]), revisions) && InTurn(seats, Heads(old(trees[..])), revisions)
        && NoOps(seats, Heads(old(trees[..])), revisions) == |multiset(Heads(old(trees[..]))) * multiset(revisions)|
        && (r.Ok? <==> forall q :: 0 <= q < |revisions| ==> able(old(trees[..])[seats[q]].path, revisions[q]))
        && (r.Ok? ==> forall q :: 0 <= q < |revisions| ==> r.value[q] == old(trees[..])[seats[q]].path)
        && done <= |revisions| && (r.Ok? <==> done == |revisions|)
        && trees[..] == Moved(old(trees[..]), seats, revisions, done)
        && disk == MovedDisk(old(disk), old(trees[..]), seats, revisions, done)
        && (r.Err? ==> !able(old(trees[..])[seats[done]].path, revisions[done]))
    {
      seats, done := [], 0;
      if trees != null {
        ghost var before, diskBefore := trees[..], disk;
        var roles, count, paths := Move(revisions, able);
        seats, done := roles, count;
        MovedIsTruthful(diskBefore, before, seats, revisions, done);
        if count < |revisions| {
          r := Err("checkout failed");
          return;
        }
        EachOnItsRevision(diskBefore, before, seats, revisions, paths);
        r := Ok(paths);
      } else {
        r := Open(revisions, able);
      }
    }
  }

  // ---- creation ------------------------------------------------------------------------

  predicate Addable(able: (string, Rev) -> bool, root: string, disk: Disk, revisions: seq<Rev>, k: nat)
    requires k < |revisions|
  {
    TreePath(root, k) !in disk && able(TreePath(root, k), revisions[k])
  }

  predicate AllAddable(able: (string, Rev) -> bool, root: string, disk: Disk, revisions: seq<Rev>, n: nat)
    requires n <= |revisions|
  {
    n == 0 || (AllAddable(able, root, disk, revisions, n - 1) && Addable(able, root, disk, revisions, n - 1))
  }

  lemma {:induction false} AllAddableMeans(able: (string, Rev) -> bool, root: string, disk: Disk, revisions: seq<Rev>, n: nat)
    requires n <= |revisions|
    ensures AllAddable(able, root, disk, revisions, n) <==> forall k :: 0 <= k < n ==> Addable(able, root, disk, revisions, k)
  {
    if n > 0 {
      AllAddableMeans(able, root, disk, revisions, n - 1);
    }
  }

  ghost function NewTrees(root: string, revisions: seq<Rev>, n: nat): (t: seq<Held>)
    requires n <= |revisions|
    ensures |t| == n
  {
    if n == 0 then [] else NewTrees(root, revisions, n - 1) + [Held(TreePath(root, n - 1), revisions[n - 1])]
  }

  lemma {:induction false} NewTreeAt(root: string, revisions: seq<Rev>, n: nat)
    requires n <= |revisions|
    ensures forall k :: 0 <= k < n ==> NewTrees(root, revisions, n)[k] == Held(TreePath(root, k), revisions[k])
  {
    if n > 0 {
      NewTreeAt(root, revisions, n - 1);
    }
  }

  lemma {:induction false} AddOneMore(disk: Disk, root: string, revisions: seq<Rev>, n: nat)
    requires n < |revisions|
    ensures NewTrees(root, revisions, n + 1) == NewTrees(root, revisions, n) + [Held(TreePath(root, n), revisions[n])]
    ensures Added(disk, NewTrees(root, revisions, n + 1)) == Added(disk, NewTrees(root, revisions, n))[TreePath(root, n) := revisions[n]]
  {
    assert NewTrees(root, revisions, n + 1)[..n] == NewTrees(root, revisions, n);
  }

  /** The next path is taken only if it was before the session started. */
  lemma {:induction false} StillFree(disk: Disk, root: string, revisions: seq<Rev>, n: nat)
    requires n <= |revisions|
    ensures TreePath(root, n) in Added(disk, NewTrees(root, revisions, n)) <==> TreePath(root, n) in disk
  {
    var created := NewTrees(root, revisions, n);
    AddedKeys(disk, created);
    NewTreeAt(root, revisions, n);
    forall t | t in created
      ensures t.path != TreePath(root, n)
    {
      var k :| 0 <= k < n && created[k] == t;
      if t.path == TreePath(root, n) {
        TreePathsDiffer(root, k, n);
      }
    }
  }

  lemma {:induction false} NewTreesWereFree(able: (string, Rev) -> bool, root: string, disk: Disk, revisions: seq<Rev>, n: nat)
    requires n <= |revisions| && forall k :: 0 <= k < n ==> Addable(able, root, disk, revisions, k)
    ensures forall t :: t in NewTrees(root, revisions, n) ==> t.path !in disk
  {
    NewTreeAt(root, revisions, n);
    forall t | t in NewTrees(root, revisions, n)
      ensures t.path !in disk
    {
      var k :| 0 <= k < n && NewTrees(root, revisions, n)[k] == t;
      assert Addable(able, root, disk, revisions, k);
    }
  }

  lemma {:induction false} AddedIsTruthful(disk: Disk, created: seq<Held>)
    requires DistinctPaths(created)
    ensures Truthful(created, Added(disk, created))
  {
    if created != [] {
      AddedIsTruthful(disk, created[..|created| - 1]);
    }
  }

  lemma {:induction false} CreatedOnePerRole(disk: Disk, root: string, revisions: seq<Rev>, paths: seq<string>)
    requires |paths| == |revisions| && forall k :: 0 <= k < |revisions| ==> paths[k] == TreePath(root, k)
    ensures var t := NewTrees(root, revisions, |revisions|);
      Truthful(t, Added(disk, t)) && OnePerRole(paths, Added(disk, t), revisions)
  {
    var n := |revisions|;
    NewTreesDiffer(root, revisions, n);
    AddedIsTruthful(disk, NewTrees(root, revisions, n));
    NewTreeAt(root, revisions, n);
    TruthfulOnePerRole(NewTrees(root, revisions, n), Added(disk, NewTrees(root, revisions, n)), revisions, paths);
  }

  lemma {:induction false} TruthfulOnePerRole(t: seq<Held>, disk: Disk, revisions: seq<Rev>, paths: seq<string>)
    requires Truthful(t, disk) && |t| == |paths| == |revisions|
    requires forall k :: 0 <= k < |t| ==> t[k].path == paths[k] && t[k].head == revisions[k]
    ensures OnePerRole(paths, disk, revisions)
  {
    forall q, s | 0 <= q < s < |paths|
      ensures paths[q] != paths[s]
    {
      assert t[q].path != t[s].path;
    }
  }

  lemma {:induction false} NewTreesDiffer(root: string, revisions: seq<Rev>, n: nat)
    requires n <= |revisions|
    ensures DistinctPaths(NewTrees(root, revisions, n))
  {
    NewTreeAt(root, revisions, n);
    forall i, j | 0 <= i < j < n
      ensures NewTrees(root, revisions, n)[i].path != NewTrees(root, revisions, n)[j].path
    {
      if TreePath(root, i) == TreePath(root, j) {
        TreePathsDiffer(root, i, j);
      }
    }
  }

  ghost function Added(disk: Disk, created: seq<Held>): Disk {
    if created == [] then disk
    else
      var n := |created| - 1;
      Added(disk, created[..n])[created[n].path := created[n].head]
  }

  function PathSet(trees: seq<Held>): set<string> {
    set t | t in trees :: t.path
  }

  lemma {:induction false} AddedKeys(disk: Disk, created: seq<Held>)
    ensures Added(disk, created).Keys == disk.Keys + PathSet(created)
  {
    if created != [] {
      var n := |created| - 1;
      AddedKeys(disk, created[..n]);
      assert created == created[..n] + [created[n]];
    }
  }

  /** New worktrees leave the others where they were. */
  lemma {:induction false} AddedKeeps(disk: Disk, created: seq<Held>)
    requires forall t :: t in created ==> t.path !in disk
    ensures forall p :: p in disk ==> p in Added(disk, created) && Added(disk, created)[p] == disk[p]
  {
    if created != [] {
      var n := |created| - 1;
      assert created == created[..n] + [created[n]];
      AddedKeeps(disk, created[..n]);
    }
  }

  lemma {:induction false} RemoveAdded(disk: Disk, created: seq<Held>)
    requires forall t :: t in created ==> t.path !in disk
    ensures Added(disk, created) - PathSet(created) == disk
  {
    if created != [] {
      var n := |created| - 1;
      assert created == created[..n] + [created[n]];
      RemoveAdded(disk, created[..n]);
      AddedKeys(disk, created);
    }
  }
}
