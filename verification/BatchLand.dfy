/**
 The batch queue of the demo (demo/tui.py, `batch_land`): merge everything that merges,
 test the batch once, bisect on red, evict the culprit, rebuild and test again.
 */
module BatchLand {
  import opened Basics
  import opened Git

  datatype Item = Item(name: string, head: Commit)

  datatype Outcome =
    | Settled(merged: seq<string>, blocked: seq<string>, evicted: seq<string>, tests: nat)
    | Raised(name: string)

  // ---- what the worktree commands compute --------------------------------------

  /** A deterministic merge of one item onto a checked-out commit; `None` is a conflict. */
  type MergeFn = (Commit, Item) -> Option<Commit>

  /** `git merge --no-ff` of one item; `None` when git exits nonzero. */
  function MergeItem(g: Git, tip: Commit, item: Item): Option<Commit> {
    match Merge(g, tip, item.head, "merge " + item.name)
    case UpToDate => Some(tip)
    case Merged(commit) => Some(commit)
    case Conflicted => None
  }

  function GitMerge(g: Git): MergeFn {
    (tip, item) => MergeItem(g, tip, item)
  }

  /** A merge only adds history. */
  ghost predicate Extends(m: MergeFn) {
    forall tip, item :: m(tip, item).Some? ==> tip in Reach(m(tip, item).value)
  }

  lemma {:induction false} GitMergeExtends(g: Git)
    ensures Extends(GitMerge(g))
  {
    forall tip, item: Item | GitMerge(g)(tip, item).Some?
      ensures tip in Reach(GitMerge(g)(tip, item).value)
    {
      var after := GitMerge(g)(tip, item).value;
      if after != tip {
        assert after.parents == [tip, item.head];
        ParentBelow(tip, after);
      }
    }
  }

  /** All of `batch` merged onto `base` in order; `None` when one of them conflicts. */
  function Fold(m: MergeFn, base: Commit, batch: seq<Item>): Option<Commit> {
    if batch == [] then Some(base)
    else
      var before := Fold(m, base, batch[..|batch| - 1]);
      if before.None? then None else m(before.value, batch[|batch| - 1])
  }

  /** The label the first conflict of a batch is reported under. */
  function FirstConflict(m: MergeFn, base: Commit, batch: seq<Item>): string
    requires Fold(m, base, batch).None?
  {
    var before := batch[..|batch| - 1];
    if Fold(m, base, before).None? then FirstConflict(m, base, before) else batch[|batch| - 1].name
  }

  /** Which items merge at all, and the labels of those that do not. */
  function FirstPass(m: MergeFn, base: Commit, items: seq<Item>): (r: (seq<Item>, seq<string>))
    ensures Fold(m, base, r.0).Some?
  {
    if items == [] then ([], [])
    else
      var (cands, blocked) := FirstPass(m, base, items[..|items| - 1]);
      var item := items[|items| - 1];
      assert (cands + [item])[..|cands|] == cands;
      if Fold(m, base, cands + [item]).Some? then (cands + [item], blocked) else (cands, blocked + [item.name])
  }

  /** The tests fail on the first `k` candidates. */
  predicate Red(m: MergeFn, ci: Tree -> bool, base: Commit, cands: seq<Item>, k: nat)
    requires k <= |cands|
  {
    var tip := Fold(m, base, cands[..k]);
    tip.Some? && !ci(tip.value.tree)
  }

  /** Which of the first `n` prefixes are red; prefix `k` is at index `k - 1`. */
  function Verdicts(m: MergeFn, ci: Tree -> bool, base: Commit, cands: seq<Item>, n: nat): (red: seq<bool>)
    requires n <= |cands|
    ensures |red| == n
  {
    if n == 0 then [] else Verdicts(m, ci, base, cands, n - 1) + [Red(m, ci, base, cands, n)]
  }

  lemma {:induction false} VerdictAt(m: MergeFn, ci: Tree -> bool, base: Commit, cands: seq<Item>, n: nat, k: nat)
    requires 1 <= k <= n <= |cands|
    ensures Verdicts(m, ci, base, cands, n)[k - 1] == Red(m, ci, base, cands, k)
  {
    if k < n {
      VerdictAt(m, ci, base, cands, n - 1, k);
    }
  }

  /** The prefix the bisection between `lo` and `hi` settles on, given which prefixes are red. */
  function Bisect(red: seq<bool>, lo: nat, hi: nat): (k: nat)
    requires 1 <= lo <= hi <= |red|
    ensures lo <= k <= hi
    decreases hi - lo
  {
    if lo == hi then lo
    else
      var mid := (lo + hi) / 2;
      if red[mid - 1] then Bisect(red, lo, mid) else Bisect(red, mid + 1, hi)
  }

  /** The test runs it takes. */
  function BisectRuns(red: seq<bool>, lo: nat, hi: nat): nat
    requires 1 <= lo <= hi <= |red|
    decreases hi - lo
  {
    if lo == hi then 0
    else
      var mid := (lo + hi) / 2;
      1 + if red[mid - 1] then BisectRuns(red, lo, mid) else BisectRuns(red, mid + 1, hi)
  }

  /** The bisection of a whole batch. */
  function Culprit(m: MergeFn, ci: Tree -> bool, base: Commit, cands: seq<Item>): (k: nat)
    requires cands != []
    ensures 1 <= k <= |cands|
  {
    Bisect(Verdicts(m, ci, base, cands, |cands|), 1, |cands|)
  }

  function CulpritRuns(m: MergeFn, ci: Tree -> bool, base: Commit, cands: seq<Item>): nat
    requires cands != []
  {
    BisectRuns(Verdicts(m, ci, base, cands, |cands|), 1, |cands|)
  }

  datatype Drained = Done(merged: seq<Item>, evicted: seq<string>, tests: nat) | Stuck(name: string)

  /** `cands` with the `k`-th item, counted from 1, taken out. */
  function Without(cands: seq<Item>, k: nat): (rest: seq<Item>)
    requires 1 <= k <= |cands|
    ensures |rest| == |cands| - 1
  {
    var last := |cands| - 1;
    if k == |cands| then cands[..last] else Without(cands[..last], k) + [cands[last]]
  }

  lemma {:induction false} WithoutSlices(cands: seq<Item>, k: nat)
    requires 1 <= k <= |cands|
    ensures Without(cands, k) == cands[..k - 1] + cands[k..]
    decreases |cands|
  {
    var last := |cands| - 1;
    if k < |cands| {
      WithoutSlices(cands[..last], k);
      assert cands[..last][..k - 1] == cands[..k - 1];
      assert cands[..last][k..] + [cands[last]] == cands[k..];
    }
  }

  /** The test/bisect/evict loop from `cands` on. */
  function Drain(m: MergeFn, ci: Tree -> bool, base: Commit, cands: seq<Item>): Drained
    decreases |cands|
  {
    if cands == [] then Done([], [], 0)
    else if !Red(m, ci, base, cands, |cands|) then Done(cands, [], 1)
    else
      var k := Culprit(m, ci, base, cands);
      var rest := Without(cands, k);
      if Fold(m, base, rest).None? then Stuck(FirstConflict(m, base, rest))
      else After([cands[k - 1].name], 1 + CulpritRuns(m, ci, base, cands), Drain(m, ci, base, rest))
  }

  /** Earlier evictions and test runs put in front of a later result. */
  function After(evicted: seq<string>, tests: nat, d: Drained): Drained {
    match d
    case Done(merged, e, t) => Done(merged, evicted + e, tests + t)
    case Stuck(name) => Stuck(name)
  }

  function Labels(items: seq<Item>): seq<string> {
    seq(|items|, i requires 0 <= i < |items| => items[i].name)
  }

  /** What one call reports. */
  function Land(m: MergeFn, ci: Tree -> bool, base: Commit, items: seq<Item>): Outcome {
    var (cands, blocked) := FirstPass(m, base, items);
    match Drain(m, ci, base, cands)
    case Done(merged, evicted, tests) => Settled(Labels(merged), blocked, evicted, tests)
    case Stuck(name) => Raised(name)
  }

  /** The branch afterwards: what `Drain` kept, or untouched. */
  function MainAfter(m: MergeFn, ci: Tree -> bool, base: Commit, items: seq<Item>): Commit {
    var d := Drain(m, ci, base, FirstPass(m, base, items).0);
    if d.Done? && d.merged != [] && Fold(m, base, d.merged).Some? then Fold(m, base, d.merged).value else base
  }

  // ---- lemmas the code needs -----------------------------------------------------

  lemma {:induction false} PrefixFolds(m: MergeFn, base: Commit, batch: seq<Item>, k: nat)
    requires k <= |batch| && Fold(m, base, batch).Some?
    ensures Fold(m, base, batch[..k]).Some?
    decreases |batch|
  {
    if k == |batch| {
      assert batch[..k] == batch;
    } else {
      assert batch[..|batch| - 1][..k] == batch[..k];
      PrefixFolds(m, base, batch[..|batch| - 1], k);
    }
  }

  lemma {:induction false} PrefixConflict(m: MergeFn, base: Commit, batch: seq<Item>, k: nat)
    requires k <= |batch| && Fold(m, base, batch[..k]).None?
    ensures Fold(m, base, batch).None? && FirstConflict(m, base, batch) == FirstConflict(m, base, batch[..k])
    decreases |batch|
  {
    if k == |batch| {
      assert batch[..k] == batch;
    } else {
      assert batch[..|batch| - 1][..k] == batch[..k];
      PrefixConflict(m, base, batch[..|batch| - 1], k);
    }
  }

  lemma {:induction false} FoldDescends(m: MergeFn, base: Commit, batch: seq<Item>)
    requires Extends(m) && Fold(m, base, batch).Some?
    ensures base in Reach(Fold(m, base, batch).value)
  {
    if batch != [] {
      FoldDescends(m, base, batch[..|batch| - 1]);
      var before := Fold(m, base, batch[..|batch| - 1]).value;
      ReachTransitive(before, Fold(m, base, batch).value);
    }
  }

  lemma {:induction false} AfterAfter(e0: seq<string>, t0: nat, e1: seq<string>, t1: nat, d: Drained)
    ensures After(e0, t0, After(e1, t1, d)) == After(e0 + e1, t0 + t1, d)
  {
    if d.Done? {
      assert e0 + (e1 + d.evicted) == e0 + e1 + d.evicted;
    }
  }

  // ---- the queue itself ------------------------------------------------------------

  /** A maintainer's clone: its worktree, the branch it lands on, and the runs it has paid for. */
  class Maintainer {
    var head: Commit
    var main: Commit
    var tests: nat

    constructor (main: Commit)
      ensures this.main == main && head == main && tests == 0
    {
      this.main, head, tests := main, main, 0;
    }

    /** `build(batch)`: `None`, or the label it raises for. */
    method Build(m: MergeFn, base: Commit, batch: seq<Item>) returns (raised: Option<string>)
      modifies this`head
      ensures raised == if Fold(m, base, batch).Some? then None else Some(FirstConflict(m, base, batch))
      ensures raised.None? ==> Fold(m, base, batch) == Some(head)
    {
      head := base;
      for i := 0 to |batch|
        invariant Fold(m, base, batch[..i]) == Some(head)
      {
        assert batch[..i + 1][..i] == batch[..i];
        var merged := m(head, batch[i]);
        if merged.None? {
          PrefixConflict(m, base, batch, i + 1);
          return Some(batch[i].name);
        }
        head := merged.value;
      }
      assert batch[..|batch|] == batch;
      raised := None;
    }

    /** One run of the tests on what is checked out. */
    method Test(ci: Tree -> bool) returns (passed: bool)
      modifies this`tests
      ensures passed == ci(head.tree) && tests == old(tests) + 1
    {
      tests := tests + 1;
      passed := ci(head.tree);
    }

    method Screen(m: MergeFn, base: Commit, items: seq<Item>) returns (cands: seq<Item>, blocked: seq<string>)
      modifies this`head
      ensures (cands, blocked) == FirstPass(m, base, items)
      ensures Fold(m, base, cands) == Some(head)
    {
      cands, blocked, head := [], [], base;
      for i := 0 to |items|
        invariant (cands, blocked) == FirstPass(m, base, items[..i])
        invariant Fold(m, base, cands) == Some(head)
      {
        assert items[..i + 1][..i] == items[..i];
        assert (cands + [items[i]])[..|cands|] == cands;
        var merged := m(head, items[i]);
        if merged.None? {
          blocked := blocked + [items[i].name];
        } else {
          cands, head := cands + [items[i]], merged.value;
        }
      }
      assert items[..|items|] == items;
    }

    /** Checks out a prefix of a batch that merged and tests it; `Build` cannot raise here. */
    method Probe(m: MergeFn, ci: Tree -> bool, base: Commit, cands: seq<Item>, k: nat) returns (passed: bool)
      requires 1 <= k <= |cands| && Fold(m, base, cands).Some?
      modifies this`head, this`tests
      ensures passed == !Verdicts(m, ci, base, cands, |cands|)[k - 1]
      ensures tests == old(tests) + 1
    {
      PrefixFolds(m, base, cands, k);
      var raised := Build(m, base, cands[..k]);
      assert raised.None?;
      passed := Test(ci);
      VerdictAt(m, ci, base, cands, |cands|, k);
    }

    /** One turn of the bisection. */
    method Halve(m: MergeFn, ci: Tree -> bool, base: Commit, cands: seq<Item>, ghost red: seq<bool>, lo: nat, hi: nat)
        returns (lo': nat, hi': nat)
      requires Fold(m, base, cands).Some? && red == Verdicts(m, ci, base, cands, |cands|)
      requires 1 <= lo < hi <= |red|
      modifies this`head, this`tests
      ensures lo <= lo' <= hi' <= hi && hi' - lo' < hi - lo
      ensures Bisect(red, lo', hi') == Bisect(red, lo, hi)
      ensures tests + BisectRuns(red, lo', hi') == old(tests) + BisectRuns(red, lo, hi)
    {
      var mid := (lo + hi) / 2;
      var passed := Probe(m, ci, base, cands, mid);
      if passed {
        return mid + 1, hi;
      } else {
        return lo, mid;
      }
    }

    /** The bisection of a red batch; `red` says which prefixes are. */
    method FindCulprit(m: MergeFn, ci: Tree -> bool, base: Commit, cands: seq<Item>, ghost red: seq<bool>) returns (lo: nat)
      requires cands != [] && Fold(m, base, cands).Some?
      requires red == Verdicts(m, ci, base, cands, |cands|)
      modifies this`head, this`tests
      ensures lo == Bisect(red, 1, |cands|)
      ensures tests == old(tests) + BisectRuns(red, 1, |cands|)
    {
      lo := 1;
      var hi := |cands|;
      while lo < hi
        invariant 1 <= lo <= hi <= |red|
        invariant Bisect(red, lo, hi) == Bisect(red, 1, |cands|)
        invariant tests + BisectRuns(red, lo, hi) == old(tests) + BisectRuns(red, 1, |cands|)
      {
        lo, hi := Halve(m, ci, base, cands, red, lo, hi);
      }
    }

    /** One round after a red batch: bisect, evict the culprit, rebuild what is left. */
    method Evict(m: MergeFn, ci: Tree -> bool, base: Commit, cands: seq<Item>)
        returns (culprit: string, rest: seq<Item>, raised: Option<string>)
      requires cands != [] && Fold(m, base, cands).Some? && Red(m, ci, base, cands, |cands|)
      modifies this`head, this`tests
      ensures tests >= old(tests) && |rest| < |cands|
      ensures Drain(m, ci, base, cands) ==
              if raised.Some? then Stuck(raised.value)
              else After([culprit], 1 + tests - old(tests), Drain(m, ci, base, rest))
      ensures raised.None? ==> Fold(m, base, rest) == Some(head)
    {
      var lo := FindCulprit(m, ci, base, cands, Verdicts(m, ci, base, cands, |cands|));
      culprit := cands[lo - 1].name;
      rest := cands[..lo - 1] + cands[lo..];
      WithoutSlices(cands, lo);
      raised := Build(m, base, rest);
    }

    /** The loop: test, and while red evict one and test what is left. */
    method TestAndEvict(m: MergeFn, ci: Tree -> bool, base: Commit, batch: seq<Item>) returns (d: Drained)
      requires tests == 0 && Fold(m, base, batch) == Some(head)
      modifies this`head, this`tests
      ensures d == Drain(m, ci, base, batch)
      ensures d.Done? ==> tests == d.tests && Fold(m, base, d.merged) == Some(head)
    {
      var cands, evicted: seq<string> := batch, [];
      while cands != []
        invariant Fold(m, base, cands) == Some(head)
        invariant Drain(m, ci, base, batch) == After(evicted, tests, Drain(m, ci, base, cands))
        decreases |cands|
      {
        assert cands[..|cands|] == cands;
        ghost var spent := tests;
        var passed := Test(ci);
        if passed {
          return Done(cands, evicted, tests);
        }
        var culprit, rest, raised := Evict(m, ci, base, cands);
        if raised.Some? {
          return Stuck(raised.value);
        }
        AfterAfter(evicted, spent, [culprit], tests - spent, Drain(m, ci, base, rest));
        evicted, cands := evicted + [culprit], rest;
      }
      d := Done([], evicted, tests);
    }

    method BatchLand(g: Git, ci: Tree -> bool, items: seq<Item>) returns (r: Outcome)
      modifies this
      ensures r == Land(GitMerge(g), ci, old(main), items)
      ensures main == MainAfter(GitMerge(g), ci, old(main), items)
      ensures if r.Settled? then tests == r.tests && head == main else main == old(main)
    {
      var m := GitMerge(g);
      GitMergeExtends(g);
      tests := 0;
      var base := main;
      var cands, blocked := Screen(m, base, items);
      var d := TestAndEvict(m, ci, base, cands);
      match d {
        case Stuck(name) =>
          return Raised(name);
        case Done(merged, evicted, _) =>
          if merged != [] {
            FoldDescends(m, base, merged);
            assert main in Reach(head);
            main := head;
          } else {
            head := base;
          }
          return Settled(Labels(merged), blocked, evicted, tests);
      }
    }
  }
}
