/** When the batch queue gives up with an exception, and when its bisection blames the wrong item. */
module BatchRaises {
  import opened Basics
  import opened Git
  import opened BatchLand
  import opened BatchLandProofs
  import opened Sequences

  /** When the red prefixes are those from `p` on, item `p` is blamed. */
  lemma {:induction false} CulpritIs(m: MergeFn, ci: Tree -> bool, base: Commit, cands: seq<Item>, p: nat)
    requires 1 <= p <= |cands| && forall k :: 1 <= k <= |cands| ==> (Red(m, ci, base, cands, k) <==> k >= p)
    ensures Culprit(m, ci, base, cands) == p
  {
    var red := Verdicts(m, ci, base, cands, |cands|);
    forall i | 0 <= i < |red|
      ensures red[i] <==> i + 1 >= p
    {
      VerdictAt(m, ci, base, cands, |cands|, i + 1);
      assert Red(m, ci, base, cands, i + 1) <==> i + 1 >= p;
    }
    MonotoneFindsLeast(red, p);
  }

  // ---- a runner that is broken ---------------------------------------------------------------------

  ghost predicate Broken(ci: Tree -> bool) {
    forall t :: !ci(t)
  }

  lemma {:induction false} BrokenBlamesFirst(m: MergeFn, ci: Tree -> bool, base: Commit, cands: seq<Item>)
    requires Broken(ci) && cands != [] && Fold(m, base, cands).Some?
    ensures Red(m, ci, base, cands, |cands|) && Culprit(m, ci, base, cands) == 1 && Without(cands, 1) == cands[1..]
  {
    forall k | 1 <= k <= |cands|
      ensures Red(m, ci, base, cands, k)
    {
      PrefixFolds(m, base, cands, k);
    }
    CulpritIs(m, ci, base, cands, 1);
    WithoutSlices(cands, 1);
  }

  /** Some of the items, from one behind the first to the last, do not merge without those ahead. */
  ghost predicate SomeTailConflicts(m: MergeFn, base: Commit, cands: seq<Item>) {
    exists j :: 0 < j <= |cands| && Fold(m, base, cands[j..]).None?
  }

  lemma {:induction false} TailOfTail(m: MergeFn, base: Commit, cands: seq<Item>)
    requires cands != []
    ensures SomeTailConflicts(m, base, cands) <==> Fold(m, base, cands[1..]).None? || SomeTailConflicts(m, base, cands[1..])
  {
    var rest := cands[1..];
    if SomeTailConflicts(m, base, rest) {
      var j :| 0 < j <= |rest| && Fold(m, base, rest[j..]).None?;
      assert rest[j..] == cands[j + 1..];
    }
    if SomeTailConflicts(m, base, cands) {
      var j :| 0 < j <= |cands| && Fold(m, base, cands[j..]).None?;
      assert j > 1 ==> cands[j..] == rest[j - 1..];
    }
  }

  /** A runner that is broken has the queue raise exactly when some tail of the batch does not merge by
      itself. */
  lemma {:induction false} BrokenRunner(m: MergeFn, ci: Tree -> bool, base: Commit, cands: seq<Item>)
    requires Broken(ci) && Fold(m, base, cands).Some?
    ensures Drain(m, ci, base, cands).Stuck? <==> SomeTailConflicts(m, base, cands)
    decreases |cands|
  {
    if cands != [] {
      BrokenBlamesFirst(m, ci, base, cands);
      DrainRed(m, ci, base, cands, 1, cands[1..]);
      TailOfTail(m, base, cands);
      if Fold(m, base, cands[1..]).Some? {
        BrokenRunner(m, ci, base, cands[1..]);
      }
    }
  }

  /** Otherwise every author is paged, one by one from the front, and nothing lands. */
  lemma {:induction false} BrokenRunnerPagesAll(m: MergeFn, ci: Tree -> bool, base: Commit, cands: seq<Item>)
    requires Broken(ci) && Fold(m, base, cands).Some? && Drain(m, ci, base, cands).Done?
    ensures Drain(m, ci, base, cands).merged == [] && Drain(m, ci, base, cands).evicted == Labels(cands)
    decreases |cands|
  {
    if cands != [] {
      BrokenBlamesFirst(m, ci, base, cands);
      DrainRed(m, ci, base, cands, 1, cands[1..]);
      BrokenRunnerPagesAll(m, ci, base, cands[1..]);
      FirstLabel(cands);
    }
  }

  lemma {:induction false} FirstLabel(items: seq<Item>)
    requires items != []
    ensures Labels(items) == [items[0].name] + Labels(items[1..])
  {
  }

  // ---- any runner ------------------------------------------------------------------------------------

  /** The exception cannot happen when every selection of the candidates merges. */
  lemma {:induction false} IndependentItemsNeverRaise(m: MergeFn, ci: Tree -> bool, base: Commit, cands: seq<Item>)
    requires forall some :: Subsequence(some, cands) ==> Fold(m, base, some).Some?
    ensures Drain(m, ci, base, cands).Done?
    decreases |cands|
  {
    if cands != [] && Red(m, ci, base, cands, |cands|) {
      var k := Culprit(m, ci, base, cands);
      var rest := Without(cands, k);
      WithoutIsSubsequence(cands, k);
      forall some | Subsequence(some, rest)
        ensures Fold(m, base, some).Some?
      {
        SubsequenceTransitive(some, rest, cands);
      }
      IndependentItemsNeverRaise(m, ci, base, rest);
    }
  }

  ghost predicate StartsAs(s: seq<Item>, some: seq<Item>) {
    s <= some
  }

  /** The runner that passes just the trees of what `some` begins with. */
  ghost function PassesOnly(m: MergeFn, base: Commit, some: seq<Item>): Tree -> bool {
    tree => exists s :: StartsAs(s, some) && Fold(m, base, s).Some? && Fold(m, base, s).value.tree == tree
  }

  ghost predicate SameTree(a: Option<Commit>, b: Option<Commit>) {
    a.Some? && b.Some? && a.value.tree == b.value.tree
  }

  /** Different selections of `cands` that merge have different trees. */
  ghost predicate TreesTellSelections(m: MergeFn, base: Commit, cands: seq<Item>) {
    forall s, t :: Subsequence(s, cands) && Subsequence(t, cands) && SameTree(Fold(m, base, s), Fold(m, base, t)) ==> s == t
  }

  /** With that runner a prefix of what is left is red exactly when `some` does not begin with it. */
  lemma {:induction false} RedUnlessStart(m: MergeFn, base: Commit, all: seq<Item>, some: seq<Item>, cands: seq<Item>, k: nat)
    requires TreesTellSelections(m, base, all) && Subsequence(some, all) && Subsequence(cands, all)
    requires Fold(m, base, cands).Some? && k <= |cands|
    ensures Red(m, PassesOnly(m, base, some), base, cands, k) <==> !(cands[..k] <= some)
  {
    PrefixFolds(m, base, cands, k);
    PrefixIsSubsequence(cands, k);
    SubsequenceTransitive(cands[..k], cands, all);
    if !(cands[..k] <= some) {
      forall s | StartsAs(s, some) && Fold(m, base, s).Some?
        ensures Fold(m, base, s).value.tree != Fold(m, base, cands[..k]).value.tree
      {
        assert s == some[..|s|];
        PrefixIsSubsequence(some, |s|);
        SubsequenceTransitive(s, some, all);
      }
    } else {
      assert StartsAs(cands[..k], some);
    }
  }

  /** Where `cands` first departs from `some`. */
  lemma {:induction false} Departure(cands: seq<Item>, some: seq<Item>, n: nat) returns (p: nat)
    requires n <= |cands| && !(cands[..n] <= some)
    ensures 1 <= p <= n && cands[..p - 1] <= some && forall k :: 0 <= k <= |cands| ==> (cands[..k] <= some <==> k < p)
  {
    assert cands[..0] == [];
    if cands[..n - 1] <= some {
      p := n;
      forall k | 0 <= k <= |cands|
        ensures cands[..k] <= some <==> k < p
      {
        assert k < p ==> cands[..k] == cands[..n - 1][..k];
        assert k >= p ==> cands[..n] == cands[..k][..n];
      }
    } else {
      p := Departure(cands, some, n - 1);
    }
  }

  lemma {:induction false} SubsequenceOfOne(x: Item, s: seq<Item>)
    requires Subsequence(s, []) || (s != [] && s[|s| - 1] == x && Subsequence(s[..|s| - 1], []))
    ensures s == [] || s == [x]
  {
  }

  lemma {:induction false} SubsequenceTail(x: Item, s: seq<Item>, rest: seq<Item>)
    requires Subsequence(s, [x] + rest)
    ensures s != [] && s[0] == x ==> Subsequence(s[1..], rest)
    ensures s == [] || s[0] != x ==> Subsequence(s, rest)
    decreases |rest|
  {
    var all := [x] + rest;
    if rest == [] {
      assert all[..|all| - 1] == [];
      SubsequenceOfOne(x, s);
    } else {
      var n := |rest| - 1;
      assert all[..|all| - 1] == [x] + rest[..n];
      if Subsequence(s, [x] + rest[..n]) {
        SubsequenceTail(x, s, rest[..n]);
      } else {
        SubsequenceTail(x, s[..|s| - 1], rest[..n]);
        if |s| == 1 {
          assert s[..0] == [] && s[1..] == [];
          PrefixIsSubsequence(rest, 0);
          assert rest[..0] == [];
          assert [] == s[..|s| - 1];
        } else {
          assert s[1..][..|s[1..]| - 1] == s[..|s| - 1][1..];
        }
      }
    }
  }

  lemma {:induction false} BehindPrefix(p: seq<Item>, s: seq<Item>, rest: seq<Item>)
    requires Subsequence(p + s, p + rest)
    ensures Subsequence(s, rest)
  {
    if p == [] {
      assert [] + s == s && [] + rest == rest;
    } else {
      assert p + s == [p[0]] + (p[1..] + s) && p + rest == [p[0]] + (p[1..] + rest);
      SubsequenceTail(p[0], p + s, p[1..] + rest);
      assert (p + s)[1..] == p[1..] + s;
      BehindPrefix(p[1..], s, rest);
    }
  }

  /** Taking out the item where `cands` departs from `some` leaves a selection that still has all of `some`. */
  lemma {:induction false} DepartureIsNotMissed(cands: seq<Item>, some: seq<Item>, p: nat)
    requires Subsequence(some, cands) && 1 <= p <= |cands| && cands[..p - 1] <= some && !(cands[..p] <= some)
    ensures Subsequence(some, Without(cands, p))
  {
    var front, x, back := cands[..p - 1], cands[p - 1], cands[p..];
    var more := some[p - 1..];
    assert some == front + more && cands == front + ([x] + back);
    BehindPrefix(front, more, [x] + back);
    assert cands[..p] == front + [x];
    if more != [] && more[0] == x {
      StartsFurther(front, x, some);
    }
    SubsequenceTail(x, more, back);
    SubsequenceSelf(front);
    SubsequenceAppend(front, more, front, back);
    WithoutSlices(cands, p);
  }

  /** The runner that passes only what the selection begins with has everything else evicted, leftmost
      first, until the selection is all that is left: if that does not merge, the queue raises. */
  lemma {:induction false} ForcedToConflict(m: MergeFn, base: Commit, all: seq<Item>, some: seq<Item>, cands: seq<Item>)
    requires TreesTellSelections(m, base, all) && Subsequence(cands, all) && Subsequence(some, cands)
    requires Fold(m, base, cands).Some? && Fold(m, base, some).None?
    ensures Drain(m, PassesOnly(m, base, some), base, cands).Stuck?
    decreases |cands|
  {
    var ci, n := PassesOnly(m, base, some), |cands|;
    assert cands[..n] == cands;
    SubsequenceTransitive(some, cands, all);
    NoStart(m, base, some, cands);
    var p := Departure(cands, some, n);
    forall k | 1 <= k <= n
      ensures Red(m, ci, base, cands, k) <==> k >= p
    {
      RedUnlessStart(m, base, all, some, cands, k);
    }
    CulpritIs(m, ci, base, cands, p);
    DepartureIsNotMissed(cands, some, p);
    WithoutIsSubsequence(cands, p);
    SubsequenceTransitive(Without(cands, p), cands, all);
    DrainRed(m, ci, base, cands, p, Without(cands, p));
    if Fold(m, base, Without(cands, p)).Some? {
      ForcedToConflict(m, base, all, some, Without(cands, p));
    }
  }

  /** A batch that merges is not what a selection of it that does not merge begins with. */
  lemma {:induction false} NoStart(m: MergeFn, base: Commit, some: seq<Item>, cands: seq<Item>)
    requires Subsequence(some, cands) && Fold(m, base, cands).Some? && Fold(m, base, some).None?
    ensures !(cands <= some)
  {
    ShorterIsSame(some, cands);
    assert cands <= some ==> some == cands;
  }

  lemma {:induction false} ShorterIsSame(s: seq<Item>, all: seq<Item>)
    requires Subsequence(s, all)
    ensures |s| <= |all|
  {
    if all != [] {
      if Subsequence(s, all[..|all| - 1]) {
        ShorterIsSame(s, all[..|all| - 1]);
      } else {
        ShorterIsSame(s[..|s| - 1], all[..|all| - 1]);
      }
    }
  }

  /** When trees tell selections apart, a batch never raises, whatever its tests say, exactly when every
      selection of its items merges. */
  lemma {:induction false} NeverRaisesExactly(m: MergeFn, base: Commit, cands: seq<Item>)
    requires Fold(m, base, cands).Some? && TreesTellSelections(m, base, cands)
    ensures (forall ci :: Drain(m, ci, base, cands).Done?) <==> (forall some :: Subsequence(some, cands) ==> Fold(m, base, some).Some?)
  {
    if forall some :: Subsequence(some, cands) ==> Fold(m, base, some).Some? {
      forall ci
        ensures Drain(m, ci, base, cands).Done?
      {
        IndependentItemsNeverRaise(m, ci, base, cands);
      }
    } else {
      var some :| Subsequence(some, cands) && Fold(m, base, some).None?;
      SubsequenceSelf(cands);
      ForcedToConflict(m, base, cands, some, cands);
      assert !Drain(m, PassesOnly(m, base, some), base, cands).Done?;
    }
  }

  // ---- a batch that raises ------------------------------------------------------------------------------

  const OLD := Commit([], map["f" := "0"], "old root")
  const MAIN := Commit([OLD], map["f" := "2"], "main")
  const FIX := Item("a", Commit([MAIN], map["f" := "1"], "change f"))
  const TWIN := Item("b", Commit([OLD], map["f" := "1", "g" := "1"], "the same change and another, from the old root"))

  function StackedGit(): Git {
    Git((base, ours, theirs) => None,
        (tip, head) => if head == FIX.head then Some(MAIN.tree) else Some(OLD.tree),
        (c: Commit) => c.message)
  }

  /** With `b` merging only on top of `a` and both prefixes red, `a` is evicted and `b` conflicts inside a
      batch that was clean before. */
  lemma {:induction false} StackedItemRaises(m: MergeFn, ci: Tree -> bool, base: Commit, a: Item, b: Item, tipA: Commit, tipB: Commit)
    requires m(base, a) == Some(tipA) && m(tipA, b) == Some(tipB) && m(base, b) == None
    requires !ci(tipA.tree) && !ci(tipB.tree)
    ensures Land(m, ci, base, [a, b]) == Raised(b.name)
  {
    FoldPair(m, base, a, b);
    FirstPassPair(m, base, a, b);
    assert [a, b][..1] == [a];
    DrainPair(m, ci, base, [a, b]);
  }

  lemma {:induction false} DrainPair(m: MergeFn, ci: Tree -> bool, base: Commit, cands: seq<Item>)
    requires |cands| == 2 && m(base, cands[1]) == None
    requires Fold(m, base, cands[..1]).Some? && !ci(Fold(m, base, cands[..1]).value.tree)
    requires Fold(m, base, cands).Some? && !ci(Fold(m, base, cands).value.tree)
    ensures Drain(m, ci, base, cands) == Stuck(cands[1].name)
  {
    var n := |cands|;
    assert cands[..n] == cands;
    VerdictAt(m, ci, base, cands, n, n - 1);
    BisectPair(Verdicts(m, ci, base, cands, n), n);
    WithoutSlices(cands, 1);
    assert Without(cands, 1) == [cands[1]];
    FoldPair(m, base, cands[1], cands[0]);
    DrainRed(m, ci, base, cands, 1, [cands[1]]);
  }

  lemma {:induction false} BisectPair(red: seq<bool>, n: nat)
    requires n == |red| == 2 && red[0]
    ensures Bisect(red, 1, n) == 1
  {
  }

  lemma {:induction false} FirstPassPair(m: MergeFn, base: Commit, a: Item, b: Item)
    requires m(base, a).Some? && m(m(base, a).value, b).Some?
    ensures FirstPass(m, base, [a, b]) == ([a, b], [])
  {
    FoldPair(m, base, a, b);
    FirstPassOneMore(m, base, [], a);
    FirstPassOneMore(m, base, [a], b);
    assert [] + [a] == [a] && [a] + [b] == [a, b];
  }

  lemma {:induction false} FoldPair(m: MergeFn, base: Commit, a: Item, b: Item)
    ensures Fold(m, base, [a]) == m(base, a)
    ensures m(base, a).Some? ==> Fold(m, base, [a, b]) == m(m(base, a).value, b)
    ensures m(base, a).None? ==> FirstConflict(m, base, [a]) == a.name
  {
    assert [a][..0] == [] && [a, b][..1] == [a];
  }

  lemma {:induction false} PairSelections(s: seq<Item>, a: Item, b: Item)
    requires Subsequence(s, [a, b])
    ensures s == [] || s == [a] || s == [b] || s == [a, b]
  {
    var all := [a, b];
    assert all[..1] == [a] && [a][..0] == [];
    if Subsequence(s, [a]) {
      OneSelected(s, a);
    } else {
      OneSelected(s[..|s| - 1], a);
      assert s == s[..|s| - 1] + [b];
    }
  }

  lemma {:induction false} OneSelected(s: seq<Item>, a: Item)
    requires Subsequence(s, [a])
    ensures s == [] || s == [a]
  {
    assert [a][..0] == [];
    if s != [] {
      assert s[..|s| - 1] == [] && s == s[..|s| - 1] + [a];
    }
  }

  /** What the three selections of such a pair that merge come to. */
  lemma {:induction false} PairTells(m: MergeFn, base: Commit, a: Item, b: Item, tipA: Commit, tipB: Commit)
    requires m(base, a) == Some(tipA) && m(tipA, b) == Some(tipB) && m(base, b) == None
    requires base.tree != tipA.tree && base.tree != tipB.tree && tipA.tree != tipB.tree
    ensures TreesTellSelections(m, base, [a, b])
  {
    FoldPair(m, base, a, b);
    FoldPair(m, base, b, a);
    forall s, t | Subsequence(s, [a, b]) && Subsequence(t, [a, b]) && SameTree(Fold(m, base, s), Fold(m, base, t))
      ensures s == t
    {
      PairSelections(s, a, b);
      PairSelections(t, a, b);
    }
  }

  /** A concrete such queue, whose selections trees tell apart: both authors set `f` to 1 where main says 2,
      one of them starting from the old root and adding `g`. */
  lemma {:induction false} EvictionCanRaise()
    ensures Land(GitMerge(StackedGit()), tree => tree == MAIN.tree, MAIN, [FIX, TWIN]) == Raised("b")
    ensures TreesTellSelections(GitMerge(StackedGit()), MAIN, [FIX, TWIN])
  {
    var g := StackedGit();
    assert Reach(OLD) == {OLD};
    assert Reach(MAIN) == {MAIN, OLD};
    Merge3Unmoved(g, MAIN.tree, FIX.head.tree);
    var a := MergeItem(g, MAIN, FIX).value;
    assert a.tree == map["f" := "1"] && a.parents == [MAIN, FIX.head];
    TwinAlone(g);
    TwinIsNew(a);
    TwinStacked(g, a);
    StackedItemRaises(GitMerge(g), tree => tree == MAIN.tree, MAIN, FIX, TWIN, a, MergeItem(g, a, TWIN).value);
    PairTells(GitMerge(g), MAIN, FIX, TWIN, a, MergeItem(g, a, TWIN).value);
  }

  lemma {:induction false} TwinAlone(g: Git)
    requires g == StackedGit()
    ensures MergeItem(g, MAIN, TWIN).None?
  {
    var root, main, twin := OLD.tree, MAIN.tree, TWIN.head.tree;
    assert "f" in root.Keys + main.Keys + twin.Keys && MergePath(g, At(root, "f"), At(main, "f"), At(twin, "f")).None?;
    assert Merge3(g, root, main, twin).None?;
    assert Reach(OLD) == {OLD};
    assert TWIN.head !in Reach(MAIN);
  }

  lemma {:induction false} TwinIsNew(a: Commit)
    requires a.tree == map["f" := "1"] && a.parents == [MAIN, FIX.head]
    ensures TWIN.head !in Reach(a) && TWIN.head.tree != a.tree
  {
    assert "g" in TWIN.head.tree && "g" !in a.tree && "g" !in FIX.head.tree && "g" !in MAIN.tree && "g" !in OLD.tree;
    assert Reach(OLD) == {OLD};
    assert Reach(MAIN) == {MAIN, OLD};
    assert Reach(FIX.head) == {FIX.head} + Reach(MAIN);
  }

  lemma {:induction false} TwinStacked(g: Git, a: Commit)
    requires g == StackedGit() && a.tree == map["f" := "1"] && a.parents == [MAIN, FIX.head]
    ensures MergeItem(g, a, TWIN).Some? && MergeItem(g, a, TWIN).value.tree == TWIN.head.tree
  {
    TwinIsNew(a);
    Merge3Theirs(g, OLD.tree, a.tree, TWIN.head.tree);
  }

  // ---- a bisection that blames the wrong item -------------------------------------------------------------

  lemma {:induction false} FoldThree(m: MergeFn, base: Commit, a: Item, b: Item, c: Item, withA: Commit, withB: Commit, withC: Commit)
    requires m(base, a) == Some(withA) && m(withA, b) == Some(withB) && m(withB, c) == Some(withC)
    ensures var all := [a, b, c];
      && Fold(m, base, all[..1]) == Some(withA) && Fold(m, base, all[..2]) == Some(withB) && Fold(m, base, all) == Some(withC)
      && FirstPass(m, base, all) == (all, [])
  {
    var all := [a, b, c];
    assert all[..2] == [a, b] && all[..1] == [a];
    FoldPair(m, base, a, b);
    FirstPassPair(m, base, a, b);
    FirstPassOneMore(m, base, [a, b], c);
    assert [a, b] + [c] == all;
  }

  lemma {:induction false} BisectThree(red: seq<bool>, n: nat)
    requires n == |red| == 3 && !red[1]
    ensures Bisect(red, 1, n) == 3 && BisectRuns(red, 1, n) == 1
  {
    assert !red[(1 + n) / 2 - 1];
    assert Bisect(red, 3, n) == 3 && BisectRuns(red, 3, n) == 0;
  }

  /** The first item breaks the tests, the second mends them and the third breaks them again: the first
      prefix is red, and yet the third item is evicted and the first one lands. */
  lemma {:induction false} WrongItemBlamed(m: MergeFn, ci: Tree -> bool, base: Commit, a: Item, b: Item, c: Item,
                                           withA: Commit, withB: Commit, withC: Commit)
    requires m(base, a) == Some(withA) && m(withA, b) == Some(withB) && m(withB, c) == Some(withC)
    requires !ci(withA.tree) && ci(withB.tree) && !ci(withC.tree)
    ensures Red(m, ci, base, [a, b, c], 1)
    ensures Land(m, ci, base, [a, b, c]) == Settled([a.name, b.name], [], [c.name], 3)
  {
    var all := [a, b, c];
    var n := |all|;
    FoldThree(m, base, a, b, c, withA, withB, withC);
    assert all[..n] == all;
    VerdictAt(m, ci, base, all, n, 2);
    BisectThree(Verdicts(m, ci, base, all, n), n);
    WithoutSlices(all, 3);
    assert Without(all, 3) == all[..2] && all[..2] == [a, b];
    DrainRed(m, ci, base, all, 3, [a, b]);
    assert [a, b][..2] == [a, b];
    assert Drain(m, ci, base, [a, b]) == Done([a, b], [], 1);
    assert Labels([a, b]) == [a.name, b.name] && [c.name] + [] == [c.name];
  }

  const ROOT := Commit([], map[], "root")

  function Adds(file: string): Item {
    Item(file, Commit([ROOT], map[file := file], "add " + file))
  }

  /** Every two histories meet in the root, and no file is ever changed on two sides. */
  function PlainGit(): Git {
    Git((base, ours, theirs) => None, (tip, head) => Some(ROOT.tree), (c: Commit) => c.message)
  }

  lemma {:induction false} MergeAdds(g: Git, tip: Commit, file: string)
    requires g == PlainGit() && Adds(file).head !in Reach(tip) && file !in tip.tree
    ensures MergeItem(g, tip, Adds(file)) == Some(Commit([tip, Adds(file).head], tip.tree + map[file := file], "merge " + file))
  {
    var ours, theirs := tip.tree, map[file := file];
    forall p
      ensures MergePath(g, At(map[], p), At(ours, p), At(theirs, p)) == Some(At(ours + theirs, p))
    {
    }
    assert Merge3(g, map[], ours, theirs).value == ours + theirs;
  }

  lemma {:induction false} NotYetMerged(tip: Commit, file: string, other: string, before: Commit)
    requires tip.parents == [before, Adds(other).head] && Adds(file).head !in Reach(before) && file != other
    requires |tip.tree| > 1 || file !in tip.tree
    ensures Adds(file).head !in Reach(tip)
  {
    assert file in Adds(file).head.tree && |Adds(file).head.tree| == 1;
    assert Adds(file).head.tree != Adds(other).head.tree;
    assert file in Adds(file).head.tree && file !in ROOT.tree;
    assert Reach(ROOT) == {ROOT};
    assert Reach(Adds(other).head) == {Adds(other).head, ROOT};
  }

  /** Three commits that each add a file; the tests want the second file and not the third. */
  lemma {:induction false} WrongItemHappens(x: string, y: string, z: string)
    requires x != y && y != z && x != z
    ensures var m, ci := GitMerge(PlainGit()), (tree: Tree) => y in tree && z !in tree;
      && Red(m, ci, ROOT, [Adds(x), Adds(y), Adds(z)], 1)
      && Land(m, ci, ROOT, [Adds(x), Adds(y), Adds(z)]) == Settled([x, y], [], [z], 3)
  {
    var g := PlainGit();
    var m, ci := GitMerge(g), (tree: Tree) => y in tree && z !in tree;
    assert Reach(ROOT) == {ROOT};
    assert x in Adds(x).head.tree && y in Adds(y).head.tree && z in Adds(z).head.tree;
    MergeAdds(g, ROOT, x);
    var withX := MergeItem(g, ROOT, Adds(x)).value;
    NotYetMerged(withX, y, x, ROOT);
    NotYetMerged(withX, z, x, ROOT);
    MergeAdds(g, withX, y);
    var withY := MergeItem(g, withX, Adds(y)).value;
    NotYetMerged(withY, z, y, withX);
    MergeAdds(g, withY, z);
    WrongItemBlamed(m, ci, ROOT, Adds(x), Adds(y), Adds(z), withX, withY, MergeItem(g, withY, Adds(z)).value);
  }
}
