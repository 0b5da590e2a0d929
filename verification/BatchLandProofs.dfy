/** What the batch queue guarantees: nobody is lost, only tested work lands, the bisection blames
    a real boundary, the cost is logarithmic, and when it gives up with an exception. */
module BatchLandProofs {
  import opened Basics
  import opened Git
  import opened BatchLand
  import opened Sequences

  // ---- the bisection -------------------------------------------------------------

  /** The prefix it settles on is red and the one before it is green, unless it is the first. */
  lemma {:induction false} BisectFindsBoundary(red: seq<bool>, lo: nat, hi: nat)
    requires 1 <= lo <= hi <= |red| && red[hi - 1]
    requires lo > 1 ==> !red[lo - 2]
    ensures var k := Bisect(red, lo, hi); red[k - 1] && (k > 1 ==> !red[k - 2])
    decreases hi - lo
  {
    if lo < hi {
      var mid := (lo + hi) / 2;
      if red[mid - 1] {
        BisectFindsBoundary(red, lo, mid);
      } else {
        BisectFindsBoundary(red, mid + 1, hi);
      }
    }
  }

  ghost predicate LeastRed(red: seq<bool>, k: nat) {
    1 <= k <= |red| && red[k - 1] && forall j :: 0 <= j < k - 1 ==> !red[j]
  }

  /** Every prefix the bisection tests at or above `k` is red. */
  ghost predicate NoGreenProbeAbove(red: seq<bool>, lo: nat, hi: nat, k: nat)
    requires 1 <= lo <= hi <= |red|
    decreases hi - lo
  {
    lo < hi ==>
      var mid := (lo + hi) / 2;
      && (mid >= k ==> red[mid - 1])
      && if red[mid - 1] then NoGreenProbeAbove(red, lo, mid, k) else NoGreenProbeAbove(red, mid + 1, hi, k)
  }

  /** The smallest red prefix is named exactly when no prefix tested at or above it came out green. */
  lemma {:induction false} BisectFindsLeast(red: seq<bool>, lo: nat, hi: nat, k: nat)
    requires 1 <= lo <= k <= hi <= |red| && LeastRed(red, k)
    ensures Bisect(red, lo, hi) == k <==> NoGreenProbeAbove(red, lo, hi, k)
    decreases hi - lo
  {
    if lo < hi {
      var mid := (lo + hi) / 2;
      if mid < k {
        BisectFindsLeast(red, mid + 1, hi, k);
      } else if red[mid - 1] {
        BisectFindsLeast(red, lo, mid, k);
      }
    }
  }

  ghost predicate StaysRed(red: seq<bool>) {
    forall i, j :: 0 <= i <= j < |red| && red[i] ==> red[j]
  }

  /** In particular when a red prefix never turns green again. */
  lemma {:induction false} MonotoneFindsLeast(red: seq<bool>, k: nat)
    requires LeastRed(red, k) && StaysRed(red)
    ensures Bisect(red, 1, |red|) == k
  {
    MonotoneProbes(red, 1, |red|, k);
    BisectFindsLeast(red, 1, |red|, k);
  }

  lemma {:induction false} MonotoneProbes(red: seq<bool>, lo: nat, hi: nat, k: nat)
    requires 1 <= lo <= hi <= |red| && 1 <= k <= |red| && red[k - 1] && StaysRed(red)
    ensures NoGreenProbeAbove(red, lo, hi, k)
    decreases hi - lo
  {
    if lo < hi {
      var mid := (lo + hi) / 2;
      if red[mid - 1] {
        MonotoneProbes(red, lo, mid, k);
      } else {
        MonotoneProbes(red, mid + 1, hi, k);
      }
    }
  }

  // ---- the cost --------------------------------------------------------------------

  /** ceil(log2 n). */
  function CeilLog2(n: nat): nat {
    if n <= 1 then 0 else 1 + CeilLog2((n + 1) / 2)
  }

  function Pow2(k: nat): nat {
    if k == 0 then 1 else 2 * Pow2(k - 1)
  }

  lemma {:induction false} CeilLog2Meaning(n: nat)
    requires n >= 1
    ensures n <= Pow2(CeilLog2(n))
    ensures n >= 2 ==> Pow2(CeilLog2(n) - 1) < n
  {
    if n >= 2 {
      CeilLog2Meaning((n + 1) / 2);
    }
  }

  lemma {:induction false} CeilLog2Monotone(m: nat, n: nat)
    requires m <= n
    ensures CeilLog2(m) <= CeilLog2(n)
  {
    if m > 1 {
      CeilLog2Monotone((m + 1) / 2, (n + 1) / 2);
    }
  }

  lemma {:induction false} BisectCost(red: seq<bool>, lo: nat, hi: nat)
    requires 1 <= lo <= hi <= |red|
    ensures BisectRuns(red, lo, hi) <= CeilLog2(hi - lo + 1)
    decreases hi - lo
  {
    if lo < hi {
      var mid, size := (lo + hi) / 2, hi - lo + 1;
      assert mid - lo + 1 <= (size + 1) / 2 && hi - (mid + 1) + 1 <= (size + 1) / 2;
      if red[mid - 1] {
        BisectCost(red, lo, mid);
        CeilLog2Monotone(mid - lo + 1, (size + 1) / 2);
      } else {
        BisectCost(red, mid + 1, hi);
        CeilLog2Monotone(hi - mid, (size + 1) / 2);
      }
    }
  }

  // ---- the loop --------------------------------------------------------------------

  lemma {:induction false} WithoutIsSubsequence(cands: seq<Item>, k: nat)
    requires 1 <= k <= |cands|
    ensures Subsequence(Without(cands, k), cands)
    decreases |cands|
  {
    var before := cands[..|cands| - 1];
    if k == |cands| {
      SubsequenceSelf(before);
    } else {
      WithoutIsSubsequence(before, k);
      OneMoreSubsequence(Without(before, k), cands);
    }
  }

  lemma LabelsAppend(a: seq<Item>, b: seq<Item>)
    ensures Labels(a + b) == Labels(a) + Labels(b)
  {
  }

  lemma {:induction false} WithoutLabels(cands: seq<Item>, k: nat)
    requires 1 <= k <= |cands|
    ensures multiset(Labels(cands)) == multiset([cands[k - 1].name]) + multiset(Labels(Without(cands, k)))
  {
    var before, last := cands[..|cands| - 1], cands[|cands| - 1];
    assert cands == before + [last];
    LabelsAppend(before, [last]);
    assert Labels([last]) == [last.name];
    if k < |cands| {
      WithoutLabels(before, k);
      LabelsAppend(Without(before, k), [last]);
    }
  }

  /** A red batch is drained by evicting one item and draining the rest, if the rest still merges;
      otherwise the exception names the first item that conflicts. */
  lemma {:induction false} DrainRed(m: MergeFn, ci: Tree -> bool, base: Commit, cands: seq<Item>, k: nat, rest: seq<Item>)
    requires cands != [] && Red(m, ci, base, cands, |cands|)
    requires k == Culprit(m, ci, base, cands) && rest == Without(cands, k)
    ensures Drain(m, ci, base, cands) ==
            if Fold(m, base, rest).None? then Stuck(FirstConflict(m, base, rest))
            else After([cands[k - 1].name], 1 + CulpritRuns(m, ci, base, cands), Drain(m, ci, base, rest))
  {
  }

  /** Nothing is lost or duplicated, and what is kept keeps its order. */
  lemma {:induction false} DrainConserves(m: MergeFn, ci: Tree -> bool, base: Commit, cands: seq<Item>)
    requires Drain(m, ci, base, cands).Done?
    ensures var d := Drain(m, ci, base, cands);
      && multiset(Labels(d.merged)) + multiset(d.evicted) == multiset(Labels(cands))
      && Subsequence(d.merged, cands)
    decreases |cands|
  {
    if cands == [] {
    } else if !Red(m, ci, base, cands, |cands|) {
      SubsequenceSelf(cands);
    } else {
      var k := Culprit(m, ci, base, cands);
      var rest := Without(cands, k);
      DrainRed(m, ci, base, cands, k, rest);
      DrainConserves(m, ci, base, rest);
      WithoutLabels(cands, k);
      WithoutIsSubsequence(cands, k);
      SubsequenceTransitive(Drain(m, ci, base, rest).merged, rest, cands);
    }
  }

  /** What is kept merges, and its tests passed. */
  lemma {:induction false} DrainIsGreen(m: MergeFn, ci: Tree -> bool, base: Commit, cands: seq<Item>)
    requires Drain(m, ci, base, cands).Done? && Fold(m, base, cands).Some?
    ensures var merged := Drain(m, ci, base, cands).merged;
      merged != [] ==> Fold(m, base, merged).Some? && ci(Fold(m, base, merged).value.tree)
    decreases |cands|
  {
    if cands == [] {
    } else if !Red(m, ci, base, cands, |cands|) {
      assert cands[..|cands|] == cands;
    } else {
      var k := Culprit(m, ci, base, cands);
      var rest := Without(cands, k);
      DrainRed(m, ci, base, cands, k, rest);
      DrainIsGreen(m, ci, base, rest);
    }
  }

  /** The run count the scorecard extrapolates: one batch, a bisection per failure, a retest each. */
  function RunBound(evicted: nat, n: nat): nat {
    1 + evicted * (CeilLog2(n) + 1)
  }

  /** When everything was evicted, there was no last run that passed. */
  function RunsSpared(merged: seq<Item>): nat {
    if merged == [] then 1 else 0
  }

  lemma {:induction false} RunBoundStep(evicted: nat, n: nat)
    ensures RunBound(evicted + 1, n) == RunBound(evicted, n) + CeilLog2(n) + 1
  {
  }

  /** One more eviction: a bisection, and a run to see that it was needed. */
  lemma {:induction false} OneMoreEviction(d: Drained, culprit: string, runs: nat, n: nat)
    requires d.Done? && d.tests + RunsSpared(d.merged) <= RunBound(|d.evicted|, n) && runs <= CeilLog2(n)
    ensures var r := After([culprit], 1 + runs, d); r.tests + RunsSpared(r.merged) <= RunBound(|r.evicted|, n)
  {
    RunBoundStep(|d.evicted|, n);
  }

  /** One run for the batch, and for each eviction a bisection and a retest. */
  lemma {:induction false} DrainCost(m: MergeFn, ci: Tree -> bool, base: Commit, cands: seq<Item>, n: nat)
    requires Drain(m, ci, base, cands).Done? && |cands| <= n
    ensures var d := Drain(m, ci, base, cands); d.tests + RunsSpared(d.merged) <= RunBound(|d.evicted|, n)
    decreases |cands|
  {
    if cands != [] && Red(m, ci, base, cands, |cands|) {
      var k := Culprit(m, ci, base, cands);
      var rest := Without(cands, k);
      DrainRed(m, ci, base, cands, k, rest);
      DrainCost(m, ci, base, rest, n);
      BisectCost(Verdicts(m, ci, base, cands, |cands|), 1, |cands|);
      CeilLog2Monotone(|cands|, n);
      OneMoreEviction(Drain(m, ci, base, rest), cands[k - 1].name, CulpritRuns(m, ci, base, cands), n);
    }
  }

  // ---- one call ----------------------------------------------------------------------

  /** An item is let through exactly when it merges on top of the ones let through before it. */
  lemma {:induction false} FirstPassOneMore(m: MergeFn, base: Commit, items: seq<Item>, item: Item)
    ensures var (cands, blocked) := FirstPass(m, base, items);
      FirstPass(m, base, items + [item]) ==
      if m(Fold(m, base, cands).value, item).Some? then (cands + [item], blocked) else (cands, blocked + [item.name])
  {
    var (cands, blocked) := FirstPass(m, base, items);
    assert (items + [item])[..|items|] == items;
    assert (cands + [item])[..|cands|] == cands;
  }

  lemma {:induction false} OneMoreLabel(cands: seq<Item>, blocked: seq<string>, items: seq<Item>)
    requires items != []
    requires multiset(Labels(cands)) + multiset(blocked) == multiset(Labels(items[..|items| - 1]))
    ensures var item := items[|items| - 1];
      && multiset(Labels(cands + [item])) + multiset(blocked) == multiset(Labels(items))
      && multiset(Labels(cands)) + multiset(blocked + [item.name]) == multiset(Labels(items))
  {
    var before, item := items[..|items| - 1], items[|items| - 1];
    assert items == before + [item];
    LabelsAppend(before, [item]);
    LabelsAppend(cands, [item]);
    assert Labels([item]) == [item.name];
  }

  /** The items the first pass lets through, and the ones it blocks. */
  lemma {:induction false} FirstPassConserves(m: MergeFn, base: Commit, items: seq<Item>)
    ensures var (cands, blocked) := FirstPass(m, base, items);
      && multiset(Labels(cands)) + multiset(blocked) == multiset(Labels(items))
      && Subsequence(cands, items)
  {
    if items != [] {
      var n := |items| - 1;
      FirstPassConserves(m, base, items[..n]);
      var (cands, blocked) := FirstPass(m, base, items[..n]);
      OneMoreLabel(cands, blocked, items);
      OneMoreSubsequence(cands, items);
    }
  }

  /** A call that returns accounts for every item exactly once, in queue order, and stays within
      the scorecard's run count. */
  lemma {:induction false} BatchLandAccounts(m: MergeFn, ci: Tree -> bool, base: Commit, items: seq<Item>) returns (kept: seq<Item>)
    requires Land(m, ci, base, items).Settled?
    ensures var r := Land(m, ci, base, items);
      && multiset(r.merged) + multiset(r.blocked) + multiset(r.evicted) == multiset(Labels(items))
      && r.merged == Labels(kept) && Subsequence(kept, items)
      && r.tests + RunsSpared(kept) <= RunBound(|r.evicted|, |FirstPass(m, base, items).0|)
  {
    var (cands, blocked) := FirstPass(m, base, items);
    FirstPassConserves(m, base, items);
    DrainConserves(m, ci, base, cands);
    DrainCost(m, ci, base, cands, |cands|);
    kept := Drain(m, ci, base, cands).merged;
    SubsequenceTransitive(kept, cands, items);
  }

  /** The branch ends where it was, when the call raises or keeps nothing, or on the kept items with their
      tests passed. */
  lemma {:induction false} OnlyTestedWorkLands(m: MergeFn, ci: Tree -> bool, base: Commit, items: seq<Item>) returns (kept: seq<Item>)
    ensures var r, main := Land(m, ci, base, items), MainAfter(m, ci, base, items);
      && (if r.Settled? then r.merged == Labels(kept) && Subsequence(kept, items) else kept == [])
      && (if kept == [] then main == base else Fold(m, base, kept) == Some(main) && ci(main.tree))
  {
    var cands := FirstPass(m, base, items).0;
    var d := Drain(m, ci, base, cands);
    FirstPassConserves(m, base, items);
    if d.Done? {
      kept := d.merged;
      DrainIsGreen(m, ci, base, cands);
      DrainConserves(m, ci, base, cands);
      SubsequenceTransitive(kept, cands, items);
    } else {
      kept := [];
    }
  }

  // ---- eviction ------------------------------------------------------------------------

  /** The item blamed in a red round ends a red prefix whose predecessor, if any, is green. */
  lemma {:induction false} CulpritEndsARedPrefix(m: MergeFn, ci: Tree -> bool, base: Commit, cands: seq<Item>)
    requires cands != [] && Fold(m, base, cands).Some? && Red(m, ci, base, cands, |cands|)
    ensures var k := Culprit(m, ci, base, cands);
      && Fold(m, base, cands[..k]).Some? && !ci(Fold(m, base, cands[..k]).value.tree)
      && (k > 1 ==> Fold(m, base, cands[..k - 1]).Some? && ci(Fold(m, base, cands[..k - 1]).value.tree))
  {
    var n, k := |cands|, Culprit(m, ci, base, cands);
    VerdictAt(m, ci, base, cands, n, n);
    BisectFindsBoundary(Verdicts(m, ci, base, cands, n), 1, n);
    VerdictAt(m, ci, base, cands, n, k);
    if k > 1 {
      VerdictAt(m, ci, base, cands, n, k - 1);
      PrefixFolds(m, base, cands, k - 1);
    }
  }
}
