/**
 Which held worktree plays which role (the assignment loops of `DifferentialSession::prepare`,
 crates/choir-bridge/src/queue.rs), for any number of roles.
 */
module Seating {

  type Rev = string

  /** Every role gets a tree of its own. */
  ghost predicate Bijective(seats: seq<nat>, trees: nat) {
    && |seats| == trees
    && (forall r :: 0 <= r < |seats| ==> seats[r] < trees)
    && (forall r, s :: 0 <= r < s < |seats| ==> seats[r] != seats[s])
  }

  /** The revisions, among the first `n` roles, whose tree already holds them. */
  ghost function Kept(seats: seq<nat>, held: seq<Rev>, revisions: seq<Rev>, n: nat): multiset<Rev>
    requires n <= |seats| && n <= |revisions|
    requires forall r :: 0 <= r < n ==> seats[r] < |held|
  {
    if n == 0 then multiset{}
    else
      var before := Kept(seats, held, revisions, n - 1);
      if held[seats[n - 1]] == revisions[n - 1] then before + multiset{revisions[n - 1]} else before
  }

  /** How many checkouts an assignment makes no-ops. */
  ghost function NoOps(seats: seq<nat>, held: seq<Rev>, revisions: seq<Rev>): nat
    requires Bijective(seats, |held|) && |revisions| == |held|
  {
    |Kept(seats, held, revisions, |revisions|)|
  }

  // ---- counting the trees taken so far -----------------------------------------

  ghost function UsedHeads(held: seq<Rev>, used: seq<bool>): multiset<Rev>
    requires |used| == |held|
  {
    if held == [] then multiset{}
    else
      var n := |held| - 1;
      UsedHeads(held[..n], used[..n]) + if used[n] then multiset{held[n]} else multiset{}
  }

  lemma {:induction false} TakeOne(held: seq<Rev>, used: seq<bool>, i: nat)
    requires |used| == |held| && i < |held| && !used[i]
    ensures UsedHeads(held, used[i := true]) == UsedHeads(held, used) + multiset{held[i]}
  {
    var n := |held| - 1;
    if i < n {
      TakeOne(held[..n], used[..n], i);
      assert used[i := true][..n] == used[..n][i := true];
    } else {
      assert used[i := true][..n] == used[..n];
    }
  }

  /** A revision has as many trees taken as hold it, exactly when no tree holding it is free. */
  lemma {:induction false} TakenUp(held: seq<Rev>, used: seq<bool>, v: Rev)
    requires |used| == |held|
    ensures UsedHeads(held, used)[v] <= multiset(held)[v]
    ensures UsedHeads(held, used)[v] == multiset(held)[v] <==> forall i :: 0 <= i < |held| && held[i] == v ==> used[i]
  {
    if held != [] {
      var n := |held| - 1;
      TakenUp(held[..n], used[..n], v);
      assert held == held[..n] + [held[n]];
    }
  }

  lemma {:induction false} NoneTaken(held: seq<Rev>, used: seq<bool>)
    requires |used| == |held| && forall i :: 0 <= i < |used| ==> !used[i]
    ensures UsedHeads(held, used) == multiset{}
  {
    if held != [] {
      NoneTaken(held[..|held| - 1], used[..|held| - 1]);
    }
  }

  // ---- no assignment does better than the overlap -------------------------------

  /** A no-op uses up one requested copy of its revision... */
  lemma {:induction false} KeptIsRequested(seats: seq<nat>, held: seq<Rev>, revisions: seq<Rev>, n: nat)
    requires n <= |seats| && n <= |revisions|
    requires forall r :: 0 <= r < n ==> seats[r] < |held|
    ensures Kept(seats, held, revisions, n) <= multiset(revisions[..n])
  {
    if n > 0 {
      KeptIsRequested(seats, held, revisions, n - 1);
      assert revisions[..n] == revisions[..n - 1] + [revisions[n - 1]];
    }
  }

  /** ... and one held copy, because no two roles share a tree. */
  lemma {:induction false} KeptIsHeld(seats: seq<nat>, held: seq<Rev>, revisions: seq<Rev>, n: nat, used: seq<bool>)
    requires Bijective(seats, |held|) && n <= |seats| && n <= |revisions|
    requires |used| == |held| && forall i :: 0 <= i < |held| ==> (used[i] <==> i in seats[..n])
    ensures Kept(seats, held, revisions, n) <= UsedHeads(held, used)
  {
    if n > 0 {
      var seat := seats[n - 1];
      var before := used[seat := false];
      assert seats[..n] == seats[..n - 1] + [seat];
      KeptIsHeld(seats, held, revisions, n - 1, before);
      TakeOne(held, before, seat);
      assert before[seat := true] == used;
    }
  }

  /** The number of no-op checkouts never exceeds the overlap of held and requested revisions. */
  lemma {:induction false} OverlapIsTheBest(seats: seq<nat>, held: seq<Rev>, revisions: seq<Rev>)
    requires Bijective(seats, |held|) && |revisions| == |held|
    ensures NoOps(seats, held, revisions) <= |multiset(held) * multiset(revisions)|
  {
    var n := |held|;
    var used := seq(n, i => i in seats[..n]);
    KeptIsRequested(seats, held, revisions, n);
    KeptIsHeld(seats, held, revisions, n, used);
    assert revisions[..n] == revisions;
    forall v
      ensures UsedHeads(held, used)[v] <= multiset(held)[v]
    {
      TakenUp(held, used, v);
    }
    var kept := Kept(seats, held, revisions, n);
    assert kept <= multiset(held) * multiset(revisions);
    SmallerIsFewer(kept, multiset(held) * multiset(revisions));
  }

  lemma {:induction false} SmallerIsFewer(a: multiset<Rev>, b: multiset<Rev>)
    requires a <= b
    ensures |a| <= |b|
  {
    assert b == a + (b - a);
  }

  // ---- the greedy assignment ------------------------------------------------------

  /** The revisions matched among the first `n` roles; a slot past the last tree is still empty. */
  ghost function Matched(slots: seq<nat>, trees: nat, revisions: seq<Rev>, n: nat): multiset<Rev>
    requires n <= |slots| && n <= |revisions|
  {
    if n == 0 then multiset{}
    else Matched(slots, trees, revisions, n - 1) + if slots[n - 1] < trees then multiset{revisions[n - 1]} else multiset{}
  }

  lemma {:induction false} MatchedFrame(slots: seq<nat>, slots': seq<nat>, trees: nat, revisions: seq<Rev>, n: nat)
    requires n <= |slots| && n <= |slots'| && n <= |revisions| && slots[..n] == slots'[..n]
    ensures Matched(slots, trees, revisions, n) == Matched(slots', trees, revisions, n)
  {
    if n > 0 {
      assert slots[..n][..n - 1] == slots[..n - 1] && slots'[..n][..n - 1] == slots'[..n - 1];
      assert slots[..n][n - 1] == slots'[..n][n - 1];
      MatchedFrame(slots, slots', trees, revisions, n - 1);
    }
  }

  method FindHolder(held: seq<Rev>, used: seq<bool>, revision: Rev) returns (index: nat)
    requires |used| == |held|
    ensures index <= |held|
    ensures index < |held| ==> !used[index] && held[index] == revision
    ensures forall i :: 0 <= i < index ==> used[i] || held[i] != revision
  {
    index := 0;
    while index < |held| && !(!used[index] && held[index] == revision)
      invariant index <= |held|
      invariant forall i :: 0 <= i < index ==> used[i] || held[i] != revision
    {
      index := index + 1;
    }
  }

  /** A slot that names a tree names a taken one, and no two slots name the same. */
  ghost predicate Placed(slots: seq<nat>, used: seq<bool>) {
    && |slots| == |used|
    && (forall r :: 0 <= r < |slots| ==> slots[r] <= |used| && (slots[r] < |used| ==> used[slots[r]]))
    && (forall r, s :: 0 <= r < s < |slots| && slots[r] < |used| ==> slots[r] != slots[s])
    && Taken(used) == Filled(slots, |used|)
  }

  ghost function Taken(used: seq<bool>): nat {
    if used == [] then 0 else Taken(used[..|used| - 1]) + if used[|used| - 1] then 1 else 0
  }

  ghost function Filled(slots: seq<nat>, trees: nat): nat {
    if slots == [] then 0 else Filled(slots[..|slots| - 1], trees) + if slots[|slots| - 1] < trees then 1 else 0
  }

  lemma {:induction false} TakeCounts(used: seq<bool>, i: nat)
    requires i < |used| && !used[i]
    ensures Taken(used[i := true]) == Taken(used) + 1
  {
    var n := |used| - 1;
    if i < n {
      TakeCounts(used[..n], i);
      assert used[i := true][..n] == used[..n][i := true];
    } else {
      assert used[i := true][..n] == used[..n];
    }
  }

  lemma {:induction false} FillCounts(slots: seq<nat>, trees: nat, r: nat, i: nat)
    requires r < |slots| && slots[r] >= trees && i < trees
    ensures Filled(slots[r := i], trees) == Filled(slots, trees) + 1
  {
    var n := |slots| - 1;
    if r < n {
      FillCounts(slots[..n], trees, r, i);
      assert slots[r := i][..n] == slots[..n][r := i];
    } else {
      assert slots[r := i][..n] == slots[..n];
    }
  }

  lemma {:induction false} SomeFree(used: seq<bool>)
    requires Taken(used) < |used|
    ensures exists i :: 0 <= i < |used| && !used[i]
  {
    var n := |used| - 1;
    if used[n] {
      SomeFree(used[..n]);
      var i :| 0 <= i < n && !used[..n][i];
      assert !used[i];
    }
  }

  lemma {:induction false} NoneTakenCounts(used: seq<bool>)
    requires forall i :: 0 <= i < |used| ==> !used[i]
    ensures Taken(used) == 0
  {
    if used != [] {
      NoneTakenCounts(used[..|used| - 1]);
    }
  }

  lemma {:induction false} FilledBound(slots: seq<nat>, trees: nat)
    ensures Filled(slots, trees) <= |slots|
    ensures Filled(slots, trees) == |slots| ==> forall r :: 0 <= r < |slots| ==> slots[r] < trees
    ensures (forall r :: 0 <= r < |slots| ==> slots[r] >= trees) ==> Filled(slots, trees) == 0
  {
    if slots != [] {
      FilledBound(slots[..|slots| - 1], trees);
    }
  }

  lemma {:induction false} PlaceOne(slots: seq<nat>, used: seq<bool>, r: nat, i: nat)
    requires Placed(slots, used) && r < |slots| && slots[r] == |used| && i < |used| && !used[i]
    ensures Placed(slots[r := i], used[i := true])
  {
    TakeCounts(used, i);
    FillCounts(slots, |used|, r, i);
  }

  /** One more requested revision joins the overlap exactly when a free tree holds it. */
  lemma {:induction false} OverlapGrows(held: seq<Rev>, revisions: seq<Rev>, used: seq<bool>, r: nat)
    requires |used| == |held| && r < |revisions|
    requires UsedHeads(held, used) == multiset(held) * multiset(revisions[..r])
    ensures multiset(held) * multiset(revisions[..r + 1]) ==
            UsedHeads(held, used) +
            if exists i :: 0 <= i < |held| && held[i] == revisions[r] && !used[i] then multiset{revisions[r]} else multiset{}
  {
    TakenUp(held, used, revisions[r]);
    assert revisions[..r + 1] == revisions[..r] + [revisions[r]];
  }

  /** What holds after the first `n` roles were offered a tree. */
  ghost predicate Offered(held: seq<Rev>, revisions: seq<Rev>, slots: seq<nat>, used: seq<bool>, n: nat)
    requires n <= |revisions| == |held|
  {
    && |used| == |held| && Placed(slots, used)
    && (forall q :: n <= q < |slots| ==> slots[q] == |held|)
    && (forall q :: 0 <= q < n && slots[q] < |held| ==> held[slots[q]] == revisions[q])
    && Matched(slots, |held|, revisions, n) == UsedHeads(held, used) == multiset(held) * multiset(revisions[..n])
  }

  lemma {:induction false} TakenOverlap(held: seq<Rev>, revisions: seq<Rev>, slots: seq<nat>, used: seq<bool>, r: nat, i: nat)
    requires r < |revisions| == |held| == |slots| && |used| == |held| && slots[r] == |held|
    requires i < |held| && !used[i] && held[i] == revisions[r]
    requires Matched(slots, |held|, revisions, r) == UsedHeads(held, used) == multiset(held) * multiset(revisions[..r])
    ensures Matched(slots[r := i], |held|, revisions, r + 1) == UsedHeads(held, used[i := true]) == multiset(held) * multiset(revisions[..r + 1])
  {
    OverlapGrows(held, revisions, used, r);
    TakeOne(held, used, i);
    MatchedFrame(slots, slots[r := i], |held|, revisions, r);
  }

  lemma {:induction false} OfferTaken(held: seq<Rev>, revisions: seq<Rev>, slots: seq<nat>, used: seq<bool>, r: nat, i: nat)
    requires r < |revisions| == |held| && Offered(held, revisions, slots, used, r)
    requires i < |held| && !used[i] && held[i] == revisions[r]
    requires forall j :: 0 <= j < i ==> used[j] || held[j] != revisions[r]
    ensures Offered(held, revisions, slots[r := i], used[i := true], r + 1)
  {
    PlaceOne(slots, used, r, i);
    TakenOverlap(held, revisions, slots, used, r, i);
  }

  lemma {:induction false} OfferMissed(held: seq<Rev>, revisions: seq<Rev>, slots: seq<nat>, used: seq<bool>, r: nat)
    requires r < |revisions| == |held| && Offered(held, revisions, slots, used, r)
    requires forall j :: 0 <= j < |held| ==> used[j] || held[j] != revisions[r]
    ensures Offered(held, revisions, slots, used, r + 1)
  {
    OverlapGrows(held, revisions, used, r);
  }

  /** One of the first `n` roles got tree `i`. */
  ghost predicate SlotOf(slots: seq<nat>, n: nat, i: nat) {
    exists k :: 0 <= k < n && k < |slots| && slots[k] == i
  }

  /** First come, first served: a role was passed over, or sent on to a later tree, only for an earlier role. */
  ghost predicate Served(held: seq<Rev>, revisions: seq<Rev>, slots: seq<nat>, used: seq<bool>, n: nat)
    requires n <= |revisions| == |held| == |slots| == |used|
  {
    && (forall q: nat, i: nat :: q < n && i < slots[q] && i < |held| && held[i] == revisions[q] ==> SlotOf(slots, q, i))
    && (forall i: nat :: i < |used| && used[i] ==> SlotOf(slots, n, i))
  }

  lemma {:induction false} SlotStays(slots: seq<nat>, r: nat, i: nat, n: nat, j: nat)
    requires r < |slots| && n <= r && SlotOf(slots, n, j)
    ensures SlotOf(slots[r := i], n, j) && SlotOf(slots[r := i], r + 1, j)
  {
    var k :| 0 <= k < n && slots[k] == j;
    assert slots[r := i][k] == j;
  }

  lemma {:induction false} ServedTaken(held: seq<Rev>, revisions: seq<Rev>, slots: seq<nat>, used: seq<bool>, r: nat, i: nat)
    requires r < |revisions| == |held| == |slots| == |used| && i < |held| && Served(held, revisions, slots, used, r)
    requires forall j :: 0 <= j < i ==> used[j] || held[j] != revisions[r]
    ensures Served(held, revisions, slots[r := i], used[i := true], r + 1)
  {
    var slots', used' := slots[r := i], used[i := true];
    forall q: nat, j: nat | q < r + 1 && j < slots'[q] && j < |held| && held[j] == revisions[q]
      ensures SlotOf(slots', q, j)
    {
      SlotStays(slots, r, i, q, j);
    }
    assert slots'[r] == i;
    forall j: nat | j < |used'| && used'[j]
      ensures SlotOf(slots', r + 1, j)
    {
      if j != i {
        SlotStays(slots, r, i, r, j);
      }
    }
  }

  lemma {:induction false} ServedMissed(held: seq<Rev>, revisions: seq<Rev>, slots: seq<nat>, used: seq<bool>, r: nat)
    requires r < |revisions| == |held| == |slots| == |used| && Served(held, revisions, slots, used, r)
    requires forall j :: 0 <= j < |held| ==> used[j] || held[j] != revisions[r]
    ensures Served(held, revisions, slots, used, r + 1)
  {
    forall j: nat | j < |used| && used[j]
      ensures SlotOf(slots, r + 1, j)
    {
      var k :| 0 <= k < r && slots[k] == j;
    }
  }

  lemma {:induction false} NothingOffered(held: seq<Rev>, revisions: seq<Rev>, slots: seq<nat>, used: seq<bool>)
    requires |revisions| == |held| == |slots| == |used|
    requires forall i :: 0 <= i < |held| ==> slots[i] == |held| && !used[i]
    ensures Offered(held, revisions, slots, used, 0) && Served(held, revisions, slots, used, 0)
  {
    NoneTaken(held, used);
    NoneTakenCounts(used);
    FilledBound(slots, |held|);
    assert revisions[..0] == [];
  }

  /** First pass: each role, in order, takes the first free tree that holds its revision. */
  method MatchRoles(held: seq<Rev>, revisions: seq<Rev>) returns (slots: seq<nat>, used: seq<bool>)
    requires |revisions| == |held|
    ensures Offered(held, revisions, slots, used, |held|) && Served(held, revisions, slots, used, |held|)
  {
    var n := |held|;
    slots, used := seq(n, _ => n), seq(n, _ => false);
    NothingOffered(held, revisions, slots, used);
    for r := 0 to n
      invariant Offered(held, revisions, slots, used, r) && Served(held, revisions, slots, used, r)
    {
      var index := FindHolder(held, used, revisions[r]);
      if index < n {
        OfferTaken(held, revisions, slots, used, r, index);
        ServedTaken(held, revisions, slots, used, r, index);
        slots, used := slots[r := index], used[index := true];
      } else {
        OfferMissed(held, revisions, slots, used, r);
        ServedMissed(held, revisions, slots, used, r);
      }
    }
  }

  /** Tree `i` belongs to a role of the first pass, or to one before `r`. */
  ghost predicate SeatOf(seats: seq<nat>, slots: seq<nat>, r: nat, i: nat) {
    exists q :: 0 <= q < |seats| == |slots| && seats[q] == i && (slots[q] < |slots| || q < r)
  }

  /** In order: a role before `r` that was passed over has the first tree nobody else had by then. */
  ghost predicate Passed(seats: seq<nat>, slots: seq<nat>, taken: seq<bool>, r: nat)
    requires r <= |seats| == |slots| == |taken|
  {
    && (forall i: nat :: i < |taken| && taken[i] ==> SeatOf(seats, slots, r, i))
    && (forall q: nat, i: nat :: q < r && slots[q] == |slots| && i < seats[q] ==> SeatOf(seats, slots, q, i))
  }

  lemma {:induction false} PassedStart(held: seq<Rev>, revisions: seq<Rev>, slots: seq<nat>, used: seq<bool>)
    requires |revisions| == |held| == |slots| == |used| && Served(held, revisions, slots, used, |held|)
    ensures Passed(slots, slots, used, 0)
  {
    forall i: nat | i < |used| && used[i]
      ensures SeatOf(slots, slots, 0, i)
    {
      var k :| 0 <= k < |held| && slots[k] == i;
    }
  }

  lemma {:induction false} SeatStays(seats: seq<nat>, slots: seq<nat>, r: nat, index: nat, q: nat, i: nat)
    requires q <= r < |seats| == |slots| && seats[r] == |slots| && i < |slots| && SeatOf(seats, slots, q, i)
    ensures SeatOf(seats[r := index], slots, q, i) && SeatOf(seats[r := index], slots, r + 1, i)
  {
    var k :| 0 <= k < |seats| && seats[k] == i && (slots[k] < |slots| || k < q);
    assert seats[r := index][k] == i;
  }

  lemma {:induction false} PassedFilled(seats: seq<nat>, slots: seq<nat>, taken: seq<bool>, r: nat, index: nat)
    requires r < |seats| == |slots| == |taken| && Passed(seats, slots, taken, r) && seats[r] == slots[r] == |slots|
    requires index < |taken| && forall i :: 0 <= i < index ==> taken[i]
    requires forall q :: 0 <= q < r ==> seats[q] < |slots|
    ensures Passed(seats[r := index], slots, taken[index := true], r + 1)
  {
    var seats', taken' := seats[r := index], taken[index := true];
    assert seats'[r] == index;
    forall i: nat | i < |taken'| && taken'[i]
      ensures SeatOf(seats', slots, r + 1, i)
    {
      if i != index {
        SeatStays(seats, slots, r, index, r, i);
      }
    }
    forall q: nat, i: nat | q < r + 1 && slots[q] == |slots| && i < seats'[q]
      ensures SeatOf(seats', slots, q, i)
    {
      SeatStays(seats, slots, r, index, q, i);
    }
  }

  lemma {:induction false} PassedOver(seats: seq<nat>, slots: seq<nat>, taken: seq<bool>, r: nat)
    requires r < |seats| == |slots| == |taken| && Passed(seats, slots, taken, r) && slots[r] < |slots|
    ensures Passed(seats, slots, taken, r + 1)
  {
    forall i: nat | i < |taken| && taken[i]
      ensures SeatOf(seats, slots, r + 1, i)
    {
      var k :| 0 <= k < |seats| && seats[k] == i && (slots[k] < |slots| || k < r);
    }
  }

  /** Second pass: the roles left over take the trees left over, in order. */
  method FillRoles(held: seq<Rev>, revisions: seq<Rev>, slots: seq<nat>, used: seq<bool>) returns (seats: seq<nat>)
    requires |revisions| == |held| && Offered(held, revisions, slots, used, |held|) && Served(held, revisions, slots, used, |held|)
    ensures Bijective(seats, |held|)
    ensures forall r :: 0 <= r < |held| ==> if slots[r] < |held| then seats[r] == slots[r] else !used[seats[r]]
    ensures forall r: nat, i: nat :: r < |held| && slots[r] == |held| && i < seats[r] ==> SeatOf(seats, slots, r, i)
  {
    var n, taken := |held|, used;
    seats := slots;
    PassedStart(held, revisions, slots, used);
    for r := 0 to n
      invariant |taken| == n && Placed(seats, taken) && Passed(seats, slots, taken, r)
      invariant forall i :: 0 <= i < n && used[i] ==> taken[i]
      invariant forall q :: r <= q < n ==> seats[q] == slots[q]
      invariant forall q :: 0 <= q < r ==> seats[q] < n && if slots[q] < n then seats[q] == slots[q] else !used[seats[q]]
    {
      if seats[r] == n {
        var index := FirstFree(seats, taken, r);
        PlaceOne(seats, taken, r, index);
        PassedFilled(seats, slots, taken, r, index);
        seats, taken := seats[r := index], taken[index := true];
      } else {
        PassedOver(seats, slots, taken, r);
      }
    }
  }

  /** An empty slot leaves a tree free. */
  method FirstFree(slots: seq<nat>, taken: seq<bool>, r: nat) returns (index: nat)
    requires Placed(slots, taken) && r < |slots| && slots[r] == |taken|
    ensures index < |taken| && !taken[index] && forall i :: 0 <= i < index ==> taken[i]
  {
    FilledBound(slots, |taken|);
    SomeFree(taken);
    index := 0;
    while taken[index]
      invariant index < |taken| && forall i :: 0 <= i < index ==> taken[i]
      decreases |taken| - index
    {
      index := index + 1;
    }
  }

  lemma {:induction false} KeptIsMatched(held: seq<Rev>, revisions: seq<Rev>, slots: seq<nat>, seats: seq<nat>, n: nat)
    requires n <= |seats| && n <= |revisions| && n <= |slots|
    requires forall r :: 0 <= r < n ==> seats[r] < |held| && (held[seats[r]] == revisions[r] <==> slots[r] < |held|)
    ensures Kept(seats, held, revisions, n) == Matched(slots, |held|, revisions, n)
  {
    if n > 0 {
      KeptIsMatched(held, revisions, slots, seats, n - 1);
    }
  }

  // ---- the only assignment -----------------------------------------------------------

  /** Role `r` keeps the tree it is given where it is. */
  predicate Keeps(seats: seq<nat>, held: seq<Rev>, revisions: seq<Rev>, r: nat) {
    r < |seats| && r < |revisions| && seats[r] < |held| && held[seats[r]] == revisions[r]
  }

  /** A role before `r` keeps tree `i`. */
  ghost predicate KeptBefore(seats: seq<nat>, held: seq<Rev>, revisions: seq<Rev>, r: nat, i: nat) {
    exists q :: 0 <= q < r && Keeps(seats, held, revisions, q) && seats[q] == i
  }

  /** Tree `i` is kept, or given to a role before `r`. */
  ghost predicate GoneBefore(seats: seq<nat>, held: seq<Rev>, revisions: seq<Rev>, r: nat, i: nat) {
    exists q :: 0 <= q < |seats| && seats[q] == i && (Keeps(seats, held, revisions, q) || q < r)
  }

  /** A role goes without a tree that holds its revision, or takes a later one, only when an earlier role
      keeps it; and a role that keeps none takes the first tree that nobody keeps and no earlier role got. */
  ghost predicate InTurn(seats: seq<nat>, held: seq<Rev>, revisions: seq<Rev>)
    requires |seats| == |held| == |revisions|
  {
    && (forall r: nat, i: nat :: r < |seats| && i < |held| && held[i] == revisions[r] && (Keeps(seats, held, revisions, r) ==> i < seats[r])
          ==> KeptBefore(seats, held, revisions, r, i))
    && (forall r: nat, i: nat :: r < |seats| && !Keeps(seats, held, revisions, r) && i < seats[r]
          ==> GoneBefore(seats, held, revisions, r, i))
  }

  lemma {:induction false} SameKeeper(a: seq<nat>, b: seq<nat>, held: seq<Rev>, revisions: seq<Rev>, r: nat)
    requires Bijective(a, |held|) && Bijective(b, |held|) && |revisions| == |held| && r < |held|
    requires InTurn(b, held, revisions) && Keeps(a, held, revisions, r)
    requires forall q :: 0 <= q < r && Keeps(b, held, revisions, q) ==> a[q] == b[q]
    ensures Keeps(b, held, revisions, r) && b[r] <= a[r]
  {
    forall q | 0 <= q < r && Keeps(b, held, revisions, q)
      ensures b[q] != a[r]
    {
      assert a[q] != a[r];
    }
    assert !KeptBefore(b, held, revisions, r, a[r]);
  }

  lemma {:induction false} KeepersAgree(a: seq<nat>, b: seq<nat>, held: seq<Rev>, revisions: seq<Rev>, n: nat)
    requires Bijective(a, |held|) && Bijective(b, |held|) && |revisions| == |held| && n <= |held|
    requires InTurn(a, held, revisions) && InTurn(b, held, revisions)
    ensures forall q :: 0 <= q < n ==>
              (Keeps(a, held, revisions, q) <==> Keeps(b, held, revisions, q)) && (Keeps(a, held, revisions, q) ==> a[q] == b[q])
  {
    if n > 0 {
      KeepersAgree(a, b, held, revisions, n - 1);
      if Keeps(a, held, revisions, n - 1) {
        SameKeeper(a, b, held, revisions, n - 1);
      }
      if Keeps(b, held, revisions, n - 1) {
        SameKeeper(b, a, held, revisions, n - 1);
      }
    }
  }

  lemma {:induction false} NotLater(a: seq<nat>, b: seq<nat>, held: seq<Rev>, revisions: seq<Rev>, r: nat)
    requires Bijective(a, |held|) && Bijective(b, |held|) && |revisions| == |held| && r < |held|
    requires InTurn(b, held, revisions) && !Keeps(b, held, revisions, r)
    requires forall q :: 0 <= q < |held| && (q < r || Keeps(b, held, revisions, q)) ==> a[q] == b[q]
    ensures b[r] <= a[r]
  {
    forall q | 0 <= q < |b| && (Keeps(b, held, revisions, q) || q < r)
      ensures b[q] != a[r]
    {
      assert a[q] != a[r];
    }
    assert !GoneBefore(b, held, revisions, r, a[r]);
  }

  lemma {:induction false} RolesAgree(a: seq<nat>, b: seq<nat>, held: seq<Rev>, revisions: seq<Rev>, n: nat)
    requires Bijective(a, |held|) && Bijective(b, |held|) && |revisions| == |held| && n <= |held|
    requires InTurn(a, held, revisions) && InTurn(b, held, revisions)
    ensures forall q :: 0 <= q < n ==> a[q] == b[q]
  {
    if n > 0 {
      RolesAgree(a, b, held, revisions, n - 1);
      KeepersAgree(a, b, held, revisions, |held|);
      if !Keeps(a, held, revisions, n - 1) {
        NotLater(a, b, held, revisions, n - 1);
        NotLater(b, a, held, revisions, n - 1);
      }
    }
  }

  /** There is only one such assignment: held and requested revisions determine every role's tree. */
  lemma {:induction false} OneAssignment(a: seq<nat>, b: seq<nat>, held: seq<Rev>, revisions: seq<Rev>)
    requires Bijective(a, |held|) && Bijective(b, |held|) && |revisions| == |held|
    requires InTurn(a, held, revisions) && InTurn(b, held, revisions)
    ensures a == b
  {
    RolesAgree(a, b, held, revisions, |held|);
  }

  lemma {:induction false} SlotsAreKept(held: seq<Rev>, revisions: seq<Rev>, slots: seq<nat>, used: seq<bool>, seats: seq<nat>)
    requires |revisions| == |held| && Bijective(seats, |held|)
    requires Offered(held, revisions, slots, used, |held|) && Served(held, revisions, slots, used, |held|)
    requires forall r :: 0 <= r < |held| ==> if slots[r] < |held| then seats[r] == slots[r] else !used[seats[r]]
    ensures forall r :: 0 <= r < |held| ==> (Keeps(seats, held, revisions, r) <==> slots[r] < |held|)
  {
    forall r | 0 <= r < |held|
      ensures Keeps(seats, held, revisions, r) <==> slots[r] < |held|
    {
      assert forall k :: 0 <= k < r && slots[k] < |held| ==> seats[k] == slots[k] && seats[k] != seats[r];
      assert !SlotOf(slots, r, seats[r]);
    }
  }

  lemma {:induction false} SeatsInTurn(held: seq<Rev>, revisions: seq<Rev>, slots: seq<nat>, used: seq<bool>, seats: seq<nat>)
    requires |revisions| == |held| && Bijective(seats, |held|)
    requires Offered(held, revisions, slots, used, |held|) && Served(held, revisions, slots, used, |held|)
    requires forall r :: 0 <= r < |held| ==> if slots[r] < |held| then seats[r] == slots[r] else !used[seats[r]]
    requires forall r: nat, i: nat :: r < |held| && slots[r] == |held| && i < seats[r] ==> SeatOf(seats, slots, r, i)
    ensures InTurn(seats, held, revisions)
  {
    SlotsAreKept(held, revisions, slots, used, seats);
    forall r: nat, i: nat | r < |seats| && i < |held| && held[i] == revisions[r] && (Keeps(seats, held, revisions, r) ==> i < seats[r])
      ensures KeptBefore(seats, held, revisions, r, i)
    {
      assert SlotOf(slots, r, i);
      var k :| 0 <= k < r && slots[k] == i;
      assert Keeps(seats, held, revisions, k);
    }
    forall r: nat, i: nat | r < |seats| && !Keeps(seats, held, revisions, r) && i < seats[r]
      ensures GoneBefore(seats, held, revisions, r, i)
    {
      assert SeatOf(seats, slots, r, i);
      var q :| 0 <= q < |seats| && seats[q] == i && (slots[q] < |held| || q < r);
      assert Keeps(seats, held, revisions, q) || q < r;
    }
  }

  /** The assignment of one observation: the bijection that is in turn, which no other bijection beats. */
  method Assign(held: seq<Rev>, revisions: seq<Rev>) returns (seats: seq<nat>)
    requires |revisions| == |held|
    ensures Bijective(seats, |held|) && InTurn(seats, held, revisions)
    ensures NoOps(seats, held, revisions) == |multiset(held) * multiset(revisions)|
    ensures forall other :: Bijective(other, |held|) ==> NoOps(other, held, revisions) <= NoOps(seats, held, revisions)
  {
    var slots, used := MatchRoles(held, revisions);
    seats := FillRoles(held, revisions, slots, used);
    var n := |held|;
    SeatsInTurn(held, revisions, slots, used, seats);
    SlotsAreKept(held, revisions, slots, used, seats);
    KeptIsMatched(held, revisions, slots, seats, n);
    assert revisions[..n] == revisions;
    forall other | Bijective(other, |held|)
      ensures NoOps(other, held, revisions) <= NoOps(seats, held, revisions)
    {
      OverlapIsTheBest(other, held, revisions);
    }
  }
}
