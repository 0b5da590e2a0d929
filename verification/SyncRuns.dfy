/** Mirroring round after round: with a node that refuses the bridge's batches, whether a mirror ever
    catches up is settled by its first round. */
module SyncRuns {
  import opened Basics
  import opened Sync
  import opened SyncProofs

  /** One round after another against the same upstream, each over the view as it was read. */
  function Rounds(others: Others, limit: nat, t: nat, v: View, space: string, upstream: Listing<Option<Hash>>, seen: seq<Listing<Hash>>): View {
    if seen == [] then v
    else
      var n := |seen| - 1;
      RoundOf(others, limit, t, Rounds(others, limit, t, v, space, upstream, seen[..n]), space, upstream, seen[n]).view
  }

  function RoundOf(others: Others, limit: nat, t: nat, v: View, space: string, upstream: Listing<Option<Hash>>, read: Listing<Hash>): Played {
    SyncRound(others, limit, t, v, Sets(space, upstream, read), Deletes(space, upstream, read))
  }

  /** Round `n` reads all of the label. */
  ghost predicate CompleteAt(others: Others, limit: nat, t: nat, v: View, space: string, upstream: Listing<Option<Hash>>, seen: seq<Listing<Hash>>, n: nat)
    requires n < |seen|
  {
    IsComplete(space, Rounds(others, limit, t, v, space, upstream, seen[..n]), seen[n])
  }

  ghost predicate AllComplete(others: Others, limit: nat, t: nat, v: View, space: string, upstream: Listing<Option<Hash>>, seen: seq<Listing<Hash>>) {
    forall n :: 0 <= n < |seen| ==> CompleteAt(others, limit, t, v, space, upstream, seen, n)
  }

  /** Both lists of operations fit the node. */
  predicate Fits(limit: nat, space: string, upstream: Listing<Option<Hash>>, read: Listing<Hash>) {
    BatchesFit(limit, Sets(space, upstream, read)) && BatchesFit(limit, Deletes(space, upstream, read))
  }

  // ---- what a refused batch leaves -----------------------------------------------------------------

  ghost predicate Names(ops: seq<RefOp>, key: string) {
    exists i :: 0 <= i < |ops| && ops[i].name == key
  }

  lemma {:induction false} OpsLeaveOthers(others: Others, t: nat, v: View, ops: seq<RefOp>, key: string)
    requires Quiet(others) && !Names(ops, key)
    ensures Current(PlayOps(others, t, v, ops).view, key) == Current(v, key)
  {
    if ops != [] {
      var n := |ops| - 1;
      assert !Names(ops[..n], key) && ops[n].name != key;
      OpsLeaveOthers(others, t, v, ops[..n], key);
    }
  }

  lemma {:induction false} BatchesLeaveOthers(others: Others, limit: nat, t: nat, v: View, ops: seq<RefOp>, key: string)
    requires Quiet(others) && !Names(ops, key)
    ensures Current(PlayBatches(others, limit, t, v, ops).view, key) == Current(v, key)
    decreases |ops|
  {
    if ops != [] {
      var k := if |ops| < BATCH then |ops| else BATCH;
      assert !Names(ops[..k], key) && !Names(ops[k..], key);
      OpsLeaveOthers(others, t, v, ops[..k], key);
      BatchesLeaveOthers(others, limit, t + k, PlayRequest(others, limit, t, v, ops[..k]).view, ops[k..], key);
    }
  }

  /** How many operations the first batch holds. */
  function FirstBatch(ops: seq<RefOp>): nat {
    if |ops| < BATCH then |ops| else BATCH
  }

  /** A first batch that is over the limit leaves everything it names as it was. */
  lemma {:induction false} FirstBatchStays(others: Others, limit: nat, t: nat, v: View, ops: seq<RefOp>, i: nat)
    requires Quiet(others) && DistinctNames(ops) && !BatchesFit(limit, ops) && i < FirstBatch(ops)
    ensures Current(PlayBatches(others, limit, t, v, ops).view, ops[i].name) == Current(v, ops[i].name)
  {
    var k := FirstBatch(ops);
    forall j | 0 <= j < |ops[k..]|
      ensures ops[k..][j].name != ops[i].name
    {
      assert ops[k..][j] == ops[k + j];
    }
    BatchesLeaveOthers(others, limit, t + k, v, ops[k..], ops[i].name);
  }

  /** The first batch of the sets, or of the deletes, when it is over the limit. */
  ghost predicate Refused(limit: nat, ops: seq<RefOp>, key: string) {
    !BatchesFit(limit, ops) && exists i :: 0 <= i < FirstBatch(ops) && ops[i].name == key
  }

  lemma {:induction false} RefusedStay(others: Others, limit: nat, t: nat, v: View, space: string, upstream: Listing<Option<Hash>>, read: Listing<Hash>, key: string)
    requires Quiet(others) && Distinct(upstream) && Distinct(read)
    requires Refused(limit, Sets(space, upstream, read), key) || Refused(limit, Deletes(space, upstream, read), key)
    ensures Current(RoundOf(others, limit, t, v, space, upstream, read).view, key) == Current(v, key)
  {
    var sets, deletes := Sets(space, upstream, read), Deletes(space, upstream, read);
    var first := PlayBatches(others, limit, t, v, sets);
    OpsAreDistinct(space, upstream, read);
    ApartInOps(sets, deletes);
    if Refused(limit, sets, key) {
      var i :| 0 <= i < FirstBatch(sets) && sets[i].name == key;
      FirstBatchStays(others, limit, t, v, sets, i);
      assert !Names(deletes, key);
      BatchesLeaveOthers(others, limit, t + |sets|, first.view, deletes, key);
    } else {
      var i :| 0 <= i < FirstBatch(deletes) && deletes[i].name == key;
      assert !Names(sets, key);
      BatchesLeaveOthers(others, limit, t, v, sets, key);
      FirstBatchStays(others, limit, t + |sets|, first.view, deletes, i);
    }
  }

  lemma {:induction false} ApartInOps(sets: seq<RefOp>, deletes: seq<RefOp>)
    requires DistinctNames(sets + deletes)
    ensures DistinctNames(sets) && DistinctNames(deletes)
    ensures forall i, j :: 0 <= i < |sets| && 0 <= j < |deletes| ==> sets[i].name != deletes[j].name
  {
    var all := sets + deletes;
    assert forall i :: 0 <= i < |sets| ==> all[i] == sets[i];
    assert forall j :: 0 <= j < |deletes| ==> all[|sets| + j] == deletes[j];
  }

  /** A name whose ref a round left as it was is in the next round's operations again, on the same side. */
  lemma {:induction false} AskedAgain(space: string, upstream: Listing<Option<Hash>>, v: View, w: View, read: Listing<Hash>, next: Listing<Hash>, op: RefOp)
    requires Distinct(upstream) && IsComplete(space, v, read) && IsComplete(space, w, next)
    requires op in Ops(space, upstream, read) && Current(w, op.name) == Current(v, op.name)
    ensures op.SetRef? ==> Names(Sets(space, upstream, next), op.name)
    ensures op.DeleteRef? ==> Names(Deletes(space, upstream, next), op.name)
  {
    OpsCoverDisagreement(space, upstream, v, read, op.name);
    DisagreeMeans(space, upstream, v, op.name);
    DisagreeMeans(space, upstream, w, op.name);
    assert Agrees(space, upstream, w, op.name) <==> Agrees(space, upstream, v, op.name);
    OpsCoverDisagreement(space, upstream, w, next, op.name);
    var again :| again in Ops(space, upstream, next) && again.name == op.name;
    SameSide(space, upstream, read, next, op, again);
  }

  lemma {:induction false} SameSide(space: string, upstream: Listing<Option<Hash>>, read: Listing<Hash>, next: Listing<Hash>, op: RefOp, again: RefOp)
    requires Distinct(upstream) && Distinct(read) && Distinct(next) && op.name == again.name
    requires op in Ops(space, upstream, read) && again in Ops(space, upstream, next)
    ensures op.SetRef? ==> Names(Sets(space, upstream, next), op.name)
    ensures op.DeleteRef? ==> Names(Deletes(space, upstream, next), op.name)
  {
    var sets, deletes := Sets(space, upstream, next), Deletes(space, upstream, next);
    OpsAreWanted(space, upstream, read);
    OpsAreWanted(space, upstream, next);
    assert upstream[..|upstream|] == upstream && next[..|next|] == next;
    SetsAreWanted(space, upstream, next, |upstream|);
    DeletesAreWanted(space, upstream, next, |next|);
    if op.SetRef? {
      assert again in sets;
      var i :| 0 <= i < |sets| && sets[i] == again;
    } else {
      assert again in deletes;
      var i :| 0 <= i < |deletes| && deletes[i] == again;
    }
  }

  // ---- too many stay too many ------------------------------------------------------------------------

  function NameSet(ops: seq<RefOp>): (s: set<string>)
    ensures forall key :: key in s <==> exists i :: 0 <= i < |ops| && ops[i].name == key
  {
    set i | 0 <= i < |ops| :: ops[i].name
  }

  lemma {:induction false} NamesAtMost(ops: seq<RefOp>)
    ensures |NameSet(ops)| <= |ops|
    ensures DistinctNames(ops) ==> |NameSet(ops)| == |ops|
  {
    if ops == [] {
      assert NameSet(ops) == {};
    } else {
      var before, last := ops[..|ops| - 1], ops[|ops| - 1];
      NamesAtMost(before);
      assert NameSet(ops) == NameSet(before) + {last.name};
    }
  }

  /** At least as many operations as distinct names that are asked for. */
  lemma {:induction false} AtLeast(ops: seq<RefOp>, k: nat, more: seq<RefOp>)
    requires k <= |ops| && DistinctNames(ops) && forall i :: 0 <= i < k ==> Names(more, ops[i].name)
    ensures |more| >= k
  {
    var some := ops[..k];
    assert DistinctNames(some);
    NamesAtMost(some);
    NamesAtMost(more);
    assert NameSet(some) <= NameSet(more);
    SubsetSmaller(NameSet(some), NameSet(more));
  }

  lemma {:induction false} UnfitStaysUnfit(others: Others, limit: nat, t: nat, v: View, space: string, upstream: Listing<Option<Hash>>, read: Listing<Hash>, next: Listing<Hash>)
    requires Quiet(others) && Distinct(upstream) && IsComplete(space, v, read)
    requires IsComplete(space, RoundOf(others, limit, t, v, space, upstream, read).view, next)
    ensures !Fits(limit, space, upstream, read) ==> !Fits(limit, space, upstream, next)
  {
    var sets, deletes := Sets(space, upstream, read), Deletes(space, upstream, read);
    var w := RoundOf(others, limit, t, v, space, upstream, read).view;
    OpsAreDistinct(space, upstream, read);
    ApartInOps(sets, deletes);
    assert upstream[..|upstream|] == upstream && read[..|read|] == read;
    SetsAreWanted(space, upstream, read, |upstream|);
    DeletesAreWanted(space, upstream, read, |read|);
    if !BatchesFit(limit, sets) {
      forall i | 0 <= i < FirstBatch(sets)
        ensures Names(Sets(space, upstream, next), sets[i].name)
      {
        assert sets[i] in sets;
        RefusedStay(others, limit, t, v, space, upstream, read, sets[i].name);
        AskedAgain(space, upstream, v, w, read, next, sets[i]);
      }
      AtLeast(sets, FirstBatch(sets), Sets(space, upstream, next));
    } else if !BatchesFit(limit, deletes) {
      forall i | 0 <= i < FirstBatch(deletes)
        ensures Names(Deletes(space, upstream, next), deletes[i].name)
      {
        assert deletes[i] in deletes;
        RefusedStay(others, limit, t, v, space, upstream, read, deletes[i].name);
        AskedAgain(space, upstream, v, w, read, next, deletes[i]);
      }
      AtLeast(deletes, FirstBatch(deletes), Deletes(space, upstream, next));
    }
  }

  // ---- a mirror catches up in its first round or never ------------------------------------------------

  lemma {:induction false} FitRoundSettles(others: Others, limit: nat, t: nat, v: View, space: string, upstream: Listing<Option<Hash>>, read: Listing<Hash>)
    requires Quiet(others) && Distinct(upstream) && IsComplete(space, v, read)
    ensures Disagree(space, upstream, RoundOf(others, limit, t, v, space, upstream, read).view) == {} <==> Fits(limit, space, upstream, read)
  {
    RoundLandsIffBatchesFit(others, limit, t, v, space, upstream, read);
    if !Fits(limit, space, upstream, read) {
      var sets, deletes := Sets(space, upstream, read), Deletes(space, upstream, read);
      var ops := if BatchesFit(limit, sets) then deletes else sets;
      var w := RoundOf(others, limit, t, v, space, upstream, read).view;
      assert 0 < FirstBatch(ops) && Refused(limit, ops, ops[0].name);
      RefusedStay(others, limit, t, v, space, upstream, read, ops[0].name);
      assert ops[0] in Ops(space, upstream, read);
      OpsCoverDisagreement(space, upstream, v, read, ops[0].name);
      DisagreeMeans(space, upstream, v, ops[0].name);
      DisagreeMeans(space, upstream, w, ops[0].name);
    }
  }

  lemma {:induction false} FitStaysFit(limit: nat, space: string, upstream: Listing<Option<Hash>>, v: View, read: Listing<Hash>)
    requires Distinct(upstream) && IsComplete(space, v, read) && Disagree(space, upstream, v) == {}
    ensures Fits(limit, space, upstream, read)
  {
    SettledRoundIsEmpty(space, upstream, v, read);
  }

  /** A round's batches fit exactly when the next round's do. */
  lemma {:induction false} NextFits(others: Others, limit: nat, t: nat, v: View, space: string, upstream: Listing<Option<Hash>>, read: Listing<Hash>, next: Listing<Hash>)
    requires Quiet(others) && Distinct(upstream) && IsComplete(space, v, read)
    requires IsComplete(space, RoundOf(others, limit, t, v, space, upstream, read).view, next)
    ensures Fits(limit, space, upstream, next) <==> Fits(limit, space, upstream, read)
  {
    if Fits(limit, space, upstream, read) {
      FitRoundSettles(others, limit, t, v, space, upstream, read);
      FitStaysFit(limit, space, upstream, RoundOf(others, limit, t, v, space, upstream, read).view, next);
    } else {
      UnfitStaysUnfit(others, limit, t, v, space, upstream, read, next);
    }
  }

  lemma {:induction false} LastFits(others: Others, limit: nat, t: nat, v: View, space: string, upstream: Listing<Option<Hash>>, seen: seq<Listing<Hash>>, n: nat)
    requires Quiet(others) && Distinct(upstream) && n < |seen| && AllComplete(others, limit, t, v, space, upstream, seen)
    ensures Fits(limit, space, upstream, seen[n]) <==> Fits(limit, space, upstream, seen[0])
  {
    if n > 0 {
      LastFits(others, limit, t, v, space, upstream, seen, n - 1);
      assert CompleteAt(others, limit, t, v, space, upstream, seen, n - 1);
      assert CompleteAt(others, limit, t, v, space, upstream, seen, n);
      StillFits(others, limit, t, v, space, upstream, seen, n - 1);
    }
  }

  lemma {:induction false} StillFits(others: Others, limit: nat, t: nat, v: View, space: string, upstream: Listing<Option<Hash>>, seen: seq<Listing<Hash>>, n: nat)
    requires Quiet(others) && Distinct(upstream) && n + 1 < |seen|
    requires CompleteAt(others, limit, t, v, space, upstream, seen, n) && CompleteAt(others, limit, t, v, space, upstream, seen, n + 1)
    ensures Fits(limit, space, upstream, seen[n + 1]) <==> Fits(limit, space, upstream, seen[n])
  {
    OneRoundMore(others, limit, t, v, space, upstream, seen, n);
    NextFits(others, limit, t, Rounds(others, limit, t, v, space, upstream, seen[..n]), space, upstream, seen[n], seen[n + 1]);
  }

  lemma {:induction false} OneRoundMore(others: Others, limit: nat, t: nat, v: View, space: string, upstream: Listing<Option<Hash>>, seen: seq<Listing<Hash>>, n: nat)
    requires n < |seen|
    ensures Rounds(others, limit, t, v, space, upstream, seen[..n + 1]) ==
            RoundOf(others, limit, t, Rounds(others, limit, t, v, space, upstream, seen[..n]), space, upstream, seen[n]).view
  {
    assert seen[..n + 1][..n] == seen[..n];
  }

  /** On a view nobody else writes to, read in full each time, a mirror agrees with upstream after any
      number of rounds exactly when its very first round fits the node: the sets and the deletes each
      within the node's limit, or the limit no less than the bridge's batch. A full batch that was
      refused once is refused for ever. */
  lemma {:induction false} FirstRoundDecides(others: Others, limit: nat, t: nat, v: View, space: string, upstream: Listing<Option<Hash>>, seen: seq<Listing<Hash>>)
    requires Quiet(others) && Distinct(upstream) && seen != [] && AllComplete(others, limit, t, v, space, upstream, seen)
    ensures Disagree(space, upstream, Rounds(others, limit, t, v, space, upstream, seen)) == {} <==> Fits(limit, space, upstream, seen[0])
  {
    var n := |seen| - 1;
    assert CompleteAt(others, limit, t, v, space, upstream, seen, n);
    LastFits(others, limit, t, v, space, upstream, seen, n);
    FitRoundSettles(others, limit, t, Rounds(others, limit, t, v, space, upstream, seen[..n]), space, upstream, seen[n]);
  }

  // ---- a first mirror into a node with the default limit ------------------------------------------------

  /** The limit a node has unless its operator sets another. */
  const DEFAULT_BATCH_OPS := 256

  /** How many refs upstream spells an id for. */
  function Usable(upstream: Listing<Option<Hash>>): nat {
    if upstream == [] then 0 else Usable(upstream[..|upstream| - 1]) + if upstream[|upstream| - 1].1.Some? then 1 else 0
  }

  lemma {:induction false} FirstSets(space: string, upstream: Listing<Option<Hash>>)
    ensures |Sets(space, upstream, [])| == Usable(upstream)
  {
    if upstream != [] {
      FirstSets(space, upstream[..|upstream| - 1]);
    }
  }

  /** A first mirror of more than 256 refs into a node with the default limit is never complete, however
      many rounds it is given; one of at most 256 is complete after the first. */
  lemma {:induction false} DefaultNodeMirrors(others: Others, t: nat, v: View, space: string, upstream: Listing<Option<Hash>>, seen: seq<Listing<Hash>>)
    requires Quiet(others) && Distinct(upstream) && seen != [] && seen[0] == []
    requires AllComplete(others, DEFAULT_BATCH_OPS, t, v, space, upstream, seen)
    ensures Disagree(space, upstream, Rounds(others, DEFAULT_BATCH_OPS, t, v, space, upstream, seen)) == {} <==> Usable(upstream) <= DEFAULT_BATCH_OPS
  {
    FirstRoundDecides(others, DEFAULT_BATCH_OPS, t, v, space, upstream, seen);
    FirstSets(space, upstream);
  }
}
