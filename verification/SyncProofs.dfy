/** What a sync round does to the mirrored refs: safety against any other writer, convergence on a
    quiet view, exactly which node limits allow it, and which keys a label reaches. */
module SyncProofs {
  import opened Basics
  import opened Sync

  // ---- keys ------------------------------------------------------------------------

  /** The ref name of a key under `space`, as the bridge strips it. */
  function Strip(space: string, key: string): Option<string> {
    if space + ":" <= key then Some(key[|space| + 1..]) else None
  }

  lemma {:induction false} StripKey(space: string, name: string)
    ensures Strip(space, Key(space, name)) == Some(name)
  {
  }

  lemma {:induction false} KeyStrip(space: string, key: string)
    requires Strip(space, key).Some?
    ensures Key(space, Strip(space, key).value) == key
  {
  }

  lemma {:induction false} KeysDiffer(space: string, a: string, b: string)
    ensures Key(space, a) == Key(space, b) <==> a == b
  {
    StripKey(space, a);
    StripKey(space, b);
  }

  /** A ref of another label (git ref names hold no colon) is taken for one of this label's exactly
      when the other label continues this one after a colon. */
  lemma {:induction false} ForeignKeys(space: string, other: string, name: string)
    requires ':' !in name
    ensures Strip(space, Key(other, name)).Some? <==> other == space || space + ":" <= other
  {
    var mine, key := space + ":", Key(other, name);
    if |other| < |space| < |key| {
      assert key[|space|] == name[|space| - |other| - 1];
    }
    if mine <= key {
      assert key[|space|] == ':';
      assert key[..|space|] == space;
      if |space| == |other| {
        assert key[..|other|] == other;
      } else {
        assert key[..|mine|] == other[..|mine|];
      }
    }
    if mine <= other {
      assert key[..|mine|] == other[..|mine|];
    }
  }

  // ---- what upstream wants -----------------------------------------------------------

  /** Whether `key` holds what upstream says: the id upstream lists, nothing when upstream does not
      list the name, anything when it lists no usable id or the key is not this label's. */
  ghost predicate Agrees(space: string, upstream: Listing<Option<Hash>>, v: View, key: string) {
    match Strip(space, key)
    case None => true
    case Some(name) =>
      var want: Option<Option<Hash>> := Lookup(upstream, name);
      if want.None? then key !in v else want.value.Some? ==> Current(v, key) == want.value
  }

  ghost function Keys(space: string, upstream: Listing<Option<Hash>>): set<string> {
    set i | 0 <= i < |upstream| :: Key(space, upstream[i].0)
  }

  /** The names that disagree with upstream. */
  ghost function Disagree(space: string, upstream: Listing<Option<Hash>>, v: View): set<string> {
    set key | key in v.Keys + Keys(space, upstream) && !Agrees(space, upstream, v, key)
  }

  lemma {:induction false} DisagreeMeans(space: string, upstream: Listing<Option<Hash>>, v: View, key: string)
    ensures key in Disagree(space, upstream, v) <==> !Agrees(space, upstream, v, key)
  {
    if !Agrees(space, upstream, v, key) && key !in v {
      var name := Strip(space, key).value;
      KeyStrip(space, key);
      LookupFinds(upstream, name);
    }
  }

  // ---- listings ------------------------------------------------------------------------

  lemma {:induction false} LookupFinds<T>(l: Listing<T>, name: string)
    ensures Lookup(l, name).Some? ==> exists i :: 0 <= i < |l| && l[i] == (name, Lookup(l, name).value)
    ensures Lookup(l, name).None? ==> forall i :: 0 <= i < |l| ==> l[i].0 != name
  {
    if l != [] && l[|l| - 1].0 != name {
      LookupFinds(l[..|l| - 1], name);
    }
  }

  lemma {:induction false} LookupAt<T>(l: Listing<T>, i: nat)
    requires Distinct(l) && i < |l|
    ensures Lookup(l, l[i].0) == Some(l[i].1)
  {
    if i < |l| - 1 {
      LookupAt(l[..|l| - 1], i);
    }
  }

  // ---- the operations of a round -----------------------------------------------------------

  /** `op` is what the bridge makes of one name, given upstream and what it read. */
  ghost predicate Wanted(space: string, upstream: Listing<Option<Hash>>, read: Listing<Hash>, op: RefOp) {
    var stripped := Strip(space, op.name);
    && stripped.Some?
    && op.prev == Lookup(read, stripped.value)
    && match op
       case SetRef(_, commit, prev) => Lookup(upstream, stripped.value) == Some(Some(commit)) && prev != Some(commit)
       case DeleteRef(_, prev) => Lookup(upstream, stripped.value) == None && prev.Some?
  }

  lemma {:induction false} SetsAreWanted(space: string, upstream: Listing<Option<Hash>>, read: Listing<Hash>, n: nat)
    requires Distinct(upstream) && n <= |upstream|
    ensures forall op :: op in Sets(space, upstream[..n], read) ==> op.SetRef? && Wanted(space, upstream, read, op)
  {
    if n > 0 {
      SetsAreWanted(space, upstream, read, n - 1);
      assert upstream[..n][..n - 1] == upstream[..n - 1];
      LookupAt(upstream, n - 1);
      StripKey(space, upstream[n - 1].0);
    }
  }

  lemma {:induction false} DeletesAreWanted(space: string, upstream: Listing<Option<Hash>>, read: Listing<Hash>, n: nat)
    requires Distinct(read) && n <= |read|
    ensures forall op :: op in Deletes(space, upstream, read[..n]) ==> op.DeleteRef? && Wanted(space, upstream, read, op)
  {
    if n > 0 {
      DeletesAreWanted(space, upstream, read, n - 1);
      assert read[..n][..n - 1] == read[..n - 1];
      LookupAt(read, n - 1);
      StripKey(space, read[n - 1].0);
    }
  }

  function Ops(space: string, upstream: Listing<Option<Hash>>, read: Listing<Hash>): seq<RefOp> {
    Sets(space, upstream, read) + Deletes(space, upstream, read)
  }

  lemma {:induction false} OpsAreWanted(space: string, upstream: Listing<Option<Hash>>, read: Listing<Hash>)
    requires Distinct(upstream) && Distinct(read)
    ensures forall op :: op in Ops(space, upstream, read) ==> Wanted(space, upstream, read, op)
  {
    SetsAreWanted(space, upstream, read, |upstream|);
    DeletesAreWanted(space, upstream, read, |read|);
    assert upstream[..|upstream|] == upstream && read[..|read|] == read;
  }

  // ---- safety, whoever else writes -------------------------------------------------------------

  /** Whatever the view has become, an operation of the round that is admitted there settles exactly
      its own name, and replaces exactly the value the bridge read (or fills a name it read as
      absent); one that is not admitted changes nothing. */
  lemma {:induction false} AdmittedOpSettlesItsName(space: string, upstream: Listing<Option<Hash>>, read: Listing<Hash>, v: View, op: RefOp)
    requires Wanted(space, upstream, read, op)
    ensures Admits(v, op) ==>
      && Current(v, op.name) == Lookup(read, Strip(space, op.name).value)
      && op.name in Disagree(space, upstream, v)
      && Disagree(space, upstream, Apply(v, op)) == Disagree(space, upstream, v) - {op.name}
    ensures !Admits(v, op) ==> Apply(v, op) == v
    ensures forall key :: key != op.name ==> Current(Apply(v, op), key) == Current(v, key)
  {
    if Admits(v, op) {
      var after := Apply(v, op);
      DisagreeMeans(space, upstream, v, op.name);
      assert Agrees(space, upstream, after, op.name);
      forall key
        ensures key in Disagree(space, upstream, after) <==> key in Disagree(space, upstream, v) && key != op.name
      {
        DisagreeMeans(space, upstream, v, key);
        DisagreeMeans(space, upstream, after, key);
        if key != op.name {
          assert Current(after, key) == Current(v, key);
        }
      }
    }
  }

  /** The whole request under interference: the operation at place `i` meets whatever view the other
      writers left, and never leaves more names in disagreement than it met. */
  lemma {:induction false} RequestNeverHurts(others: Others, t: nat, v: View, space: string, upstream: Listing<Option<Hash>>, read: Listing<Hash>, ops: seq<RefOp>, i: nat)
    requires i < |ops| && forall op :: op in ops ==> Wanted(space, upstream, read, op)
    ensures var met := others(t + i, PlayOps(others, t, v, ops[..i]).view);
      var left := PlayOps(others, t, v, ops[..i + 1]);
      && (left.accepted > PlayOps(others, t, v, ops[..i]).accepted ==>
          |Disagree(space, upstream, left.view)| == |Disagree(space, upstream, met)| - 1)
      && (left.accepted == PlayOps(others, t, v, ops[..i]).accepted ==> left.view == met)
  {
    assert ops[..i + 1][..i] == ops[..i];
    assert ops[i] in ops;
    AdmittedOpSettlesItsName(space, upstream, read, others(t + i, PlayOps(others, t, v, ops[..i]).view), ops[i]);
  }

  /** With nobody else writing, the names in disagreement go down by exactly what was accepted, even
      when the read was stale or incomplete. */
  lemma {:induction false} QuietProgress(others: Others, t: nat, v: View, space: string, upstream: Listing<Option<Hash>>, read: Listing<Hash>, ops: seq<RefOp>)
    requires Quiet(others) && forall op :: op in ops ==> Wanted(space, upstream, read, op)
    ensures var p := PlayOps(others, t, v, ops);
      |Disagree(space, upstream, p.view)| + p.accepted == |Disagree(space, upstream, v)|
  {
    if ops != [] {
      var n := |ops| - 1;
      QuietProgress(others, t, v, space, upstream, read, ops[..n]);
      AdmittedOpSettlesItsName(space, upstream, read, PlayOps(others, t, v, ops[..n]).view, ops[n]);
    }
  }

  // ---- batching ------------------------------------------------------------------------------------

  lemma {:induction false} PlayAppend(others: Others, t: nat, v: View, a: seq<RefOp>, b: seq<RefOp>)
    ensures var first := PlayOps(others, t, v, a);
      var second := PlayOps(others, t + |a|, first.view, b);
      PlayOps(others, t, v, a + b) == Played(second.view, first.accepted + second.accepted)
  {
    if b == [] {
      assert a + b == a;
    } else {
      var n := |b| - 1;
      PlayAppend(others, t, v, a, b[..n]);
      assert (a + b)[..|a| + n] == a + b[..n];
    }
  }

  /** When a node takes the bridge's batches, batching is invisible: every operation, once, in order. */
  lemma {:induction false} BatchesAreOps(others: Others, limit: nat, t: nat, v: View, ops: seq<RefOp>)
    requires |ops| <= limit || BATCH <= limit
    ensures PlayBatches(others, limit, t, v, ops) == PlayOps(others, t, v, ops)
    decreases |ops|
  {
    if ops != [] {
      var k := if |ops| < BATCH then |ops| else BATCH;
      var first := PlayOps(others, t, v, ops[..k]);
      assert PlayRequest(others, limit, t, v, ops[..k]) == first;
      BatchesAreOps(others, limit, t + k, first.view, ops[k..]);
      PlaySplit(others, t, v, ops, k);
    }
  }

  lemma {:induction false} PlaySplit(others: Others, t: nat, v: View, ops: seq<RefOp>, k: nat)
    requires k <= |ops|
    ensures var first := PlayOps(others, t, v, ops[..k]);
      var second := PlayOps(others, t + k, first.view, ops[k..]);
      PlayOps(others, t, v, ops) == Played(second.view, first.accepted + second.accepted)
  {
    PlayAppend(others, t, v, ops[..k], ops[k..]);
    assert ops[..k] + ops[k..] == ops;
  }

  lemma {:induction false} AcceptedBound(others: Others, limit: nat, t: nat, v: View, ops: seq<RefOp>)
    ensures PlayBatches(others, limit, t, v, ops).accepted <= |ops|
    decreases |ops|
  {
    if ops != [] {
      var k := if |ops| < BATCH then |ops| else BATCH;
      AcceptedBound(others, limit, t + k, PlayRequest(others, limit, t, v, ops[..k]).view, ops[k..]);
    }
  }

  /** A batch over the node's limit is refused whole, so then something is always left out. */
  lemma {:induction false} OversizeLosesOps(others: Others, limit: nat, t: nat, v: View, ops: seq<RefOp>)
    requires limit < |ops| && limit < BATCH
    ensures PlayBatches(others, limit, t, v, ops).accepted < |ops|
  {
    var k := if |ops| < BATCH then |ops| else BATCH;
    AcceptedBound(others, limit, t + k, v, ops[k..]);
  }

  // ---- convergence -----------------------------------------------------------------------------------

  /** The bridge read this of the view. */
  ghost predicate IsRead(space: string, v: View, read: Listing<Hash>) {
    Distinct(read) && forall i :: 0 <= i < |read| ==> Current(v, Key(space, read[i].0)) == Some(read[i].1)
  }

  /** ... and missed nothing under its label. */
  ghost predicate IsComplete(space: string, v: View, read: Listing<Hash>) {
    IsRead(space, v, read) && forall key :: key in v && Strip(space, key).Some? ==> Lookup(read, Strip(space, key).value).Some?
  }

  /** A complete read tells what the view holds, present or absent. */
  lemma {:induction false} ReadTells(space: string, v: View, read: Listing<Hash>, key: string)
    requires IsComplete(space, v, read) && Strip(space, key).Some?
    ensures Lookup(read, Strip(space, key).value) == Current(v, key)
  {
    KeyStrip(space, key);
    LookupFinds(read, Strip(space, key).value);
  }

  ghost predicate DistinctNames(ops: seq<RefOp>) {
    forall i, j :: 0 <= i < j < |ops| ==> ops[i].name != ops[j].name
  }

  function After(op: RefOp): Option<Hash> {
    if op.SetRef? then Some(op.commit) else None
  }

  /** On a quiet view every operation whose expectation holds at the start is accepted. */
  lemma {:induction false} QuietAcceptsAll(others: Others, t: nat, v: View, ops: seq<RefOp>)
    requires Quiet(others) && DistinctNames(ops)
    requires forall op :: op in ops ==> Admits(v, op)
    ensures var p := PlayOps(others, t, v, ops);
      && p.accepted == |ops|
      && (forall i :: 0 <= i < |ops| ==> Current(p.view, ops[i].name) == After(ops[i]))
      && (forall key :: (forall i :: 0 <= i < |ops| ==> ops[i].name != key) ==> Current(p.view, key) == Current(v, key))
  {
    if ops != [] {
      var n := |ops| - 1;
      QuietAcceptsAll(others, t, v, ops[..n]);
      assert ops[n] in ops;
    }
  }

  lemma {:induction false} SetNames(space: string, upstream: Listing<Option<Hash>>, read: Listing<Hash>, n: nat)
    requires Distinct(upstream) && n <= |upstream|
    ensures var sets := Sets(space, upstream[..n], read);
      && DistinctNames(sets)
      && (forall op :: op in sets ==> exists i :: 0 <= i < n && op.name == Key(space, upstream[i].0))
      && (forall i :: 0 <= i < n && upstream[i].1.Some? && Lookup(read, upstream[i].0) != upstream[i].1 ==>
            exists op :: op in sets && op.name == Key(space, upstream[i].0))
  {
    if n > 0 {
      var m := n - 1;
      SetNames(space, upstream, read, m);
      assert upstream[..n][..m] == upstream[..m];
      var before, sets := Sets(space, upstream[..m], read), Sets(space, upstream[..n], read);
      assert before <= sets;
      forall op | op in before
        ensures op.name != Key(space, upstream[m].0)
      {
        var i :| 0 <= i < m && op.name == Key(space, upstream[i].0);
        KeysDiffer(space, upstream[i].0, upstream[m].0);
      }
      if upstream[m].1.Some? && Lookup(read, upstream[m].0) != upstream[m].1 {
        assert sets[|sets| - 1].name == Key(space, upstream[m].0);
        assert sets[|sets| - 1] in sets;
      }
    }
  }

  lemma {:induction false} DeleteNames(space: string, upstream: Listing<Option<Hash>>, read: Listing<Hash>, n: nat)
    requires Distinct(read) && n <= |read|
    ensures var deletes := Deletes(space, upstream, read[..n]);
      && DistinctNames(deletes)
      && (forall op :: op in deletes ==> exists i :: 0 <= i < n && op.name == Key(space, read[i].0))
      && (forall i :: 0 <= i < n && Lookup(upstream, read[i].0).None? ==>
            exists op :: op in deletes && op.name == Key(space, read[i].0))
  {
    if n > 0 {
      var m := n - 1;
      DeleteNames(space, upstream, read, m);
      assert read[..n][..m] == read[..m];
      var before, deletes := Deletes(space, upstream, read[..m]), Deletes(space, upstream, read[..n]);
      assert before <= deletes;
      forall op | op in before
        ensures op.name != Key(space, read[m].0)
      {
        var i :| 0 <= i < m && op.name == Key(space, read[i].0);
        KeysDiffer(space, read[i].0, read[m].0);
      }
      if Lookup(upstream, read[m].0).None? {
        assert deletes[|deletes| - 1].name == Key(space, read[m].0);
        assert deletes[|deletes| - 1] in deletes;
      }
    }
  }

  /** No two operations of a round touch the same name. */
  lemma {:induction false} OpsAreDistinct(space: string, upstream: Listing<Option<Hash>>, read: Listing<Hash>)
    requires Distinct(upstream) && Distinct(read)
    ensures DistinctNames(Ops(space, upstream, read))
  {
    var sets, deletes := Sets(space, upstream, read), Deletes(space, upstream, read);
    assert upstream[..|upstream|] == upstream && read[..|read|] == read;
    SetNames(space, upstream, read, |upstream|);
    DeleteNames(space, upstream, read, |read|);
    SetsAreWanted(space, upstream, read, |upstream|);
    DeletesAreWanted(space, upstream, read, |read|);
    forall i, j | 0 <= i < |sets| && 0 <= j < |deletes|
      ensures sets[i].name != deletes[j].name
    {
      assert sets[i] in sets && deletes[j] in deletes;
    }
  }

  lemma {:induction false} DisagreementHasOp(space: string, upstream: Listing<Option<Hash>>, v: View, read: Listing<Hash>, key: string)
    requires Distinct(upstream) && IsComplete(space, v, read) && !Agrees(space, upstream, v, key)
    ensures exists op :: op in Ops(space, upstream, read) && op.name == key
  {
    var sets, deletes := Sets(space, upstream, read), Deletes(space, upstream, read);
    var name := Strip(space, key).value;
    KeyStrip(space, key);
    ReadTells(space, v, read, key);
    if Lookup(upstream, name).Some? {
      LookupFinds(upstream, name);
      assert upstream[..|upstream|] == upstream;
      SetNames(space, upstream, read, |upstream|);
      var op :| op in sets && op.name == key;
      assert op in Ops(space, upstream, read);
    } else {
      LookupFinds(read, name);
      assert read[..|read|] == read;
      DeleteNames(space, upstream, read, |read|);
      var op :| op in deletes && op.name == key;
      assert op in Ops(space, upstream, read);
    }
  }

  /** Against a complete read, the operations name exactly what disagrees. */
  lemma {:induction false} OpsCoverDisagreement(space: string, upstream: Listing<Option<Hash>>, v: View, read: Listing<Hash>, key: string)
    requires Distinct(upstream) && IsComplete(space, v, read)
    ensures key in Disagree(space, upstream, v) <==> exists op :: op in Ops(space, upstream, read) && op.name == key
  {
    DisagreeMeans(space, upstream, v, key);
    if !Agrees(space, upstream, v, key) {
      DisagreementHasOp(space, upstream, v, read, key);
    } else if op :| op in Ops(space, upstream, read) && op.name == key {
      OpsAreWanted(space, upstream, read);
      ReadTells(space, v, read, key);
      assert false;
    }
  }

  /** A round against a complete, quiet view: everything is accepted, the label ends up exactly as
      upstream has it, and no other key moves. */
  lemma {:induction false} QuietRoundConverges(others: Others, t: nat, v: View, space: string, upstream: Listing<Option<Hash>>, read: Listing<Hash>)
    requires Quiet(others) && Distinct(upstream) && IsComplete(space, v, read)
    ensures var ops := Ops(space, upstream, read);
      var p := PlayOps(others, t, v, ops);
      && p.accepted == |ops|
      && Disagree(space, upstream, p.view) == {}
      && forall key :: Strip(space, key).None? ==> Current(p.view, key) == Current(v, key)
  {
    var ops := Ops(space, upstream, read);
    var p := PlayOps(others, t, v, ops);
    OpsAreWanted(space, upstream, read);
    OpsAreDistinct(space, upstream, read);
    forall op | op in ops
      ensures Admits(v, op)
    {
      ReadTells(space, v, read, op.name);
    }
    QuietAcceptsAll(others, t, v, ops);
    forall key
      ensures Agrees(space, upstream, p.view, key)
      ensures Strip(space, key).None? ==> Current(p.view, key) == Current(v, key)
    {
      OpsCoverDisagreement(space, upstream, v, read, key);
      DisagreeMeans(space, upstream, v, key);
      if i :| 0 <= i < |ops| && ops[i].name == key {
        assert ops[i] in ops;
        assert Current(p.view, key) == After(ops[i]);
      } else {
        assert Current(p.view, key) == Current(v, key);
      }
    }
  }

  /** Once nothing disagrees, a round over a complete read has nothing to say. */
  lemma {:induction false} SettledRoundIsEmpty(space: string, upstream: Listing<Option<Hash>>, v: View, read: Listing<Hash>)
    requires Distinct(upstream) && IsComplete(space, v, read)
    ensures Ops(space, upstream, read) == [] <==> Disagree(space, upstream, v) == {}
  {
    var ops := Ops(space, upstream, read);
    if ops != [] {
      assert ops[0] in ops;
      OpsCoverDisagreement(space, upstream, v, read, ops[0].name);
    }
    if key :| key in Disagree(space, upstream, v) {
      OpsCoverDisagreement(space, upstream, v, read, key);
    }
  }

  /** What `sync_once` makes of a round: the sets in batches, then the deletes. */
  function SyncRound(others: Others, limit: nat, t: nat, v: View, sets: seq<RefOp>, deletes: seq<RefOp>): Played {
    var first := PlayBatches(others, limit, t, v, sets);
    var second := PlayBatches(others, limit, t + |sets|, first.view, deletes);
    Played(second.view, first.accepted + second.accepted)
  }

  predicate BatchesFit(limit: nat, ops: seq<RefOp>) {
    500 <= limit || |ops| <= limit
  }

  lemma {:induction false} FittingRoundIsOps(others: Others, limit: nat, t: nat, v: View, sets: seq<RefOp>, deletes: seq<RefOp>)
    requires BatchesFit(limit, sets) && BatchesFit(limit, deletes)
    ensures SyncRound(others, limit, t, v, sets, deletes) == PlayOps(others, t, v, sets + deletes)
  {
    BatchesAreOps(others, limit, t, v, sets);
    BatchesAreOps(others, limit, t + |sets|, PlayOps(others, t, v, sets).view, deletes);
    PlayAppend(others, t, v, sets, deletes);
  }

  lemma {:induction false} UnfitRoundLosesOps(others: Others, limit: nat, t: nat, v: View, sets: seq<RefOp>, deletes: seq<RefOp>)
    requires !BatchesFit(limit, sets) || !BatchesFit(limit, deletes)
    ensures SyncRound(others, limit, t, v, sets, deletes).accepted < |sets| + |deletes|
  {
    var first := PlayBatches(others, limit, t, v, sets);
    AcceptedBound(others, limit, t, v, sets);
    AcceptedBound(others, limit, t + |sets|, first.view, deletes);
    if !BatchesFit(limit, sets) {
      OversizeLosesOps(others, limit, t, v, sets);
    } else {
      OversizeLosesOps(others, limit, t + |sets|, first.view, deletes);
    }
  }

  /** A round against a complete, quiet view has all its operations accepted, and leaves nothing in
      disagreement, exactly when the node takes its batches: the sets and the deletes each fit the
      node's limit, or the limit is at least the bridge's batch size. */
  lemma {:induction false} RoundLandsIffBatchesFit(others: Others, limit: nat, t: nat, v: View, space: string, upstream: Listing<Option<Hash>>, read: Listing<Hash>)
    requires Quiet(others) && Distinct(upstream) && IsComplete(space, v, read)
    ensures var sets, deletes := Sets(space, upstream, read), Deletes(space, upstream, read);
      var p := SyncRound(others, limit, t, v, sets, deletes);
      && (p.accepted == |sets| + |deletes| <==> BatchesFit(limit, sets) && BatchesFit(limit, deletes))
      && (p.accepted == |sets| + |deletes| ==> Disagree(space, upstream, p.view) == {})
  {
    var sets, deletes := Sets(space, upstream, read), Deletes(space, upstream, read);
    if BatchesFit(limit, sets) && BatchesFit(limit, deletes) {
      FittingRoundIsOps(others, limit, t, v, sets, deletes);
      QuietRoundConverges(others, t, v, space, upstream, read);
    } else {
      UnfitRoundLosesOps(others, limit, t, v, sets, deletes);
    }
  }

  // ---- what a round reports ----------------------------------------------------------------------

  /** How many upstream refs have an object id. */
  function Usable(upstream: Listing<Option<Hash>>): nat {
    if upstream == [] then 0
    else Usable(upstream[..|upstream| - 1]) + if upstream[|upstream| - 1].1.Some? then 1 else 0
  }

  /** Every usable ref of upstream is either set or reported unchanged, and nothing else is. */
  lemma {:induction false} EveryRefReported(space: string, upstream: Listing<Option<Hash>>, read: Listing<Hash>)
    ensures |Sets(space, upstream, read)| + Unchanged(upstream, read) == Usable(upstream)
  {
    if upstream != [] {
      EveryRefReported(space, upstream[..|upstream| - 1], read);
    }
  }
}
