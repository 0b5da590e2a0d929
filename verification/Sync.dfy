/**
 The mirror bridge (crates/choir-bridge/src/main.rs): one sync round diffs upstream's refs
 against a read of the view and submits compare-and-swap operations in batches, while other
 writers may move any ref at any time.
 */
module Sync {
  import opened Basics

  /** A content hash; a git object id wrapped in one is what a ref holds. */
  type Hash = string

  type View = map<string, Hash>

  datatype RefOp = SetRef(name: string, commit: Hash, prev: Option<Hash>) | DeleteRef(name: string, prev: Option<Hash>)

  // ---- the node's side -------------------------------------------------------------

  function Current(v: View, name: string): Option<Hash> {
    if name in v then Some(v[name]) else None
  }

  /** The compare-and-swap rule: an operation is admitted when the ref still is what it expects. */
  predicate Admits(v: View, op: RefOp) {
    Current(v, op.name) == op.prev
  }

  function Apply(v: View, op: RefOp): View {
    if !Admits(v, op) then v
    else
      match op
      case SetRef(name, commit, _) => v[name := commit]
      case DeleteRef(name, _) => v - {name}
  }

  /** What everybody else has made of the view by the time operation number `t` is looked at. */
  type Others = (nat, View) -> View

  ghost predicate Quiet(others: Others) {
    forall t, v :: others(t, v) == v
  }

  datatype Played = Played(view: View, accepted: nat)

  /** One admitted request: the operations in array order, each on its own merits. */
  function PlayOps(others: Others, t: nat, v: View, ops: seq<RefOp>): (p: Played)
    ensures p.accepted <= |ops|
  {
    if ops == [] then Played(v, 0)
    else
      var n := |ops| - 1;
      var before := PlayOps(others, t, v, ops[..n]);
      var seen := others(t + n, before.view);
      Played(Apply(seen, ops[n]), before.accepted + if Admits(seen, ops[n]) then 1 else 0)
  }

  /** A request over the node's batch limit is refused whole. */
  function PlayRequest(others: Others, limit: nat, t: nat, v: View, ops: seq<RefOp>): Played {
    if |ops| > limit then Played(v, 0) else PlayOps(others, t, v, ops)
  }

  // ---- the bridge's side -------------------------------------------------------------

  const BATCH := 500

  /** All of `ops`, `BATCH` at a time. */
  function PlayBatches(others: Others, limit: nat, t: nat, v: View, ops: seq<RefOp>): Played
    decreases |ops|
  {
    if ops == [] then Played(v, 0)
    else
      var k := if |ops| < BATCH then |ops| else BATCH;
      var first := PlayRequest(others, limit, t, v, ops[..k]);
      var rest := PlayBatches(others, limit, t + k, first.view, ops[k..]);
      Played(rest.view, first.accepted + rest.accepted)
  }

  /** A `BTreeMap` as the list it iterates over; names are distinct. */
  type Listing<T> = seq<(string, T)>

  ghost predicate Distinct<T>(l: Listing<T>) {
    forall i, j :: 0 <= i < j < |l| ==> l[i].0 != l[j].0
  }

  function Lookup<T>(l: Listing<T>, name: string): Option<T> {
    if l == [] then None
    else if l[|l| - 1].0 == name then Some(l[|l| - 1].1)
    else Lookup(l[..|l| - 1], name)
  }

  function Key(space: string, name: string): string {
    space + ":" + name
  }

  /** The operation for one upstream ref, if it needs one; `None` stands for an id git did not spell
      as an object id. */
  function SetFor(space: string, read: Listing<Hash>, name: string, oid: Option<Hash>): Option<RefOp> {
    if oid.None? || Lookup(read, name) == oid then None
    else Some(SetRef(Key(space, name), oid.value, Lookup(read, name)))
  }

  function Sets(space: string, upstream: Listing<Option<Hash>>, read: Listing<Hash>): seq<RefOp> {
    if upstream == [] then []
    else
      var n := |upstream| - 1;
      var op := SetFor(space, read, upstream[n].0, upstream[n].1);
      Sets(space, upstream[..n], read) + if op.Some? then [op.value] else []
  }

  function Deletes(space: string, upstream: Listing<Option<Hash>>, read: Listing<Hash>): seq<RefOp> {
    if read == [] then []
    else
      var n := |read| - 1;
      Deletes(space, upstream, read[..n])
      + if Lookup(upstream, read[n].0).None? then [DeleteRef(Key(space, read[n].0), Some(read[n].1))] else []
  }

  function Unchanged(upstream: Listing<Option<Hash>>, read: Listing<Hash>): nat {
    if upstream == [] then 0
    else
      var n := |upstream| - 1;
      Unchanged(upstream[..n], read) + if upstream[n].1.Some? && Lookup(read, upstream[n].0) == upstream[n].1 then 1 else 0
  }

  class Node {
    var refs: View
    var clock: nat
    const limit: nat

    constructor (refs: View, limit: nat)
      ensures this.refs == refs && this.limit == limit && clock == 0
    {
      this.refs, this.limit, clock := refs, limit, 0;
    }

    method Request(others: Others, ops: seq<RefOp>) returns (accepted: nat)
      modifies this
      ensures Played(refs, accepted) == PlayRequest(others, limit, old(clock), old(refs), ops)
      ensures clock == old(clock) + |ops|
    {
      accepted := 0;
      if |ops| > limit {
        clock := clock + |ops|;
        return;
      }
      for i := 0 to |ops|
        invariant clock == old(clock) + i
        invariant Played(refs, accepted) == PlayOps(others, old(clock), old(refs), ops[..i])
      {
        assert ops[..i + 1][..i] == ops[..i];
        refs := others(clock, refs);
        if Admits(refs, ops[i]) {
          accepted := accepted + 1;
        }
        refs := Apply(refs, ops[i]);
        clock := clock + 1;
      }
      assert ops[..|ops|] == ops;
    }
  }

  method SubmitBatch(node: Node, others: Others, ops: seq<RefOp>) returns (accepted: nat)
    modifies node
    ensures Played(node.refs, accepted) == PlayBatches(others, node.limit, old(node.clock), old(node.refs), ops)
    ensures node.clock == old(node.clock) + |ops|
  {
    accepted := 0;
    var rest := ops;
    ghost var all := PlayBatches(others, node.limit, node.clock, node.refs, ops);
    while rest != []
      invariant node.clock + |rest| == old(node.clock) + |ops|
      invariant all.view == PlayBatches(others, node.limit, node.clock, node.refs, rest).view
      invariant all.accepted == accepted + PlayBatches(others, node.limit, node.clock, node.refs, rest).accepted
      decreases |rest|
    {
      var k := if |rest| < BATCH then |rest| else BATCH;
      var got := node.Request(others, rest[..k]);
      accepted, rest := accepted + got, rest[k..];
    }
  }

  /** One sync round against a view that was read as `read`: how many refs it set, deleted and
      found unchanged. */
  method SyncOnce(node: Node, others: Others, space: string, upstream: Listing<Option<Hash>>, read: Listing<Hash>)
      returns (set': nat, deleted: nat, unchanged': nat)
    modifies node
    ensures var first := PlayBatches(others, node.limit, old(node.clock), old(node.refs), Sets(space, upstream, read));
      && set' == first.accepted
      && Played(node.refs, deleted) ==
         PlayBatches(others, node.limit, old(node.clock) + |Sets(space, upstream, read)|, first.view, Deletes(space, upstream, read))
    ensures unchanged' == Unchanged(upstream, read)
  {
    var sets: seq<RefOp> := [];
    unchanged' := 0;
    for i := 0 to |upstream|
      invariant sets == Sets(space, upstream[..i], read)
      invariant unchanged' == Unchanged(upstream[..i], read)
    {
      assert upstream[..i + 1][..i] == upstream[..i];
      var (name, oid) := upstream[i];
      if oid.None? {
        continue;
      }
      var prev := Lookup(read, name);
      if prev == oid {
        unchanged' := unchanged' + 1;
        continue;
      }
      sets := sets + [SetRef(Key(space, name), oid.value, prev)];
    }
    assert upstream[..|upstream|] == upstream;
    var deletes: seq<RefOp> := [];
    for i := 0 to |read|
      invariant deletes == Deletes(space, upstream, read[..i])
    {
      assert read[..i + 1][..i] == read[..i];
      var (name, prev) := read[i];
      if Lookup(upstream, name).None? {
        deletes := deletes + [DeleteRef(Key(space, name), Some(prev))];
      }
    }
    assert read[..|read|] == read;
    set' := SubmitBatch(node, others, sets);
    deleted := SubmitBatch(node, others, deletes);
  }
}
