/**
 The single-writer op log (crates/choir-actor/src/lib.rs): the actor's two actions, and the
 whole system of clients around it as a state machine.
 */
module Sequencer {
  import opened Basics

  /** A content hash; equal hashes mean equal entries (see `Injective`). */
  type Digest = string

  const FORMAT_VERSION := 1

  datatype OpEntry = OpEntry(
    formatVersion: nat,
    parent: Option<Digest>,
    position: nat,
    channel: string,
    payload: seq<bv8>,
    witnesses: seq<string>,
    authorSig: Option<string>)

  datatype SubmitOp = SubmitOp(channel: string, payload: seq<bv8>, authorSig: Option<string>)

  datatype SubmitReply = SubmitReply(position: nat, digest: Digest)

  type HashFn = OpEntry -> Digest

  /** The entry the log appends for `op`. */
  function NextEntry(hash: HashFn, entries: seq<OpEntry>, op: SubmitOp): OpEntry {
    OpEntry(
      FORMAT_VERSION,
      if entries == [] then None else Some(hash(entries[|entries| - 1])),
      |entries|, op.channel, op.payload, [], op.authorSig)
  }

  class SequencerActor {
    var entries: seq<OpEntry>

    constructor ()
      ensures entries == []
    {
      entries := [];
    }

    method Submit(hash: HashFn, op: SubmitOp) returns (reply: SubmitReply)
      modifies this
      ensures entries == old(entries) + [NextEntry(hash, old(entries), op)]
      ensures reply == SubmitReply(|old(entries)|, hash(entries[|old(entries)|]))
    {
      var parent := if |entries| > 0 then Some(hash(entries[|entries| - 1])) else None;
      var position := |entries|;
      var entry := OpEntry(FORMAT_VERSION, parent, position, op.channel, op.payload, [], op.authorSig);
      entries := entries + [entry];
      reply := SubmitReply(position, hash(entry));
    }

    method Dump() returns (log: seq<OpEntry>)
      ensures log == entries
    {
      log := entries;
    }
  }

  // ---- chains ------------------------------------------------------------------------

  /** Entry `i` says it is number `i` and names the hash of the entry before it. */
  ghost predicate Linked(hash: HashFn, entries: seq<OpEntry>, i: nat)
    requires i < |entries|
  {
    && entries[i].position == i
    && entries[i].parent == if i == 0 then None else Some(hash(entries[i - 1]))
  }

  ghost predicate Chain(hash: HashFn, entries: seq<OpEntry>) {
    forall i :: 0 <= i < |entries| ==> Linked(hash, entries, i)
  }

  /** Two chains that agree on the hash of one entry agree on its position and on all before it. */
  lemma {:induction false} SharedEntrySharesHistory(hash: HashFn, a: seq<OpEntry>, b: seq<OpEntry>, i: nat, j: nat)
    requires Injective(hash) && Chain(hash, a) && Chain(hash, b)
    requires i < |a| && j < |b| && hash(a[i]) == hash(b[j])
    ensures i == j && a[..i + 1] == b[..j + 1]
    decreases i
  {
    assert Linked(hash, a, i) && Linked(hash, b, j);
    if i > 0 {
      SharedEntrySharesHistory(hash, a, b, i - 1, j - 1);
      assert a[..i + 1] == a[..i] + [a[i]];
      assert b[..j + 1] == b[..j] + [b[j]];
    }
  }

  /** Two valid chains with equal head hashes are the same log. */
  lemma {:induction false} EqualHeadsEqualLogs(hash: HashFn, a: seq<OpEntry>, b: seq<OpEntry>)
    requires Injective(hash) && Chain(hash, a) && Chain(hash, b)
    requires a != [] && b != [] && hash(a[|a| - 1]) == hash(b[|b| - 1])
    ensures a == b
  {
    SharedEntrySharesHistory(hash, a, b, |a| - 1, |b| - 1);
    assert a[..|a|] == a && b[..|b|] == b;
  }

  // ---- the system -----------------------------------------------------------------------

  type Client = nat

  /** What has happened so far: the log and who owns each entry, what every client sent and has
      waiting, every reply in the order given, every dump in the order taken. */
  datatype World = World(
    entries: seq<OpEntry>,
    owners: seq<Client>,
    sent: map<Client, seq<SubmitOp>>,
    waiting: map<Client, seq<SubmitOp>>,
    replies: seq<SubmitReply>,
    dumps: seq<seq<OpEntry>>)

  /** A client sends; the runtime hands the actor the oldest message of some client; somebody reads. */
  datatype Step = Send(client: Client, op: SubmitOp) | Handle(client: Client) | Read

  const START := World([], [], map[], map[], [], [])

  function Of(m: map<Client, seq<SubmitOp>>, c: Client): seq<SubmitOp> {
    if c in m then m[c] else []
  }

  function Next(hash: HashFn, w: World, step: Step): World {
    match step
    case Send(c, op) =>
      w.(sent := w.sent[c := Of(w.sent, c) + [op]], waiting := w.waiting[c := Of(w.waiting, c) + [op]])
    case Handle(c) =>
      if Of(w.waiting, c) == [] then w
      else
        var entry := NextEntry(hash, w.entries, w.waiting[c][0]);
        w.(entries := w.entries + [entry], owners := w.owners + [c],
           waiting := w.waiting[c := w.waiting[c][1..]],
           replies := w.replies + [SubmitReply(|w.entries|, hash(entry))])
    case Read =>
      w.(dumps := w.dumps + [w.entries])
  }

  function Run(hash: HashFn, steps: seq<Step>): World {
    if steps == [] then START else Next(hash, Run(hash, steps[..|steps| - 1]), steps[|steps| - 1])
  }

  function OpOf(e: OpEntry): SubmitOp {
    SubmitOp(e.channel, e.payload, e.authorSig)
  }

  /** What client `c` has in the log, in log order. */
  function Delivered(entries: seq<OpEntry>, owners: seq<Client>, c: Client): seq<SubmitOp>
    requires |entries| == |owners|
  {
    if entries == [] then []
    else
      var n := |entries| - 1;
      Delivered(entries[..n], owners[..n], c) + if owners[n] == c then [OpOf(entries[n])] else []
  }

  ghost predicate Fifo(w: World, c: Client)
    requires |w.entries| == |w.owners|
  {
    Delivered(w.entries, w.owners, c) + Of(w.waiting, c) == Of(w.sent, c)
  }

  ghost predicate RepliesTrue(hash: HashFn, w: World) {
    && |w.replies| == |w.entries|
    && forall k :: 0 <= k < |w.replies| ==> w.replies[k] == SubmitReply(k, hash(w.entries[k]))
  }

  ghost predicate DumpsGrow(w: World) {
    && (forall i :: 0 <= i < |w.dumps| ==> w.dumps[i] <= w.entries)
    && (forall i, j :: 0 <= i < j < |w.dumps| ==> w.dumps[i] <= w.dumps[j])
  }

  ghost predicate Sound(hash: HashFn, w: World) {
    && |w.entries| == |w.owners|
    && Chain(hash, w.entries)
    && RepliesTrue(hash, w)
    && DumpsGrow(w)
    && forall c :: Fifo(w, c)
  }

  lemma {:induction false} HandleKeepsFifo(hash: HashFn, w: World, h: Client, c: Client)
    requires |w.entries| == |w.owners| && Fifo(w, c) && Of(w.waiting, h) != []
    ensures Fifo(Next(hash, w, Handle(h)), c)
  {
    var after := Next(hash, w, Handle(h));
    assert after.entries[..|w.entries|] == w.entries && after.owners[..|w.owners|] == w.owners;
    if c == h {
      var waiting := w.waiting[c];
      assert OpOf(after.entries[|w.entries|]) == waiting[0];
      assert waiting == [waiting[0]] + waiting[1..];
    }
  }

  lemma {:induction false} HandleKeepsChain(hash: HashFn, entries: seq<OpEntry>, op: SubmitOp)
    requires Chain(hash, entries)
    ensures Chain(hash, entries + [NextEntry(hash, entries, op)])
  {
    var after := entries + [NextEntry(hash, entries, op)];
    forall i | 0 <= i < |after|
      ensures Linked(hash, after, i)
    {
      assert i < |entries| ==> Linked(hash, entries, i);
    }
  }

  lemma {:induction false} NextKeepsSound(hash: HashFn, w: World, step: Step)
    requires Sound(hash, w)
    ensures Sound(hash, Next(hash, w, step))
  {
    match step
    case Read =>
      assert forall c :: Fifo(w, c) ==> Fifo(Next(hash, w, step), c);
    case Send(s, op) =>
      forall c
        ensures Fifo(Next(hash, w, step), c)
      {
        assert Fifo(w, c);
      }
    case Handle(h) =>
      if Of(w.waiting, h) != [] {
        HandleKeepsChain(hash, w.entries, w.waiting[h][0]);
        forall c
          ensures Fifo(Next(hash, w, step), c)
        {
          HandleKeepsFifo(hash, w, h, c);
        }
      }
  }

  /** Whatever the interleaving: the log is a chain numbered from 0, every reply ever given is
      still true and no two name one position, every dump is a prefix of every later one, and each
      client's entries are what it sent, in the order it sent them. */
  lemma {:induction false} EveryRunIsSound(hash: HashFn, steps: seq<Step>)
    ensures Sound(hash, Run(hash, steps))
  {
    if steps != [] {
      EveryRunIsSound(hash, steps[..|steps| - 1]);
      NextKeepsSound(hash, Run(hash, steps[..|steps| - 1]), steps[|steps| - 1]);
    }
  }

  /** Nothing already in the log, already answered or already read is ever changed later. */
  lemma {:induction false} HistoryOnlyGrows(hash: HashFn, steps: seq<Step>, n: nat)
    requires n <= |steps|
    ensures Run(hash, steps[..n]).entries <= Run(hash, steps).entries
    ensures Run(hash, steps[..n]).replies <= Run(hash, steps).replies
    ensures Run(hash, steps[..n]).dumps <= Run(hash, steps).dumps
    decreases |steps|
  {
    if n < |steps| {
      var before := steps[..|steps| - 1];
      assert before[..n] == steps[..n];
      HistoryOnlyGrows(hash, before, n);
    } else {
      assert steps[..n] == steps;
    }
  }

  /** Once a client has nothing waiting, the log holds exactly what it sent. */
  lemma {:induction false} NothingIsLost(hash: HashFn, steps: seq<Step>, c: Client)
    requires Of(Run(hash, steps).waiting, c) == []
    ensures var w := Run(hash, steps);
      |w.entries| == |w.owners| && Delivered(w.entries, w.owners, c) == Of(w.sent, c)
  {
    EveryRunIsSound(hash, steps);
    assert Fifo(Run(hash, steps), c);
  }

  // ---- what the steps come to --------------------------------------------------------------------

  /** What a client sent. */
  function SentBy(steps: seq<Step>, c: Client): seq<SubmitOp> {
    if steps == [] then []
    else
      var last := steps[|steps| - 1];
      SentBy(steps[..|steps| - 1], c) + if last.Send? && last.client == c then [last.op] else []
  }

  lemma {:induction false} EverySendIsSent(hash: HashFn, steps: seq<Step>, c: Client)
    ensures Of(Run(hash, steps).sent, c) == SentBy(steps, c)
  {
    if steps != [] {
      EverySendIsSent(hash, steps[..|steps| - 1], c);
    }
  }

  /** Every reader gets the log as it is when he reads. */
  lemma {:induction false} ReadersSeeTheLog(hash: HashFn, steps: seq<Step>, n: nat)
    requires n < |steps| && steps[n] == Read
    ensures var k := |Run(hash, steps[..n]).dumps|;
      k < |Run(hash, steps).dumps| && Run(hash, steps).dumps[k] == Run(hash, steps[..n]).entries
  {
    assert steps[..n + 1][..n] == steps[..n];
    HistoryOnlyGrows(hash, steps, n + 1);
  }

  function Turns(c: Client, n: nat): seq<Step> {
    if n == 0 then [] else Turns(c, n - 1) + [Handle(c)]
  }

  lemma {:induction false} OneTurn(hash: HashFn, steps: seq<Step>, c: Client, n: nat)
    requires n > 0
    ensures Run(hash, steps + Turns(c, n)) == Next(hash, Run(hash, steps + Turns(c, n - 1)), Handle(c))
  {
    var all := steps + Turns(c, n);
    assert all[..|all| - 1] == steps + Turns(c, n - 1) && all[|all| - 1] == Handle(c);
  }

  lemma {:induction false} TurnsServe(hash: HashFn, steps: seq<Step>, c: Client, n: nat)
    ensures var before, after := Of(Run(hash, steps).waiting, c), Of(Run(hash, steps + Turns(c, n)).waiting, c);
      after == if n <= |before| then before[n..] else []
    ensures Run(hash, steps + Turns(c, n)).sent == Run(hash, steps).sent
  {
    if n == 0 {
      assert steps + Turns(c, 0) == steps;
    } else {
      OneTurn(hash, steps, c, n);
      TurnsServe(hash, steps, c, n - 1);
    }
  }

  /** A client that is given as many turns as it has messages waiting has everything it ever sent in the log,
      in the order it sent it. */
  lemma {:induction false} EveryTurnServes(hash: HashFn, steps: seq<Step>, c: Client, n: nat)
    requires n >= |Of(Run(hash, steps).waiting, c)|
    ensures var w := Run(hash, steps + Turns(c, n));
      |w.entries| == |w.owners| && Delivered(w.entries, w.owners, c) == SentBy(steps, c)
  {
    TurnsServe(hash, steps, c, n);
    NothingIsLost(hash, steps + Turns(c, n), c);
    EverySendIsSent(hash, steps, c);
  }
}
