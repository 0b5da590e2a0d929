/** What a backup directory is worth after any run of takes, finished or cut short. */
module BackupProofs {
  import opened Basics
  import opened Sequences
  import opened Backup

  // ---- the contiguity check ---------------------------------------------------------------------

  function Entries(lines: seq<string>): seq<string> {
    if lines == [] then []
    else Entries(lines[..|lines| - 1]) + if lines[|lines| - 1] == "" then [] else [lines[|lines| - 1]]
  }

  ghost predicate Numbered(e: Env, entries: seq<string>) {
    forall i :: 0 <= i < |entries| ==> e.seqOf(entries[i]) == Some(i)
  }

  /** The check accepts exactly the logs whose entries carry 0, 1, 2 and so on, and counts them. */
  lemma {:induction false} WalkMeaning(e: Env, lines: seq<string>)
    ensures Walk(e, lines) == if Numbered(e, Entries(lines)) then Some(|Entries(lines)|) else None
  {
    if lines != [] {
      var n := |lines| - 1;
      WalkMeaning(e, lines[..n]);
      NumberedLast(e, Entries(lines[..n]), lines[n]);
      assert Entries(lines[..n]) + [] == Entries(lines[..n]);
    }
  }

  lemma {:induction false} NumberedLast(e: Env, entries: seq<string>, line: string)
    ensures Numbered(e, entries + [line]) <==> Numbered(e, entries) && e.seqOf(line) == Some(|entries|)
  {
    var all := entries + [line];
    if Numbered(e, all) {
      assert all[|entries|] == line;
      forall i | 0 <= i < |entries|
        ensures e.seqOf(entries[i]) == Some(i)
      {
        assert all[i] == entries[i];
      }
    }
  }

  // ---- the moves --------------------------------------------------------------------------------------

  lemma {:induction false} ApplyAppend(p: Package, d: Dest, a: seq<Move>, b: seq<Move>)
    ensures ApplyAll(p, d, a + b) == ApplyAll(p, ApplyAll(p, d, a), b)
  {
    if b == [] {
      assert a + b == a;
    } else {
      ApplyAppend(p, d, a, b[..|b| - 1]);
      assert (a + b)[..|a + b| - 1] == a + b[..|b| - 1];
    }
  }

  ghost predicate OnlyBundles(moves: seq<Move>) {
    forall m :: m in moves ==> m.BundleFile? || m.RefsFile?
  }

  /** Moving bundles leaves the rest of the directory alone. */
  lemma {:induction false} BundleMovesKeep(p: Package, d: Dest, moves: seq<Move>)
    requires OnlyBundles(moves)
    ensures var r := ApplyAll(p, d, moves);
      && r.log == d.log && r.manifest == d.manifest && r.fingerprint == d.fingerprint && r.policy == d.policy && r.snapshot == d.snapshot
  {
    if moves != [] {
      BundleMovesKeep(p, d, moves[..|moves| - 1]);
    }
  }

  /** The last five moves, cut after `k`. */
  function Finished(p: Package, d: Dest, k: nat): Dest {
    d.(fingerprint := if k >= 1 then Some(p.node.fingerprint) else d.fingerprint,
       policy := if k >= 2 then p.node.policy else d.policy,
       manifest := if k >= 3 then Some(p.manifest) else d.manifest,
       log := if k >= 4 then Some(p.node.log) else d.log,
       snapshot := if k >= 5 then p.node.snapshot else d.snapshot)
  }

  lemma {:induction false} LastMovesAre(p: Package, d: Dest, k: nat)
    requires k <= 5
    ensures ApplyAll(p, d, LAST_MOVES[..k]) == Finished(p, d, k)
  {
    if k > 0 {
      LastMovesAre(p, d, k - 1);
      assert LAST_MOVES[..k][..k - 1] == LAST_MOVES[..k - 1];
    }
  }

  /** A take cut short has done some of the bundle moves, or all of them and some of the last five. */
  lemma {:induction false} TakenParts(e: Env, node: Node, held: Dest, order: seq<Move>, cut: nat)
    requires Prepare(e, node, held).Some?
    ensures var p := Prepare(e, node, held).value;
      Taken(e, node, held, order, cut) ==
      if cut <= |order| then ApplyAll(p, held, order[..cut])
      else Finished(p, ApplyAll(p, held, order), Min(cut - |order|, 5))
  {
    var p := Prepare(e, node, held).value;
    var moves := order + LAST_MOVES;
    if cut <= |order| {
      assert moves[..cut] == order[..cut];
    } else {
      var k := Min(cut - |order|, 5);
      assert (if cut < |moves| then moves[..cut] else moves) == order + LAST_MOVES[..k];
      ApplyAppend(p, held, order, LAST_MOVES[..k]);
      LastMovesAre(p, ApplyAll(p, held, order), k);
    }
  }

  /** What a take, cut anywhere, does to the log and the manifest: the manifest goes first. */
  lemma {:induction false} LogAndManifest(e: Env, node: Node, held: Dest, order: seq<Move>, cut: nat)
    requires Prepare(e, node, held).Some? && OnlyBundles(order)
    ensures var p, r := Prepare(e, node, held).value, Taken(e, node, held, order, cut);
      && r.manifest == (if cut >= |order| + 3 then Some(p.manifest) else held.manifest)
      && r.log == (if cut >= |order| + 4 then Some(node.log) else held.log)
  {
    var p := Prepare(e, node, held).value;
    TakenParts(e, node, held, order, cut);
    BundleMovesKeep(p, held, order);
    if cut <= |order| {
      BundleMovesKeep(p, held, order[..cut]);
    }
  }

  /** What a take, cut anywhere, leaves of the files beside the bundles: fingerprint, policy, manifest, log and
      snapshot are put in place in this order, each whole or not at all, and a node without a snapshot takes
      the held one away. */
  lemma {:induction false} CutLeaves(e: Env, node: Node, held: Dest, order: seq<Move>, cut: nat)
    requires Prepare(e, node, held).Some? && OnlyBundles(order)
    ensures var n, r := |order|, Taken(e, node, held, order, cut);
      && r.fingerprint == (if cut >= n + 1 then Some(node.fingerprint) else held.fingerprint)
      && r.policy == (if cut >= n + 2 then node.policy else held.policy)
      && r.log == (if cut >= n + 4 then Some(node.log) else held.log)
      && r.snapshot == (if cut >= n + 5 then node.snapshot else held.snapshot)
      && (r.manifest == held.manifest || cut >= n + 3)
      && (cut >= n + 3 ==> r.manifest == Some(Manifest(e.sha(node.log), |node.log|, Walk(e, Split(node.log)).value, |Repos(node)|)))
  {
    var p := Prepare(e, node, held).value;
    TakenParts(e, node, held, order, cut);
    BundleMovesKeep(p, held, order);
    if cut <= |order| {
      BundleMovesKeep(p, held, order[..cut]);
    }
  }

  // ---- runs ---------------------------------------------------------------------------------------------

  datatype World = World(node: Node, dest: Dest)

  datatype Event = NodeMoves(next: Node) | Take(order: seq<Move>, cut: nat)

  /** The node only ever appends to its log; a take moves bundles first. */
  ghost predicate Allowed(w: World, ev: Event) {
    match ev
    case NodeMoves(next) => w.node.log <= next.log
    case Take(order, _) => OnlyBundles(order)
  }

  function Next(e: Env, w: World, ev: Event): World {
    match ev
    case NodeMoves(next) => World(next, w.dest)
    case Take(order, cut) => World(w.node, Taken(e, w.node, w.dest, order, cut))
  }

  ghost predicate AllAllowed(e: Env, w: World, evs: seq<Event>) {
    evs == [] || (AllAllowed(e, w, evs[..|evs| - 1]) && Allowed(Run(e, w, evs[..|evs| - 1]), evs[|evs| - 1]))
  }

  function Run(e: Env, w: World, evs: seq<Event>): World {
    if evs == [] then w else Next(e, Run(e, w, evs[..|evs| - 1]), evs[|evs| - 1])
  }

  /** The manifest describes the first `opsBytes` of the log. */
  ghost predicate Describes(e: Env, m: Manifest, log: string) {
    && m.opsBytes <= |log| && m.opsSha == e.sha(log[..m.opsBytes])
    && Walk(e, Split(log[..m.opsBytes])) == Some(m.nextSeq) && e.chainHolds(log[..m.opsBytes])
  }

  /** What holds of every directory a node has been backed up into. */
  ghost predicate Sound(e: Env, w: World) {
    && (w.dest.manifest.Some? ==> Describes(e, w.dest.manifest.value, w.node.log))
    && (w.dest.log.Some? ==>
          && w.dest.manifest.Some? && w.dest.log.value <= w.node.log
          && |w.dest.log.value| <= w.dest.manifest.value.opsBytes
          && Walk(e, Split(w.dest.log.value)).Some? && e.chainHolds(w.dest.log.value))
  }

  lemma {:induction false} StepIsSound(e: Env, w: World, ev: Event)
    requires Sound(e, w) && Allowed(w, ev)
    ensures Sound(e, Next(e, w, ev))
    ensures w.dest.log.Some? ==> Next(e, w, ev).dest.log.Some? && w.dest.log.value <= Next(e, w, ev).dest.log.value
  {
    match ev {
      case NodeMoves(next) =>
        if w.dest.manifest.Some? {
          var n := w.dest.manifest.value.opsBytes;
          assert next.log[..n] == w.node.log[..n];
        }
      case Take(order, cut) =>
        if Prepare(e, w.node, w.dest).Some? {
          LogAndManifest(e, w.node, w.dest, order, cut);
          assert w.node.log[..|w.node.log|] == w.node.log;
        }
    }
  }

  /** After any run of appends and takes, finished, refused or cut: the held log is a prefix of the
      node's, so the next take will not call it diverged; it is a log that was accepted; and the
      manifest describes a log at least as long. */
  lemma {:induction false} RunIsSound(e: Env, node: Node, evs: seq<Event>)
    requires AllAllowed(e, World(node, NOTHING), evs)
    ensures var w := Run(e, World(node, NOTHING), evs);
      Sound(e, w) && Extends(w.dest.log, w.node.log)
  {
    if evs != [] {
      RunIsSound(e, node, evs[..|evs| - 1]);
      StepIsSound(e, Run(e, World(node, NOTHING), evs[..|evs| - 1]), evs[|evs| - 1]);
    }
  }

  /** The logs a directory has held form a chain: each is a prefix of every later one. */
  lemma {:induction false} HeldLogsGrow(e: Env, node: Node, evs: seq<Event>, k: nat)
    requires AllAllowed(e, World(node, NOTHING), evs) && k <= |evs|
    requires Run(e, World(node, NOTHING), evs[..k]).dest.log.Some?
    ensures var before, after := Run(e, World(node, NOTHING), evs[..k]).dest.log, Run(e, World(node, NOTHING), evs).dest.log;
      after.Some? && before.value <= after.value
    decreases |evs|
  {
    if k == |evs| {
      assert evs[..k] == evs;
    } else {
      var front := evs[..|evs| - 1];
      assert front[..k] == evs[..k];
      HeldLogsGrow(e, node, front, k);
      RunIsSound(e, node, front);
      StepIsSound(e, Run(e, World(node, NOTHING), front), evs[|evs| - 1]);
    }
  }

  // ---- the checksum row -------------------------------------------------------------------------------------

  /** The row of `verify` that compares the log with the manifest. */
  predicate ChecksumPasses(e: Env, d: Dest) {
    d.log.Some? && d.manifest.Some? && e.sha(d.log.value) == d.manifest.value.opsSha
  }

  /** Whenever the checksum passes, log and manifest agree on everything: size, position and count. */
  lemma {:induction false} ChecksumMeaning(e: Env, w: World)
    requires Injective(e.sha) && Sound(e, w) && w.dest.log.Some?
    ensures ChecksumPasses(e, w.dest) <==> |w.dest.log.value| == w.dest.manifest.value.opsBytes
    ensures ChecksumPasses(e, w.dest) ==> Walk(e, Split(w.dest.log.value)) == Some(w.dest.manifest.value.nextSeq)
  {
    var log, n := w.dest.log.value, w.dest.manifest.value.opsBytes;
    assert |log| == n ==> w.node.log[..n] == log;
  }

  /** Since the log was last placed, the last take to get as far as the manifest stopped right after it,
      and the node's log was not the one held: a new manifest stands over an old log, or over none. */
  ghost predicate ManifestAhead(e: Env, w: World, evs: seq<Event>) {
    evs != [] &&
    var before, ev := Run(e, w, evs[..|evs| - 1]), evs[|evs| - 1];
    if ev.Take? && Prepare(e, before.node, before.dest).Some? && ev.cut >= |ev.order| + 3
    then ev.cut == |ev.order| + 3 && before.dest.log != Some(before.node.log)
    else ManifestAhead(e, w, evs[..|evs| - 1])
  }

  ghost predicate ChecksumTells(e: Env, d: Dest, ahead: bool) {
    if d.manifest.None? then d.log.None? && !ahead else ChecksumPasses(e, d) <==> !ahead
  }

  lemma {:induction false} TakeKeepsChecksum(e: Env, node: Node, held: Dest, order: seq<Move>, cut: nat, ahead: bool)
    requires Injective(e.sha) && Prepare(e, node, held).Some? && OnlyBundles(order) && ChecksumTells(e, held, ahead)
    ensures ChecksumTells(e, Taken(e, node, held, order, cut),
                          if cut >= |order| + 3 then cut == |order| + 3 && held.log != Some(node.log) else ahead)
  {
    LogAndManifest(e, node, held, order, cut);
  }

  /** Over any run of takes into an empty directory, cut anywhere: once there is a manifest, the checksum
      row fails exactly when a take stopped between the manifest and the log, the log had grown, and no
      take since has got as far as the manifest. The order of the moves was meant to rule that out. */
  lemma {:induction false} OnlyOneBadCut(e: Env, node: Node, evs: seq<Event>)
    requires Injective(e.sha) && AllAllowed(e, World(node, NOTHING), evs)
    ensures ChecksumTells(e, Run(e, World(node, NOTHING), evs).dest, ManifestAhead(e, World(node, NOTHING), evs))
  {
    if evs != [] {
      var front, ev := evs[..|evs| - 1], evs[|evs| - 1];
      OnlyOneBadCut(e, node, front);
      var w := Run(e, World(node, NOTHING), front);
      if ev.Take? && Prepare(e, w.node, w.dest).Some? {
        TakeKeepsChecksum(e, w.node, w.dest, ev.order, ev.cut, ManifestAhead(e, World(node, NOTHING), front));
      }
    }
  }

  // ---- bundles ---------------------------------------------------------------------------------------------------

  /** Every refs digest is the digest of what the bundle beside it holds. */
  ghost predicate Agree(e: Env, d: Dest) {
    forall n :: n in d.refs && n in d.bundles ==> d.refs[n] == e.sha(d.bundles[n])
  }

  /** No later repository of the list has the file name of the one at `i`. */
  ghost predicate LastOfItsName(e: Env, repos: seq<string>, i: nat)
    requires i < |repos|
  {
    forall j :: i < j < |repos| ==> e.baseName(repos[j]) != e.baseName(repos[i])
  }

  lemma {:induction false} GatheredNames(e: Env, node: Node, held: Dest, repos: seq<string>)
    requires Gather(e, node, held, repos).Some?
    ensures var inc := Gather(e, node, held, repos).value;
      forall n :: (n in inc.bundles <==> n in inc.refs) && (n in inc.refs <==> exists i :: 0 <= i < |repos| && e.baseName(repos[i]) == n)
  {
    if repos != [] {
      var k := |repos| - 1;
      GatheredNames(e, node, held, repos[..k]);
      var before, inc := Gather(e, node, held, repos[..k]).value, Gather(e, node, held, repos).value;
      forall n
        ensures (n in inc.bundles <==> n in inc.refs) && (n in inc.refs <==> exists i :: 0 <= i < |repos| && e.baseName(repos[i]) == n)
      {
        if i :| 0 <= i < |repos[..k]| && e.baseName(repos[..k][i]) == n {
          assert repos[i] == repos[..k][i];
        }
        if i :| 0 <= i < |repos| && e.baseName(repos[i]) == n && i < k {
          assert repos[..k][i] == repos[i];
        }
      }
    }
  }

  /** The bundle gathered under a name is that of the last repository with the name; with a directory
      that agrees, it holds that repository's refs as they are now, reused or not. */
  lemma {:induction false} GatheredIsCurrent(e: Env, node: Node, held: Dest, repos: seq<string>, i: nat)
    requires Injective(e.sha) && Agree(e, held) && i < |repos| && LastOfItsName(e, repos, i)
    requires Gather(e, node, held, repos).Some?
    ensures var inc, n := Gather(e, node, held, repos).value, e.baseName(repos[i]);
      n in inc.refs && n in inc.bundles && inc.refs[n] == e.sha(RefsOf(node, repos[i])) && inc.bundles[n] == RefsOf(node, repos[i])
  {
    var k := |repos| - 1;
    if i < k {
      forall j | i < j < k
        ensures e.baseName(repos[..k][j]) != e.baseName(repos[..k][i])
      {
        assert e.baseName(repos[j]) != e.baseName(repos[i]);
      }
      GatheredIsCurrent(e, node, held, repos[..k], i);
      assert e.baseName(repos[k]) != e.baseName(repos[i]);
    }
  }

  /** The bundle moves put everything gathered in place and leave the rest as it was. */
  lemma {:induction false} BundlesMoved(p: Package, d: Dest, order: seq<Move>, n: string)
    requires OnlyBundles(order)
    ensures var r := ApplyAll(p, d, order);
      var moved := n in p.inc.bundles && BundleFile(n) in order;
      && (n in r.bundles <==> n in d.bundles || moved)
      && (n in r.bundles ==> r.bundles[n] == if moved then p.inc.bundles[n] else d.bundles[n])
  {
    if order != [] {
      var k := |order| - 1;
      BundlesMoved(p, d, order[..k], n);
      AtEnd(order, BundleFile(n));
    }
  }

  lemma {:induction false} DigestsMoved(p: Package, d: Dest, order: seq<Move>, n: string)
    requires OnlyBundles(order)
    ensures var r := ApplyAll(p, d, order);
      var moved := n in p.inc.refs && RefsFile(n) in order;
      && (n in r.refs <==> n in d.refs || moved)
      && (n in r.refs ==> r.refs[n] == if moved then p.inc.refs[n] else d.refs[n])
  {
    if order != [] {
      var k := |order| - 1;
      DigestsMoved(p, d, order[..k], n);
      AtEnd(order, RefsFile(n));
    }
  }

  /** The bundle moves a cut take has made. */
  function Done(order: seq<Move>, cut: nat): seq<Move> {
    if cut <= |order| then order[..cut] else order
  }

  /** What a cut take leaves under a name. */
  lemma {:induction false} TakenBundles(e: Env, node: Node, held: Dest, order: seq<Move>, cut: nat, n: string)
    requires Prepare(e, node, held).Some? && OnlyBundles(order)
    ensures var inc, r := Prepare(e, node, held).value.inc, Taken(e, node, held, order, cut);
      var bundle, digest := n in inc.bundles && BundleFile(n) in Done(order, cut), n in inc.refs && RefsFile(n) in Done(order, cut);
      && (n in r.bundles <==> n in held.bundles || bundle)
      && (n in r.refs <==> n in held.refs || digest)
      && (n in r.bundles ==> r.bundles[n] == if bundle then inc.bundles[n] else held.bundles[n])
      && (n in r.refs ==> r.refs[n] == if digest then inc.refs[n] else held.refs[n])
  {
    var p := Prepare(e, node, held).value;
    TakenParts(e, node, held, order, cut);
    BundlesMoved(p, held, Done(order, cut), n);
    DigestsMoved(p, held, Done(order, cut), n);
  }

  lemma {:induction false} LastWithName(e: Env, repos: seq<string>, i: nat) returns (j: nat)
    requires i < |repos|
    ensures i <= j < |repos| && e.baseName(repos[j]) == e.baseName(repos[i]) && LastOfItsName(e, repos, j)
    decreases |repos| - i
  {
    if LastOfItsName(e, repos, i) {
      j := i;
    } else {
      var k :| i < k < |repos| && e.baseName(repos[k]) == e.baseName(repos[i]);
      j := LastWithName(e, repos, k);
    }
  }

  /** One of the two files under a name was moved and the other was not, and the one that stayed behind
      is of other refs. */
  ghost predicate Torn(e: Env, inc: Incoming, held: Dest, done: seq<Move>, n: string)
    requires n in inc.refs
  {
    || (RefsFile(n) in done && BundleFile(n) !in done && n in held.bundles && e.sha(held.bundles[n]) != inc.refs[n])
    || (BundleFile(n) in done && RefsFile(n) !in done && n in held.refs && held.refs[n] != inc.refs[n])
  }

  lemma {:induction false} GatheredAgrees(e: Env, node: Node, held: Dest, repos: seq<string>, n: string)
    requires Injective(e.sha) && Agree(e, held) && Gather(e, node, held, repos).Some? && n in Gather(e, node, held, repos).value.refs
    ensures var inc := Gather(e, node, held, repos).value; n in inc.bundles && inc.refs[n] == e.sha(inc.bundles[n])
  {
    GatheredNames(e, node, held, repos);
    var i :| 0 <= i < |repos| && e.baseName(repos[i]) == n;
    var j := LastWithName(e, repos, i);
    GatheredIsCurrent(e, node, held, repos, j);
  }

  /** A take, cut anywhere and with the bundles moved in any order, leaves digests and bundles in
      agreement exactly when it tore no name it had gathered. */
  lemma {:induction false} AgreesUnlessTorn(e: Env, node: Node, held: Dest, order: seq<Move>, cut: nat)
    requires Injective(e.sha) && Agree(e, held) && Prepare(e, node, held).Some? && OnlyBundles(order)
    ensures var inc := Prepare(e, node, held).value.inc;
      Agree(e, Taken(e, node, held, order, cut)) <==> forall n :: n in inc.refs ==> !Torn(e, inc, held, Done(order, cut), n)
  {
    var inc, r, done := Prepare(e, node, held).value.inc, Taken(e, node, held, order, cut), Done(order, cut);
    GatheredNames(e, node, held, Repos(node));
    forall n
      ensures n !in inc.refs && n in r.refs && n in r.bundles ==> r.refs[n] == e.sha(r.bundles[n])
      ensures n in inc.refs ==> ((n in r.refs && n in r.bundles ==> r.refs[n] == e.sha(r.bundles[n])) <==> !Torn(e, inc, held, done, n))
    {
      TakenBundles(e, node, held, order, cut, n);
      if n in inc.refs {
        GatheredAgrees(e, node, held, Repos(node), n);
      }
    }
  }

  /** A take that was not cut among the bundles tears nothing. */
  lemma {:induction false} AgreementStays(e: Env, node: Node, held: Dest, order: seq<Move>, cut: nat)
    requires Injective(e.sha) && Agree(e, held)
    requires Prepare(e, node, held).Some? ==>
               && OnlyBundles(order) && ListsBundles(Prepare(e, node, held).value.inc, order)
               && cut >= |order|
    ensures Agree(e, Taken(e, node, held, order, cut))
  {
    if Prepare(e, node, held).Some? {
      GatheredNames(e, node, held, Repos(node));
      AgreesUnlessTorn(e, node, held, order, cut);
      assert order[..|order|] == order;
    }
  }

  /** Repositories that share a file name have the same refs. */
  ghost predicate NamesSuffice(e: Env, node: Node) {
    forall i, j :: 0 <= i < j < |Repos(node)| && e.baseName(Repos(node)[i]) == e.baseName(Repos(node)[j]) ==>
      RefsOf(node, Repos(node)[i]) == RefsOf(node, Repos(node)[j])
  }

  /** The directory holds a bundle of the repository as the node has it, an empty one if it does not. */
  ghost predicate BackedUp(e: Env, node: Node, d: Dest, repo: string) {
    var n := e.baseName(repo);
    n in d.bundles && d.bundles[n] == if repo in node.refs then node.refs[repo] else ""
  }

  lemma {:induction false} BundleOfLast(e: Env, node: Node, held: Dest, order: seq<Move>, cut: nat, i: nat) returns (j: nat)
    requires Injective(e.sha) && Agree(e, held) && Prepare(e, node, held).Some? && cut >= |order| && i < |Repos(node)|
    requires OnlyBundles(order) && ListsBundles(Prepare(e, node, held).value.inc, order)
    ensures i <= j < |Repos(node)| && e.baseName(Repos(node)[j]) == e.baseName(Repos(node)[i]) && LastOfItsName(e, Repos(node), j)
    ensures BackedUp(e, node, Taken(e, node, held, order, cut), Repos(node)[j])
  {
    j := LastWithName(e, Repos(node), i);
    assert order[..|order|] == order;
    TakenBundles(e, node, held, order, cut, e.baseName(Repos(node)[j]));
    GatheredIsCurrent(e, node, held, Repos(node), j);
  }

  /** After such a take every listed repository is in its bundle, as its refs stand, exactly when no two
      repositories that share a file name differ: of those, only the last is backed up. */
  lemma {:induction false} AllBackedUp(e: Env, node: Node, held: Dest, order: seq<Move>, cut: nat)
    requires Injective(e.sha) && Agree(e, held) && Prepare(e, node, held).Some? && cut >= |order|
    requires OnlyBundles(order) && ListsBundles(Prepare(e, node, held).value.inc, order)
    ensures (forall i :: 0 <= i < |Repos(node)| ==> BackedUp(e, node, Taken(e, node, held, order, cut), Repos(node)[i])) <==> NamesSuffice(e, node)
  {
    var repos, r := Repos(node), Taken(e, node, held, order, cut);
    if NamesSuffice(e, node) {
      forall i | 0 <= i < |repos|
        ensures BackedUp(e, node, r, repos[i])
      {
        var j := BundleOfLast(e, node, held, order, cut, i);
      }
    } else {
      var i, j :| 0 <= i < j < |repos| && e.baseName(repos[i]) == e.baseName(repos[j]) && RefsOf(node, repos[i]) != RefsOf(node, repos[j]);
      assert !(BackedUp(e, node, r, repos[i]) && BackedUp(e, node, r, repos[j]));
    }
  }

  // ---- stale bundles ---------------------------------------------------------------------------------------

  /** The digest under a repository's name is of its refs, and the bundle is not. */
  ghost predicate Stale(e: Env, node: Node, d: Dest, repo: string) {
    var n := e.baseName(repo);
    n in d.refs && d.refs[n] == e.sha(RefsOf(node, repo)) && n in d.bundles && d.bundles[n] != RefsOf(node, repo)
  }

  lemma {:induction false} GatherReuses(e: Env, node: Node, held: Dest, repos: seq<string>, i: nat)
    requires i < |repos| && LastOfItsName(e, repos, i) && Gather(e, node, held, repos).Some?
    ensures var inc, n := Gather(e, node, held, repos).value, e.baseName(repos[i]);
      && n in inc.refs && n in inc.bundles && inc.refs[n] == e.sha(RefsOf(node, repos[i]))
      && inc.bundles[n] == if Stale(e, node, held, repos[i]) then held.bundles[n] else RefsOf(node, repos[i])
  {
    var k := |repos| - 1;
    if i < k {
      forall j | i < j < k
        ensures e.baseName(repos[..k][j]) != e.baseName(repos[..k][i])
      {
        assert e.baseName(repos[j]) != e.baseName(repos[i]);
      }
      GatherReuses(e, node, held, repos[..k], i);
      assert e.baseName(repos[k]) != e.baseName(repos[i]);
    }
  }

  /** A finished take backs a repository up unless its bundle was stale, and stale it stays. */
  lemma {:induction false} FinishedTake(e: Env, node: Node, held: Dest, order: seq<Move>, cut: nat, i: nat)
    requires Prepare(e, node, held).Some? && OnlyBundles(order) && ListsBundles(Prepare(e, node, held).value.inc, order)
    requires cut >= |order| + 5 && i < |Repos(node)| && LastOfItsName(e, Repos(node), i)
    ensures var r, repo := Taken(e, node, held, order, cut), Repos(node)[i];
      && (BackedUp(e, node, r, repo) <==> !Stale(e, node, held, repo))
      && (Stale(e, node, r, repo) <==> Stale(e, node, held, repo))
      && ChecksumPasses(e, r)
  {
    GatherReuses(e, node, held, Repos(node), i);
    TakenBundles(e, node, held, order, cut, e.baseName(Repos(node)[i]));
    LogAndManifest(e, node, held, order, cut);
  }

  /** The refs do not move, and takes run to their end. */
  ghost predicate Quiet(e: Env, w: World, ev: Event) {
    match ev
    case NodeMoves(next) => next.reposList == w.node.reposList && next.refs == w.node.refs
    case Take(order, cut) =>
      && OnlyBundles(order) && cut >= |order| + 5
      && (Prepare(e, w.node, w.dest).Some? ==> ListsBundles(Prepare(e, w.node, w.dest).value.inc, order))
  }

  ghost predicate AllQuiet(e: Env, w: World, evs: seq<Event>) {
    evs == [] || (AllQuiet(e, w, evs[..|evs| - 1]) && Quiet(e, Run(e, w, evs[..|evs| - 1]), evs[|evs| - 1]))
  }

  /** The run ended with a take that was accepted. */
  ghost predicate EndsWithTake(e: Env, w: World, evs: seq<Event>) {
    evs != [] && evs[|evs| - 1].Take? &&
    var before := Run(e, w, evs[..|evs| - 1]); Prepare(e, before.node, before.dest).Some?
  }

  lemma {:induction false} QuietRun(e: Env, w: World, evs: seq<Event>, i: nat)
    requires AllQuiet(e, w, evs) && i < |Repos(w.node)| && LastOfItsName(e, Repos(w.node), i)
    ensures var r, repo := Run(e, w, evs), Repos(w.node)[i];
      && r.node.reposList == w.node.reposList && r.node.refs == w.node.refs
      && (Stale(e, r.node, r.dest, repo) <==> Stale(e, w.node, w.dest, repo))
      && (EndsWithTake(e, w, evs) ==> ChecksumPasses(e, r.dest) && (BackedUp(e, r.node, r.dest, repo) <==> !Stale(e, w.node, w.dest, repo)))
  {
    if evs != [] {
      var front, ev := evs[..|evs| - 1], evs[|evs| - 1];
      QuietRun(e, w, front, i);
      var before := Run(e, w, front);
      if ev.Take? && Prepare(e, before.node, before.dest).Some? {
        FinishedTake(e, before.node, before.dest, ev.order, ev.cut, i);
      }
    }
  }

  /** A cut take makes a bundle stale exactly when it moved the digest and not the bundle, and the refs
      had moved since the held bundle. */
  lemma {:induction false} CutMakesStale(e: Env, node: Node, held: Dest, order: seq<Move>, cut: nat, i: nat)
    requires Injective(e.sha) && Agree(e, held) && Prepare(e, node, held).Some? && OnlyBundles(order)
    requires i < |Repos(node)| && LastOfItsName(e, Repos(node), i)
    ensures var n := e.baseName(Repos(node)[i]);
      Stale(e, node, Taken(e, node, held, order, cut), Repos(node)[i]) <==>
      && RefsFile(n) in Done(order, cut) && BundleFile(n) !in Done(order, cut)
      && n in held.bundles && held.bundles[n] != RefsOf(node, Repos(node)[i])
  {
    TakenBundles(e, node, held, order, cut, e.baseName(Repos(node)[i]));
    GatheredIsCurrent(e, node, held, Repos(node), i);
  }

  /** After a take that was cut anywhere, as long as the refs do not move, every later finished take backs
      a repository up, unless the cut take had moved its digest and not its bundle while its refs had
      moved: then none ever does, and each time the checksum row passes. */
  lemma {:induction false} StaleBundleSurvives(e: Env, node: Node, held: Dest, order: seq<Move>, cut: nat, i: nat, later: seq<Event>)
    requires Injective(e.sha) && Agree(e, held) && Prepare(e, node, held).Some? && OnlyBundles(order)
    requires i < |Repos(node)| && LastOfItsName(e, Repos(node), i)
    requires AllQuiet(e, World(node, Taken(e, node, held, order, cut)), later)
    requires EndsWithTake(e, World(node, Taken(e, node, held, order, cut)), later)
    ensures var end, n := Run(e, World(node, Taken(e, node, held, order, cut)), later), e.baseName(Repos(node)[i]);
      && ChecksumPasses(e, end.dest)
      && (!BackedUp(e, end.node, end.dest, Repos(node)[i]) <==>
            && RefsFile(n) in Done(order, cut) && BundleFile(n) !in Done(order, cut)
            && n in held.bundles && held.bundles[n] != RefsOf(node, Repos(node)[i]))
  {
    CutMakesStale(e, node, held, order, cut, i);
    QuietRun(e, World(node, Taken(e, node, held, order, cut)), later, i);
  }

  // ---- when a take goes through --------------------------------------------------------------------------

  /** A repository is listed exactly when a line of the list names it and is no comment. */
  lemma {:induction false} ListedMeans(lines: seq<string>, r: string)
    ensures r in Listed(lines) <==> exists l :: l in lines && Names(l, r)
  {
    if lines != [] {
      var n := |lines| - 1;
      ListedMeans(lines[..n], r);
      LastListed(Listed(lines[..n]), lines[n], r);
      assert forall l :: l in lines <==> l in lines[..n] || l == lines[n];
    }
  }

  lemma {:induction false} LastListed(before: seq<string>, line: string, r: string)
    ensures var l := Text.Trim(line);
      r in before + (if l == "" || l[0] == '#' then [] else [l]) <==> r in before || Names(line, r)
  {
  }

  predicate Names(line: string, r: string) {
    Text.Trim(line) == r && r != "" && r[0] != '#'
  }

  /** Its refs are those of the bundle that is held, or git can bundle it. */
  predicate CanBundle(e: Env, node: Node, held: Dest, repo: string) {
    var n := e.baseName(repo);
    repo in node.refs || (n in held.bundles && n in held.refs && held.refs[n] == e.sha(RefsOf(node, repo)))
  }

  lemma {:induction false} GatherSucceeds(e: Env, node: Node, held: Dest, repos: seq<string>)
    ensures Gather(e, node, held, repos).Some? <==> forall i :: 0 <= i < |repos| ==> CanBundle(e, node, held, repos[i])
  {
    if repos != [] {
      var n := |repos| - 1;
      GatherSucceeds(e, node, held, repos[..n]);
      if forall i :: 0 <= i < |repos| ==> CanBundle(e, node, held, repos[i]) {
        assert forall i :: 0 <= i < n ==> repos[..n][i] == repos[i];
        assert CanBundle(e, node, held, repos[n]);
      } else if forall i :: 0 <= i < n ==> CanBundle(e, node, held, repos[..n][i]) {
        assert forall i :: 0 <= i < n ==> repos[..n][i] == repos[i];
        assert !CanBundle(e, node, held, repos[n]);
      }
    }
  }

  /** A take goes through exactly when the log and the fingerprint are there, what is held is a prefix of
      the log, the log is numbered from zero without a gap and its chain holds, there is a policy, and
      every listed repository can be bundled. */
  lemma {:induction false} TakeGoesThrough(e: Env, node: Node, held: Dest)
    ensures Prepare(e, node, held).Some? <==>
            && node.log != "" && node.fingerprint != ""
            && (held.log.Some? ==> held.log.value <= node.log)
            && Walk(e, Split(node.log)).Some? && e.chainHolds(node.log)
            && node.policy.Some?
            && forall i :: 0 <= i < |Repos(node)| ==> CanBundle(e, node, held, Repos(node)[i])
  {
    GatherSucceeds(e, node, held, Repos(node));
  }
}
