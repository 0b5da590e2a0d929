/** `choir backup take` (crates/choir-cli/src/backup.rs): what is checked, what is written beside the old
    backup, and the moves that put it in place one file at a time. */
module Backup {
  import opened Basics
  import Text

  type Refs = string

  /** Digests, the log's line format, the chain check and file naming, as oracles. */
  datatype Env = Env(
    sha: string -> string,
    seqOf: string -> Option<nat>,
    chainHolds: string -> bool,
    baseName: string -> string)

  /** The node's files, and what `show-ref` prints for each repository git can bundle. */
  datatype Node = Node(
    log: string,
    fingerprint: string,
    snapshot: Option<string>,
    policy: Option<string>,
    reposList: string,
    refs: map<string, Refs>)

  datatype Manifest = Manifest(opsSha: string, opsBytes: nat, nextSeq: nat, repos: nat)

  /** A backup directory. A bundle is the refs it holds; beside it lies a digest of the refs. */
  datatype Dest = Dest(
    log: Option<string>,
    fingerprint: Option<string>,
    policy: Option<string>,
    manifest: Option<Manifest>,
    snapshot: Option<string>,
    bundles: map<string, Refs>,
    refs: map<string, string>)

  const NOTHING: Dest := Dest(None, None, None, None, None, map[], map[])

  // ---- the log's checks ---------------------------------------------------------------------------

  function Split(t: string): seq<string> {
    Text.SplitOn(t, '\n')
  }

  /** How many entries the lines hold when they are numbered from 0 without a gap. */
  function Walk(e: Env, lines: seq<string>): Option<nat> {
    if lines == [] then Some(0)
    else
      var n := Walk(e, lines[..|lines| - 1]);
      if n.None? then None else Count(e, lines[|lines| - 1], n.value)
  }

  function Count(e: Env, line: string, expected: nat): Option<nat> {
    if line == "" then Some(expected)
    else if e.seqOf(line) == Some(expected) then Some(expected + 1)
    else None
  }

  method CheckContiguous(e: Env, ops: string) returns (nextSeq: Option<nat>)
    ensures nextSeq == Walk(e, Split(ops))
  {
    var expected, lines, i := 0, Split(ops), 0;
    while i < |lines|
      invariant i <= |lines| && Walk(e, lines[..i]) == Some(expected)
    {
      assert lines[..i + 1][..i] == lines[..i];
      if lines[i] != "" {
        if e.seqOf(lines[i]) != Some(expected) {
          StaysBroken(e, lines, i + 1);
          return None;
        }
        expected := expected + 1;
      }
      i := i + 1;
    }
    assert lines[..i] == lines;
    return Some(expected);
  }

  lemma {:induction false} StaysBroken(e: Env, lines: seq<string>, i: nat)
    requires i <= |lines| && Walk(e, lines[..i]) == None
    ensures Walk(e, lines) == None
    decreases |lines| - i
  {
    if i == |lines| {
      assert lines[..i] == lines;
    } else {
      assert lines[..i + 1][..i] == lines[..i];
      StaysBroken(e, lines, i + 1);
    }
  }

  predicate Extends(held: Option<string>, ops: string) {
    held.Some? ==> held.value <= ops
  }

  // ---- bundles ----------------------------------------------------------------------------------------

  /** The repositories `repos.list` names. */
  function Listed(lines: seq<string>): seq<string> {
    if lines == [] then []
    else
      var l := Text.Trim(lines[|lines| - 1]);
      Listed(lines[..|lines| - 1]) + if l == "" || l[0] == '#' then [] else [l]
  }

  function Repos(node: Node): seq<string> {
    Listed(Text.Lines(node.reposList))
  }

  function RefsOf(node: Node, repo: string): Refs {
    if repo in node.refs then node.refs[repo] else ""
  }

  /** What the incoming directory holds for the repositories so far. */
  datatype Incoming = Incoming(bundles: map<string, Refs>, refs: map<string, string>)

  /** One repository: the held bundle when its refs have not moved, a fresh one otherwise; nothing when
      git cannot bundle it. */
  function AddBundle(e: Env, node: Node, held: Dest, inc: Incoming, repo: string): Option<Incoming> {
    var name, refs := e.baseName(repo), RefsOf(node, repo);
    var hash := e.sha(refs);
    var bundle :=
      if name in held.refs && held.refs[name] == hash && name in held.bundles then Some(held.bundles[name])
      else if repo in node.refs then Some(refs)
      else None;
    if bundle.None? then None
    else Some(Incoming(inc.bundles[name := bundle.value], inc.refs[name := hash]))
  }

  function Gather(e: Env, node: Node, held: Dest, repos: seq<string>): Option<Incoming> {
    if repos == [] then Some(Incoming(map[], map[]))
    else
      var inc := Gather(e, node, held, repos[..|repos| - 1]);
      if inc.None? then None else AddBundle(e, node, held, inc.value, repos[|repos| - 1])
  }

  // ---- the moves ---------------------------------------------------------------------------------------

  datatype Move = BundleFile(name: string) | RefsFile(name: string) | Fingerprint | Policy | ManifestFile | Log | Snapshot

  datatype Package = Package(inc: Incoming, node: Node, manifest: Manifest)

  function Apply(p: Package, d: Dest, m: Move): Dest {
    match m
    case BundleFile(n) => if n in p.inc.bundles then d.(bundles := d.bundles[n := p.inc.bundles[n]]) else d
    case RefsFile(n) => if n in p.inc.refs then d.(refs := d.refs[n := p.inc.refs[n]]) else d
    case Fingerprint => d.(fingerprint := Some(p.node.fingerprint))
    case Policy => d.(policy := p.node.policy)
    case ManifestFile => d.(manifest := Some(p.manifest))
    case Log => d.(log := Some(p.node.log))
    case Snapshot => d.(snapshot := p.node.snapshot)
  }

  function ApplyAll(p: Package, d: Dest, moves: seq<Move>): Dest {
    if moves == [] then d else Apply(p, ApplyAll(p, d, moves[..|moves| - 1]), moves[|moves| - 1])
  }

  const LAST_MOVES: seq<Move> := [Fingerprint, Policy, ManifestFile, Log, Snapshot]

  /** Any order of the bundle directory's files, each once. */
  ghost predicate ListsBundles(inc: Incoming, order: seq<Move>) {
    && (forall m :: m in order ==> m.BundleFile? || m.RefsFile?)
    && (forall n :: n in inc.bundles ==> BundleFile(n) in order)
    && (forall n :: n in inc.refs ==> RefsFile(n) in order)
  }

  /** Everything `take` does before the first move: the package to put in place, or a refusal. */
  function Prepare(e: Env, node: Node, held: Dest): Option<Package> {
    var nextSeq := Walk(e, Split(node.log));
    var inc := Gather(e, node, held, Repos(node));
    if node.log == "" || node.fingerprint == "" then None
    else if !Extends(held.log, node.log) then None
    else if nextSeq.None? || !e.chainHolds(node.log) then None
    else if node.policy.None? then None
    else if inc.None? then None
    else Some(Package(inc.value, node, Manifest(e.sha(node.log), |node.log|, nextSeq.value, |Repos(node)|)))
  }

  /** What a backup directory holds after a take that was cut short after `cut` moves. */
  function Taken(e: Env, node: Node, held: Dest, order: seq<Move>, cut: nat): Dest {
    var p := Prepare(e, node, held);
    if p.None? then held
    else
      var moves := order + LAST_MOVES;
      ApplyAll(p.value, held, if cut < |moves| then moves[..cut] else moves)
  }

  class Directory {
    var dest: Dest

    constructor ()
      ensures dest == NOTHING
    {
      dest := NOTHING;
    }

    method GatherBundles(e: Env, node: Node) returns (inc: Option<Incoming>)
      ensures inc == Gather(e, node, dest, Repos(node))
    {
      var repos, i := Repos(node), 0;
      inc := Some(Incoming(map[], map[]));
      while i < |repos| && inc.Some?
        invariant i <= |repos| && inc == Gather(e, node, dest, repos[..i])
      {
        assert repos[..i + 1][..i] == repos[..i];
        inc := AddBundle(e, node, dest, inc.value, repos[i]);
        i := i + 1;
      }
      StaysUngathered(e, node, dest, repos, i);
    }

    /** Moves the prepared files into place, one after the other, unless it is cut short. */
    method MoveInto(p: Package, moves: seq<Move>, cut: nat)
      modifies this
      ensures dest == ApplyAll(p, old(dest), if cut < |moves| then moves[..cut] else moves)
    {
      var i := 0;
      while i < |moves| && i < cut
        invariant i <= |moves| && i <= cut && dest == ApplyAll(p, old(dest), moves[..i])
      {
        assert moves[..i + 1][..i] == moves[..i];
        dest := Apply(p, dest, moves[i]);
        i := i + 1;
      }
      assert moves[..|moves|] == moves;
    }

    method Take(e: Env, node: Node, order: seq<Move>, cut: nat) returns (accepted: bool)
      modifies this
      ensures accepted == Prepare(e, node, old(dest)).Some?
      ensures dest == Taken(e, node, old(dest), order, cut)
    {
      if node.log == "" || node.fingerprint == "" {
        return false;
      }
      if dest.log.Some? {
        var held := dest.log.value;
        if |node.log| < |held| {
          return false;
        }
        if node.log[..|held|] != held {
          return false;
        }
      }
      var nextSeq := CheckContiguous(e, node.log);
      if nextSeq.None? || !e.chainHolds(node.log) {
        return false;
      }
      if node.policy.None? {
        return false;
      }
      var inc := GatherBundles(e, node);
      if inc.None? {
        return false;
      }
      var manifest := Manifest(e.sha(node.log), |node.log|, nextSeq.value, |Repos(node)|);
      MoveInto(Package(inc.value, node, manifest), order + LAST_MOVES, cut);
      return true;
    }
  }

  lemma {:induction false} StaysUngathered(e: Env, node: Node, held: Dest, repos: seq<string>, i: nat)
    requires i <= |repos| && (i == |repos| || Gather(e, node, held, repos[..i]) == None)
    ensures Gather(e, node, held, repos) == Gather(e, node, held, repos[..i])
    decreases |repos| - i
  {
    if i == |repos| {
      assert repos[..i] == repos;
    } else {
      assert repos[..i + 1][..i] == repos[..i];
      StaysUngathered(e, node, held, repos, i + 1);
    }
  }
}
