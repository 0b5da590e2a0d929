/** `choir backup restore` (crates/choir-cli/src/restore.rs) up to the point where the restored node may
    be started: the check for an earlier placement, the files put in place one by one, and the two
    decisions only an operator can make. */
module Restore {
  import opened Basics

  /** A backup that passed every read-side check. */
  datatype Backup = Backup(
    log: string,
    fingerprint: Option<string>,
    snapshot: Option<string>,
    policy: map<string, string>,
    repos: seq<string>,
    bundles: map<string, string>)

  /** The target directory, and the credential beside it. */
  datatype Root = Root(
    log: Option<string>,
    fingerprint: Option<string>,
    snapshot: Option<string>,
    policy: map<string, string>,
    repos: map<string, string>,
    key: bool,
    auth: bool)

  /** What `read` has established: a log that is not empty, and a bundle for every repository. */
  ghost predicate Checked(b: Backup) {
    b.log != "" && forall r :: r in b.repos ==> r in b.bundles
  }

  /** Whether an earlier run placed its log here; nothing when the target is not ours to write. */
  function ResumingSpec(root: Root, b: Backup): Option<bool> {
    if root.log.Some? then
      if root.log.value == b.log then Some(true) else None
    else if exists r | r in b.repos :: r in root.repos then None
    else Some(false)
  }

  datatype Write = PlaceLog | PlaceFingerprint | PlaceSnapshot | PlacePolicy(name: string) | Unbundle(repo: string)

  /** What a write that is cut short leaves of a content: only part of it, unless there is nothing to it. */
  function Piece(s: string, part: Option<nat>): (r: string)
    ensures r <= s && (r == s <==> part.None? || s == "")
  {
    if part.None? || s == "" then s else s[..Min(part.value, |s| - 1)]
  }

  /** One write, whole or in part. A copy first empties what it writes to; a repository that is there, in
      whatever state, is passed over. */
  function Do(b: Backup, root: Root, w: Write, part: Option<nat>): Root {
    match w
    case PlaceLog => root.(log := Some(Piece(b.log, part)))
    case PlaceFingerprint => if b.fingerprint.Some? then root.(fingerprint := Some(Piece(b.fingerprint.value, part))) else root
    case PlaceSnapshot => if b.snapshot.Some? then root.(snapshot := Some(Piece(b.snapshot.value, part))) else root
    case PlacePolicy(n) => if n in b.policy then root.(policy := root.policy[n := Piece(b.policy[n], part)]) else root
    case Unbundle(r) => if r in root.repos || r !in b.bundles then root else root.(repos := root.repos[r := Piece(b.bundles[r], part)])
  }

  function DoAll(b: Backup, root: Root, ws: seq<Write>): Root {
    if ws == [] then root else Do(b, DoAll(b, root, ws[..|ws| - 1]), ws[|ws| - 1], None)
  }

  /** How far a run gets: so many writes, and of the next one perhaps a part. */
  datatype Cut = Cut(writes: nat, part: Option<nat>)

  function DoSome(b: Backup, root: Root, ws: seq<Write>, cut: Cut): Root {
    if cut.writes >= |ws| then DoAll(b, root, ws)
    else
      var done := DoAll(b, root, ws[..cut.writes]);
      if cut.part.None? then done else Do(b, done, ws[cut.writes], cut.part)
  }

  function PolicyWrites(b: Backup, names: seq<string>): seq<Write> {
    if names == [] then []
    else
      var n := names[|names| - 1];
      PolicyWrites(b, names[..|names| - 1]) + if n in b.policy then [PlacePolicy(n)] else []
  }

  function RepoWrites(repos: seq<string>): seq<Write> {
    if repos == [] then [] else RepoWrites(repos[..|repos| - 1]) + [Unbundle(repos[|repos| - 1])]
  }

  /** The writes of `place`, in order. A resumed run does not put the fingerprint back. */
  function Writes(b: Backup, names: seq<string>, resume: bool): seq<Write> {
    Opening(b, resume) + PolicyWrites(b, names) + RepoWrites(b.repos)
  }

  /** The log, the fingerprint on a fresh run only, and the snapshot if there is one. */
  function Opening(b: Backup, resume: bool): seq<Write> {
    [PlaceLog]
    + (if !resume && b.fingerprint.Some? then [PlaceFingerprint] else [])
    + (if b.snapshot.Some? then [PlaceSnapshot] else [])
  }

  datatype Decision = SupplyKeyOrDropPin | MintCredential

  datatype Outcome = NotOurs | Interrupted | Decide(what: Decision) | Ready(newAuthor: bool)

  function Secrets(root: Root): Outcome {
    if !root.key then
      if root.fingerprint.Some? then Decide(SupplyKeyOrDropPin)
      else if !root.auth then Decide(MintCredential)
      else Ready(true)
    else if !root.auth then Decide(MintCredential)
    else Ready(false)
  }

  /** One run of the command, cut short after so many writes, or not at all when there are no more. */
  function RunSpec(b: Backup, names: seq<string>, root: Root, cut: Cut): (Root, Outcome) {
    var resume := ResumingSpec(root, b);
    if resume.None? then (root, NotOurs)
    else
      var ws := Writes(b, names, resume.value);
      var r := DoSome(b, root, ws, cut);
      (r, if cut.writes < |ws| then Interrupted else Secrets(r))
  }

  class Target {
    var root: Root

    constructor (root: Root)
      ensures this.root == root
    {
      this.root := root;
    }

    method Resuming(b: Backup) returns (resume: Option<bool>)
      ensures resume == ResumingSpec(root, b)
    {
      if root.log.Some? {
        if root.log.value != b.log {
          return None;
        }
        return Some(true);
      }
      var i := 0;
      while i < |b.repos|
        invariant i <= |b.repos| && forall k :: 0 <= k < i ==> b.repos[k] !in root.repos
      {
        if b.repos[i] in root.repos {
          return None;
        }
        i := i + 1;
      }
      return Some(false);
    }

    /** Performs the writes one after the other, unless it is cut short. */
    method Perform(b: Backup, ws: seq<Write>, cut: Cut) returns (done: bool)
      modifies this
      ensures done <==> cut.writes >= |ws|
      ensures root == DoSome(b, old(root), ws, cut)
    {
      var i := 0;
      while i < |ws| && i < cut.writes
        invariant i <= |ws| && i <= cut.writes && root == DoAll(b, old(root), ws[..i])
      {
        assert ws[..i + 1][..i] == ws[..i];
        root := Do(b, root, ws[i], None);
        i := i + 1;
      }
      assert ws[..|ws|] == ws;
      done := cut.writes >= |ws|;
      if !done && cut.part.Some? {
        root := Do(b, root, ws[i], cut.part);
      }
    }

    method Place(b: Backup, names: seq<string>, resume: bool, cut: Cut) returns (done: bool)
      modifies this
      ensures done <==> cut.writes >= |Writes(b, names, resume)|
      ensures root == DoSome(b, old(root), Writes(b, names, resume), cut)
    {
      var ws := [PlaceLog];
      if !resume && b.fingerprint.Some? {
        ws := ws + [PlaceFingerprint];
      }
      if b.snapshot.Some? {
        ws := ws + [PlaceSnapshot];
      }
      var i := 0;
      ghost var head := Opening(b, resume);
      assert ws == head;
      while i < |names|
        invariant i <= |names| && ws == head + PolicyWrites(b, names[..i])
      {
        assert names[..i + 1][..i] == names[..i];
        if names[i] in b.policy {
          ws := ws + [PlacePolicy(names[i])];
        }
        i := i + 1;
      }
      assert names[..i] == names;
      i := 0;
      head := ws;
      while i < |b.repos|
        invariant i <= |b.repos| && ws == head + RepoWrites(b.repos[..i])
      {
        assert b.repos[..i + 1][..i] == b.repos[..i];
        ws := ws + [Unbundle(b.repos[i])];
        i := i + 1;
      }
      assert b.repos[..i] == b.repos;
      assert ws == Writes(b, names, resume);
      done := Perform(b, ws, cut);
    }

    method Run(b: Backup, names: seq<string>, cut: Cut) returns (outcome: Outcome)
      modifies this
      ensures (root, outcome) == RunSpec(b, names, old(root), cut)
    {
      var resume := Resuming(b);
      if resume.None? {
        return NotOurs;
      }
      var done := Place(b, names, resume.value, cut);
      if !done {
        return Interrupted;
      }
      outcome := Secrets(root);
    }
  }
}
