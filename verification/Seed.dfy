/** The seed marker (crates/choir-cli/src/serve.rs): its text, reading it back, and the start plan of a
    directory that has one. */
module Seed {
  import opened Basics
  import opened Text

  datatype Seed = Seed(home: string, credential: string, serve: bool)

  function ServeWord(serve: bool): string {
    if serve then "yes" else "no"
  }

  /** The three lines that matter. */
  function Answers(s: Seed): seq<string> {
    [Entry("home", s.home), Entry("credential", s.credential), Entry("serve", ServeWord(s.serve))]
  }

  /** What `choir seed` writes above them, spelled in pieces because a short literal is quick to look into. */
  const NOTICE: seq<string> := [
    "# This node is a seed of another " + "node's log (D80). Written by",
    "# `choir seed`; `choir node serve` " + "reads it. Delete it to make",
    "# this state directory a home again " + "(its log would then be",
    "# one nobody else writes to)."]

  /** The marker: a notice in comment lines, then the answers. */
  function Render(notice: seq<string>, s: Seed): string {
    Join(notice + Answers(s))
  }

  // ---- reading -------------------------------------------------------------------------------------

  /** What has been read so far, or that a line made no sense. */
  datatype Reading = Broken | Read(home: Option<string>, credential: Option<string>, serve: Option<bool>)

  function Absorb(r: Reading, line: string): Reading {
    var l := Trim(line);
    if r.Broken? || l == "" || l[0] == '#' then r
    else if !HasKey(l) then Broken
    else if KeyOf(l) == "home" then r.(home := Some(TrimSlashes(ValueOf(l))))
    else if KeyOf(l) == "credential" then r.(credential := Some(ValueOf(l)))
    else if KeyOf(l) == "serve" then
      if ValueOf(l) == "yes" then r.(serve := Some(true))
      else if ValueOf(l) == "no" then r.(serve := Some(false))
      else Broken
    else Broken
  }

  function AbsorbAll(lines: seq<string>): Reading {
    if lines == [] then Read(None, None, None) else Absorb(AbsorbAll(lines[..|lines| - 1]), lines[|lines| - 1])
  }

  function Complete(r: Reading): Option<Seed> {
    if r.Read? && r.home.Some? && r.credential.Some? && r.serve.Some? then
      Some(Seed(r.home.value, r.credential.value, r.serve.value))
    else None
  }

  function ParseSpec(text: string): Option<Seed> {
    Complete(AbsorbAll(Lines(text)))
  }

  method Parse(text: string) returns (seed: Option<Seed>)
    ensures seed == ParseSpec(text)
  {
    var home, credential, serve := None, None, None;
    var lines, i := Lines(text), 0;
    while i < |lines|
      invariant i <= |lines| && AbsorbAll(lines[..i]) == Read(home, credential, serve)
    {
      assert lines[..i + 1][..i] == lines[..i];
      var line := Trim(lines[i]);
      i := i + 1;
      if line == "" || line[0] == '#' {
        continue;
      }
      if !HasKey(line) {
        StaysBroken(lines, i);
        return None;
      }
      var key, value := KeyOf(line), ValueOf(line);
      if key == "home" {
        home := Some(TrimSlashes(value));
      } else if key == "credential" {
        credential := Some(value);
      } else if key == "serve" {
        if value == "yes" {
          serve := Some(true);
        } else if value == "no" {
          serve := Some(false);
        } else {
          StaysBroken(lines, i);
          return None;
        }
      } else {
        StaysBroken(lines, i);
        return None;
      }
    }
    assert lines[..i] == lines;
    if home.None? || credential.None? || serve.None? {
      return None;
    }
    return Some(Seed(home.value, credential.value, serve.value));
  }

  lemma {:induction false} StaysBroken(lines: seq<string>, i: nat)
    requires i <= |lines| && AbsorbAll(lines[..i]).Broken?
    ensures AbsorbAll(lines).Broken?
    decreases |lines| - i
  {
    if i == |lines| {
      assert lines[..i] == lines;
    } else {
      assert lines[..i + 1][..i] == lines[..i];
      StaysBroken(lines, i + 1);
    }
  }

  // ---- starting a node -----------------------------------------------------------------------------

  /** A state directory: paths, the contents of the files that exist, and which of them open. */
  datatype Layout = Layout(
    repos: string, auth: string, keys: string, tlsMarker: string, accounts: string, acl: string,
    seedMarker: string, seedCredential: string, followersMarker: string, port: string,
    files: map<string, string>, opens: set<string>)

  function SeedOf(l: Layout): Option<Seed> {
    if l.seedMarker in l.files then ParseSpec(l.files[l.seedMarker]) else None
  }

  function Missing(l: Layout): seq<string> {
    if l.seedMarker in l.files then
      if SeedOf(l).Some? && SeedOf(l).value.credential in l.files then [] else [l.seedCredential]
    else (if l.auth in l.files then [] else [l.auth]) + if l.keys in l.files then [] else [l.keys]
  }

  function NotBlank(lines: seq<string>): seq<string> {
    if lines == [] then []
    else (if Trim(lines[0]) == "" then [] else [Trim(lines[0])]) + NotBlank(lines[1..])
  }

  function Tls(l: Layout): Option<(string, string)> {
    if l.tlsMarker !in l.files then None
    else
      var pair := NotBlank(Lines(l.files[l.tlsMarker]));
      if |pair| < 2 then None else Some((pair[0], pair[1]))
  }

  datatype Refusal = NoNodeHere(missing: seq<string>) | NoCreate | NoKeysFile | Unreadable | NoAclForAccounts

  datatype Plan = Start(args: seq<string>) | Refuse(why: Refusal)

  function TlsArgs(l: Layout): seq<string> {
    if Tls(l).None? then []
    else ["--bind", "0.0.0.0", "--tls-cert", Tls(l).value.0, "--tls-key", Tls(l).value.1]
  }

  predicate TlsReadable(l: Layout) {
    Tls(l).None? || (Tls(l).value.0 in l.opens && Tls(l).value.1 in l.opens)
  }

  function Creates(create: seq<string>): seq<string> {
    if create == [] then [] else Creates(create[..|create| - 1]) + ["--create", create[|create| - 1]]
  }

  /** What every seed is started with. */
  function SeedHead(l: Layout, s: Seed): seq<string> {
    [l.repos] + (if s.serve then [l.port] else []) + ["--seed", s.home, "--seed-credential", s.credential]
  }

  function PlanSeed(l: Layout, s: Seed, create: seq<string>, extra: seq<string>): Plan {
    if create != [] then Refuse(NoCreate)
    else if "--keys-file" in extra then Refuse(NoKeysFile)
    else if !s.serve then Start(SeedHead(l, s) + extra)
    else if !TlsReadable(l) then Refuse(Unreadable)
    else
      Start(SeedHead(l, s)
            + (if l.auth in l.files then ["--auth-file", l.auth] else [])
            + TlsArgs(l)
            + (if l.acl in l.files then ["--acl-file", l.acl] else [])
            + extra)
  }

  function PlanHome(l: Layout, create: seq<string>, extra: seq<string>): Plan {
    if !TlsReadable(l) then Refuse(Unreadable)
    else if l.accounts in l.files && l.acl !in l.files then Refuse(NoAclForAccounts)
    else
      Start([l.repos, l.port, "--auth-file", l.auth, "--keys-file", l.keys]
            + TlsArgs(l)
            + (if l.acl in l.files then ["--acl-file", l.acl] else [])
            + (if l.accounts in l.files then ["--accounts-file", l.accounts] else [])
            + Creates(create)
            + (if l.followersMarker in l.files then ["--followers"] else [])
            + extra)
  }

  function PlanOf(l: Layout, create: seq<string>, extra: seq<string>): Plan {
    if Missing(l) != [] then Refuse(NoNodeHere(Missing(l)))
    else if SeedOf(l).Some? then PlanSeed(l, SeedOf(l).value, create, extra)
    else PlanHome(l, create, extra)
  }

  method PlanSeedArgs(l: Layout, s: Seed, create: seq<string>, extra: seq<string>) returns (p: Plan)
    ensures p == PlanSeed(l, s, create, extra)
  {
    if create != [] {
      return Refuse(NoCreate);
    }
    if "--keys-file" in extra {
      return Refuse(NoKeysFile);
    }
    var args := [l.repos];
    if s.serve {
      args := args + [l.port];
    }
    args := args + ["--seed", s.home];
    args := args + ["--seed-credential", s.credential];
    assert args == SeedHead(l, s);
    if !s.serve {
      return Start(args + extra);
    }
    if l.auth in l.files {
      args := args + ["--auth-file", l.auth];
    }
    if !TlsReadable(l) {
      return Refuse(Unreadable);
    }
    args := args + TlsArgs(l);
    if l.acl in l.files {
      args := args + ["--acl-file", l.acl];
    }
    return Start(args + extra);
  }

  /** The start plan, refused or pushed together flag by flag. */
  method PlanNode(l: Layout, create: seq<string>, extra: seq<string>) returns (p: Plan)
    ensures p == PlanOf(l, create, extra)
  {
    var missing := Missing(l);
    if missing != [] {
      return Refuse(NoNodeHere(missing));
    }
    if SeedOf(l).Some? {
      p := PlanSeedArgs(l, SeedOf(l).value, create, extra);
      return;
    }
    if !TlsReadable(l) {
      return Refuse(Unreadable);
    }
    var args := [l.repos, l.port, "--auth-file", l.auth, "--keys-file", l.keys] + TlsArgs(l);
    if l.acl in l.files {
      args := args + ["--acl-file", l.acl];
    }
    if l.accounts in l.files {
      if l.acl !in l.files {
        return Refuse(NoAclForAccounts);
      }
      args := args + ["--accounts-file", l.accounts];
    }
    ghost var flags := args;
    var i := 0;
    while i < |create|
      invariant i <= |create| && args == flags + Creates(create[..i])
    {
      assert create[..i + 1][..i] == create[..i];
      args := args + ["--create", create[i]];
      i := i + 1;
    }
    assert create[..i] == create;
    if l.followersMarker in l.files {
      args := args + ["--followers"];
    }
    return Start(args + extra);
  }
}
