/** What a node hears from the flags it is started with, read back one after the other. */
module SeedFlags {
  import opened Basics
  import opened Sequences
  import opened Text
  import opened Seed

  /** What a node is told by its flags. */
  datatype Served = Served(
    auth: Option<string>, keys: Option<string>, bind: Option<string>, cert: Option<string>, key: Option<string>,
    acl: Option<string>, accounts: Option<string>, home: Option<string>, credential: Option<string>,
    creates: seq<string>, followers: bool, other: seq<string>)

  const UNTOLD := Served(None, None, None, None, None, None, None, None, None, [], false, [])

  function Told(s: Served, flag: string, value: string): Served {
    if flag == "--auth-file" then s.(auth := Some(value))
    else if flag == "--keys-file" then s.(keys := Some(value))
    else if flag == "--bind" then s.(bind := Some(value))
    else if flag == "--tls-cert" then s.(cert := Some(value))
    else if flag == "--tls-key" then s.(key := Some(value))
    else if flag == "--acl-file" then s.(acl := Some(value))
    else if flag == "--accounts-file" then s.(accounts := Some(value))
    else if flag == "--seed" then s.(home := Some(value))
    else if flag == "--seed-credential" then s.(credential := Some(value))
    else if flag == "--create" then s.(creates := s.creates + [value])
    else s.(other := s.other + [flag, value])
  }

  /** Flags read off one after the other, each with the value behind it, but for the one that has none. */
  function Heard(s: Served, args: seq<string>): Served
    decreases |args|
  {
    if args == [] then s
    else if args[0] == "--followers" then Heard(s.(followers := true), args[1..])
    else if |args| == 1 then s.(other := s.other + args)
    else Heard(Told(s, args[0], args[1]), args[2..])
  }

  lemma {:induction false} HearPair(s: Served, flag: string, value: string, rest: seq<string>)
    requires flag != "--followers"
    ensures Heard(s, [flag, value] + rest) == Heard(Told(s, flag, value), rest)
  {
    assert ([flag, value] + rest)[2..] == rest;
  }

  lemma {:induction false} HearIf(there: bool, s: Served, flag: string, value: string, rest: seq<string>)
    requires flag != "--followers"
    ensures Heard(s, (if there then [flag, value] else []) + rest) == Heard(if there then Told(s, flag, value) else s, rest)
  {
    if there {
      HearPair(s, flag, value, rest);
    } else {
      assert [] + rest == rest;
    }
  }

  lemma {:induction false} HearCreates(s: Served, create: seq<string>, rest: seq<string>)
    ensures Heard(s, Creates(create) + rest) == Heard(s.(creates := s.creates + create), rest)
  {
    if create == [] {
      assert [] + rest == rest && s.creates + create == s.creates;
    } else {
      var front, last := create[..|create| - 1], create[|create| - 1];
      HearCreates(s, front, ["--create", last] + rest);
      Assoc(Creates(front), ["--create", last], rest);
      HearPair(s.(creates := s.creates + front), "--create", last, rest);
      OneMoreCreate(s.creates, create);
    }
  }

  lemma {:induction false} OneMoreCreate(before: seq<string>, create: seq<string>)
    requires create != []
    ensures before + create[..|create| - 1] + [create[|create| - 1]] == before + create
  {
  }

  lemma {:induction false} HearFollowers(there: bool, s: Served, rest: seq<string>)
    ensures Heard(s, (if there then ["--followers"] else []) + rest) == Heard(if there then s.(followers := true) else s, rest)
  {
    if there {
      assert (["--followers"] + rest)[1..] == rest;
    } else {
      assert [] + rest == rest;
    }
  }

  /** A certificate and its key, and every interface to serve them on. */
  function WithTls(l: Layout, s: Served): Served {
    if Tls(l).None? then s else s.(bind := Some("0.0.0.0"), cert := Some(Tls(l).value.0), key := Some(Tls(l).value.1))
  }

  lemma {:induction false} HearTls(l: Layout, s: Served, rest: seq<string>)
    ensures Heard(s, TlsArgs(l) + rest) == Heard(WithTls(l, s), rest)
  {
    if Tls(l).Some? {
      var (cert, key) := Tls(l).value;
      var s1 := Told(s, "--bind", "0.0.0.0");
      assert TlsArgs(l) + rest == ["--bind", "0.0.0.0"] + (["--tls-cert", cert] + (["--tls-key", key] + rest));
      HearPair(s, "--bind", "0.0.0.0", ["--tls-cert", cert] + (["--tls-key", key] + rest));
      HearPair(s1, "--tls-cert", cert, ["--tls-key", key] + rest);
      HearPair(Told(s1, "--tls-cert", cert), "--tls-key", key, rest);
    } else {
      assert [] + rest == rest;
    }
  }

  function File(l: Layout, path: string): Option<string> {
    if path in l.files then Some(path) else None
  }

  /** What a home tells its node: the two files it cannot do without, and the others as far as they exist. */
  function HomeTells(l: Layout, create: seq<string>): Served {
    WithTls(l, UNTOLD).(auth := Some(l.auth), keys := Some(l.keys), acl := File(l, l.acl), accounts := File(l, l.accounts),
                        creates := create, followers := l.followersMarker in l.files)
  }

  /** What a seed tells its node: its home and the credential, and if it serves, whom to and as what. */
  function SeedTells(l: Layout, s: Seed): Served {
    (if s.serve then WithTls(l, UNTOLD).(auth := File(l, l.auth), acl := File(l, l.acl)) else UNTOLD)
    .(home := Some(s.home), credential := Some(s.credential))
  }

  lemma {:induction false} Nest7<T>(a: seq<T>, b: seq<T>, c: seq<T>, d: seq<T>, f: seq<T>, g: seq<T>, h: seq<T>)
    ensures a + b + c + d + f + g + h == a + (b + (c + (d + (f + (g + h)))))
  {
    Assoc(a + b + c + d + f, g, h);
    Assoc(a + b + c + d, f, g + h);
    Assoc(a + b + c, d, f + (g + h));
    Assoc(a + b, c, d + (f + (g + h)));
    Assoc(a, b, c + (d + (f + (g + h))));
  }

  /** The certificate and the key, if the directory names them, can both be opened. */
  predicate PairOpens(l: Layout) {
    Tls(l).Some? ==> Tls(l).value.0 in l.opens && Tls(l).value.1 in l.opens
  }

  predicate Blank(line: string) {
    Trim(line) == ""
  }

  lemma {:induction false} FirstNotBlank(lines: seq<string>) returns (i: nat)
    ensures i <= |lines| && forall k :: 0 <= k < i ==> Blank(lines[k])
    ensures if i == |lines| then NotBlank(lines) == []
            else !Blank(lines[i]) && NotBlank(lines) == [Trim(lines[i])] + NotBlank(lines[i + 1..])
  {
    if lines == [] {
      i := 0;
    } else if Blank(lines[0]) {
      i := FirstNotBlank(lines[1..]);
      assert [] + NotBlank(lines[1..]) == NotBlank(lines[1..]);
      assert forall k :: 0 < k < |lines| ==> lines[k] == lines[1..][k - 1];
      assert i < |lines[1..]| ==> lines[1..][i + 1..] == lines[i + 2..];
      i := i + 1;
    } else {
      i := 0;
    }
  }

  /** The second line that is not blank, behind the first. */
  lemma {:induction false} SecondNotBlank(lines: seq<string>, i: nat) returns (j: nat)
    requires i < |lines| && !Blank(lines[i]) && NotBlank(lines) == [Trim(lines[i])] + NotBlank(lines[i + 1..])
    ensures i < j <= |lines| && forall k :: i < k < j ==> Blank(lines[k])
    ensures if j < |lines| then !Blank(lines[j]) && |NotBlank(lines)| >= 2 && NotBlank(lines)[..2] == [Trim(lines[i]), Trim(lines[j])]
            else |NotBlank(lines)| == 1
  {
    var rest := lines[i + 1..];
    var n := FirstNotBlank(rest);
    assert forall k :: i < k < |lines| ==> lines[k] == rest[k - i - 1];
    j := i + 1 + n;
  }

  /** The marker names the pair on its first two lines that are not blank, the certificate first; with fewer
      such lines there is no pair. */
  lemma {:induction false} PairIsFirstTwo(l: Layout) returns (i: nat, j: nat)
    requires l.tlsMarker in l.files
    ensures var lines := Lines(l.files[l.tlsMarker]);
      && i <= j <= |lines| && (forall k :: 0 <= k < j && k != i ==> Blank(lines[k])) && (i < |lines| ==> i < j && !Blank(lines[i]))
      && if j < |lines| then !Blank(lines[j]) && Tls(l) == Some((Trim(lines[i]), Trim(lines[j]))) else Tls(l).None?
  {
    var lines := Lines(l.files[l.tlsMarker]);
    i := FirstNotBlank(lines);
    j := i;
    if i < |lines| {
      j := SecondNotBlank(lines, i);
      var pair := NotBlank(lines);
      assert |pair| >= 2 ==> pair[..2][0] == pair[0] && pair[..2][1] == pair[1];
    }
  }

  /** What a home is started with behind its two files. */
  function Besides(l: Layout, create: seq<string>, extra: seq<string>): seq<string> {
    TlsArgs(l)
    + ((if l.acl in l.files then ["--acl-file", l.acl] else [])
       + ((if l.accounts in l.files then ["--accounts-file", l.accounts] else [])
          + (Creates(create) + ((if l.followersMarker in l.files then ["--followers"] else []) + extra))))
  }

  lemma {:induction false} HomeArgs(l: Layout, create: seq<string>, extra: seq<string>)
    requires PlanHome(l, create, extra).Start?
    ensures PlanHome(l, create, extra).args == [l.repos, l.port] + (["--auth-file", l.auth] + (["--keys-file", l.keys] + Besides(l, create, extra)))
  {
    var acl := if l.acl in l.files then ["--acl-file", l.acl] else [];
    var accounts := if l.accounts in l.files then ["--accounts-file", l.accounts] else [];
    var followers := if l.followersMarker in l.files then ["--followers"] else [];
    Nest7([l.repos, l.port, "--auth-file", l.auth, "--keys-file", l.keys], TlsArgs(l), acl, accounts, Creates(create), followers, extra);
    FrontNests(l.repos, l.port, "--auth-file", l.auth, "--keys-file", l.keys, Besides(l, create, extra));
  }

  lemma {:induction false} FrontNests<T>(a: T, b: T, c: T, d: T, f: T, g: T, rest: seq<T>)
    ensures [a, b, c, d, f, g] + rest == [a, b] + ([c, d] + ([f, g] + rest))
  {
  }

  /** The files that may be there, on top of what was heard before. */
  function TellsBesides(l: Layout, s: Served, create: seq<string>): Served {
    WithTls(l, s).(acl := if l.acl in l.files then Some(l.acl) else s.acl,
                   accounts := if l.accounts in l.files then Some(l.accounts) else s.accounts,
                   creates := s.creates + create,
                   followers := s.followers || l.followersMarker in l.files)
  }

  lemma {:induction false} HeardBesides(l: Layout, s: Served, create: seq<string>, extra: seq<string>)
    ensures Heard(s, Besides(l, create, extra)) == Heard(TellsBesides(l, s, create), extra)
  {
    var rest5 := (if l.followersMarker in l.files then ["--followers"] else []) + extra;
    var rest4 := Creates(create) + rest5;
    var rest3 := (if l.accounts in l.files then ["--accounts-file", l.accounts] else []) + rest4;
    var s2 := WithTls(l, s);
    var s3 := if l.acl in l.files then Told(s2, "--acl-file", l.acl) else s2;
    var s4 := if l.accounts in l.files then Told(s3, "--accounts-file", l.accounts) else s3;
    HearTls(l, s, (if l.acl in l.files then ["--acl-file", l.acl] else []) + rest3);
    HearIf(l.acl in l.files, s2, "--acl-file", l.acl, rest3);
    HearIf(l.accounts in l.files, s3, "--accounts-file", l.accounts, rest4);
    HearCreates(s4, create, rest5);
    HearFollowers(l.followersMarker in l.files, s4.(creates := s4.creates + create), extra);
  }

  lemma {:induction false} HeardAsHome(l: Layout, create: seq<string>, extra: seq<string>)
    ensures Heard(UNTOLD, ["--auth-file", l.auth] + (["--keys-file", l.keys] + Besides(l, create, extra))) == Heard(HomeTells(l, create), extra)
  {
    var s0 := UNTOLD.(auth := Some(l.auth));
    HearPair(UNTOLD, "--auth-file", l.auth, ["--keys-file", l.keys] + Besides(l, create, extra));
    HearPair(s0, "--keys-file", l.keys, Besides(l, create, extra));
    HeardBesides(l, s0.(keys := Some(l.keys)), create, extra);
    assert [] + create == create;
  }

  /** A home starts exactly when its credentials and keys are there, the certificate it names can be read,
      and accounts come with a table; and then its node hears where the repositories are, on which port to
      serve, and `HomeTells`, before whatever else was asked for. */
  lemma {:induction false} HomeHears(l: Layout, create: seq<string>, extra: seq<string>)
    requires l.seedMarker !in l.files
    ensures var p, head := PlanOf(l, create, extra), [l.repos, l.port];
      && (p.Start? <==> l.auth in l.files && l.keys in l.files && PairOpens(l) && (l.accounts in l.files ==> l.acl in l.files))
      && (p.Start? ==> head <= p.args && Heard(UNTOLD, p.args[|head|..]) == Heard(HomeTells(l, create), extra))
  {
    HomePlans(l, create, extra);
    if PlanHome(l, create, extra).Start? {
      var head, rest := [l.repos, l.port], ["--auth-file", l.auth] + (["--keys-file", l.keys] + Besides(l, create, extra));
      HomeArgs(l, create, extra);
      HeardAsHome(l, create, extra);
      assert (head + rest)[|head|..] == rest;
    }
  }

  lemma {:induction false} HomePlans(l: Layout, create: seq<string>, extra: seq<string>)
    requires l.seedMarker !in l.files
    ensures if l.auth in l.files && l.keys in l.files then PlanOf(l, create, extra) == PlanHome(l, create, extra)
            else PlanOf(l, create, extra).Refuse?
    ensures PlanHome(l, create, extra).Start? <==> TlsReadable(l) && (l.accounts in l.files ==> l.acl in l.files)
  {
    assert Missing(l) == [] <==> l.auth in l.files && l.keys in l.files;
  }

  /** A seed starts exactly when its credential is there and nothing was asked for that a seed does not take,
      and if it serves, when the certificate it names can be read; and then its node hears where the
      repositories are, on which port to serve if it does, and `SeedTells`, before whatever else was asked
      for. */
  lemma {:induction false} SeedHears(l: Layout, s: Seed, create: seq<string>, extra: seq<string>)
    requires l.seedMarker in l.files && ParseSpec(l.files[l.seedMarker]) == Some(s)
    ensures var p, head := PlanOf(l, create, extra), if s.serve then [l.repos, l.port] else [l.repos];
      && (p.Start? <==> s.credential in l.files && create == [] && "--keys-file" !in extra && (s.serve ==> PairOpens(l)))
      && (p.Start? ==> head <= p.args && Heard(UNTOLD, p.args[|head|..]) == Heard(SeedTells(l, s), extra))
  {
    var p, head := PlanOf(l, create, extra), if s.serve then [l.repos, l.port] else [l.repos];
    if p.Start? {
      var rest := if s.serve then Serving(l, extra) else extra;
      HeardAsSeed(l, s, extra);
      SeedArgs(l, s, extra);
      assert p.args == head + (["--seed", s.home] + (["--seed-credential", s.credential] + rest));
      assert p.args[|head|..] == ["--seed", s.home] + (["--seed-credential", s.credential] + rest);
    }
  }

  /** What a seed that serves is started with besides. */
  function Serving(l: Layout, extra: seq<string>): seq<string> {
    (if l.auth in l.files then ["--auth-file", l.auth] else [])
    + (TlsArgs(l) + ((if l.acl in l.files then ["--acl-file", l.acl] else []) + extra))
  }

  lemma {:induction false} SeedArgs(l: Layout, s: Seed, extra: seq<string>)
    requires PlanSeed(l, s, [], extra).Start?
    ensures PlanSeed(l, s, [], extra).args ==
            (if s.serve then [l.repos, l.port] else [l.repos])
            + (["--seed", s.home] + (["--seed-credential", s.credential] + if s.serve then Serving(l, extra) else extra))
  {
    var head := if s.serve then [l.repos, l.port] else [l.repos];
    var auth := if l.auth in l.files then ["--auth-file", l.auth] else [];
    var acl := if l.acl in l.files then ["--acl-file", l.acl] else [];
    assert SeedHead(l, s) == head + (["--seed", s.home] + ["--seed-credential", s.credential]);
    if s.serve {
      Assoc(SeedHead(l, s) + auth + TlsArgs(l), acl, extra);
      Assoc(SeedHead(l, s) + auth, TlsArgs(l), acl + extra);
      Assoc(SeedHead(l, s), auth, TlsArgs(l) + (acl + extra));
    }
    var rest := if s.serve then Serving(l, extra) else extra;
    Assoc(head, ["--seed", s.home] + ["--seed-credential", s.credential], rest);
    Assoc(["--seed", s.home], ["--seed-credential", s.credential], rest);
  }

  lemma {:induction false} HeardAsSeed(l: Layout, s: Seed, extra: seq<string>)
    ensures var rest := if s.serve then Serving(l, extra) else extra;
      Heard(UNTOLD, ["--seed", s.home] + (["--seed-credential", s.credential] + rest)) == Heard(SeedTells(l, s), extra)
  {
    var rest := if s.serve then Serving(l, extra) else extra;
    var s0 := UNTOLD.(home := Some(s.home));
    var s1 := s0.(credential := Some(s.credential));
    HearPair(UNTOLD, "--seed", s.home, ["--seed-credential", s.credential] + rest);
    HearPair(s0, "--seed-credential", s.credential, rest);
    if s.serve {
      var s2 := s1.(auth := File(l, l.auth));
      var acl := if l.acl in l.files then ["--acl-file", l.acl] else [];
      HearIf(l.auth in l.files, s1, "--auth-file", l.auth, TlsArgs(l) + (acl + extra));
      HearTls(l, s2, acl + extra);
      HearIf(l.acl in l.files, WithTls(l, s2), "--acl-file", l.acl, extra);
    }
  }

  // ---- refusals -------------------------------------------------------------------------------------

  /** A refusal names what is missing, all of it, or the first thing that is wrong. */
  lemma {:induction false} RefusalsSayWhy(l: Layout, create: seq<string>, extra: seq<string>)
    requires PlanOf(l, create, extra).Refuse?
    ensures PlanOf(l, create, extra).why ==
            if l.seedMarker in l.files then
              match ParseSpec(l.files[l.seedMarker])
              case None => NoNodeHere([l.seedCredential])
              case Some(s) =>
                if s.credential !in l.files then NoNodeHere([l.seedCredential])
                else if create != [] then NoCreate
                else if "--keys-file" in extra then NoKeysFile
                else Unreadable
            else if l.auth !in l.files then NoNodeHere(if l.keys in l.files then [l.auth] else [l.auth, l.keys])
            else if l.keys !in l.files then NoNodeHere([l.keys])
            else if !PairOpens(l) then Unreadable
            else NoAclForAccounts
  {
    assert [l.auth] + [l.keys] == [l.auth, l.keys] && [l.auth] + [] == [l.auth];
  }
}
