/** Different work gets different changes, within one scheme; and a proposal's label never refuses it
    for being unsafe. */
module IdentityProofs {
  import opened Basics
  import opened Utf8
  import opened Identity
  import Decimal
  import Text

  // ---- the material can be read back ------------------------------------------------------------

  lemma {:induction false} EncodeAscii(s: string)
    requires Ascii(s)
    ensures |Encode(s)| == |s| && forall i :: 0 <= i < |s| ==> Encode(s)[i] == s[i] as nat
  {
    if s != "" {
      EncodeAscii(s[1..]);
      assert Encode(s) == [s[0] as nat] + Encode(s[1..]);
    }
  }

  /** Digits end at the first byte that is no digit. */
  lemma {:induction false} DigitsEnd(m: nat, n: nat, x: seq<byte>, y: seq<byte>)
    requires Encode(Decimal.Print(m)) + ([':' as nat] + x) == Encode(Decimal.Print(n)) + ([':' as nat] + y)
    ensures m == n && x == y
  {
    var p, q := Decimal.Print(m), Decimal.Print(n);
    EncodeAscii(p);
    EncodeAscii(q);
    Text.Cut(Encode(p), Encode(q), ':' as nat, x, y);
    EncodeInjective(p, q);
    Decimal.PrintInjective(m, n);
  }

  lemma {:induction false} FramedReads(f: seq<byte>, g: seq<byte>, x: seq<byte>, y: seq<byte>)
    requires Framed(f) + x == Framed(g) + y
    ensures f == g && x == y
  {
    var a, b := Encode(Decimal.Print(|f|)), Encode(Decimal.Print(|g|));
    var nl := ['\n' as nat];
    assert Framed(f) + x == a + ([':' as nat] + (f + nl + x));
    assert Framed(g) + y == b + ([':' as nat] + (g + nl + y));
    DigitsEnd(|f|, |g|, f + nl + x, g + nl + y);
    var s, t := f + nl + x, g + nl + y;
    assert s[..|f|] == f && t[..|f|] == g;
    assert s[|f| + 1..] == x && t[|f| + 1..] == y;
  }

  /** Whatever the fields contain, the framed bytes determine how many there are and each of them. */
  lemma {:induction false} MaterialReads(fs: seq<seq<byte>>, gs: seq<seq<byte>>)
    requires Material(fs) == Material(gs)
    ensures fs == gs
  {
    if fs != [] && gs != [] {
      FramedReads(fs[0], gs[0], Material(fs[1..]), Material(gs[1..]));
      MaterialReads(fs[1..], gs[1..]);
      assert fs == [fs[0]] + fs[1..] && gs == [gs[0]] + gs[1..];
    }
  }

  // ---- reading the material ------------------------------------------------------------------------

  function FirstAt(b: seq<byte>, x: byte): (k: nat)
    ensures k <= |b| && (forall i :: 0 <= i < k ==> b[i] != x) && (k < |b| ==> b[k] == x)
  {
    if b == [] || b[0] == x then 0 else 1 + FirstAt(b[1..], x)
  }

  function Number(b: seq<byte>): nat {
    if forall i :: 0 <= i < |b| ==> 48 <= b[i] <= 57 then Decimal.Read(seq(|b|, i requires 0 <= i < |b| => b[i] as char)) else 0
  }

  /** The field in front, as long as the number before the first colon says, and what is behind its line end. */
  function Unframed(b: seq<byte>): Option<(seq<byte>, seq<byte>)> {
    var k := FirstAt(b, ':' as nat);
    var n := Number(b[..k]);
    if k + 1 + n < |b| && b[k + 1 + n] == '\n' as nat then Some((b[k + 1..k + 1 + n], b[k + 2 + n..])) else None
  }

  function FieldsOf(b: seq<byte>): Option<seq<seq<byte>>>
    decreases |b|
  {
    if b == [] then Some([])
    else if Unframed(b).None? || |Unframed(b).value.1| >= |b| then None
    else
      var rest := FieldsOf(Unframed(b).value.1);
      if rest.None? then None else Some([Unframed(b).value.0] + rest.value)
  }

  lemma {:induction false} NumberReads(n: nat)
    ensures Number(Encode(Decimal.Print(n))) == n && (':' as nat) !in Encode(Decimal.Print(n))
  {
    var s := Decimal.Print(n);
    var b := Encode(s);
    EncodeAscii(s);
    Decimal.ReadPrint(n);
    assert seq(|b|, i requires 0 <= i < |b| => b[i] as char) == s;
  }

  lemma {:induction false} UnframedFramed(f: seq<byte>, rest: seq<byte>)
    ensures Unframed(Framed(f) + rest) == Some((f, rest))
  {
    var digits := Encode(Decimal.Print(|f|));
    NumberReads(|f|);
    assert Framed(f) + rest == digits + ([':' as nat] + (f + (['\n' as nat] + rest)));
    FrameParts(digits, f, rest);
  }

  lemma {:induction false} FrameParts(digits: seq<byte>, f: seq<byte>, rest: seq<byte>)
    requires (':' as nat) !in digits
    ensures var b, k := digits + ([':' as nat] + (f + (['\n' as nat] + rest))), |digits|;
      && |b| == k + 2 + |f| + |rest| && FirstAt(b, ':' as nat) == k && b[..k] == digits
      && b[k + 1..k + 1 + |f|] == f && b[k + 1 + |f|] == '\n' as nat && b[k + 2 + |f|..] == rest
  {
    var b := digits + ([':' as nat] + (f + (['\n' as nat] + rest)));
    assert b[|digits|] == ':' as nat && forall i :: 0 <= i < |digits| ==> b[i] == digits[i];
  }

  /** Read field by field the material gives the fields back. */
  lemma {:induction false} MaterialDecodes(fs: seq<seq<byte>>)
    ensures FieldsOf(Material(fs)) == Some(fs)
  {
    if fs != [] {
      UnframedFramed(fs[0], Material(fs[1..]));
      MaterialDecodes(fs[1..]);
      assert fs == [fs[0]] + fs[1..];
    }
  }

  /** A fingerprint is the hash of bytes that read as tag, repository, external id and generation. */
  lemma {:induction false} DigestCovers(build: Build, repo: string, ext: string, gen: string) returns (material: seq<byte>)
    ensures Digest(build, repo, ext, gen) == build.hash(material)
    ensures FieldsOf(material) == Some([Encode(build.tag), Encode(repo), Encode(ext), Encode(gen)])
  {
    material := Material(Fields(build.tag, repo, ext, gen));
    MaterialDecodes(Fields(build.tag, repo, ext, gen));
  }

  // ---- different work, different changes -----------------------------------------------------------

  lemma {:induction false} SafeHasNoMarks(s: string)
    requires SafeSegment(s)
    ensures ':' !in s && '/' !in s && Ascii(s)
  {
    forall i | 0 <= i < |s|
      ensures s[i] != ':' && s[i] != '/' && s[i] as nat < 0x80
    {
      assert SafeChar(s[i]);
    }
  }

  lemma {:induction false} RepoHasNoColon(repo: string)
    requires SplitRepo(repo).Ok?
    ensures ':' !in repo
  {
    var k := Text.Find(repo, '/');
    SafeHasNoMarks(repo[..k]);
    SafeHasNoMarks(repo[k + 1..]);
    assert repo == repo[..k] + [repo[k]] + repo[k + 1..];
  }

  /** A change id can be read back into its three parts. */
  lemma {:induction false} BoundReads(ns: string, repo: string, tail: string, ns': string, repo': string, tail': string)
    requires ':' !in ns && ':' !in ns' && ':' !in repo && ':' !in repo'
    requires Bound(ns, repo, tail) == Bound(ns', repo', tail')
    ensures ns == ns' && repo == repo' && tail == tail'
  {
    assert Bound(ns, repo, tail) == ns + ([':'] + (repo + ([':'] + tail)));
    assert Bound(ns', repo', tail') == ns' + ([':'] + (repo' + ([':'] + tail')));
    Text.Cut(ns, ns', ':', repo + ([':'] + tail), repo' + ([':'] + tail'));
    Text.Cut(repo, repo', ':', tail, tail');
  }

  lemma {:induction false} FieldsRead(tag: string, repo: string, ext: string, gen: string,
                                      tag': string, repo': string, ext': string, gen': string)
    requires Material(Fields(tag, repo, ext, gen)) == Material(Fields(tag', repo', ext', gen'))
    ensures tag == tag' && repo == repo' && ext == ext' && gen == gen'
  {
    var f, g := Fields(tag, repo, ext, gen), Fields(tag', repo', ext', gen');
    MaterialReads(f, g);
    assert f[0] == g[0] && f[1] == g[1] && f[2] == g[2] && f[3] == g[3];
    EncodeInjective(tag, tag');
    EncodeInjective(repo, repo');
    EncodeInjective(ext, ext');
    EncodeInjective(gen, gen');
  }

  ghost predicate Usable(ns: string, repo: string) {
    ':' !in ns && ':' !in repo
  }

  lemma {:induction false} ExternalParts(build: Build, ns: string, repo: string, key: string, ext: string, gen: string)
    requires IdentityFromExternal(build, ns, repo, key, ext, gen).Ok?
    ensures var i := IdentityFromExternal(build, ns, repo, key, ext, gen).value;
      && Usable(ns, repo)
      && i.changeId == Bound(ns, repo, Digest(build, repo, ext, gen))
      && i.idempotencyKey == Bound(ns + "-create", repo, Digest(build, repo, ext, gen))
  {
    SafeHasNoMarks(ns);
    RepoHasNoColon(repo);
  }

  /** Retry keys tell what change ids tell, and within a namespace none is a change id. */
  lemma {:induction false} RetryKeyReads(ns: string, repo: string, tail: string, ns': string, repo': string, tail': string)
    requires Usable(ns, repo) && Usable(ns', repo')
    ensures Bound(ns + "-create", repo, tail) == Bound(ns' + "-create", repo', tail') <==> Bound(ns, repo, tail) == Bound(ns', repo', tail')
    ensures Bound(ns + "-create", repo, tail) != Bound(ns, repo', tail')
  {
    var make := "-create";
    assert ':' !in make;
    if Bound(ns + make, repo, tail) == Bound(ns' + make, repo', tail') {
      BoundReads(ns + make, repo, tail, ns' + make, repo', tail');
      Text.SameTail(ns, ns', make);
    }
    if Bound(ns, repo, tail) == Bound(ns', repo', tail') {
      BoundReads(ns, repo, tail, ns', repo', tail');
    }
    if Bound(ns + make, repo, tail) == Bound(ns, repo', tail') {
      BoundReads(ns + make, repo, tail, ns, repo', tail');
    }
  }

  lemma {:induction false} BoundDigestReads(hash: HashFn, tag: string, ns: string, repo: string, ext: string, gen: string,
                                            tag': string, ns': string, repo': string, ext': string, gen': string)
    requires Injective(hash) && Usable(ns, repo) && Usable(ns', repo')
    requires Bound(ns, repo, Digest(Build(hash, tag), repo, ext, gen)) == Bound(ns', repo', Digest(Build(hash, tag'), repo', ext', gen'))
    ensures tag == tag' && ns == ns' && repo == repo' && ext == ext' && gen == gen'
  {
    BoundReads(ns, repo, Digest(Build(hash, tag), repo, ext, gen), ns', repo', Digest(Build(hash, tag'), repo', ext', gen'));
    FieldsRead(tag, repo, ext, gen, tag', repo', ext', gen');
  }

  /** Two attempts share a change exactly when they are the same work under the same derivation rules:
      same tag, orchestrator, repository, external id and generation; the readable key plays no part. */
  lemma {:induction false} SameChangeSameWork(hash: HashFn, tag: string, ns: string, repo: string, key: string, ext: string, gen: string,
                                              tag': string, ns': string, repo': string, key': string, ext': string, gen': string)
    requires Injective(hash)
    requires IdentityFromExternal(Build(hash, tag), ns, repo, key, ext, gen).Ok?
    requires IdentityFromExternal(Build(hash, tag'), ns', repo', key', ext', gen').Ok?
    ensures var i := IdentityFromExternal(Build(hash, tag), ns, repo, key, ext, gen).value;
      var j := IdentityFromExternal(Build(hash, tag'), ns', repo', key', ext', gen').value;
      && (i.changeId == j.changeId <==> tag == tag' && ns == ns' && repo == repo' && ext == ext' && gen == gen')
      && (i.changeId == j.changeId <==> i.idempotencyKey == j.idempotencyKey)
  {
    ExternalParts(Build(hash, tag), ns, repo, key, ext, gen);
    ExternalParts(Build(hash, tag'), ns', repo', key', ext', gen');
    RetryKeyReads(ns, repo, Digest(Build(hash, tag), repo, ext, gen), ns', repo', Digest(Build(hash, tag'), repo', ext', gen'));
    if Bound(ns, repo, Digest(Build(hash, tag), repo, ext, gen)) == Bound(ns', repo', Digest(Build(hash, tag'), repo', ext', gen')) {
      BoundDigestReads(hash, tag, ns, repo, ext, gen, tag', ns', repo', ext', gen');
    }
  }

  /** Under the other scheme the name is the identity. */
  lemma {:induction false} SameChangeSameName(ns: string, repo: string, name: string, ns': string, repo': string, name': string)
    requires IdentityFromName(ns, repo, name).Ok? && IdentityFromName(ns', repo', name').Ok?
    requires IdentityFromName(ns, repo, name).value.changeId == IdentityFromName(ns', repo', name').value.changeId
    ensures ns == ns' && repo == repo' && name == name'
  {
    SafeHasNoMarks(ns);
    SafeHasNoMarks(ns');
    RepoHasNoColon(repo);
    RepoHasNoColon(repo');
    BoundReads(ns, repo, name, ns', repo', name');
  }

  lemma {:induction false} NamedParts(ns: string, repo: string, name: string)
    requires IdentityFromName(ns, repo, name).Ok?
    ensures Usable(ns, repo) && IdentityFromName(ns, repo, name).value.changeId == Bound(ns, repo, name)
  {
    SafeHasNoMarks(ns);
    RepoHasNoColon(repo);
  }

  /** Across the schemes a named workspace shares the change of a fingerprinted one exactly when it is in
      the same namespace and repository and its name spells the fingerprint. */
  lemma {:induction false} SchemesCollide(build: Build, ns: string, repo: string, key: string, ext: string, gen: string,
                                          ns': string, repo': string, name: string)
    requires IdentityFromExternal(build, ns, repo, key, ext, gen).Ok? && IdentityFromName(ns', repo', name).Ok?
    ensures IdentityFromExternal(build, ns, repo, key, ext, gen).value.changeId == IdentityFromName(ns', repo', name).value.changeId <==>
            ns == ns' && repo == repo' && name == Digest(build, repo, ext, gen)
  {
    var digest := Digest(build, repo, ext, gen);
    ExternalParts(build, ns, repo, key, ext, gen);
    NamedParts(ns', repo', name);
    if Bound(ns, repo, digest) == Bound(ns', repo', name) {
      BoundReads(ns, repo, digest, ns', repo', name);
    }
  }

  /** Such a name is accepted exactly when the fingerprint is a safe segment of at most 160 characters, as
      a hexadecimal digest is. */
  lemma {:induction false} DigestCanBeName(build: Build, ns: string, repo: string, key: string, ext: string, gen: string)
    requires IdentityFromExternal(build, ns, repo, key, ext, gen).Ok?
    ensures var digest := Digest(build, repo, ext, gen);
      IdentityFromName(ns, repo, digest).Ok? <==> SafeSegment(digest) && |digest| <= 160
  {
    var digest := Digest(build, repo, ext, gen);
    if SafeSegment(digest) {
      SafeHasNoMarks(digest);
      AsciiLength(digest);
    }
  }

  // ---- proposals -----------------------------------------------------------------------------------------

  lemma {:induction false} OwnNames()
    ensures SafeSegment(NAMESPACE) && Len(GENERATION) == 1
  {
    AsciiLength(GENERATION);
  }

  /** A proposal is refused exactly for a detached head, a bad target, a bad repository, a branch name
      over 512 bytes, or a label over 160 characters; never because the label is unsafe. */
  lemma {:induction false} DeriveSucceeds(build: Build, repo: string, branch: string, onto: string)
    ensures Derive(build, repo, branch, onto).Ok? <==>
            && branch != "" && SafeSegment(onto) && SplitRepo(repo).Ok?
            && Len(branch) <= 512 && |WorkspaceKey(branch)| <= 160
    ensures Derive(build, repo, branch, onto).Refused? ==>
              Derive(build, repo, branch, onto).why ==
              if branch == "" then DetachedHead
              else if !SafeSegment(onto) then BadTarget
              else if SplitRepo(repo).Refused? then SplitRepo(repo).why
              else if |WorkspaceKey(branch)| > 160 then BadName
              else BadExternalId
  {
    OwnNames();
    SafeHasNoMarks(WorkspaceKey(branch));
    AsciiLength(WorkspaceKey(branch));
  }

  lemma {:induction false} PlainKey(branch: string)
    requires branch != "" && forall i :: 0 <= i < |branch| ==> Alphanumeric(branch[i])
    ensures WorkspaceKey(branch) == branch
  {
    MappedPlain(branch);
  }

  lemma {:induction false} MappedPlain(s: string)
    requires forall i :: 0 <= i < |s| ==> Alphanumeric(s[i])
    ensures Mapped(s) == s
  {
    if s != "" {
      MappedPlain(s[1..]);
    }
  }

  /** So a plain branch name between 161 and 512 characters is refused, though every bound on branch
      names themselves allows it. */
  lemma {:induction false} LongPlainBranchRefused(build: Build, repo: string, branch: string, onto: string)
    requires 160 < |branch| <= 512 && forall i :: 0 <= i < |branch| ==> Alphanumeric(branch[i])
    ensures Derive(build, repo, branch, onto).Refused? && Len(branch) <= 512
  {
    PlainKey(branch);
    DeriveSucceeds(build, repo, branch, onto);
    assert Ascii(branch);
    AsciiLength(branch);
  }

  /** What a proposal asks for and where its work is: the branch to land on, as a full name; the workspace,
      under its repository, whose name begins with the namespace and ends in the start of the fingerprint. */
  lemma {:induction false} ProposalSays(build: Build, repo: string, branch: string, onto: string)
    requires Derive(build, repo, branch, onto).Ok?
    ensures var p, digest := Derive(build, repo, branch, onto).value, Digest(build, repo, branch, GENERATION);
      var name := p.identity.workspaceName;
      && p.targetRef == "refs/heads/" + onto && p.identity.scheme == FromExternal && p.identity.fingerprint == digest
      && p.identity.workspaceId == repo + "/" + name
      && |name| == 8 + Min(|WorkspaceKey(branch)|, 80) + 1 + Min(|digest|, 16) && "propose-" <= name
      && (|digest| >= 16 ==> name[|name| - 16..] == digest[..16])
  {
    var digest := Digest(build, repo, branch, GENERATION);
    var front := NAMESPACE + "-" + Take(WorkspaceKey(branch), KEY_PREFIX) + "-";
    var name := Derive(build, repo, branch, onto).value.identity.workspaceName;
    assert name == front + Take(digest, FINGERPRINT_IN_NAME);
    assert NAMESPACE + "-" <= front && |NAMESPACE + "-"| == 8;
  }

  /** A fingerprinted identity is refused for its repository, its namespace, its key, its external id or its
      generation, whichever is wrong first. */
  lemma {:induction false} ExternalRefused(build: Build, ns: string, repo: string, key: string, ext: string, gen: string)
    ensures IdentityFromExternal(build, ns, repo, key, ext, gen).Ok? <==>
            && SplitRepo(repo).Ok? && SafeSegment(ns) && SafeSegment(key) && |key| <= 160
            && 1 <= Len(ext) <= 512 && 1 <= Len(gen) <= 512
    ensures IdentityFromExternal(build, ns, repo, key, ext, gen).Refused? ==>
              IdentityFromExternal(build, ns, repo, key, ext, gen).why ==
              if SplitRepo(repo).Refused? then SplitRepo(repo).why
              else if !SafeSegment(ns) then UnsafeNamespace
              else if !SafeSegment(key) || |key| > 160 then BadName
              else if Len(ext) == 0 || Len(ext) > 512 then BadExternalId
              else BadGeneration
  {
    assert Encode("") == [];
    if SafeSegment(key) {
      SafeHasNoMarks(key);
      AsciiLength(key);
    }
  }

  /** Different branches are different changes, even when their labels read alike. */
  lemma {:induction false} BranchesStayApart(build: Build, repo: string, branch: string, onto: string, repo': string, branch': string, onto': string)
    requires Injective(build.hash)
    requires Derive(build, repo, branch, onto).Ok? && Derive(build, repo', branch', onto').Ok?
    ensures Derive(build, repo, branch, onto).value.identity.changeId == Derive(build, repo', branch', onto').value.identity.changeId
            <==> repo == repo' && branch == branch'
  {
    SameChangeSameWork(build.hash, build.tag, NAMESPACE, repo, WorkspaceKey(branch), branch, GENERATION,
                       build.tag, NAMESPACE, repo', WorkspaceKey(branch'), branch', GENERATION);
  }

  lemma {:induction false} JoinSafe(a: string, b: string)
    requires SafeSegment(a) && forall i :: 0 <= i < |b| ==> SafeChar(b[i])
    ensures SafeSegment(a + "-" + b)
  {
  }

  /** A workspace name made from an external identity is one safe path segment. */
  lemma {:induction false} NameIsSafe(build: Build, ns: string, repo: string, key: string, ext: string, gen: string)
    requires IdentityFromExternal(build, ns, repo, key, ext, gen).Ok?
    requires forall i :: 0 <= i < |Digest(build, repo, ext, gen)| ==> SafeChar(Digest(build, repo, ext, gen)[i])
    ensures SafeSegment(IdentityFromExternal(build, ns, repo, key, ext, gen).value.workspaceName)
  {
    JoinSafe(ns, Take(key, KEY_PREFIX));
    JoinSafe(ns + "-" + Take(key, KEY_PREFIX), Take(Digest(build, repo, ext, gen), FINGERPRINT_IN_NAME));
  }

  /** The ref a revision is kept under tells the workspace and the commit, when digests are safe text. */
  lemma {:induction false} RevisionRefReads(p: Proposal, commit: string, p': Proposal, commit': string)
    requires SafeSegment(p.identity.workspaceName) && SafeSegment(p'.identity.workspaceName)
    ensures RevisionRef(p, commit) == RevisionRef(p', commit') <==>
            p.identity.workspaceName == p'.identity.workspaceName && commit == commit'
    ensures "refs/proposals/" <= RevisionRef(p, commit)
  {
    var a, b := p.identity.workspaceName, p'.identity.workspaceName;
    SafeHasNoMarks(a);
    SafeHasNoMarks(b);
    if RevisionRef(p, commit) == RevisionRef(p', commit') {
      RefTail(PROPOSALS, a, commit, b, commit');
      Text.Cut(a, b, '/', commit, commit');
    }
  }

  lemma {:induction false} RefTail(head: string, a: string, c: string, b: string, d: string)
    requires head + a + "/" + c == head + b + "/" + d
    ensures a + (['/'] + c) == b + (['/'] + d)
  {
    assert head + a + "/" + c == head + (a + (['/'] + c));
    assert head + b + "/" + d == head + (b + (['/'] + d));
    assert (head + (a + (['/'] + c)))[|head|..] == a + (['/'] + c);
    assert (head + (b + (['/'] + d)))[|head|..] == b + (['/'] + d);
  }

  // ---- names and paths ---------------------------------------------------------------------------------

  /** A repository is accepted exactly when it is two safe segments with a slash between them, and is told
      apart into just those. */
  lemma {:induction false} RepoIsTwoSegments(repo: string, owner: string, name: string)
    ensures SplitRepo(repo) == Made.Ok((owner, name)) <==> SafeSegment(owner) && SafeSegment(name) && repo == owner + "/" + name
  {
    if SafeSegment(owner) && SafeSegment(name) && repo == owner + "/" + name {
      SafeHasNoMarks(owner);
      SafeHasNoMarks(name);
      assert repo[|owner|] == '/' && repo[..|owner|] == owner && repo[|owner| + 1..] == name;
      Text.FindIs(repo, '/', |owner|);
    }
    if SplitRepo(repo) == Made.Ok((owner, name)) {
      var k := Text.Find(repo, '/');
      assert repo == repo[..k] + "/" + repo[k + 1..];
    }
  }

  /** Refused for its slashes, or for what is around the only one. */
  lemma {:induction false} RepoRefused(repo: string)
    ensures SplitRepo(repo) == Refused(NotOwnerRepo) <==> !exists i :: OnlySlash(repo, i)
    ensures SplitRepo(repo).Refused? ==> SplitRepo(repo).why == NotOwnerRepo || SplitRepo(repo).why == UnsafeRepo
  {
    var k := Text.Find(repo, '/');
    if k < |repo| && '/' !in repo[k + 1..] {
      assert forall j :: k < j < |repo| ==> repo[j] == repo[k + 1..][j - k - 1];
      assert OnlySlash(repo, k);
    }
    if exists i :: OnlySlash(repo, i) {
      var i :| OnlySlash(repo, i);
      Text.FindIs(repo, '/', i);
      assert '/' !in repo[i + 1..];
    }
  }

  ghost predicate OnlySlash(repo: string, i: int) {
    0 <= i < |repo| && repo[i] == '/' && forall j :: 0 <= j < |repo| && j != i ==> repo[j] != '/'
  }

  /** What a workspace that goes by its name is: the name is the directory and, with namespace and repository,
      the change. */
  lemma {:induction false} NamedSays(ns: string, repo: string, name: string)
    ensures IdentityFromName(ns, repo, name).Ok? <==> SplitRepo(repo).Ok? && SafeSegment(ns) && SafeSegment(name) && |name| <= 160
    ensures IdentityFromName(ns, repo, name).Refused? ==>
              IdentityFromName(ns, repo, name).why ==
              if SplitRepo(repo).Refused? then SplitRepo(repo).why else if !SafeSegment(ns) then UnsafeNamespace else BadName
    ensures IdentityFromName(ns, repo, name).Ok? ==>
              var i := IdentityFromName(ns, repo, name).value;
              && i.workspaceName == name && i.workspaceId == repo + "/" + name && i.fingerprint == "" && i.scheme == FromName
              && i.changeId == Bound(ns, repo, name) && i.idempotencyKey == Bound(ns + "-create", repo, name)
  {
    if SafeSegment(name) {
      SafeHasNoMarks(name);
      AsciiLength(name);
    }
  }

  /** Kept in a label as it is. */
  predicate Plain(c: char) {
    Alphanumeric(c) || c == '.' || c == '_'
  }

  /** The label of a branch is the branch from its first letter or digit on, with a dash for every character
      that is not plain; a branch without either is called `branch`. */
  lemma {:induction false} LabelReads(branch: string) returns (k: nat)
    ensures k <= |branch| && forall i :: 0 <= i < k ==> !Alphanumeric(branch[i])
    ensures k == |branch| ==> WorkspaceKey(branch) == "branch"
    ensures k < |branch| ==> Alphanumeric(branch[k]) && |WorkspaceKey(branch)| == |branch| - k
    ensures forall i :: k <= i < |branch| ==> WorkspaceKey(branch)[i - k] == if Plain(branch[i]) then branch[i] else '-'
  {
    MappedReads(branch);
    k := TrimmedFrom(Mapped(branch));
  }

  lemma {:induction false} MappedReads(branch: string)
    ensures forall i :: 0 <= i < |branch| ==> Mapped(branch)[i] == if Plain(branch[i]) then branch[i] else '-'
  {
    if branch != "" {
      MappedReads(branch[1..]);
    }
  }

  lemma {:induction false} TrimmedFrom(s: string) returns (k: nat)
    ensures k <= |s| && (forall i :: 0 <= i < k ==> !Alphanumeric(s[i])) && (k < |s| ==> Alphanumeric(s[k]))
    ensures TrimUnsafeStart(s) == s[k..]
  {
    if s != "" && !Alphanumeric(s[0]) {
      k := TrimmedFrom(s[1..]);
      assert s[1..][k..] == s[k + 1..];
      k := k + 1;
    } else {
      k := 0;
    }
  }
}
