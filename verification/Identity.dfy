/** The identifiers of a writing attempt (crates/choir-cli/src/runner.rs, propose.rs): what goes into
    them, when they are refused, and that different work never shares a change. */
module Identity {
  import opened Sequences
  import opened Utf8
  import Decimal
  import Text

  const MAX_IDENTIFIER := 512
  const MAX_WORKSPACE_KEY := 160
  const KEY_PREFIX := 80
  const FINGERPRINT_IN_NAME := 16
  const NAMESPACE := "propose"
  const GENERATION := "1"

  datatype Refusal =
    NotOwnerRepo | UnsafeRepo | UnsafeNamespace | BadName | BadExternalId | BadGeneration | DetachedHead | BadTarget

  datatype Made<+T> = Ok(value: T) | Refused(why: Refusal)

  /** `len()`, which counts bytes. */
  function Len(s: string): nat {
    |Encode(s)|
  }

  predicate Alphanumeric(c: char) {
    '0' <= c <= '9' || 'A' <= c <= 'Z' || 'a' <= c <= 'z'
  }

  predicate SafeChar(c: char) {
    Alphanumeric(c) || c == '.' || c == '_' || c == '-'
  }

  predicate SafeSegment(s: string) {
    s != "" && Alphanumeric(s[0]) && forall i :: 0 <= i < |s| ==> SafeChar(s[i])
  }

  /** Exactly `owner/repo`, both safe. */
  function SplitRepo(repo: string): Made<(string, string)> {
    var k := Text.Find(repo, '/');
    if k == |repo| || '/' in repo[k + 1..] then Refused(NotOwnerRepo)
    else if !SafeSegment(repo[..k]) || !SafeSegment(repo[k + 1..]) then Refused(UnsafeRepo)
    else Ok((repo[..k], repo[k + 1..]))
  }

  datatype Scheme = FromName | FromExternal

  datatype Identity = Identity(
    workspaceName: string,
    workspaceId: string,
    changeId: string,
    idempotencyKey: string,
    fingerprint: string,
    scheme: Scheme)

  /** `<namespace>:<repo>:<tail>`, the spelling of change ids and retry keys. */
  function Bound(namespace: string, repo: string, tail: string): string {
    namespace + ":" + repo + ":" + tail
  }

  function IdentityFromName(namespace: string, repo: string, name: string): Made<Identity> {
    if SplitRepo(repo).Refused? then Refused(SplitRepo(repo).why)
    else if !SafeSegment(namespace) then Refused(UnsafeNamespace)
    else if !SafeSegment(name) || Len(name) > MAX_WORKSPACE_KEY then Refused(BadName)
    else Ok(Identity(name, repo + "/" + name, Bound(namespace, repo, name), Bound(namespace + "-create", repo, name), "", FromName))
  }

  // ---- the fingerprinted material --------------------------------------------------------------

  /** A field with its length in front: `<bytes>:<field>\n`. */
  function Framed(field: seq<byte>): (f: seq<byte>)
    ensures |f| > |field| + 1
  {
    Encode(Decimal.Print(|field|)) + ([':' as nat] + (field + ['\n' as nat]))
  }

  function Material(fields: seq<seq<byte>>): seq<byte> {
    if fields == [] then [] else Framed(fields[0]) + Material(fields[1..])
  }

  /** A digest of bytes, as hexadecimal text. */
  type HashFn = seq<byte> -> string

  /** What a build brings to a derivation: the digest, and the tag of its derivation rules. */
  datatype Build = Build(hash: HashFn, tag: string)

  /** The loop that frames the fields one after the other. */
  method Frame(fields: seq<seq<byte>>) returns (material: seq<byte>)
    ensures material == Material(fields)
  {
    material := [];
    var i := 0;
    while i < |fields|
      invariant i <= |fields|
      invariant material + Material(fields[i..]) == Material(fields)
    {
      var field := fields[i];
      assert fields[i..][1..] == fields[i + 1..];
      InFive(material, Encode(Decimal.Print(|field|)), [':' as nat], field, ['\n' as nat]);
      Assoc(material, Framed(field), Material(fields[i + 1..]));
      material := material + Encode(Decimal.Print(|field|));
      material := material + [':' as nat];
      material := material + field;
      material := material + ['\n' as nat];
      i := i + 1;
    }
    assert material + [] == material;
  }

  function Fields(tag: string, repo: string, externalId: string, generation: string): seq<seq<byte>> {
    [Encode(tag), Encode(repo), Encode(externalId), Encode(generation)]
  }

  function Digest(build: Build, repo: string, externalId: string, generation: string): string {
    build.hash(Material(Fields(build.tag, repo, externalId, generation)))
  }

  function Take(s: string, n: nat): string {
    if |s| <= n then s else s[..n]
  }

  function IdentityFromExternal(build: Build, namespace: string, repo: string, key: string, externalId: string, generation: string): Made<Identity> {
    if SplitRepo(repo).Refused? then Refused(SplitRepo(repo).why)
    else if !SafeSegment(namespace) then Refused(UnsafeNamespace)
    else if !SafeSegment(key) || Len(key) > MAX_WORKSPACE_KEY then Refused(BadName)
    else if externalId == "" || Len(externalId) > MAX_IDENTIFIER then Refused(BadExternalId)
    else if generation == "" || Len(generation) > MAX_IDENTIFIER then Refused(BadGeneration)
    else
      var digest := Digest(build, repo, externalId, generation);
      var name := namespace + "-" + Take(key, KEY_PREFIX) + "-" + Take(digest, FINGERPRINT_IN_NAME);
      Ok(Identity(name, repo + "/" + name, Bound(namespace, repo, digest), Bound(namespace + "-create", repo, digest), digest, FromExternal))
  }

  // ---- proposals -----------------------------------------------------------------------------------

  function Mapped(branch: string): (s: string)
    ensures |s| == |branch|
    ensures forall i :: 0 <= i < |s| ==> SafeChar(s[i])
  {
    if branch == "" then ""
    else [if Alphanumeric(branch[0]) || branch[0] == '.' || branch[0] == '_' then branch[0] else '-'] + Mapped(branch[1..])
  }

  function TrimUnsafeStart(s: string): (r: string)
    ensures |r| <= |s| && (r == "" || Alphanumeric(r[0]))
    ensures (forall i :: 0 <= i < |s| ==> SafeChar(s[i])) ==> forall i :: 0 <= i < |r| ==> SafeChar(r[i])
  {
    if s != "" && !Alphanumeric(s[0]) then TrimUnsafeStart(s[1..]) else s
  }

  /** A readable, lossy directory label for a branch. */
  function WorkspaceKey(branch: string): (key: string)
    ensures SafeSegment(key)
  {
    var trimmed := TrimUnsafeStart(Mapped(branch));
    if trimmed == "" then "branch" else trimmed
  }

  datatype Proposal = Proposal(identity: Identity, targetRef: string)

  function Derive(build: Build, repo: string, branch: string, onto: string): Made<Proposal> {
    if branch == "" then Refused(DetachedHead)
    else if !SafeSegment(onto) then Refused(BadTarget)
    else
      var identity := IdentityFromExternal(build, NAMESPACE, repo, WorkspaceKey(branch), branch, GENERATION);
      if identity.Refused? then Refused(identity.why)
      else Ok(Proposal(identity.value, "refs/heads/" + onto))
  }

  const PROPOSALS := "refs/proposals/"

  function RevisionRef(p: Proposal, commit: string): string {
    PROPOSALS + p.identity.workspaceName + "/" + commit
  }
}
