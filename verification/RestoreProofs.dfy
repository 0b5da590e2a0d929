/** What any sequence of restore runs, cuts and operator decisions leaves in the target. */
module RestoreProofs {
  import opened Basics
  import opened Sequences
  import opened Restore

  // ---- one field at a time ------------------------------------------------------------------------

  lemma {:induction false} SimpleFields(b: Backup, root: Root, ws: seq<Write>)
    ensures var r := DoAll(b, root, ws);
      && r.log == (if PlaceLog in ws then Some(b.log) else root.log)
      && r.fingerprint == (if PlaceFingerprint in ws && b.fingerprint.Some? then b.fingerprint else root.fingerprint)
      && r.snapshot == (if PlaceSnapshot in ws && b.snapshot.Some? then b.snapshot else root.snapshot)
      && r.key == root.key && r.auth == root.auth
  {
    if ws != [] {
      SimpleFields(b, root, ws[..|ws| - 1]);
      AtEnd(ws, PlaceLog);
      AtEnd(ws, PlaceFingerprint);
      AtEnd(ws, PlaceSnapshot);
    }
  }

  lemma {:induction false} PolicyAfter(b: Backup, root: Root, ws: seq<Write>, n: string)
    ensures var r := DoAll(b, root, ws);
      var written := n in b.policy && PlacePolicy(n) in ws;
      && (n in r.policy <==> n in root.policy || written)
      && (n in r.policy ==> r.policy[n] == if written then b.policy[n] else root.policy[n])
  {
    if ws != [] {
      PolicyAfter(b, root, ws[..|ws| - 1], n);
      AtEnd(ws, PlacePolicy(n));
    }
  }

  lemma {:induction false} RepoAfter(b: Backup, root: Root, ws: seq<Write>, p: string)
    ensures var r := DoAll(b, root, ws);
      && (p in r.repos <==> p in root.repos || (p in b.bundles && Unbundle(p) in ws))
      && (p in r.repos ==> r.repos[p] == if p in root.repos then root.repos[p] else b.bundles[p])
  {
    if ws != [] {
      RepoAfter(b, root, ws[..|ws| - 1], p);
      AtEnd(ws, Unbundle(p));
    }
  }

  // ---- which writes there are --------------------------------------------------------------------------

  lemma {:induction false} PolicyWritesAre(b: Backup, names: seq<string>)
    ensures forall w :: w in PolicyWrites(b, names) <==> w.PlacePolicy? && w.name in names && w.name in b.policy
  {
    if names != [] {
      var k := |names| - 1;
      PolicyWritesAre(b, names[..k]);
      assert names == names[..k] + [names[k]];
    }
  }

  lemma {:induction false} RepoWritesAre(repos: seq<string>)
    ensures forall w :: w in RepoWrites(repos) <==> w.Unbundle? && w.repo in repos
  {
    if repos != [] {
      var k := |repos| - 1;
      RepoWritesAre(repos[..k]);
      assert repos == repos[..k] + [repos[k]];
    }
  }

  lemma {:induction false} WritesAre(b: Backup, names: seq<string>, resume: bool)
    ensures var ws := Writes(b, names, resume);
      && PlaceLog in ws
      && (PlaceFingerprint in ws <==> !resume && b.fingerprint.Some?)
      && (PlaceSnapshot in ws <==> b.snapshot.Some?)
      && (forall n :: PlacePolicy(n) in ws <==> n in names && n in b.policy)
      && (forall r :: Unbundle(r) in ws <==> r in b.repos)
  {
    PolicyWritesAre(b, names);
    RepoWritesAre(b.repos);
  }

  lemma {:induction false} AtFront<T>(a: seq<T>, rest: seq<T>, x: T, k: nat)
    requires |a| == 1 && k <= |a + rest| && x !in rest
    ensures x in (a + rest)[..k] <==> a[0] == x && k >= 1
    ensures a[0] != x ==> x !in a + rest
  {
    var ws := a + rest;
    assert k >= 1 ==> ws[..k][0] == a[0];
    assert forall i :: 1 <= i < |ws| ==> ws[i] == rest[i - 1];
  }

  lemma {:induction false} AtSecond<T>(a: seq<T>, b: seq<T>, rest: seq<T>, x: T, k: nat)
    requires |a| == 1 && |b| <= 1 && k <= |a + (b + rest)| && x !in rest && a[0] != x
    ensures x in (a + (b + rest))[..k] <==> b == [x] && k >= 2
  {
    var ws := a + (b + rest);
    assert k >= 2 && b != [] ==> ws[..k][1] == b[0];
    assert forall i :: 1 + |b| <= i < |ws| ==> ws[i] == rest[i - 1 - |b|];
  }

  lemma {:induction false} FirstWrites(b: Backup, names: seq<string>, resume: bool, k: nat)
    requires k <= |Writes(b, names, resume)|
    ensures PlaceLog in Writes(b, names, resume)[..k] <==> k >= 1
    ensures PlaceFingerprint in Writes(b, names, resume)[..k] <==> k >= 2 && !resume && b.fingerprint.Some?
  {
    var pin := if !resume && b.fingerprint.Some? then [PlaceFingerprint] else [];
    var rest := (if b.snapshot.Some? then [PlaceSnapshot] else []) + PolicyWrites(b, names) + RepoWrites(b.repos);
    PolicyWritesAre(b, names);
    RepoWritesAre(b.repos);
    assert Writes(b, names, resume) == [PlaceLog] + (pin + rest);
    assert PlaceFingerprint !in rest && PlaceLog !in pin + rest;
    AtFront([PlaceLog], pin + rest, PlaceLog, k);
    AtSecond([PlaceLog], pin, rest, PlaceFingerprint, k);
  }

  /** The log is the first write and the fingerprint, on a fresh run, the second; neither comes again. */
  lemma {:induction false} WriteAt(b: Backup, names: seq<string>, resume: bool, k: nat)
    requires k < |Writes(b, names, resume)|
    ensures Writes(b, names, resume)[k] == PlaceLog <==> k == 0
    ensures Writes(b, names, resume)[k] == PlaceFingerprint <==> k == 1 && !resume && b.fingerprint.Some?
  {
    var ws := Writes(b, names, resume);
    var pin := if !resume && b.fingerprint.Some? then [PlaceFingerprint] else [];
    var rest := (if b.snapshot.Some? then [PlaceSnapshot] else []) + PolicyWrites(b, names) + RepoWrites(b.repos);
    PolicyWritesAre(b, names);
    RepoWritesAre(b.repos);
    assert ws == [PlaceLog] + (pin + rest);
    if k > |pin| {
      assert ws[k] == rest[k - 1 - |pin|];
      assert ws[k] in rest;
    }
  }

  lemma {:induction false} LongEnough(b: Backup, names: seq<string>, resume: bool)
    ensures |Writes(b, names, resume)| >= if !resume && b.fingerprint.Some? then 2 else 1
  {
  }

  /** The log after a run that went ahead. */
  function LogAfter(b: Backup, before: Option<string>, cut: Cut): Option<string> {
    if cut.writes >= 1 then Some(b.log) else if cut.part.Some? then Some(Piece(b.log, cut.part)) else before
  }

  /** The pin after a fresh run, if the backup has one. */
  function PinAfter(b: Backup, before: Option<string>, cut: Cut): Option<string> {
    if b.fingerprint.None? then before
    else if cut.writes >= 2 then b.fingerprint
    else if cut.writes == 1 && cut.part.Some? then Some(Piece(b.fingerprint.value, cut.part))
    else before
  }

  /** The writes a run has finished, and the one it was cut in. */
  lemma {:induction false} RunParts(b: Backup, names: seq<string>, root: Root, cut: Cut, ws: seq<Write>)
    requires ResumingSpec(root, b).Some? && ws == Writes(b, names, ResumingSpec(root, b).value)
    ensures var r := RunSpec(b, names, root, cut).0;
      && (cut.writes >= |ws| ==> r == DoAll(b, root, ws[..|ws|]))
      && (cut.writes < |ws| && cut.part.None? ==> r == DoAll(b, root, ws[..cut.writes]))
      && (cut.writes < |ws| && cut.part.Some? ==> r == Do(b, DoAll(b, root, ws[..cut.writes]), ws[cut.writes], cut.part))
  {
    assert ws[..|ws|] == ws;
  }

  lemma {:induction false} FieldsDone(b: Backup, names: seq<string>, root: Root, resume: bool, k: nat)
    requires k <= |Writes(b, names, resume)|
    ensures var r := DoAll(b, root, Writes(b, names, resume)[..k]);
      && r.log == (if k >= 1 then Some(b.log) else root.log)
      && r.fingerprint == (if k >= 2 && !resume && b.fingerprint.Some? then b.fingerprint else root.fingerprint)
      && r.key == root.key && r.auth == root.auth
  {
    SimpleFields(b, root, Writes(b, names, resume)[..k]);
    FirstWrites(b, names, resume, k);
  }

  lemma {:induction false} FieldsTorn(b: Backup, root: Root, w: Write, part: Option<nat>)
    ensures var r := Do(b, root, w, part);
      && r.log == (if w == PlaceLog then Some(Piece(b.log, part)) else root.log)
      && r.fingerprint == (if w == PlaceFingerprint && b.fingerprint.Some? then Some(Piece(b.fingerprint.value, part)) else root.fingerprint)
      && r.key == root.key && r.auth == root.auth
  {
  }

  /** What one run does to the log and the pin. */
  lemma {:induction false} RunLogAndPin(b: Backup, names: seq<string>, root: Root, cut: Cut)
    requires ResumingSpec(root, b).Some?
    ensures var r := RunSpec(b, names, root, cut).0;
      && r.log == LogAfter(b, root.log, cut)
      && r.fingerprint == (if ResumingSpec(root, b).value then root.fingerprint else PinAfter(b, root.fingerprint, cut))
      && r.key == root.key && r.auth == root.auth
  {
    var resume := ResumingSpec(root, b).value;
    var ws := Writes(b, names, resume);
    var k := Min(cut.writes, |ws|);
    RunParts(b, names, root, cut, ws);
    FieldsDone(b, names, root, resume, k);
    LongEnough(b, names, resume);
    if k < |ws| && cut.part.Some? {
      WriteAt(b, names, resume, k);
      FieldsTorn(b, DoAll(b, root, ws[..k]), ws[k], cut.part);
    }
  }

  // ---- histories ------------------------------------------------------------------------------------------

  datatype Event = Run(cut: Cut) | PutKey | DropPin | MintAuth

  function After(b: Backup, names: seq<string>, root: Root, ev: Event): Root {
    match ev
    case Run(cut) => RunSpec(b, names, root, cut).0
    case PutKey => root.(key := true)
    case DropPin => root.(fingerprint := None)
    case MintAuth => root.(auth := true)
  }

  function AfterAll(b: Backup, names: seq<string>, root: Root, evs: seq<Event>): Root {
    if evs == [] then root else After(b, names, AfterAll(b, names, root, evs[..|evs| - 1]), evs[|evs| - 1])
  }

  /** Some run was cut inside the log. */
  predicate LogTorn(evs: seq<Event>) {
    exists i :: 0 <= i < |evs| && TearsLog(evs[i])
  }

  predicate TearsLog(ev: Event) {
    ev.Run? && ev.cut.writes == 0 && ev.cut.part.Some?
  }

  lemma {:induction false} TornAtEnd(evs: seq<Event>)
    requires evs != []
    ensures LogTorn(evs) <==> LogTorn(evs[..|evs| - 1]) || TearsLog(evs[|evs| - 1])
  {
    var front := evs[..|evs| - 1];
    assert forall i :: 0 <= i < |front| ==> front[i] == evs[i];
    if LogTorn(evs) {
      var i :| 0 <= i < |evs| && TearsLog(evs[i]);
      assert i < |front| ==> TearsLog(front[i]);
    }
  }

  /** A log that is not this backup's is never touched, and neither are the repositories beside it. The
      backup's own, once placed, stays as it is unless a later run is cut while copying it again: then
      part of it is left, and every run after that refuses. */
  lemma {:induction false} LogNeverReplaced(b: Backup, names: seq<string>, root: Root, evs: seq<Event>)
    requires root.log.Some? && Checked(b)
    ensures var r := AfterAll(b, names, root, evs);
      if root.log != Some(b.log) then r.log == root.log && r.repos == root.repos
      else r.log.Some? && r.log.value <= b.log && (r.log == Some(b.log) <==> !LogTorn(evs))
  {
    if evs != [] {
      var before, last := AfterAll(b, names, root, evs[..|evs| - 1]), evs[|evs| - 1];
      LogNeverReplaced(b, names, root, evs[..|evs| - 1]);
      TornAtEnd(evs);
      if last.Run? && before.log == Some(b.log) {
        RunLogAndPin(b, names, before, last.cut);
      }
    }
  }

  /** Once the log is placed, a pin the operator removed is never put back. */
  lemma {:induction false} DroppedPinStaysDropped(b: Backup, names: seq<string>, root: Root, evs: seq<Event>)
    requires root.log.Some? && root.fingerprint.None?
    ensures AfterAll(b, names, root, evs).fingerprint.None? && AfterAll(b, names, root, evs).log.Some?
  {
    if evs != [] {
      var before, last := AfterAll(b, names, root, evs[..|evs| - 1]), evs[|evs| - 1];
      DroppedPinStaysDropped(b, names, root, evs[..|evs| - 1]);
      if last.Run? && ResumingSpec(before, b).Some? {
        RunLogAndPin(b, names, before, last.cut);
      }
    }
  }

  // ---- from an empty target -----------------------------------------------------------------------------------

  predicate Empty(root: Root) {
    root.log.None? && root.fingerprint.None? && root.snapshot.None? && root.policy == map[] && root.repos == map[]
  }

  /** Part of a content, or all of it. */
  predicate PartOf(held: Option<string>, whole: Option<string>) {
    held.Some? ==> whole.Some? && held.value <= whole.value
  }

  /** Everything in the target came out of the backup, whole or in part. */
  ghost predicate FromBackup(b: Backup, root: Root) {
    && PartOf(root.log, Some(b.log))
    && (root.log.None? ==> Empty(root))
    && PartOf(root.fingerprint, b.fingerprint) && PartOf(root.snapshot, b.snapshot)
    && (forall n :: n in root.policy ==> n in b.policy && root.policy[n] <= b.policy[n])
    && (forall r :: r in root.repos ==> r in b.repos && r in b.bundles && root.repos[r] <= b.bundles[r])
  }

  ghost predicate WriteIsOf(b: Backup, w: Write) {
    w.Unbundle? ==> w.repo in b.repos
  }

  lemma {:induction false} WriteFromBackup(b: Backup, root: Root, w: Write, part: Option<nat>)
    requires FromBackup(b, root) && WriteIsOf(b, w) && (root.log.None? ==> w == PlaceLog)
    ensures FromBackup(b, Do(b, root, w, part)) && Do(b, root, w, part).log.Some?
  {
  }

  lemma {:induction false} WritesFromBackup(b: Backup, root: Root, ws: seq<Write>)
    requires FromBackup(b, root) && (forall w :: w in ws ==> WriteIsOf(b, w)) && (ws != [] ==> ws[0] == PlaceLog)
    ensures FromBackup(b, DoAll(b, root, ws)) && (ws != [] ==> DoAll(b, root, ws).log.Some?)
  {
    if ws != [] {
      var front := ws[..|ws| - 1];
      assert forall w :: w in front ==> w in ws;
      WritesFromBackup(b, root, front);
      WriteFromBackup(b, DoAll(b, root, front), ws[|ws| - 1], None);
    }
  }

  lemma {:induction false} RunFromBackup(b: Backup, names: seq<string>, root: Root, cut: Cut)
    requires FromBackup(b, root)
    ensures FromBackup(b, RunSpec(b, names, root, cut).0)
    ensures ResumingSpec(root, b).None? <==> root.log.Some? && root.log != Some(b.log)
  {
    var resume := ResumingSpec(root, b);
    if resume.Some? {
      var ws := Writes(b, names, resume.value);
      var k := Min(cut.writes, |ws|);
      WritesAre(b, names, resume.value);
      assert ws[..|ws|] == ws && ws[0] == PlaceLog;
      forall w | w in ws
        ensures WriteIsOf(b, w)
      {
        assert w.Unbundle? ==> Unbundle(w.repo) in ws;
      }
      assert forall w :: w in ws[..k] ==> w in ws;
      WritesFromBackup(b, root, ws[..k]);
      if k < |ws| && cut.part.Some? {
        WriteFromBackup(b, DoAll(b, root, ws[..k]), ws[k], cut.part);
      }
    }
  }

  lemma {:induction false} EventFromBackup(b: Backup, names: seq<string>, root: Root, ev: Event)
    requires FromBackup(b, root)
    ensures FromBackup(b, After(b, names, root, ev))
  {
    if ev.Run? {
      RunFromBackup(b, names, root, ev.cut);
    }
  }

  lemma {:induction false} HistoryFromBackup(b: Backup, names: seq<string>, root: Root, evs: seq<Event>)
    requires Empty(root)
    ensures FromBackup(b, AfterAll(b, names, root, evs))
  {
    if evs != [] {
      HistoryFromBackup(b, names, root, evs[..|evs| - 1]);
      EventFromBackup(b, names, AfterAll(b, names, root, evs[..|evs| - 1]), evs[|evs| - 1]);
    }
  }

  ghost predicate LogTells(b: Backup, log: Option<string>, torn: bool) {
    if torn then log.Some? && log != Some(b.log) else log.None? || log == Some(b.log)
  }

  lemma {:induction false} LogOfEvent(b: Backup, names: seq<string>, root: Root, ev: Event, torn: bool)
    requires FromBackup(b, root) && Checked(b) && LogTells(b, root.log, torn)
    ensures LogTells(b, After(b, names, root, ev).log, torn || TearsLog(ev))
  {
    if ev.Run? {
      RunFromBackup(b, names, root, ev.cut);
      if ResumingSpec(root, b).Some? {
        RunLogAndPin(b, names, root, ev.cut);
      }
    }
  }

  /** From an empty target, the log is whole or not there until a run is cut inside it, and in part from
      then on. */
  lemma {:induction false} LogOfHistory(b: Backup, names: seq<string>, root: Root, evs: seq<Event>)
    requires Empty(root) && Checked(b)
    ensures LogTells(b, AfterAll(b, names, root, evs).log, LogTorn(evs))
  {
    if evs != [] {
      var front := evs[..|evs| - 1];
      LogOfHistory(b, names, root, front);
      HistoryFromBackup(b, names, root, front);
      TornAtEnd(evs);
      LogOfEvent(b, names, AfterAll(b, names, root, front), evs[|evs| - 1], LogTorn(front));
    }
  }

  // ---- repositories --------------------------------------------------------------------------------------------

  /** This run was cut while it unbundled `p`. */
  predicate TearsRepo(b: Backup, names: seq<string>, root: Root, cut: Cut, p: string) {
    var resume := ResumingSpec(root, b);
    resume.Some? &&
    var ws := Writes(b, names, resume.value);
    && cut.writes < |ws| && cut.part.Some? && ws[cut.writes] == Unbundle(p)
    && p !in DoAll(b, root, ws[..cut.writes]).repos && p in b.bundles && b.bundles[p] != ""
  }

  predicate RepoTorn(b: Backup, names: seq<string>, root: Root, evs: seq<Event>, p: string) {
    evs != [] &&
    var front, last := evs[..|evs| - 1], evs[|evs| - 1];
    RepoTorn(b, names, root, front, p) || (last.Run? && TearsRepo(b, names, AfterAll(b, names, root, front), last.cut, p))
  }

  /** A repository that is there stays as it is, whole or half cloned. */
  lemma {:induction false} RepoOfRun(b: Backup, names: seq<string>, root: Root, cut: Cut, p: string)
    ensures var r := RunSpec(b, names, root, cut).0;
      && (p in root.repos ==> p in r.repos && r.repos[p] == root.repos[p] && !TearsRepo(b, names, root, cut, p))
      && (p !in root.repos && TearsRepo(b, names, root, cut, p) ==> p in r.repos && r.repos[p] != b.bundles[p])
      && (p !in root.repos && !TearsRepo(b, names, root, cut, p) && p in r.repos ==> p in b.bundles && r.repos[p] == b.bundles[p])
  {
    var resume := ResumingSpec(root, b);
    if resume.Some? {
      var ws := Writes(b, names, resume.value);
      var k := Min(cut.writes, |ws|);
      assert ws[..|ws|] == ws;
      RepoAfter(b, root, ws[..k], p);
    }
  }

  lemma {:induction false} RepoOfHistory(b: Backup, names: seq<string>, root: Root, evs: seq<Event>, p: string)
    requires Empty(root)
    ensures var repos := AfterAll(b, names, root, evs).repos;
      && (RepoTorn(b, names, root, evs, p) ==> p in repos && p in b.bundles && repos[p] != b.bundles[p])
      && (!RepoTorn(b, names, root, evs, p) && p in repos ==> p in b.bundles && repos[p] == b.bundles[p])
  {
    if evs != [] {
      var front, last := evs[..|evs| - 1], evs[|evs| - 1];
      RepoOfHistory(b, names, root, front, p);
      if last.Run? {
        RepoOfRun(b, names, AfterAll(b, names, root, front), last.cut, p);
      }
    }
  }

  // ---- an uncut run ------------------------------------------------------------------------------------------

  /** As many writes as there are. */
  ghost predicate Uncut(b: Backup, names: seq<string>, cut: Cut) {
    cut.writes >= |Writes(b, names, true)| && cut.writes >= |Writes(b, names, false)|
  }

  /** What an uncut run that goes ahead leaves. */
  lemma {:induction false} UncutRun(b: Backup, names: seq<string>, root: Root, cut: Cut)
    requires ResumingSpec(root, b).Some? && Uncut(b, names, cut)
    ensures var (r, outcome) := RunSpec(b, names, root, cut);
      && r.log == Some(b.log) && (b.snapshot.Some? ==> r.snapshot == b.snapshot)
      && (forall n :: n in names && n in b.policy ==> n in r.policy && r.policy[n] == b.policy[n])
      && (forall p :: p in b.repos && p in b.bundles ==> p in r.repos && r.repos[p] == if p in root.repos then root.repos[p] else b.bundles[p])
      && outcome == Secrets(r)
  {
    var ws := Writes(b, names, ResumingSpec(root, b).value);
    var r := DoAll(b, root, ws);
    WritesAre(b, names, ResumingSpec(root, b).value);
    SimpleFields(b, root, ws);
    forall n | n in names && n in b.policy
      ensures n in r.policy && r.policy[n] == b.policy[n]
    {
      PolicyAfter(b, root, ws, n);
    }
    forall p | p in b.repos && p in b.bundles
      ensures p in r.repos && r.repos[p] == if p in root.repos then root.repos[p] else b.bundles[p]
    {
      RepoAfter(b, root, ws, p);
    }
  }

  /** After any history from an empty target, an uncut run goes ahead exactly when no earlier run was cut
      inside the log. Then the log, the snapshot and the policy are the backup's, whatever earlier runs
      had left of them, and it comes to the operator's decisions: what goes ahead does so as a new author
      exactly when the key is not there. And a repository is the backup's exactly when no run was cut while
      unbundling it, for none ever does it again. */
  lemma {:induction false} RestoreCompletes(b: Backup, names: seq<string>, root: Root, evs: seq<Event>, cut: Cut)
    requires Empty(root) && Checked(b) && Uncut(b, names, cut)
    ensures var (r, outcome) := RunSpec(b, names, AfterAll(b, names, root, evs), cut);
      && (outcome == NotOurs <==> LogTorn(evs))
      && (!LogTorn(evs) ==>
            && r.log == Some(b.log) && r.snapshot == b.snapshot
            && (forall n :: n in names && n in b.policy ==> n in r.policy && r.policy[n] == b.policy[n])
            && (forall p :: p in r.repos <==> p in b.repos)
            && (forall p :: p in b.repos ==> (r.repos[p] == b.bundles[p] <==> !RepoTorn(b, names, root, evs, p)))
            && (outcome.Ready? <==> r.auth && (r.key || r.fingerprint.None?))
            && (outcome.Ready? ==> (outcome.newAuthor <==> !r.key))
            && (outcome == Decide(SupplyKeyOrDropPin) <==> !r.key && r.fingerprint.Some?))
  {
    var before := AfterAll(b, names, root, evs);
    LogOfHistory(b, names, root, evs);
    HistoryFromBackup(b, names, root, evs);
    RunFromBackup(b, names, before, cut);
    if !LogTorn(evs) {
      var r := RunSpec(b, names, before, cut).0;
      UncutRun(b, names, before, cut);
      NoSnapshot(b, names, before, cut);
      forall p | p in b.repos
        ensures p in r.repos && (r.repos[p] == b.bundles[p] <==> !RepoTorn(b, names, root, evs, p))
      {
        RepoOfHistory(b, names, root, evs, p);
      }
    }
  }

  lemma {:induction false} NoSnapshot(b: Backup, names: seq<string>, root: Root, cut: Cut)
    requires FromBackup(b, root)
    ensures b.snapshot.None? ==> RunSpec(b, names, root, cut).0.snapshot.None?
  {
    RunFromBackup(b, names, root, cut);
  }

  // ---- the pin ---------------------------------------------------------------------------------------------------

  /** Where the first run that placed anything was cut. */
  function FirstCut(evs: seq<Event>): Option<Cut> {
    if evs == [] then None
    else
      var earlier := FirstCut(evs[..|evs| - 1]);
      if earlier.Some? then earlier
      else if evs[|evs| - 1].Run? && (evs[|evs| - 1].cut.writes >= 1 || evs[|evs| - 1].cut.part.Some?) then Some(evs[|evs| - 1].cut)
      else None
  }

  lemma {:induction false} PinByFirstCut(b: Backup, names: seq<string>, root: Root, evs: seq<Event>)
    requires Empty(root) && DropPin !in evs
    ensures var r := AfterAll(b, names, root, evs);
      && (r.log.None? <==> FirstCut(evs).None?)
      && r.fingerprint == if FirstCut(evs).None? then None else PinAfter(b, None, FirstCut(evs).value)
  {
    if evs != [] {
      var front, last := evs[..|evs| - 1], evs[|evs| - 1];
      var before := AfterAll(b, names, root, front);
      PinByFirstCut(b, names, root, front);
      HistoryFromBackup(b, names, root, front);
      assert last in evs;
      if last.Run? {
        RunFromBackup(b, names, before, last.cut);
        if ResumingSpec(before, b).Some? {
          RunLogAndPin(b, names, before, last.cut);
        }
      }
    }
  }

  /** The pin is lost, without anybody having removed it, exactly when the first run that placed anything
      was cut before it began on the fingerprint, and it is whole exactly when that run got past it: every
      later run takes itself for a resumed one. */
  lemma {:induction false} PinLostExactly(b: Backup, names: seq<string>, root: Root, evs: seq<Event>)
    requires Empty(root) && DropPin !in evs && b.fingerprint.Some? && FirstCut(evs).Some?
    ensures var pin, first := AfterAll(b, names, root, evs).fingerprint, FirstCut(evs).value;
      && (pin.None? <==> first.writes == 0 || first == Cut(1, None))
      && (pin == b.fingerprint <==> first.writes >= 2 || (first.writes == 1 && first.part.Some? && b.fingerprint.value == ""))
  {
    PinByFirstCut(b, names, root, evs);
  }

  /** With a credential but without the key, the next run refuses if a run was cut inside the log, goes
      ahead as a new author if the pin was lost, and otherwise stops and asks. */
  lemma {:induction false} UnattendedSeam(b: Backup, names: seq<string>, root: Root, evs: seq<Event>, cut: Cut)
    requires Empty(root) && Checked(b) && b.fingerprint.Some? && root.auth && !root.key
    requires DropPin !in evs && PutKey !in evs && Uncut(b, names, cut)
    ensures RunSpec(b, names, AfterAll(b, names, root, evs), cut).1 ==
            if LogTorn(evs) then NotOurs
            else if FirstCut(evs) == Some(Cut(1, None)) then Ready(true)
            else Decide(SupplyKeyOrDropPin)
  {
    var before := AfterAll(b, names, root, evs);
    PinByFirstCut(b, names, root, evs);
    KeyAndAuth(b, names, root, evs);
    RestoreCompletes(b, names, root, evs, cut);
    if !LogTorn(evs) {
      NotTornFirst(evs);
      LogOfHistory(b, names, root, evs);
      HistoryFromBackup(b, names, root, evs);
      RunFromBackup(b, names, before, cut);
      RunLogAndPin(b, names, before, cut);
      LongEnough(b, names, false);
    }
  }

  lemma {:induction false} NotTornFirst(evs: seq<Event>)
    requires !LogTorn(evs)
    ensures FirstCut(evs).Some? ==> FirstCut(evs).value.writes >= 1
  {
    if evs != [] {
      TornAtEnd(evs);
      NotTornFirst(evs[..|evs| - 1]);
    }
  }

  lemma {:induction false} KeyAndAuth(b: Backup, names: seq<string>, root: Root, evs: seq<Event>)
    requires PutKey !in evs
    ensures AfterAll(b, names, root, evs).key == root.key && (root.auth ==> AfterAll(b, names, root, evs).auth)
  {
    if evs != [] {
      var before, last := AfterAll(b, names, root, evs[..|evs| - 1]), evs[|evs| - 1];
      KeyAndAuth(b, names, root, evs[..|evs| - 1]);
      assert last in evs;
      if last.Run? && ResumingSpec(before, b).Some? {
        RunLogAndPin(b, names, before, last.cut);
      }
    }
  }

  // ---- what was there before -----------------------------------------------------------------------------

  /** A target is refused exactly when it holds another log, or holds no log and already has one of the
      backup's repositories; and then nothing in it changes. Whatever a run does, it leaves every repository
      that was there as it was; and a run that was cut decides nothing. */
  lemma {:induction false} OnlyOursIsWritten(b: Backup, names: seq<string>, root: Root, cut: Cut)
    ensures var (r, outcome) := RunSpec(b, names, root, cut);
      && (outcome == NotOurs <==> if root.log.Some? then root.log.value != b.log else exists p :: p in b.repos && p in root.repos)
      && (outcome == NotOurs ==> r == root)
      && (outcome.Ready? || outcome.Decide? ==> cut.writes >= |Writes(b, names, root.log.Some?)|)
      && (forall p :: p in root.repos ==> p in r.repos && r.repos[p] == root.repos[p])
  {
    var resume := ResumingSpec(root, b);
    if resume.Some? {
      var ws := Writes(b, names, resume.value);
      SomeKeepRepos(b, root, ws, cut);
    }
  }

  lemma {:induction false} SomeKeepRepos(b: Backup, root: Root, ws: seq<Write>, cut: Cut)
    ensures var r := DoSome(b, root, ws, cut); forall p :: p in root.repos ==> p in r.repos && r.repos[p] == root.repos[p]
  {
    if cut.writes >= |ws| {
      AllKeepRepos(b, root, ws);
    } else {
      AllKeepRepos(b, root, ws[..cut.writes]);
    }
  }

  lemma {:induction false} AllKeepRepos(b: Backup, root: Root, ws: seq<Write>)
    ensures var r := DoAll(b, root, ws); forall p :: p in root.repos ==> p in r.repos && r.repos[p] == root.repos[p]
  {
    if ws != [] {
      AllKeepRepos(b, root, ws[..|ws| - 1]);
    }
  }

  // ---- the order of the writes -----------------------------------------------------------------------------

  function Rank(w: Write): nat {
    match w
    case PlaceLog => 0
    case PlaceFingerprint => 1
    case PlaceSnapshot => 2
    case PlacePolicy(_) => 3
    case Unbundle(_) => 4
  }

  /** The log goes first, then the fingerprint, the snapshot, the policy and the repositories: so wherever a run
      is cut, what it has begun on has everything in front of it in place. */
  lemma {:induction false} WritesInOrder(b: Backup, names: seq<string>, resume: bool, i: nat, j: nat)
    requires i < j < |Writes(b, names, resume)|
    ensures Rank(Writes(b, names, resume)[i]) <= Rank(Writes(b, names, resume)[j])
  {
    var opening, policy, repos := Opening(b, resume), PolicyWrites(b, names), RepoWrites(b.repos);
    PolicyWritesAre(b, names);
    RepoWritesAre(b.repos);
    WriteRanks(opening, policy, repos, i);
    WriteRanks(opening, policy, repos, j);
  }

  lemma {:induction false} WriteRanks(opening: seq<Write>, policy: seq<Write>, repos: seq<Write>, k: nat)
    requires k < |opening + policy + repos|
    requires forall w :: w in policy ==> Rank(w) == 3
    requires forall w :: w in repos ==> Rank(w) == 4
    ensures k < |opening| ==> (opening + policy + repos)[k] == opening[k]
    ensures |opening| <= k < |opening| + |policy| ==> Rank((opening + policy + repos)[k]) == 3
    ensures k >= |opening| + |policy| ==> Rank((opening + policy + repos)[k]) == 4
  {
    var ws := opening + policy + repos;
    assert |opening| <= k < |opening| + |policy| ==> ws[k] == policy[k - |opening|] && ws[k] in policy;
    assert k >= |opening| + |policy| ==> ws[k] == repos[k - |opening| - |policy|] && ws[k] in repos;
  }
}
