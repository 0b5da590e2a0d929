/**
 The speculative merge queue (crates/choir-queue/src/lib.rs): changes are merged onto the state
 everything ahead of them would produce, each is tested there, the green prefix lands, and a
 failure evicts its change (and whatever declared a dependency on it) and retests the rest.
 */
module MergeQueue {
  import opened Basics

  /** A state is opaque: the queue moves states around and never looks inside one. */
  type State = string

  datatype Change = Change(id: nat, base: State, proposed: State, depends: seq<nat>)

  datatype Step = Advanced(next: State) | Conflict | Unsafe | Unavailable

  datatype Verdict = Passed | Failed | Inconclusive

  datatype Rejection = MergeConflict | CiFailure | SafetyViolation | DependencyEjection(on: nat) | AlreadyLanded

  datatype Member = Member(change: Change, state: State)

  /** The speculator, the executor and the log, as oracles: `answers` when the executor has a verdict
      for a job, without which its whole batch comes back with none; `records` when the log takes a
      landing. */
  datatype Env = Env(
    step: (Change, State) -> Step,
    answers: Member -> bool,
    ci: Member -> Verdict,
    records: Member -> bool,
    identity: Change -> string)

  /** The queue and the report it has written so far. */
  datatype Queue = Queue(
    base: State,
    window: nat,
    maxWindow: nat,
    waiting: seq<Change>,
    landed: set<string>,
    merged: seq<Change>,
    rejected: seq<(Change, Rejection)>,
    stalled: bool)

  // ---- building a train ----------------------------------------------------------------

  /** The train built from the changes offered: `seen` of them were taken, and it stopped short when
      the speculator could not answer. */
  datatype Speculated = Speculated(train: seq<Member>, rejects: seq<(Change, Rejection)>, tip: State, seen: nat, available: bool)

  /** One more change put on top of a train. */
  function Extend(e: Env, landed: set<string>, s: Speculated, c: Change): Speculated {
    if !s.available then s
    else if e.identity(c) in landed then s.(rejects := s.rejects + [(c, AlreadyLanded)], seen := s.seen + 1)
    else
      match e.step(c, s.tip)
      case Advanced(next) => s.(train := s.train + [Member(c, next)], tip := next, seen := s.seen + 1)
      case Conflict => s.(rejects := s.rejects + [(c, MergeConflict)], seen := s.seen + 1)
      case Unsafe => s.(rejects := s.rejects + [(c, SafetyViolation)], seen := s.seen + 1)
      case Unavailable => s.(available := false)
  }

  function Speculate(e: Env, landed: set<string>, base: State, offered: seq<Change>): (s: Speculated)
    ensures s.seen <= |offered| && |s.train| + |s.rejects| == s.seen
    ensures s.available ==> s.seen == |offered|
  {
    if offered == [] then Speculated([], [], base, 0, true)
    else Extend(e, landed, Speculate(e, landed, base, offered[..|offered| - 1]), offered[|offered| - 1])
  }

  predicate Answered(e: Env, train: seq<Member>) {
    forall m | m in train :: e.answers(m)
  }

  /** What a member's verdict comes to: a pass that the log will not record stops a train the way a
      verdict about nobody does. */
  function Decision(e: Env, m: Member): Verdict {
    if e.ci(m) == Passed && !e.records(m) then Inconclusive else e.ci(m)
  }

  /** The first member that does not land. */
  function FirstStop(e: Env, train: seq<Member>): (i: nat)
    ensures i <= |train|
    ensures forall k :: 0 <= k < i ==> Decision(e, train[k]) == Passed
    ensures i < |train| ==> Decision(e, train[i]) != Passed
  {
    if train == [] then 0
    else
      var n := |train| - 1;
      var i := FirstStop(e, train[..n]);
      if i < n || Decision(e, train[n]) != Passed then i else n + 1
  }

  // ---- acting on the verdicts -----------------------------------------------------------

  function Changes(train: seq<Member>): (c: seq<Change>)
    ensures |c| == |train|
  {
    if train == [] then [] else Changes(train[..|train| - 1]) + [train[|train| - 1].change]
  }

  /** Lands a green prefix in order; the window grows by one per landing, up to its ceiling. */
  function Land(e: Env, q: Queue, prefix: seq<Member>): Queue {
    if prefix == [] then q
    else
      var before := Land(e, q, prefix[..|prefix| - 1]);
      var m := prefix[|prefix| - 1];
      before.(base := m.state,
              landed := before.landed + {e.identity(m.change)},
              merged := before.merged + [m.change],
              window := Min(before.window + 1, before.maxWindow))
  }

  predicate DependsOn(c: Change, ids: set<nat>) {
    exists d | d in c.depends :: d in ids
  }

  /** The ids of `cands` that depend on one of `ids` and are not among them yet. */
  function NewDependents(cands: seq<Change>, ids: set<nat>): (r: set<nat>)
    ensures forall i :: i in r <==> i !in ids && exists c :: c in cands && c.id == i && DependsOn(c, ids)
  {
    set c | c in cands && c.id !in ids && DependsOn(c, ids) :: c.id
  }

  function Ids(cands: seq<Change>): (r: set<nat>)
    ensures forall i :: i in r <==> exists c :: c in cands && c.id == i
  {
    set c | c in cands :: c.id
  }

  /** Everything that, through declared dependencies, goes down with `ids`. */
  function Closure(cands: seq<Change>, ids: set<nat>): (r: set<nat>)
    ensures ids <= r && forall c :: c in cands && DependsOn(c, r) ==> c.id in r
    decreases |Ids(cands) - ids|
  {
    var next := NewDependents(cands, ids);
    if next == {} then ids
    else
      ClosureShrinks(cands, ids, next);
      Closure(cands, ids + next)
  }

  lemma {:induction false} ClosureShrinks(cands: seq<Change>, ids: set<nat>, next: set<nat>)
    requires next != {} && next == NewDependents(cands, ids)
    ensures |Ids(cands) - (ids + next)| < |Ids(cands) - ids|
  {
    var i :| i in next;
    assert i in Ids(cands) - ids;
    assert Ids(cands) - (ids + next) <= (Ids(cands) - ids) - {i};
    SubsetSmaller(Ids(cands) - (ids + next), (Ids(cands) - ids) - {i});
  }

  function Kept(cands: seq<Change>, ids: set<nat>): (r: seq<Change>)
    ensures |r| <= |cands|
  {
    if cands == [] then []
    else
      var c := cands[|cands| - 1];
      Kept(cands[..|cands| - 1], ids) + if c.id in ids then [] else [c]
  }

  /** The ejections of `cands`, in order. */
  function Ejections(cands: seq<Change>, ids: set<nat>, on: nat): seq<(Change, Rejection)> {
    if cands == [] then []
    else
      var c := cands[|cands| - 1];
      Ejections(cands[..|cands| - 1], ids, on) + if c.id in ids then [(c, DependencyEjection(on))] else []
  }

  /** The same, last first: a train is taken apart from its end. */
  function EjectionsReversed(cands: seq<Change>, ids: set<nat>, on: nat): seq<(Change, Rejection)> {
    if cands == [] then []
    else
      var c := cands[|cands| - 1];
      (if c.id in ids then [(c, DependencyEjection(on))] else []) + EjectionsReversed(cands[..|cands| - 1], ids, on)
  }

  lemma {:induction false} KeptAppend(a: seq<Change>, b: seq<Change>, ids: set<nat>)
    ensures Kept(a + b, ids) == Kept(a, ids) + Kept(b, ids)
  {
    if b == [] {
      assert a + b == a;
    } else {
      KeptAppend(a, b[..|b| - 1], ids);
      assert (a + b)[..|a + b| - 1] == a + b[..|b| - 1];
    }
  }

  lemma {:induction false} EjectionsAppend(a: seq<Change>, b: seq<Change>, ids: set<nat>, on: nat)
    ensures Ejections(a + b, ids, on) == Ejections(a, ids, on) + Ejections(b, ids, on)
  {
    if b == [] {
      assert a + b == a;
    } else {
      EjectionsAppend(a, b[..|b| - 1], ids, on);
      assert (a + b)[..|a + b| - 1] == a + b[..|b| - 1];
    }
  }

  /** What an ejection kept, a second look keeps. */
  lemma {:induction false} KeptAgain(cands: seq<Change>, ids: set<nat>, on: nat)
    ensures Kept(Kept(cands, ids), ids) == Kept(cands, ids) && Ejections(Kept(cands, ids), ids, on) == []
  {
    if cands != [] {
      var c, before := cands[|cands| - 1], Kept(cands[..|cands| - 1], ids);
      KeptAgain(cands[..|cands| - 1], ids, on);
      assert before + [] == before && (before + [c])[..|before|] == before;
      assert Ejections(before, ids, on) + [] == [];
    }
  }

  /** A change failed its tests; `behind` is what is left of its train and `rest` the queue. */
  function Evict(q: Queue, failed: Change, behind: seq<Change>, rest: seq<Change>): (r: Queue)
    ensures |r.waiting| <= |behind| + |rest|
    ensures r.stalled == q.stalled && r.maxWindow == q.maxWindow
  {
    var ejected := Closure(behind + rest, {failed.id});
    var blamed := q.rejected + [(failed, CiFailure)];
    if ejected == {failed.id} then
      q.(rejected := blamed, waiting := behind + rest,
         window := Min(if q.window / 2 > 1 then q.window / 2 else 1, q.maxWindow))
    else
      q.(rejected := blamed + EjectionsReversed(behind, ejected, failed.id) + Ejections(rest, ejected, failed.id),
         waiting := Kept(behind, ejected) + Kept(rest, ejected))
  }

  /** One turn of the drain loop. */
  function Round(e: Env, q: Queue): (r: Queue)
    requires q.waiting != [] && q.window >= 1
    ensures r.stalled || |r.waiting| < |q.waiting|
  {
    var take := Min(q.window, |q.waiting|);
    var rest := q.waiting[take..];
    var s := Speculate(e, q.landed, q.base, q.waiting[..take]);
    var told := q.(rejected := q.rejected + s.rejects);
    if !s.available || !Answered(e, s.train) then
      told.(waiting := Changes(s.train) + q.waiting[s.seen..], stalled := true)
    else
      LandShape(e, told, s.train[..FirstStop(e, s.train)]);
      Settle(e, told, s.train, rest)
  }

  /** What a round does once the train is built: land the green prefix and deal with what stopped it. */
  function Settle(e: Env, told: Queue, train: seq<Member>, rest: seq<Change>): (r: Queue)
    ensures r.stalled || (FirstStop(e, train) == |train| && r.waiting == rest) || |r.waiting| < |train| + |rest|
  {
    var i := FirstStop(e, train);
    var green := Land(e, told, train[..i]);
    if i == |train| then green.(waiting := rest)
    else if Decision(e, train[i]) == Inconclusive then
      green.(waiting := Changes(train[i..]) + rest, stalled := true)
    else Evict(green, train[i].change, Changes(train[i + 1..]), rest)
  }

  lemma {:induction false} LandShape(e: Env, q: Queue, prefix: seq<Member>)
    ensures var r := Land(e, q, prefix);
      && r.waiting == q.waiting && r.rejected == q.rejected && r.stalled == q.stalled && r.maxWindow == q.maxWindow
      && r.merged == q.merged + Changes(prefix)
      && r.base == if prefix == [] then q.base else prefix[|prefix| - 1].state
  {
    if prefix != [] {
      LandShape(e, q, prefix[..|prefix| - 1]);
    }
  }

  lemma {:induction false} LandIgnoresWaiting(e: Env, q: Queue, prefix: seq<Member>, w: seq<Change>)
    ensures Land(e, q.(waiting := w), prefix) == Land(e, q, prefix).(waiting := w)
  {
    if prefix != [] {
      LandIgnoresWaiting(e, q, prefix[..|prefix| - 1], w);
    }
  }

  lemma {:induction false} SettleIgnoresWaiting(e: Env, q: Queue, train: seq<Member>, rest: seq<Change>, w: seq<Change>)
    ensures Settle(e, q.(waiting := w), train, rest) == Settle(e, q, train, rest)
  {
    LandIgnoresWaiting(e, q, train[..FirstStop(e, train)], w);
  }

  /** The whole drain. */
  function Drain(e: Env, q: Queue): Queue
    requires q.window >= 1 && q.maxWindow >= 1
    decreases if q.stalled then 0 else 1 + |q.waiting|
  {
    if q.stalled || q.waiting == [] then q
    else
      WindowStaysOpen(e, q);
      Drain(e, Round(e, q))
  }

  /** The window stays between 1 and its ceiling. */
  lemma {:induction false} WindowStaysOpen(e: Env, q: Queue)
    requires q.waiting != [] && q.window >= 1 && q.maxWindow >= 1
    ensures Round(e, q).window >= 1 && Round(e, q).maxWindow == q.maxWindow
    ensures q.window <= q.maxWindow ==> Round(e, q).window <= q.maxWindow
  {
    var s := Speculate(e, q.landed, q.base, q.waiting[..Min(q.window, |q.waiting|)]);
    var told := q.(rejected := q.rejected + s.rejects);
    LandWindow(e, told, s.train[..FirstStop(e, s.train)]);
    LandShape(e, told, s.train[..FirstStop(e, s.train)]);
  }

  lemma {:induction false} LandWindow(e: Env, q: Queue, prefix: seq<Member>)
    requires q.window >= 1 && q.maxWindow >= 1
    ensures Land(e, q, prefix).window >= 1 && Land(e, q, prefix).maxWindow == q.maxWindow
    ensures q.window <= q.maxWindow ==> Land(e, q, prefix).window <= q.maxWindow
  {
    if prefix != [] {
      LandWindow(e, q, prefix[..|prefix| - 1]);
    }
  }
}
