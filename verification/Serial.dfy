/** The queue that never speculates (what crates/choir-queue/src/lib.rs:3-6 compares itself with): the
    head is merged on the base and tested there, and nothing else is looked at. */
module Serial {
  import opened Basics
  import opened Sequences
  import opened MergeQueue

  /** Why the head is refused before any test. */
  function Refusal(e: Env, c: Change, q: Queue): (why: Option<Rejection>)
    ensures why.Some? ==> IsRefusal(why.value)
  {
    if e.identity(c) in q.landed then Some(AlreadyLanded)
    else
      match e.step(c, q.base)
      case Conflict => Some(MergeConflict)
      case Unsafe => Some(SafetyViolation)
      case Advanced(_) => None
      case Unavailable => None
  }

  predicate IsRefusal(r: Rejection) {
    r.MergeConflict? || r.SafetyViolation? || r.AlreadyLanded?
  }

  /** What testing `c` alone on top of `base` comes to. */
  function Trial(e: Env, c: Change, base: State): (v: Verdict)
    ensures v != Inconclusive ==> e.step(c, base).Advanced?
  {
    match e.step(c, base)
    case Advanced(next) =>
      var m := Member(c, next);
      if !e.answers(m) || (e.ci(m) == Passed && !e.records(m)) then Inconclusive else e.ci(m)
    case _ => Inconclusive
  }

  function SerialStep(e: Env, q: Queue): Queue {
    if q.stalled || q.waiting == [] then q
    else
      var c, rest := q.waiting[0], q.waiting[1..];
      match Refusal(e, c, q)
      case Some(why) => q.(waiting := rest, rejected := q.rejected + [(c, why)])
      case None =>
        match Trial(e, c, q.base)
        case Passed =>
          q.(base := e.step(c, q.base).next, waiting := rest, merged := q.merged + [c], landed := q.landed + {e.identity(c)})
        case Failed => Evict(q, c, [], rest)
        case Inconclusive => q.(stalled := true)
  }

  function SerialSteps(e: Env, q: Queue, n: nat): Queue {
    if n == 0 then q else SerialStep(e, SerialSteps(e, q, n - 1))
  }

  /** The one-at-a-time queue, run to its end. */
  function SerialDrain(e: Env, q: Queue): Queue
    decreases if q.stalled then 0 else 1 + |q.waiting|
  {
    if q.stalled || q.waiting == [] then q else SerialDrain(e, SerialStep(e, q))
  }

  lemma {:induction false} StepsThenDrain(e: Env, q: Queue, n: nat)
    ensures SerialDrain(e, SerialSteps(e, q, n)) == SerialDrain(e, q)
  {
    if n > 0 {
      StepsThenDrain(e, q, n - 1);
    }
  }

  /** Equal but for the window and the rejections. */
  ghost predicate Alongside(a: Queue, b: Queue) {
    a.base == b.base && a.waiting == b.waiting && a.landed == b.landed && a.merged == b.merged && a.stalled == b.stalled
  }

  // ---- an eviction at the head -----------------------------------------------------------------

  /** The ids that go when `c` fails ahead of `rest`: none unless something depends on it. */
  function Gone(rest: seq<Change>, c: Change): set<nat> {
    var ids := Closure(rest, {c.id});
    if ids == {c.id} then {} else ids
  }

  lemma {:induction false} NobodyGone(rest: seq<Change>, on: nat)
    ensures Kept(rest, {}) == rest && Ejections(rest, {}, on) == []
  {
    if rest != [] {
      NobodyGone(rest[..|rest| - 1], on);
    }
  }

  lemma {:induction false} EvictedHead(q: Queue, c: Change, rest: seq<Change>)
    ensures var r, gone := Evict(q, c, [], rest), Gone(rest, c);
      && Alongside(r, q.(waiting := Kept(rest, gone)))
      && r.rejected == q.rejected + ([(c, CiFailure)] + Ejections(rest, gone, c.id))
  {
    assert [] + rest == rest;
    if Closure(rest, {c.id}) == {c.id} {
      NobodyGone(rest, c.id);
      assert [(c, CiFailure)] + [] == [(c, CiFailure)];
    } else {
      var gone := Gone(rest, c);
      assert [] + Kept(rest, gone) == Kept(rest, gone);
      InOneGo(q.rejected, [(c, CiFailure)], Ejections(rest, gone, c.id));
    }
  }

  /** What a step adds to the rejections. */
  function StepLog(e: Env, q: Queue): seq<(Change, Rejection)> {
    if q.stalled || q.waiting == [] then []
    else
      var c, rest := q.waiting[0], q.waiting[1..];
      match Refusal(e, c, q)
      case Some(why) => [(c, why)]
      case None => if Trial(e, c, q.base) == Failed then [(c, CiFailure)] + Ejections(rest, Gone(rest, c), c.id) else []
  }

  lemma {:induction false} StepLogs(e: Env, q: Queue)
    ensures SerialStep(e, q).rejected == q.rejected + StepLog(e, q)
  {
    if !q.stalled && q.waiting != [] {
      EvictedHead(q, q.waiting[0], q.waiting[1..]);
    }
  }

  lemma {:induction false} OnlyEjections(cands: seq<Change>, ids: set<nat>, on: nat)
    ensures forall r :: r in Ejections(cands, ids, on) ==> r.1 == DependencyEjection(on)
  {
    if cands != [] {
      OnlyEjections(cands[..|cands| - 1], ids, on);
    }
  }

  lemma {:induction false} KeptAreCandidates(cands: seq<Change>, ids: set<nat>)
    ensures forall c :: c in Kept(cands, ids) ==> c in cands && c.id !in ids
  {
    if cands != [] {
      KeptAreCandidates(cands[..|cands| - 1], ids);
    }
  }

  // ---- what a run can still do -------------------------------------------------------------------

  lemma {:induction false} StepGrows(e: Env, q: Queue)
    ensures var r := SerialStep(e, q);
      && q.rejected <= r.rejected && q.merged <= r.merged && q.landed <= r.landed && |r.waiting| <= |q.waiting|
      && forall c :: c in r.waiting ==> c in q.waiting
  {
    StepLogs(e, q);
    if !q.stalled && q.waiting != [] {
      EvictedHead(q, q.waiting[0], q.waiting[1..]);
      KeptAreCandidates(q.waiting[1..], Gone(q.waiting[1..], q.waiting[0]));
    }
  }

  lemma {:induction false} DrainGrows(e: Env, q: Queue)
    ensures var r := SerialDrain(e, q);
      q.rejected <= r.rejected && q.merged <= r.merged && q.landed <= r.landed && |r.waiting| <= |q.waiting|
    decreases if q.stalled then 0 else 1 + |q.waiting|
  {
    if !q.stalled && q.waiting != [] {
      StepGrows(e, q);
      DrainGrows(e, SerialStep(e, q));
    }
  }

  datatype Tally = Refusals | Judgements

  /** How often `x` was refused, or how often it was judged on its own merits. */
  function Count(x: Change, r: seq<(Change, Rejection)>, t: Tally): nat {
    multiset(r)[(x, MergeConflict)] + multiset(r)[(x, SafetyViolation)] + multiset(r)[(x, if t.Refusals? then AlreadyLanded else CiFailure)]
  }

  lemma {:induction false} CountAppend(x: Change, a: seq<(Change, Rejection)>, b: seq<(Change, Rejection)>, t: Tally)
    ensures Count(x, a + b, t) == Count(x, a, t) + Count(x, b, t)
  {
    assert multiset(a + b) == multiset(a) + multiset(b);
  }

  lemma {:induction false} CountOne(x: Change, r: (Change, Rejection), t: Tally)
    ensures Count(x, [r], t) ==
            if r.0 == x && (r.1.MergeConflict? || r.1.SafetyViolation? || r.1 == if t.Refusals? then AlreadyLanded else CiFailure) then 1 else 0
  {
  }

  lemma {:induction false} EjectionsCountNothing(x: Change, cands: seq<Change>, ids: set<nat>, on: nat, t: Tally)
    ensures Count(x, Ejections(cands, ids, on), t) == 0
  {
    OnlyEjections(cands, ids, on);
    var all := Ejections(cands, ids, on);
    assert forall why: Rejection :: !why.DependencyEjection? ==> (x, why) !in multiset(all);
  }

  /** A step counts only for the change at the head, and no judgement for one that landed. */
  lemma {:induction false} StepCount(e: Env, q: Queue, x: Change, t: Tally)
    ensures Count(x, SerialStep(e, q).rejected, t) == Count(x, q.rejected, t) + Count(x, StepLog(e, q), t)
    ensures q.waiting == [] || x != q.waiting[0] || (t.Judgements? && e.identity(x) in q.landed) ==> Count(x, StepLog(e, q), t) == 0
  {
    StepLogs(e, q);
    CountAppend(x, q.rejected, StepLog(e, q), t);
    if !q.stalled && q.waiting != [] {
      var c, rest := q.waiting[0], q.waiting[1..];
      var out := Ejections(rest, Gone(rest, c), c.id);
      CountAppend(x, [(c, CiFailure)], out, t);
      EjectionsCountNothing(x, rest, Gone(rest, c), c.id, t);
    }
  }

  /** A change that landed is not judged again, only turned away. */
  lemma {:induction false} LandedIsSettled(e: Env, q: Queue, x: Change)
    requires e.identity(x) in q.landed
    ensures Count(x, SerialDrain(e, q).rejected, Judgements) == Count(x, q.rejected, Judgements)
    decreases if q.stalled then 0 else 1 + |q.waiting|
  {
    if !q.stalled && q.waiting != [] {
      StepGrows(e, q);
      StepCount(e, q, x, Judgements);
      LandedIsSettled(e, SerialStep(e, q), x);
    }
  }

  /** A change that no longer waits is not refused any more. */
  lemma {:induction false} AbsentIsSettled(e: Env, q: Queue, x: Change, t: Tally)
    requires x !in q.waiting
    ensures Count(x, SerialDrain(e, q).rejected, t) == Count(x, q.rejected, t)
    decreases if q.stalled then 0 else 1 + |q.waiting|
  {
    if !q.stalled && q.waiting != [] {
      StepGrows(e, q);
      StepCount(e, q, x, t);
      AbsentIsSettled(e, SerialStep(e, q), x, t);
    }
  }

  /** Nothing more is said of a change that no longer waits. */
  lemma {:induction false} AbsentIsSilent(e: Env, q: Queue, x: Change, why: Rejection)
    requires x !in q.waiting
    ensures multiset(SerialDrain(e, q).rejected)[(x, why)] == multiset(q.rejected)[(x, why)]
    decreases if q.stalled then 0 else 1 + |q.waiting|
  {
    if !q.stalled && q.waiting != [] {
      StepGrows(e, q);
      StepLogs(e, q);
      StepSpeaksOfWaiting(e, q);
      assert (x, why) !in multiset(StepLog(e, q));
      AbsentIsSilent(e, SerialStep(e, q), x, why);
    }
  }

  lemma {:induction false} EjectionsAreCandidates(cands: seq<Change>, ids: set<nat>, on: nat)
    ensures forall r :: r in Ejections(cands, ids, on) ==> r.0 in cands
  {
    if cands != [] {
      EjectionsAreCandidates(cands[..|cands| - 1], ids, on);
    }
  }

  lemma {:induction false} StepSpeaksOfWaiting(e: Env, q: Queue)
    ensures forall r :: r in StepLog(e, q) ==> r.0 in q.waiting
  {
    if !q.stalled && q.waiting != [] {
      EjectionsAreCandidates(q.waiting[1..], Gone(q.waiting[1..], q.waiting[0]), q.waiting[0].id);
    }
  }

  /** A step refuses nobody but the head, and nobody at all once it tests. */
  lemma {:induction false} StepRefuses(e: Env, q: Queue, r: (Change, Rejection))
    requires IsRefusal(r.1) && q.waiting != []
    requires Refusal(e, q.waiting[0], q).None? || r.0 != q.waiting[0]
    ensures multiset(SerialStep(e, q).rejected)[r] == multiset(q.rejected)[r]
  {
    StepLogs(e, q);
    OnlyEjections(q.waiting[1..], Gone(q.waiting[1..], q.waiting[0]), q.waiting[0].id);
    assert r !in multiset(StepLog(e, q));
  }

  /** A run that stalls has a change at its head that has not landed. */
  lemma {:induction false} StalledHead(e: Env, q: Queue)
    requires !q.stalled && SerialDrain(e, q).stalled
    ensures var r := SerialDrain(e, q); r.waiting != [] && e.identity(r.waiting[0]) !in r.landed
    decreases if q.stalled then 0 else 1 + |q.waiting|
  {
    var r := SerialStep(e, q);
    if !r.stalled {
      StalledHead(e, r);
    }
  }

  /** Whatever lands from here on had not landed before. */
  lemma {:induction false} LandsOnlyNew(e: Env, q: Queue, j: nat)
    requires |q.merged| <= j < |SerialDrain(e, q).merged|
    ensures e.identity(SerialDrain(e, q).merged[j]) !in q.landed
    decreases if q.stalled then 0 else 1 + |q.waiting|
  {
    if !q.stalled && q.waiting != [] {
      var r := SerialStep(e, q);
      StepGrows(e, q);
      DrainGrows(e, r);
      EvictedHead(q, q.waiting[0], q.waiting[1..]);
      if j >= |r.merged| {
        LandsOnlyNew(e, r, j);
      }
    }
  }

  // ---- the same outcome ----------------------------------------------------------------------------

  /** Equal but for the window and the order of the rejections. */
  ghost predicate Same(a: Queue, b: Queue) {
    && a.base == b.base && a.waiting == b.waiting && a.landed == b.landed && a.merged == b.merged && a.stalled == b.stalled
    && multiset(a.rejected) == multiset(b.rejected)
  }

  /** What one run adds to its rejections the other adds to its own. */
  ghost predicate SameGain<T>(a: seq<T>, a': seq<T>, b: seq<T>, b': seq<T>) {
    multiset(a') + multiset(b) == multiset(b') + multiset(a)
  }

  lemma {:induction false} GainsAdd<T>(a: seq<T>, a': seq<T>, a'': seq<T>, b: seq<T>, b': seq<T>, b'': seq<T>)
    requires SameGain(a, a', b, b') && SameGain(a', a'', b', b'')
    ensures SameGain(a, a'', b, b'')
  {
    forall x
      ensures multiset(a'')[x] + multiset(b)[x] == multiset(b'')[x] + multiset(a)[x]
    {
      assert (multiset(a') + multiset(b))[x] == (multiset(b') + multiset(a))[x];
      assert (multiset(a'') + multiset(b'))[x] == (multiset(b'') + multiset(a'))[x];
    }
  }

  lemma {:induction false} GainOf<T>(a: seq<T>, b: seq<T>, g: seq<T>)
    ensures SameGain(a, a + g, b, b + g)
  {
  }

  lemma {:induction false} StepAlongside(e: Env, a: Queue, b: Queue)
    requires Alongside(a, b)
    ensures Alongside(SerialStep(e, a), SerialStep(e, b))
  {
    if !a.stalled && a.waiting != [] {
      var c, rest := a.waiting[0], a.waiting[1..];
      if Refusal(e, c, a).None? && Trial(e, c, a.base) == Failed {
        EvictedHead(a, c, rest);
        EvictedHead(b, c, rest);
      }
    }
  }

  lemma {:induction false} SameLog(e: Env, a: Queue, b: Queue)
    requires Alongside(a, b)
    ensures StepLog(e, a) == StepLog(e, b)
  {
  }

  lemma {:induction false} StepsGainTheSame(e: Env, a: Queue, b: Queue)
    requires Alongside(a, b)
    ensures StepLog(e, a) == StepLog(e, b)
    ensures SameGain(a.rejected, SerialStep(e, a).rejected, b.rejected, SerialStep(e, b).rejected)
  {
    SameLog(e, a, b);
    StepLogs(e, a);
    StepLogs(e, b);
    GainOf(a.rejected, b.rejected, StepLog(e, a));
  }

  /** The rejections so far have no part in what comes next. */
  lemma {:induction false} DrainAlongside(e: Env, a: Queue, b: Queue)
    requires Alongside(a, b)
    ensures Alongside(SerialDrain(e, a), SerialDrain(e, b))
    ensures SameGain(a.rejected, SerialDrain(e, a).rejected, b.rejected, SerialDrain(e, b).rejected)
    decreases if a.stalled then 0 else 1 + |a.waiting|
  {
    if !a.stalled && a.waiting != [] {
      var a', b' := SerialStep(e, a), SerialStep(e, b);
      StepAlongside(e, a, b);
      StepsGainTheSame(e, a, b);
      DrainAlongside(e, a', b');
      GainsAdd(a.rejected, a'.rejected, SerialDrain(e, a').rejected, b.rejected, b'.rejected, SerialDrain(e, b').rejected);
    }
  }

  lemma {:induction false} SameDrains(e: Env, a: Queue, b: Queue)
    requires Same(a, b)
    ensures Same(SerialDrain(e, a), SerialDrain(e, b))
  {
    DrainAlongside(e, a, b);
    EvenGains(a.rejected, SerialDrain(e, a).rejected, b.rejected, SerialDrain(e, b).rejected);
  }

  lemma {:induction false} EvenGains<T>(a: seq<T>, a': seq<T>, b: seq<T>, b': seq<T>)
    requires SameGain(a, a', b, b') && multiset(a) == multiset(b)
    ensures multiset(a') == multiset(b')
  {
    forall x
      ensures multiset(a')[x] == multiset(b')[x]
    {
      assert (multiset(a') + multiset(b))[x] == (multiset(b') + multiset(a))[x];
    }
  }
}
