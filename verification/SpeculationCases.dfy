/** Pairs of changes with which a drain breaks the promise, and pairs with which it does not. */
module SpeculationCases {
  import opened Basics
  import opened MergeQueue
  import opened MergeQueueProofs
  import opened Serial
  import opened Withheld
  import opened Speculation
  import opened SpeculationProofs
  import opened SpeculativeRuns

  /** Two changes wait, unrelated by declaration, and a window of two or more takes both. */
  ghost predicate PairWaits(e: Env, q: Queue, a: Change, b: Change) {
    && !q.stalled && q.window >= 2 && q.maxWindow >= 1 && q.waiting == [a, b]
    && a.id != b.id && b.depends == [] && e.identity(a) !in q.landed
  }

  /** `a` is merged on the base and fails its tests there. */
  ghost predicate FailsFirst(e: Env, q: Queue, a: Change, withA: State) {
    e.step(a, q.base) == Advanced(withA) && e.answers(Member(a, withA)) && e.ci(Member(a, withA)) == Failed
  }

  lemma {:induction false} OfferPair(e: Env, landed: set<string>, base: State, w: seq<Change>)
    requires |w| == 2
    ensures Speculate(e, landed, base, w[..2]) == Extend(e, landed, Extend(e, landed, Speculated([], [], base, 0, true), w[0]), w[1])
  {
    SingleOffer(e, landed, base, w);
    OfferOneMore(e, landed, base, w, 2);
  }

  lemma {:induction false} NobodyDepends(rest: seq<Change>, failed: nat)
    requires forall c :: c in rest ==> c.depends == []
    ensures Closure(rest, {failed}) == {failed}
  {
    assert NewDependents(rest, {failed}) == {};
  }

  /** The round on such a pair when the first fails and the second is refused behind it. */
  lemma {:induction false} RefusedBehind(e: Env, q: Queue, a: Change, b: Change, withA: State, why: Rejection)
    requires PairWaits(e, q, a, b) && FailsFirst(e, q, a, withA)
    requires Offer(e, q) == Speculated([Member(a, withA)], [(b, why)], withA, 2, true)
    ensures var r := Round(e, q);
      && Alongside(r, q.(waiting := [])) && r.rejected == q.rejected + [(b, why)] + [(a, CiFailure)]
  {
    var train, told := [Member(a, withA)], Thinned(e, q);
    SettledRound(e, q);
    assert Answered(e, train) && FirstStop(e, train) == 0 by {
      assert train[..0] == [];
    }
    assert train[..0] == [] && train[1..] == [] && q.waiting[2..] == [];
    assert Land(e, told, []) == told;
    NobodyDepends([], a.id);
  }

  lemma {:induction false} OfferRefused(e: Env, q: Queue, a: Change, b: Change, withA: State, why: Rejection)
    requires PairWaits(e, q, a, b) && e.step(a, q.base) == Advanced(withA)
    requires Refusal(e, b, q.(base := withA)) == Some(why)
    ensures Offer(e, q) == Speculated([Member(a, withA)], [(b, why)], withA, 2, true)
  {
    OfferPair(e, q.landed, q.base, q.waiting);
    assert [] + [Member(a, withA)] == [Member(a, withA)] && [] + [(b, why)] == [(b, why)];
  }

  /** One at a time, the first fails and the second is next, on the same base. */
  lemma {:induction false} FailedSerially(e: Env, q: Queue, a: Change, b: Change, withA: State)
    requires PairWaits(e, q, a, b) && FailsFirst(e, q, a, withA)
    ensures Alongside(SerialStep(e, q), q.(waiting := [b])) && SerialStep(e, q).rejected == q.rejected + [(a, CiFailure)]
  {
    assert q.waiting[1..] == [b];
    NobodyDepends([b], a.id);
    FailsAlone(q, a, [b]);
    StepLogs(e, q);
  }

  /** `b` merges cleanly and passes on the base, but conflicts on top of `a`, which fails: tested
      one at a time `b` lands; in one round with `a` it is rejected as a conflict, against a state
      that never came to be. */
  lemma {:induction false} ConflictBehindAFailure(e: Env, q: Queue, a: Change, b: Change, withA: State, withB: State)
    requires PairWaits(e, q, a, b) && e.identity(b) !in q.landed
    requires FailsFirst(e, q, a, withA) && e.step(b, withA) == Conflict
    requires e.step(b, q.base) == Advanced(withB) && Trial(e, b, q.base) == Passed
    ensures Drain(e, q).merged == q.merged && (b, MergeConflict) in Drain(e, q).rejected
    ensures SerialDrain(e, q).merged == q.merged + [b]
  {
    OfferRefused(e, q, a, b, withA, MergeConflict);
    RefusedBehind(e, q, a, b, withA, MergeConflict);
    WindowStaysOpen(e, q);
    assert Drain(e, q) == Round(e, q);
    assert (b, MergeConflict) == Round(e, q).rejected[|q.rejected|];
    FailedSerially(e, q, a, b, withA);
    LastOneLands(e, SerialStep(e, q), b);
  }

  lemma {:induction false} LastOneLands(e: Env, q: Queue, b: Change)
    requires !q.stalled && q.waiting == [b] && e.identity(b) !in q.landed && Trial(e, b, q.base) == Passed
    ensures SerialDrain(e, q).merged == q.merged + [b] && !SerialDrain(e, q).stalled
  {
    assert q.waiting[1..] == [];
    assert SerialDrain(e, SerialStep(e, q)) == SerialStep(e, q);
  }

  /** One at a time the first fails and the second is refused. */
  lemma {:induction false} BothRejected(e: Env, q: Queue, a: Change, b: Change, withA: State, why: Rejection)
    requires PairWaits(e, q, a, b) && FailsFirst(e, q, a, withA) && Refusal(e, b, q) == Some(why)
    ensures Alongside(SerialDrain(e, q), q.(waiting := [])) && SerialDrain(e, q).rejected == q.rejected + [(a, CiFailure)] + [(b, why)]
  {
    var one := SerialStep(e, q);
    FailedSerially(e, q, a, b, withA);
    LastOneRefused(e, one, b, why);
  }

  lemma {:induction false} LastOneRefused(e: Env, q: Queue, b: Change, why: Rejection)
    requires !q.stalled && q.waiting == [b] && Refusal(e, b, q) == Some(why)
    ensures SerialDrain(e, q) == q.(waiting := [], rejected := q.rejected + [(b, why)])
  {
    assert q.waiting[1..] == [];
    assert SerialDrain(e, SerialStep(e, q)) == SerialStep(e, q);
  }

  lemma {:induction false} EitherOrder<T>(s: seq<T>, a: T, b: T)
    ensures multiset(s + [b] + [a]) == multiset(s + [a] + [b])
  {
  }

  /** A change refused behind a failure that would have been refused on the base for the same reason, as
      a resubmission always is, does no harm. */
  lemma {:induction false} RefusedAnyway(e: Env, q: Queue, a: Change, b: Change, withA: State, why: Rejection)
    requires PairWaits(e, q, a, b) && FailsFirst(e, q, a, withA)
    requires Refusal(e, b, q.(base := withA)) == Some(why) && Refusal(e, b, q) == Some(why)
    ensures Orderly(e, q) && Same(Drain(e, q), SerialDrain(e, q)) && (b, why) in Drain(e, q).rejected
  {
    OfferRefused(e, q, a, b, withA, why);
    RefusedBehind(e, q, a, b, withA, why);
    BothRejected(e, q, a, b, withA, why);
    EitherOrder(q.rejected, (a, CiFailure), (b, why));
    RoundEnds(e, q, Round(e, q));
    assert (b, why) == Round(e, q).rejected[|q.rejected|];
    RoundIsInvisible(e, q);
  }

  lemma {:induction false} RoundEnds(e: Env, q: Queue, r: Queue)
    requires !q.stalled && q.waiting != [] && q.window >= 1 && q.maxWindow >= 1 && r == Round(e, q) && r.waiting == []
    ensures SerialDrain(e, r) == r && Drain(e, q) == r
  {
    WindowStaysOpen(e, q);
  }

  /** A speculator that cannot answer for `b`, or an executor that cannot, sends `a` back untested too:
      nothing lands, where one at a time `a` would have. */
  lemma {:induction false} SilenceVoidsTheRound(e: Env, q: Queue, a: Change, b: Change, withA: State)
    requires PairWaits(e, q, a, b) && e.identity(b) !in q.landed
    requires e.step(a, q.base) == Advanced(withA) && Trial(e, a, q.base) == Passed
    requires e.step(b, withA) == Unavailable || (e.step(b, withA).Advanced? && !e.answers(Member(b, e.step(b, withA).next)))
    ensures Drain(e, q).merged == q.merged && q.merged + [a] <= SerialDrain(e, q).merged
  {
    OfferPair(e, q.landed, q.base, q.waiting);
    var s := Offer(e, q);
    if s.available {
      assert s.train[1] == Member(b, e.step(b, withA).next);
      assert s.train[1] in s.train;
    }
    VoidRound(e, q);
    WindowStaysOpen(e, q);
    assert Drain(e, q) == Round(e, q);
    DrainGrows(e, SerialStep(e, q));
  }

  // ---- such pairs exist ----------------------------------------------------------------------------------

  /** Both changes rewrite the base. The first fails its tests; where it stands, the second conflicts. */
  function ClashWorld(base: State, first: State, second: State): Env {
    Env((c: Change, s: State) => if c.id == 1 then Advanced(first) else if s == base then Advanced(second) else Conflict,
        m => true, (m: Member) => if m.change.id == 1 then Failed else Passed, m => true, (c: Change) => c.proposed)
  }

  lemma {:induction false} ClashHappens(base: State, first: State, second: State) returns (e: Env, q: Queue)
    requires base != first
    ensures q.window == q.maxWindow == 2 && Drain(e, q).merged == [] && |SerialDrain(e, q).merged| == 1
  {
    var a, b := Change(1, base, first, []), Change(2, base, second, []);
    e := ClashWorld(base, first, second);
    q := Queue(base, 2, 2, [a, b], {}, [], [], false);
    ConflictBehindAFailure(e, q, a, b, first, second);
  }

  /** The second change is one that neither merges nor fails to: nobody can say. */
  function SilentWorld(first: State): Env {
    Env((c: Change, s: State) => if c.id == 1 then Advanced(first) else Unavailable,
        m => true, m => Passed, m => true, (c: Change) => c.proposed)
  }

  lemma {:induction false} SilenceHappens(base: State, first: State, second: State) returns (e: Env, q: Queue)
    ensures q.window == q.maxWindow == 2 && Drain(e, q).merged == [] && |SerialDrain(e, q).merged| >= 1
  {
    var a, b := Change(1, base, first, []), Change(2, base, second, []);
    e := SilentWorld(first);
    q := Queue(base, 2, 2, [a, b], {}, [], [], false);
    SilenceVoidsTheRound(e, q, a, b, first);
  }

  /** A resubmission of a landed change behind one that fails. */
  lemma {:induction false} ResubmissionIsHarmless(base: State, first: State, second: State) returns (e: Env, q: Queue)
    ensures q.window == q.maxWindow == |q.waiting| == 2
    ensures (q.waiting[1], AlreadyLanded) in Drain(e, q).rejected && Same(Drain(e, q), SerialDrain(e, q))
  {
    var a, b := Change(1, base, first, []), Change(2, base, second, []);
    e := ClashWorld(base, first, second).(identity := (c: Change) => if c.id == 1 then first else "x" + first);
    q := Queue(base, 2, 2, [a, b], {"x" + first}, [], [], false);
    assert |"x" + first| != |first|;
    RefusedAnyway(e, q, a, b, first, AlreadyLanded);
  }
}
