/** A run that keeps the promise though two of its rounds do not: a change that waits twice is refused for
    the wrong reason both times, and the two mistakes cancel. */
module SpeculationSwap {
  import opened Basics
  import opened Sequences
  import opened MergeQueue
  import opened MergeQueueProofs
  import opened Serial
  import opened Withheld
  import opened Speculation
  import opened SpeculationProofs
  import opened SpeculativeRuns
  import opened SpeculationCases

  /** The states a queue of `f`, `x`, `g`, `h` and `x` again goes through: one after another as a round
      speculates, and `afterG` and `afterGH` once `f` is out of the way. */
  datatype States = States(base: State, f: State, fg: State, fgh: State, g: State, gh: State)

  datatype Cast = Cast(f: Change, x: Change, g: Change, h: Change)

  /** `f` and `h` fail wherever they are tested and `g` passes; `x` is refused as unsafe on the base and
      behind `g` and `h`, and as a conflict behind `f` and behind `g`. */
  ghost predicate SwapWorld(e: Env, c: Cast, p: States) {
    && (forall m :: e.answers(m) && e.records(m))
    && (forall m: Member :: e.ci(m) == if m.change == c.f || m.change == c.h then Failed else Passed)
    && e.step(c.f, p.base) == Advanced(p.f)
    && e.step(c.x, p.f) == Conflict && e.step(c.g, p.f) == Advanced(p.fg) && e.step(c.h, p.fg) == Advanced(p.fgh)
    && e.step(c.x, p.fgh) == Advanced(p.fgh)
    && e.step(c.x, p.base) == Unsafe && e.step(c.g, p.base) == Advanced(p.g) && e.step(c.h, p.g) == Advanced(p.gh)
    && e.step(c.x, p.gh) == Unsafe && e.step(c.x, p.g) == Conflict
    && e.identity(c.g) != e.identity(c.f) == e.identity(c.h) == e.identity(c.x)
  }

  ghost predicate Unrelated(c: Cast) {
    && c.f.depends == [] && c.x.depends == [] && c.g.depends == [] && c.h.depends == []
    && c.f != c.x && c.f != c.g && c.f != c.h && c.x != c.g && c.x != c.h && c.g != c.h
  }

  function SwapQueue(c: Cast, base: State): Queue {
    Queue(base, 7, 7, [c.f, c.x, c.g, c.h, c.x], {}, [], [], false)
  }

  // ---- one at a time -----------------------------------------------------------------------------

  lemma {:induction false} FailThen(e: Env, q: Queue, c: Change, rest: seq<Change>)
    requires !q.stalled && q.waiting == [c] + rest && Refusal(e, c, q).None? && Trial(e, c, q.base) == Failed
    requires forall d :: d in rest ==> d.depends == []
    ensures Same(SerialDrain(e, q), SerialDrain(e, q.(waiting := rest, rejected := q.rejected + [(c, CiFailure)])))
  {
    assert q.waiting[1..] == rest;
    NobodyDepends(rest, c.id);
    FailsAlone(q, c, rest);
    StepLogs(e, q);
    SameDrains(e, SerialStep(e, q), q.(waiting := rest, rejected := q.rejected + [(c, CiFailure)]));
  }

  lemma {:induction false} RefuseThen(e: Env, q: Queue, c: Change, rest: seq<Change>, why: Rejection)
    requires !q.stalled && q.waiting == [c] + rest && Refusal(e, c, q) == Some(why)
    ensures SerialDrain(e, q) == SerialDrain(e, q.(waiting := rest, rejected := q.rejected + [(c, why)]))
  {
    assert q.waiting[1..] == rest;
  }

  lemma {:induction false} LandThen(e: Env, q: Queue, c: Change, rest: seq<Change>, next: State)
    requires !q.stalled && q.waiting == [c] + rest && Refusal(e, c, q).None? && Trial(e, c, q.base) == Passed
    requires e.step(c, q.base) == Advanced(next)
    ensures SerialDrain(e, q) == SerialDrain(e, q.(base := next, waiting := rest, merged := q.merged + [c], landed := q.landed + {e.identity(c)}))
  {
    assert q.waiting[1..] == rest;
  }

  /** What is left once `f` and the first `x` are gone, whatever was said of them. */
  lemma {:induction false} TailSerially(e: Env, c: Cast, p: States, q: Queue)
    requires SwapWorld(e, c, p) && Unrelated(c)
    requires !q.stalled && q.base == p.base && q.landed == {} && q.merged == [] && q.waiting == [c.g, c.h, c.x]
    ensures var r := q.(base := p.g, landed := {e.identity(c.g)}, merged := [c.g], waiting := [],
                        rejected := q.rejected + [(c.h, CiFailure)] + [(c.x, MergeConflict)]);
      Same(SerialDrain(e, q), r)
  {
    var q1 := q.(base := p.g, waiting := [c.h, c.x], merged := [c.g], landed := {e.identity(c.g)});
    assert q.waiting == [c.g] + [c.h, c.x] && [] + [c.g] == [c.g] && {} + {e.identity(c.g)} == {e.identity(c.g)};
    LandThen(e, q, c.g, [c.h, c.x], p.g);
    assert q1.waiting == [c.h] + [c.x];
    FailThen(e, q1, c.h, [c.x]);
    var q2 := q1.(waiting := [c.x], rejected := q1.rejected + [(c.h, CiFailure)]);
    assert q2.waiting == [c.x] + [];
    RefuseThen(e, q2, c.x, [], MergeConflict);
  }

  lemma {:induction false} AllSerially(e: Env, c: Cast, p: States)
    requires SwapWorld(e, c, p) && Unrelated(c)
    ensures var q := SwapQueue(c, p.base);
      Same(SerialDrain(e, q), q.(base := p.g, landed := {e.identity(c.g)}, merged := [c.g], waiting := [],
                                 rejected := [(c.f, CiFailure)] + [(c.x, SafetyViolation)] + [(c.h, CiFailure)] + [(c.x, MergeConflict)]))
  {
    var q := SwapQueue(c, p.base);
    var rest := [c.x, c.g, c.h, c.x];
    assert q.waiting == [c.f] + rest && [] + [(c.f, CiFailure)] == [(c.f, CiFailure)];
    FailThen(e, q, c.f, rest);
    var q1 := q.(waiting := rest, rejected := [(c.f, CiFailure)]);
    assert rest == [c.x] + [c.g, c.h, c.x];
    RefuseThen(e, q1, c.x, [c.g, c.h, c.x], SafetyViolation);
    TailSerially(e, c, p, q1.(waiting := [c.g, c.h, c.x], rejected := [(c.f, CiFailure)] + [(c.x, SafetyViolation)]));
  }

  // ---- in rounds -----------------------------------------------------------------------------------

  lemma {:induction false} FirstThree(e: Env, c: Cast, p: States, w: seq<Change>)
    requires SwapWorld(e, c, p) && Unrelated(c) && w == [c.f, c.x, c.g, c.h, c.x]
    ensures Speculate(e, {}, p.base, w[..3]) == Speculated([Member(c.f, p.f), Member(c.g, p.fg)], [(c.x, MergeConflict)], p.fg, 3, true)
  {
    SingleOffer(e, {}, p.base, w);
    OfferOneMore(e, {}, p.base, w, 2);
    OfferOneMore(e, {}, p.base, w, 3);
    assert [] + [Member(c.f, p.f)] == [Member(c.f, p.f)] && [] + [(c.x, MergeConflict)] == [(c.x, MergeConflict)];
    assert Speculate(e, {}, p.base, w[..2]) == Speculated([Member(c.f, p.f)], [(c.x, MergeConflict)], p.f, 2, true);
    assert [Member(c.f, p.f)] + [Member(c.g, p.fg)] == [Member(c.f, p.f), Member(c.g, p.fg)];
  }

  /** The first round takes all five. */
  lemma {:induction false} FirstOffer(e: Env, c: Cast, p: States)
    requires SwapWorld(e, c, p) && Unrelated(c)
    ensures Offer(e, SwapQueue(c, p.base)) ==
            Speculated([Member(c.f, p.f), Member(c.g, p.fg), Member(c.h, p.fgh), Member(c.x, p.fgh)], [(c.x, MergeConflict)], p.fgh, 5, true)
  {
    var w := [c.f, c.x, c.g, c.h, c.x];
    FirstThree(e, c, p, w);
    OfferOneMore(e, {}, p.base, w, 4);
    OfferOneMore(e, {}, p.base, w, 5);
    assert [Member(c.f, p.f), Member(c.g, p.fg)] + [Member(c.h, p.fgh)] == [Member(c.f, p.f), Member(c.g, p.fg), Member(c.h, p.fgh)];
    assert w[..5] == w;
  }

  /** A train that stops at its first member, which fails and takes nobody with it. */
  lemma {:induction false} FirstFails(e: Env, told: Queue, m: Member, behind: seq<Member>, rest: seq<Change>)
    requires Decision(e, m) == Failed && forall d :: d in Changes(behind) + rest ==> d.depends == []
    ensures var r := Settle(e, told, [m] + behind, rest);
      && Alongside(r, told.(waiting := Changes(behind) + rest)) && r.rejected == told.rejected + [(m.change, CiFailure)]
      && r.window == Min(if told.window / 2 > 1 then told.window / 2 else 1, told.maxWindow) && r.maxWindow == told.maxWindow
  {
    var train := [m] + behind;
    StopsFirst(e, train);
    assert train[..0] == [] && train[1..] == behind;
    NobodyDepends(Changes(behind) + rest, m.change.id);
  }

  lemma {:induction false} StopsFirst(e: Env, train: seq<Member>)
    requires train != [] && Decision(e, train[0]) != Passed
    ensures FirstStop(e, train) == 0
  {
    var i := FirstStop(e, train);
    assert Decision(e, train[0]) != Passed;
  }

  lemma {:induction false} FirstRound(e: Env, c: Cast, p: States)
    requires SwapWorld(e, c, p) && Unrelated(c)
    ensures Round(e, SwapQueue(c, p.base)) ==
            Queue(p.base, 3, 7, [c.g, c.h, c.x], {}, [], [(c.x, MergeConflict)] + [(c.f, CiFailure)], false)
  {
    var q := SwapQueue(c, p.base);
    var behind := [Member(c.g, p.fg), Member(c.h, p.fgh), Member(c.x, p.fgh)];
    FirstOffer(e, c, p);
    SettledRound(e, q);
    ThreeChanges(behind);
    assert Offer(e, q).train == [Member(c.f, p.f)] + behind;
    assert q.waiting[5..] == [] && [c.g, c.h, c.x] + [] == [c.g, c.h, c.x];
    FirstFails(e, Thinned(e, q), Member(c.f, p.f), behind, []);
    assert [] + [(c.x, MergeConflict)] == [(c.x, MergeConflict)];
  }

  lemma {:induction false} ThreeChanges(train: seq<Member>)
    requires |train| == 3
    ensures Changes(train) == [train[0].change, train[1].change, train[2].change]
  {
    ChangeAt(train, 0);
    ChangeAt(train, 1);
    ChangeAt(train, 2);
  }

  lemma {:induction false} SecondOffer(e: Env, c: Cast, p: States, q: Queue)
    requires SwapWorld(e, c, p) && Unrelated(c)
    requires q.base == p.base && q.landed == {} && q.window == 3 && q.waiting == [c.g, c.h, c.x]
    ensures Offer(e, q) == Speculated([Member(c.g, p.g), Member(c.h, p.gh)], [(c.x, SafetyViolation)], p.gh, 3, true)
  {
    var w := q.waiting;
    SingleOffer(e, {}, p.base, w);
    OfferOneMore(e, {}, p.base, w, 2);
    OfferOneMore(e, {}, p.base, w, 3);
    assert [] + [Member(c.g, p.g)] == [Member(c.g, p.g)] && [] + [(c.x, SafetyViolation)] == [(c.x, SafetyViolation)];
    assert [Member(c.g, p.g)] + [Member(c.h, p.gh)] == [Member(c.g, p.g), Member(c.h, p.gh)];
    assert Speculate(e, {}, p.base, w[..2]) == Speculated([Member(c.g, p.g), Member(c.h, p.gh)], [], p.gh, 2, true);
  }

  lemma {:induction false} SecondRound(e: Env, c: Cast, p: States, q: Queue)
    requires SwapWorld(e, c, p) && Unrelated(c)
    requires q.base == p.base && q.landed == {} && q.merged == [] && q.window == 3 && q.waiting == [c.g, c.h, c.x] && !q.stalled
    ensures var r := Round(e, q);
      && Alongside(r, q.(base := p.g, landed := {e.identity(c.g)}, merged := [c.g], waiting := []))
      && r.rejected == q.rejected + [(c.x, SafetyViolation)] + [(c.h, CiFailure)]
  {
    var train := [Member(c.g, p.g), Member(c.h, p.gh)];
    SecondOffer(e, c, p, q);
    SettledRound(e, q);
    StopsSecond(e, train);
    var told := Thinned(e, q);
    assert train[..1] == [Member(c.g, p.g)] && train[2..] == [] && q.waiting[3..] == [];
    LandOne(e, told, train[0]);
    NobodyDepends([], c.h.id);
    assert Round(e, q) == Evict(Land(e, told, train[..1]), c.h, [], []);
  }

  lemma {:induction false} StopsSecond(e: Env, train: seq<Member>)
    requires |train| == 2 && Decision(e, train[0]) == Passed && Decision(e, train[1]) != Passed
    ensures FirstStop(e, train) == 1
  {
    var i := FirstStop(e, train);
    assert Decision(e, train[0]) == Passed && Decision(e, train[1]) != Passed;
  }

  lemma {:induction false} LandOne(e: Env, q: Queue, m: Member)
    ensures Alongside(Land(e, q, [m]), q.(base := m.state, landed := q.landed + {e.identity(m.change)}, merged := q.merged + [m.change]))
    ensures Land(e, q, [m]).rejected == q.rejected
  {
    assert [m][..0] == [];
    assert Land(e, q, []) == q;
  }

  // ---- the mistakes cancel ---------------------------------------------------------------------------

  lemma {:induction false} OtherOrder<T>(a: T, b: T, c: T, d: T)
    ensures multiset([a] + [b] + [c] + [d]) == multiset([d] + [a] + [b] + [c])
  {
  }

  /** The drain ends as testing one at a time does, and yet its first round told `x` the wrong reason:
      with one at a time from there on, the outcome is another. */
  lemma {:induction false} MistakesCancel(e: Env, c: Cast, p: States)
    requires SwapWorld(e, c, p) && Unrelated(c)
    ensures var q := SwapQueue(c, p.base);
      Same(Drain(e, q), SerialDrain(e, q)) && !Invisible(e, q) && !OrderlyRun(e, q)
  {
    var q := SwapQueue(c, p.base);
    var r := Round(e, q);
    FirstRound(e, c, p);
    SecondRound(e, c, p, r);
    AllSerially(e, c, p);
    WindowStaysOpen(e, q);
    WindowStaysOpen(e, r);
    RoundEnds(e, r, Round(e, r));
    OtherOrder((c.f, CiFailure), (c.x, SafetyViolation), (c.h, CiFailure), (c.x, MergeConflict));
    assert r.rejected + [(c.x, SafetyViolation)] + [(c.h, CiFailure)] ==
           [(c.x, MergeConflict)] + [(c.f, CiFailure)] + [(c.x, SafetyViolation)] + [(c.h, CiFailure)];
    OutcomeDiffers(e, c, p, q, r);
    RoundIsInvisible(e, q);
  }

  lemma {:induction false} OutcomeDiffers(e: Env, c: Cast, p: States, q: Queue, r: Queue)
    requires SwapWorld(e, c, p) && Unrelated(c) && q == SwapQueue(c, p.base)
    requires r == Queue(p.base, 3, 7, [c.g, c.h, c.x], {}, [], [(c.x, MergeConflict)] + [(c.f, CiFailure)], false)
    ensures !Same(SerialDrain(e, r), SerialDrain(e, q))
  {
    TailSerially(e, c, p, r);
    AllSerially(e, c, p);
    SaidOnce((c.f, CiFailure), (c.x, SafetyViolation), (c.h, CiFailure), (c.x, MergeConflict));
  }

  /** A bag with something in it that another has not. */
  lemma {:induction false} SaidOnce<T>(a: T, b: T, c: T, d: T)
    requires b != a && b != c && b != d
    ensures multiset([d] + [a] + [c] + [d]) != multiset([a] + [b] + [c] + [d])
  {
    assert multiset([d] + [a] + [c] + [d])[b] == 0;
    assert multiset([a] + [b] + [c] + [d])[b] == 1;
  }

  /** Such a world, of states that differ. */
  function SwapEnv(c: Cast, p: States): Env {
    Env((d: Change, s: State) =>
          if d == c.f then Advanced(p.f)
          else if d == c.g then Advanced(if s == p.base then p.g else p.fg)
          else if d == c.h then Advanced(if s == p.fg then p.fgh else p.gh)
          else if s == p.base || s == p.gh then Unsafe
          else if s == p.f || s == p.g then Conflict
          else Advanced(s),
        m => true, (m: Member) => if m.change == c.f || m.change == c.h then Failed else Passed, m => true,
        (d: Change) => if d == c.g then [] else ['x'])
  }

  ghost predicate StatesDiffer(p: States) {
    && p.f != p.base && p.g != p.base && p.gh != p.base && p.fgh != p.base
    && p.gh != p.f && p.gh != p.g && p.fgh != p.f && p.fgh != p.g && p.fgh != p.gh && p.g != p.fg
  }

  lemma {:induction false} SwapEnvIsOne(c: Cast, p: States)
    requires StatesDiffer(p) && Unrelated(c)
    ensures SwapWorld(SwapEnv(c, p), c, p)
  {
  }

  /** With a change that waits twice a run can keep the promise without being orderly. */
  lemma {:induction false} CancellingRun(p: States) returns (e: Env, q: Queue)
    requires StatesDiffer(p)
    ensures q.window >= 1 && q.maxWindow >= 1 && Same(Drain(e, q), SerialDrain(e, q)) && !OrderlyRun(e, q)
  {
    var c := Cast(Change(1, p.base, p.f, []), Change(2, p.base, p.f, []), Change(3, p.base, p.f, []), Change(4, p.base, p.f, []));
    e := SwapEnv(c, p);
    q := SwapQueue(c, p.base);
    SwapEnvIsOne(c, p);
    MistakesCancel(e, c, p);
  }
}
