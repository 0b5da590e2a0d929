/** What the merge queue guarantees on every run: what lands was tested, blame is fair, nobody is lost or
    reordered, and a failure takes down just what depends on it. */
module MergeQueueProofs {
  import opened Basics
  import opened MergeQueue
  import opened Sequences

  datatype Reached = Reached(state: State) | Nowhere

  /** The states one-at-a-time testing goes through: each change merged on the last state and tested
      there. */
  function Replay(e: Env, base: State, changes: seq<Change>): Reached {
    if changes == [] then Reached(base)
    else
      var before := Replay(e, base, changes[..|changes| - 1]);
      if before.Nowhere? then Nowhere else TryOne(e, before.state, changes[|changes| - 1])
  }

  function TryOne(e: Env, base: State, c: Change): Reached {
    var step := e.step(c, base);
    if step.Advanced? && e.ci(Member(c, step.next)) == Passed && e.records(Member(c, step.next)) then Reached(step.next) else Nowhere
  }

  // ---- the train ---------------------------------------------------------------------------

  function StateBefore(base: State, train: seq<Member>, k: nat): State
    requires k <= |train|
  {
    if k == 0 then base else train[k - 1].state
  }

  ghost predicate MemberOk(e: Env, base: State, train: seq<Member>, k: nat)
    requires k < |train|
  {
    e.step(train[k].change, StateBefore(base, train, k)) == Advanced(train[k].state)
  }

  /** Every member was merged onto the state of the one before it, and the tip is the last. */
  lemma {:induction false} TrainIsLinked(e: Env, landed: set<string>, base: State, offered: seq<Change>)
    ensures var s := Speculate(e, landed, base, offered);
      && (forall k :: 0 <= k < |s.train| ==> MemberOk(e, base, s.train, k))
      && s.tip == StateBefore(base, s.train, |s.train|)
  {
    if offered != [] {
      TrainIsLinked(e, landed, base, offered[..|offered| - 1]);
      var before := Speculate(e, landed, base, offered[..|offered| - 1]);
      var s := Speculate(e, landed, base, offered);
      forall k | 0 <= k < |s.train|
        ensures MemberOk(e, base, s.train, k)
      {
        assert k < |before.train| ==> MemberOk(e, base, before.train, k);
      }
    }
  }

  // ---- only what was tested lands ----------------------------------------------------------

  ghost predicate Faithful(e: Env, start: State, q: Queue) {
    Replay(e, start, q.merged) == Reached(q.base)
  }

  lemma {:induction false} ReplayOneMore(e: Env, start: State, merged: seq<Change>, c: Change, base: State, next: State)
    requires Replay(e, start, merged) == Reached(base) && e.step(c, base) == Advanced(next) && Decision(e, Member(c, next)) == Passed
    ensures Replay(e, start, merged + [c]) == Reached(next)
  {
    assert (merged + [c])[..|merged + [c]| - 1] == merged;
  }

  lemma {:induction false} LandIsFaithful(e: Env, start: State, q: Queue, train: seq<Member>, i: nat)
    requires Faithful(e, start, q) && i <= FirstStop(e, train)
    requires forall k :: 0 <= k < |train| ==> MemberOk(e, q.base, train, k)
    ensures Faithful(e, start, Land(e, q, train[..i]))
  {
    if i > 0 {
      LandIsFaithful(e, start, q, train, i - 1);
      LandNext(e, start, q, train, i - 1);
    } else {
      assert train[..0] == [];
    }
  }

  lemma {:induction false} LandNext(e: Env, start: State, q: Queue, train: seq<Member>, i: nat)
    requires i < FirstStop(e, train) && Faithful(e, start, Land(e, q, train[..i])) && MemberOk(e, q.base, train, i)
    ensures Faithful(e, start, Land(e, q, train[..i + 1]))
  {
    LandShape(e, q, train[..i]);
    assert train[..i + 1][..i] == train[..i];
    OneMoreLands(e, start, Land(e, q, train[..i]), Land(e, q, train[..i + 1]), train[i]);
  }

  lemma {:induction false} OneMoreLands(e: Env, start: State, before: Queue, after: Queue, m: Member)
    requires Faithful(e, start, before) && e.step(m.change, before.base) == Advanced(m.state) && Decision(e, m) == Passed
    requires after.merged == before.merged + [m.change] && after.base == m.state
    ensures Faithful(e, start, after)
  {
    ReplayOneMore(e, start, before.merged, m.change, before.base, m.state);
  }

  lemma {:induction false} RoundIsFaithful(e: Env, start: State, q: Queue)
    requires q.waiting != [] && q.window >= 1 && Faithful(e, start, q)
    ensures Faithful(e, start, Round(e, q))
  {
    var offered := q.waiting[..Min(q.window, |q.waiting|)];
    var s := Speculate(e, q.landed, q.base, offered);
    var told := q.(rejected := q.rejected + s.rejects);
    TrainIsLinked(e, q.landed, q.base, offered);
    LandIsFaithful(e, start, told, s.train, FirstStop(e, s.train));
  }

  /** Every drain ends on the state that testing the merged changes one at a time, in that order,
      ends on: nothing lands that was not merged onto and tested on exactly what landed before it. */
  lemma {:induction false} DrainIsFaithful(e: Env, start: State, q: Queue)
    requires q.window >= 1 && q.maxWindow >= 1 && Faithful(e, start, q)
    ensures Faithful(e, start, Drain(e, q))
    decreases if q.stalled then 0 else 1 + |q.waiting|
  {
    if !q.stalled && q.waiting != [] {
      WindowStaysOpen(e, q);
      RoundIsFaithful(e, start, q);
      DrainIsFaithful(e, start, Round(e, q));
    }
  }

  // ---- blame -----------------------------------------------------------------------------------

  /** `c` was merged onto what some of the merged changes lead to, and failed its tests there. */
  ghost predicate FailedFairly(e: Env, start: State, merged: seq<Change>, c: Change) {
    exists k :: 0 <= k <= |merged| && FailedOn(e, Replay(e, start, merged[..k]), c)
  }

  ghost predicate FailedOn(e: Env, at: Reached, c: Change) {
    at.Reached? && e.step(c, at.state).Advanced? && e.ci(Member(c, e.step(c, at.state).next)) == Failed
  }

  ghost predicate BlameIsFair(e: Env, start: State, q: Queue) {
    forall r :: r in q.rejected && r.1.CiFailure? ==> FailedFairly(e, start, q.merged, r.0)
  }

  lemma {:induction false} FairStaysFair(e: Env, start: State, before: seq<Change>, after: seq<Change>, c: Change)
    requires before <= after && FailedFairly(e, start, before, c)
    ensures FailedFairly(e, start, after, c)
  {
    var k :| 0 <= k <= |before| && FailedOn(e, Replay(e, start, before[..k]), c);
    assert after[..k] == before[..k];
  }

  lemma {:induction false} NoFailureAmongEjections(cands: seq<Change>, ids: set<nat>, on: nat)
    ensures forall r :: r in Ejections(cands, ids, on) ==> r.1.DependencyEjection?
    ensures forall r :: r in EjectionsReversed(cands, ids, on) ==> r.1.DependencyEjection?
  {
    if cands != [] {
      NoFailureAmongEjections(cands[..|cands| - 1], ids, on);
    }
  }

  lemma {:induction false} NoFailureWhileSpeculating(e: Env, landed: set<string>, base: State, offered: seq<Change>)
    ensures forall r :: r in Speculate(e, landed, base, offered).rejects ==> !r.1.CiFailure?
  {
    if offered != [] {
      NoFailureWhileSpeculating(e, landed, base, offered[..|offered| - 1]);
    }
  }

  /** The only test failures an eviction adds are the failed change's own. */
  lemma {:induction false} EvictBlamesOne(q: Queue, failed: Change, behind: seq<Change>, rest: seq<Change>)
    ensures forall r :: r in Evict(q, failed, behind, rest).rejected && r.1.CiFailure? ==> r in q.rejected || r.0 == failed
    ensures Evict(q, failed, behind, rest).merged == q.merged
  {
    var ejected := Closure(behind + rest, {failed.id});
    NoFailureAmongEjections(behind, ejected, failed.id);
    NoFailureAmongEjections(rest, ejected, failed.id);
  }

  /** More landings leave every earlier blame fair. */
  lemma {:induction false} BlameOutlivesLandings(e: Env, start: State, q: Queue, r: Queue)
    requires BlameIsFair(e, start, q) && q.merged <= r.merged && r.rejected == q.rejected
    ensures BlameIsFair(e, start, r)
  {
    forall x | x in r.rejected && x.1.CiFailure?
      ensures FailedFairly(e, start, r.merged, x.0)
    {
      FairStaysFair(e, start, q.merged, r.merged, x.0);
    }
  }

  lemma {:induction false} EvictBlamesFairly(e: Env, start: State, q: Queue, m: Member, behind: seq<Change>, rest: seq<Change>)
    requires BlameIsFair(e, start, q) && Faithful(e, start, q)
    requires e.step(m.change, q.base) == Advanced(m.state) && Decision(e, m) == Failed
    ensures BlameIsFair(e, start, Evict(q, m.change, behind, rest))
  {
    assert q.merged[..|q.merged|] == q.merged;
    assert FailedOn(e, Replay(e, start, q.merged[..|q.merged|]), m.change);
    EvictBlamesOne(q, m.change, behind, rest);
  }

  /** The member a train stops at was merged on what the members before it lead to. */
  lemma {:induction false} StopIsNext(e: Env, told: Queue, train: seq<Member>)
    requires FirstStop(e, train) < |train| && forall k :: 0 <= k < |train| ==> MemberOk(e, told.base, train, k)
    ensures var i := FirstStop(e, train);
      e.step(train[i].change, Land(e, told, train[..i]).base) == Advanced(train[i].state)
  {
    LandShape(e, told, train[..FirstStop(e, train)]);
    assert MemberOk(e, told.base, train, FirstStop(e, train));
  }

  lemma {:induction false} LandingsBlameFairly(e: Env, start: State, told: Queue, train: seq<Member>, i: nat)
    requires BlameIsFair(e, start, told) && Faithful(e, start, told) && i <= FirstStop(e, train)
    requires forall k :: 0 <= k < |train| ==> MemberOk(e, told.base, train, k)
    ensures BlameIsFair(e, start, Land(e, told, train[..i])) && Faithful(e, start, Land(e, told, train[..i]))
  {
    LandIsFaithful(e, start, told, train, i);
    LandShape(e, told, train[..i]);
    BlameOutlivesLandings(e, start, told, Land(e, told, train[..i]));
  }

  /** A train that stops at a failure evicts what failed. */
  lemma {:induction false} FailureEvicts(e: Env, told: Queue, train: seq<Member>, rest: seq<Change>)
    requires FirstStop(e, train) < |train| && Decision(e, train[FirstStop(e, train)]) == Failed
    ensures var i := FirstStop(e, train);
      Settle(e, told, train, rest) == Evict(Land(e, told, train[..i]), train[i].change, Changes(train[i + 1..]), rest)
  {
    var i := FirstStop(e, train);
    assert i != |train| && Decision(e, train[i]) != Inconclusive;
  }

  lemma {:induction false} NobodyBlamed(e: Env, told: Queue, train: seq<Member>, rest: seq<Change>)
    requires FirstStop(e, train) < |train| ==> Decision(e, train[FirstStop(e, train)]) != Failed
    ensures var green, r := Land(e, told, train[..FirstStop(e, train)]), Settle(e, told, train, rest);
      r.merged == green.merged && r.rejected == green.rejected
  {
  }

  lemma {:induction false} SettleBlamesFairly(e: Env, start: State, told: Queue, train: seq<Member>, rest: seq<Change>)
    requires BlameIsFair(e, start, told) && Faithful(e, start, told)
    requires forall k :: 0 <= k < |train| ==> MemberOk(e, told.base, train, k)
    ensures BlameIsFair(e, start, Settle(e, told, train, rest))
  {
    var i := FirstStop(e, train);
    var green, r := Land(e, told, train[..i]), Settle(e, told, train, rest);
    LandingsBlameFairly(e, start, told, train, i);
    if i < |train| && Decision(e, train[i]) == Failed {
      FailureEvicts(e, told, train, rest);
      StopIsNext(e, told, train);
      EvictBlamesFairly(e, start, green, train[i], Changes(train[i + 1..]), rest);
    } else {
      NobodyBlamed(e, told, train, rest);
      BlameOutlivesLandings(e, start, green, r);
    }
  }

  lemma {:induction false} RoundBlamesFairly(e: Env, start: State, q: Queue)
    requires q.waiting != [] && q.window >= 1 && Faithful(e, start, q) && BlameIsFair(e, start, q)
    ensures BlameIsFair(e, start, Round(e, q))
  {
    var take := Min(q.window, |q.waiting|);
    var s := Speculate(e, q.landed, q.base, q.waiting[..take]);
    var told := q.(rejected := q.rejected + s.rejects);
    NoFailureWhileSpeculating(e, q.landed, q.base, q.waiting[..take]);
    TrainIsLinked(e, q.landed, q.base, q.waiting[..take]);
    assert BlameIsFair(e, start, told);
    if s.available && Answered(e, s.train) {
      SettleBlamesFairly(e, start, told, s.train, q.waiting[take..]);
    }
  }

  /** A change is reported as failing its tests only when it failed them on top of changes that
      landed ahead of it, whatever the window was. */
  lemma {:induction false} DrainBlamesFairly(e: Env, start: State, q: Queue)
    requires q.window >= 1 && q.maxWindow >= 1 && Faithful(e, start, q) && BlameIsFair(e, start, q)
    ensures BlameIsFair(e, start, Drain(e, q))
    decreases if q.stalled then 0 else 1 + |q.waiting|
  {
    if !q.stalled && q.waiting != [] {
      WindowStaysOpen(e, q);
      RoundIsFaithful(e, start, q);
      RoundBlamesFairly(e, start, q);
      DrainBlamesFairly(e, start, Round(e, q));
    }
  }

  // ---- nobody is lost ------------------------------------------------------------------------

  function One(x: Change, y: Change): nat {
    if x == y then 1 else 0
  }

  function Times(x: Change, s: seq<Change>): nat {
    if s == [] then 0 else Times(x, s[..|s| - 1]) + One(x, s[|s| - 1])
  }

  function Told(x: Change, r: seq<(Change, Rejection)>): nat {
    if r == [] then 0 else Told(x, r[..|r| - 1]) + One(x, r[|r| - 1].0)
  }

  function InTrain(x: Change, train: seq<Member>): nat {
    if train == [] then 0 else InTrain(x, train[..|train| - 1]) + One(x, train[|train| - 1].change)
  }

  /** How many times `x` is merged, rejected or waiting. */
  function Copies(x: Change, q: Queue): nat {
    Times(x, q.merged) + Told(x, q.rejected) + Times(x, q.waiting)
  }

  lemma {:induction false} TimesAppend(x: Change, a: seq<Change>, b: seq<Change>)
    ensures Times(x, a + b) == Times(x, a) + Times(x, b)
  {
    if b == [] {
      assert a + b == a;
    } else {
      TimesAppend(x, a, b[..|b| - 1]);
      assert (a + b)[..|a + b| - 1] == a + b[..|b| - 1];
    }
  }

  lemma {:induction false} ToldAppend(x: Change, a: seq<(Change, Rejection)>, b: seq<(Change, Rejection)>)
    ensures Told(x, a + b) == Told(x, a) + Told(x, b)
  {
    if b == [] {
      assert a + b == a;
    } else {
      ToldAppend(x, a, b[..|b| - 1]);
      assert (a + b)[..|a + b| - 1] == a + b[..|b| - 1];
    }
  }

  lemma {:induction false} ToldOne(x: Change, r: (Change, Rejection))
    ensures Told(x, [r]) == One(x, r.0)
  {
    assert [r][..0] == [];
  }

  lemma {:induction false} KeptLast(x: Change, cands: seq<Change>, ids: set<nat>)
    requires cands != []
    ensures var c := cands[|cands| - 1];
      Times(x, Kept(cands, ids)) == Times(x, Kept(cands[..|cands| - 1], ids)) + if c.id in ids then 0 else One(x, c)
  {
    var c := cands[|cands| - 1];
    TimesAppend(x, Kept(cands[..|cands| - 1], ids), if c.id in ids then [] else [c]);
    assert [c][..0] == [];
  }

  lemma {:induction false} EjectedLast(x: Change, cands: seq<Change>, ids: set<nat>, on: nat)
    requires cands != []
    ensures var c := cands[|cands| - 1];
      && Told(x, Ejections(cands, ids, on)) == Told(x, Ejections(cands[..|cands| - 1], ids, on)) + (if c.id in ids then One(x, c) else 0)
      && Told(x, EjectionsReversed(cands, ids, on)) == Told(x, EjectionsReversed(cands[..|cands| - 1], ids, on)) + if c.id in ids then One(x, c) else 0
  {
    var c := cands[|cands| - 1];
    var one := if c.id in ids then [(c, DependencyEjection(on))] else [];
    ToldAppend(x, Ejections(cands[..|cands| - 1], ids, on), one);
    ToldAppend(x, one, EjectionsReversed(cands[..|cands| - 1], ids, on));
    ToldOne(x, (c, DependencyEjection(on)));
  }

  /** An eviction keeps or ejects each candidate, never both. */
  lemma {:induction false} EjectedOrKept(x: Change, cands: seq<Change>, ids: set<nat>, on: nat)
    ensures Times(x, Kept(cands, ids)) + Told(x, Ejections(cands, ids, on)) == Times(x, cands)
    ensures Told(x, EjectionsReversed(cands, ids, on)) == Told(x, Ejections(cands, ids, on))
  {
    if cands != [] {
      EjectedOrKept(x, cands[..|cands| - 1], ids, on);
      KeptLast(x, cands, ids);
      EjectedLast(x, cands, ids, on);
    }
  }

  lemma {:induction false} SpeculateConserves(x: Change, e: Env, landed: set<string>, base: State, offered: seq<Change>)
    ensures var s := Speculate(e, landed, base, offered);
      InTrain(x, s.train) + Told(x, s.rejects) == Times(x, offered[..s.seen])
  {
    if offered != [] {
      var n := |offered| - 1;
      SpeculateConserves(x, e, landed, base, offered[..n]);
      var s := Speculate(e, landed, base, offered[..n]);
      ExtendConserves(x, e, landed, s, offered[n]);
      assert offered[..n][..s.seen] == offered[..s.seen];
      assert s.available ==> offered[..n + 1] == offered;
    }
  }

  lemma {:induction false} ExtendConserves(x: Change, e: Env, landed: set<string>, s: Speculated, c: Change)
    ensures var t := Extend(e, landed, s, c);
      InTrain(x, t.train) + Told(x, t.rejects) == InTrain(x, s.train) + Told(x, s.rejects) + if t.seen == s.seen then 0 else One(x, c)
    ensures Extend(e, landed, s, c).seen == s.seen || Extend(e, landed, s, c).seen == s.seen + 1
  {
    var t := Extend(e, landed, s, c);
    if t.train != s.train {
      assert t.train[..|t.train| - 1] == s.train;
    } else if t.rejects != s.rejects {
      assert t.rejects[..|t.rejects| - 1] == s.rejects;
    }
  }

  lemma {:induction false} ChangesAppend(a: seq<Member>, b: seq<Member>)
    ensures Changes(a + b) == Changes(a) + Changes(b)
  {
    if b == [] {
      assert a + b == a;
    } else {
      ChangesAppend(a, b[..|b| - 1]);
      assert (a + b)[..|a + b| - 1] == a + b[..|b| - 1];
    }
  }

  lemma {:induction false} ChangesSplit(train: seq<Member>, i: nat)
    requires i <= |train|
    ensures Changes(train) == Changes(train[..i]) + Changes(train[i..])
  {
    ChangesAppend(train[..i], train[i..]);
    assert train[..i] + train[i..] == train;
  }

  lemma {:induction false} TrainTimes(x: Change, train: seq<Member>)
    ensures Times(x, Changes(train)) == InTrain(x, train)
  {
    if train != [] {
      TrainTimes(x, train[..|train| - 1]);
      TimesAppend(x, Changes(train[..|train| - 1]), [train[|train| - 1].change]);
      assert [train[|train| - 1].change][..0] == [];
    }
  }

  lemma {:induction false} TrainSplit(x: Change, train: seq<Member>, i: nat)
    requires i < |train|
    ensures InTrain(x, train) == Times(x, Changes(train[..i])) + Times(x, Changes(train[i..]))
    ensures Times(x, Changes(train[i..])) == One(x, train[i].change) + Times(x, Changes(train[i + 1..]))
  {
    ChangesSplit(train, i);
    TimesAppend(x, Changes(train[..i]), Changes(train[i..]));
    TrainTimes(x, train);
    ChangesSplit(train[i..], 1);
    assert train[i..][..1] == [train[i]] && train[i..][1..] == train[i + 1..];
    TrainTimes(x, [train[i]]);
    assert [train[i]][..0] == [];
    TimesAppend(x, Changes([train[i]]), Changes(train[i + 1..]));
  }

  lemma {:induction false} EvictConserves(x: Change, q: Queue, failed: Change, behind: seq<Change>, rest: seq<Change>)
    ensures Copies(x, Evict(q, failed, behind, rest)) ==
            Times(x, q.merged) + Told(x, q.rejected) + One(x, failed) + Times(x, behind) + Times(x, rest)
  {
    var ids := Closure(behind + rest, {failed.id});
    ToldAppend(x, q.rejected, [(failed, CiFailure)]);
    ToldOne(x, (failed, CiFailure));
    if ids == {failed.id} {
      TimesAppend(x, behind, rest);
    } else {
      var a, b := EjectionsReversed(behind, ids, failed.id), Ejections(rest, ids, failed.id);
      ToldAppend(x, q.rejected + [(failed, CiFailure)], a);
      ToldAppend(x, q.rejected + [(failed, CiFailure)] + a, b);
      assert q.rejected + [(failed, CiFailure)] + a + b == q.rejected + [(failed, CiFailure)] + (a + b);
      EjectedOrKept(x, behind, ids, failed.id);
      EjectedOrKept(x, rest, ids, failed.id);
      TimesAppend(x, Kept(behind, ids), Kept(rest, ids));
    }
  }

  lemma {:induction false} SettleConserves(x: Change, e: Env, told: Queue, train: seq<Member>, rest: seq<Change>)
    ensures Copies(x, Settle(e, told, train, rest)) ==
            Times(x, told.merged) + Told(x, told.rejected) + InTrain(x, train) + Times(x, rest)
  {
    var i := FirstStop(e, train);
    var green := Land(e, told, train[..i]);
    LandShape(e, told, train[..i]);
    TimesAppend(x, told.merged, Changes(train[..i]));
    if i == |train| {
      assert train[..i] == train;
      TrainTimes(x, train);
    } else {
      TrainSplit(x, train, i);
      StopConserves(x, e, told, train, rest, i, green);
    }
  }

  lemma {:induction false} StopConserves(x: Change, e: Env, told: Queue, train: seq<Member>, rest: seq<Change>, i: nat, green: Queue)
    requires i == FirstStop(e, train) < |train| && green == Land(e, told, train[..i])
    requires Times(x, Changes(train[i..])) == One(x, train[i].change) + Times(x, Changes(train[i + 1..]))
    ensures Copies(x, Settle(e, told, train, rest)) ==
            Times(x, green.merged) + Told(x, green.rejected) + Times(x, Changes(train[i..])) + Times(x, rest)
  {
    var r := Settle(e, told, train, rest);
    if Decision(e, train[i]) == Inconclusive {
      assert r == green.(waiting := Changes(train[i..]) + rest, stalled := true);
      StallConserves(x, green, Changes(train[i..]), rest);
    } else {
      assert r == Evict(green, train[i].change, Changes(train[i + 1..]), rest);
      EvictConserves(x, green, train[i].change, Changes(train[i + 1..]), rest);
    }
  }

  lemma {:induction false} StallConserves(x: Change, green: Queue, all: seq<Change>, rest: seq<Change>)
    ensures Copies(x, green.(waiting := all + rest, stalled := true)) == Times(x, green.merged) + Told(x, green.rejected) + Times(x, all) + Times(x, rest)
  {
    TimesAppend(x, all, rest);
  }

  lemma {:induction false} RoundConserves(x: Change, e: Env, q: Queue)
    requires q.waiting != [] && q.window >= 1
    ensures Copies(x, Round(e, q)) == Copies(x, q)
  {
    var take := Min(q.window, |q.waiting|);
    var s := Speculate(e, q.landed, q.base, q.waiting[..take]);
    var told := q.(rejected := q.rejected + s.rejects);
    SpeculateConserves(x, e, q.landed, q.base, q.waiting[..take]);
    ToldAppend(x, q.rejected, s.rejects);
    assert q.waiting[..take][..s.seen] == q.waiting[..s.seen];
    TimesAppend(x, q.waiting[..s.seen], q.waiting[s.seen..]);
    assert q.waiting == q.waiting[..s.seen] + q.waiting[s.seen..];
    if s.available && Answered(e, s.train) {
      SettleConserves(x, e, told, s.train, q.waiting[take..]);
    } else {
      TrainTimes(x, s.train);
      TimesAppend(x, Changes(s.train), q.waiting[s.seen..]);
    }
  }

  /** Every change is merged once, rejected once with one reason, or still waiting; and only a drain
      that stalled leaves anything waiting. */
  lemma {:induction false} DrainConserves(x: Change, e: Env, q: Queue)
    requires q.window >= 1 && q.maxWindow >= 1
    ensures Copies(x, Drain(e, q)) == Copies(x, q)
    ensures !Drain(e, q).stalled ==> Drain(e, q).waiting == []
    decreases if q.stalled then 0 else 1 + |q.waiting|
  {
    if !q.stalled && q.waiting != [] {
      WindowStaysOpen(e, q);
      RoundConserves(x, e, q);
      DrainConserves(x, e, Round(e, q));
    }
  }

  // ---- the order is kept -----------------------------------------------------------------------

  ghost function Line(q: Queue): seq<Change> {
    q.merged + q.waiting
  }

  lemma {:induction false} KeptInOrder(cands: seq<Change>, ids: set<nat>)
    ensures Subsequence(Kept(cands, ids), cands)
  {
    if cands != [] {
      var before := Kept(cands[..|cands| - 1], ids);
      KeptInOrder(cands[..|cands| - 1], ids);
      OneMoreSubsequence(before, cands);
      assert before + [] == before;
    }
  }

  lemma {:induction false} TrainInOrder(e: Env, landed: set<string>, base: State, offered: seq<Change>)
    ensures var s := Speculate(e, landed, base, offered); Subsequence(Changes(s.train), offered[..s.seen])
  {
    if offered != [] {
      var n := |offered| - 1;
      TrainInOrder(e, landed, base, offered[..n]);
      var s := Speculate(e, landed, base, offered[..n]);
      assert offered[..n][..s.seen] == offered[..s.seen];
      ExtendInOrder(e, landed, s, offered);
    }
  }

  lemma {:induction false} ExtendInOrder(e: Env, landed: set<string>, s: Speculated, w: seq<Change>)
    requires s.seen <= |w| && (s.available ==> s.seen == |w| - 1) && w != []
    requires Subsequence(Changes(s.train), w[..s.seen])
    ensures var t := Extend(e, landed, s, w[|w| - 1]); t.seen <= |w| && Subsequence(Changes(t.train), w[..t.seen])
  {
    var t := Extend(e, landed, s, w[|w| - 1]);
    if t.seen != s.seen {
      assert w[..t.seen] == w;
      OneMoreSubsequence(Changes(s.train), w);
      ExtendChanges(e, landed, s, w[|w| - 1]);
    } else {
      ExtendChanges(e, landed, s, w[|w| - 1]);
    }
  }

  lemma {:induction false} ExtendChanges(e: Env, landed: set<string>, s: Speculated, c: Change)
    ensures var t := Extend(e, landed, s, c);
      t.train == s.train || (t.seen == s.seen + 1 && Changes(t.train) == Changes(s.train) + [c])
  {
    var t := Extend(e, landed, s, c);
    if t.train != s.train {
      assert t.train[..|t.train| - 1] == s.train;
    }
  }

  lemma {:induction false} EvictInOrder(q: Queue, failed: Change, behind: seq<Change>, rest: seq<Change>)
    ensures Subsequence(Evict(q, failed, behind, rest).waiting, behind + rest)
  {
    var ids := Closure(behind + rest, {failed.id});
    SubsequenceSelf(behind + rest);
    KeptInOrder(behind, ids);
    KeptInOrder(rest, ids);
    SubsequenceAppend(Kept(behind, ids), Kept(rest, ids), behind, rest);
  }

  lemma {:induction false} ChangesCut(train: seq<Member>, i: nat)
    requires i < |train|
    ensures Changes(train) == Changes(train[..i]) + ([train[i].change] + Changes(train[i + 1..]))
  {
    ChangesSplit(train, i);
    ChangesSplit(train[i..], 1);
    assert train[i..][..1] == [train[i]] && train[i..][1..] == train[i + 1..];
    assert [train[i]][..0] == [];
  }

  lemma {:induction false} DropOne(a: seq<Change>, x: Change, w: seq<Change>, b: seq<Change>)
    requires Subsequence(w, b)
    ensures Subsequence(a + w, a + ([x] + b))
  {
    SubsequenceSelf(a);
    SubsequenceAppend([], w, [x], b);
    assert [] + w == w;
    SubsequenceAppend(a, w, a, [x] + b);
  }

  lemma {:induction false} NothingLeavesWithoutFailure(e: Env, told: Queue, train: seq<Member>, rest: seq<Change>)
    requires FirstStop(e, train) < |train| ==> Decision(e, train[FirstStop(e, train)]) != Failed
    ensures Line(Settle(e, told, train, rest)) == told.merged + (Changes(train) + rest)
  {
    var i := FirstStop(e, train);
    LandShape(e, told, train[..i]);
    if i == |train| {
      assert train[..i] == train;
      Regroup(told.merged, Changes(train), [], [], rest);
    } else {
      ChangesSplit(train, i);
      Regroup(told.merged, Changes(train[..i]), [], Changes(train[i..]), rest);
    }
  }

  lemma {:induction false} FailureInOrder(merged: seq<Change>, green: Queue, ahead: seq<Change>, failed: Change, behind: seq<Change>, rest: seq<Change>)
    requires green.merged == merged + ahead
    ensures Subsequence(Line(Evict(green, failed, behind, rest)), merged + ((ahead + ([failed] + behind)) + rest))
  {
    EvictInOrder(green, failed, behind, rest);
    EvictBlamesOne(green, failed, behind, rest);
    DropOne(green.merged, failed, Evict(green, failed, behind, rest).waiting, behind + rest);
    Regroup(merged, ahead, [failed], behind, rest);
  }

  lemma {:induction false} SettleInOrder(e: Env, told: Queue, train: seq<Member>, rest: seq<Change>)
    ensures Subsequence(Line(Settle(e, told, train, rest)), told.merged + (Changes(train) + rest))
  {
    var i := FirstStop(e, train);
    if i < |train| && Decision(e, train[i]) == Failed {
      FailureEvicts(e, told, train, rest);
      LandShape(e, told, train[..i]);
      ChangesCut(train, i);
      FailureInOrder(told.merged, Land(e, told, train[..i]), Changes(train[..i]), train[i].change, Changes(train[i + 1..]), rest);
    } else {
      NothingLeavesWithoutFailure(e, told, train, rest);
      SubsequenceSelf(Line(Settle(e, told, train, rest)));
    }
  }

  lemma {:induction false} RoundInOrder(e: Env, q: Queue)
    requires q.waiting != [] && q.window >= 1
    ensures Subsequence(Line(Round(e, q)), Line(q))
  {
    var take := Min(q.window, |q.waiting|);
    var s := Speculate(e, q.landed, q.base, q.waiting[..take]);
    var told := q.(rejected := q.rejected + s.rejects);
    TrainInOrder(e, q.landed, q.base, q.waiting[..take]);
    assert q.waiting[..take][..s.seen] == q.waiting[..s.seen];
    assert q.waiting == q.waiting[..s.seen] + q.waiting[s.seen..];
    SubsequenceSelf(q.waiting[s.seen..]);
    SubsequenceAppend(Changes(s.train), q.waiting[s.seen..], q.waiting[..s.seen], q.waiting[s.seen..]);
    SubsequenceSelf(q.merged);
    SubsequenceAppend(q.merged, Changes(s.train) + q.waiting[s.seen..], q.merged, q.waiting);
    if s.available && Answered(e, s.train) {
      SettleInOrder(e, told, s.train, q.waiting[take..]);
      SubsequenceTransitive(Line(Round(e, q)), q.merged + (Changes(s.train) + q.waiting[take..]), Line(q));
    }
  }

  /** What has landed followed by what still waits is the submitted line with some changes taken out:
      no failure, ejection or stall ever reorders it. */
  lemma {:induction false} DrainKeepsOrder(e: Env, q: Queue)
    requires q.window >= 1 && q.maxWindow >= 1
    ensures Subsequence(Line(Drain(e, q)), Line(q))
    decreases if q.stalled then 0 else 1 + |q.waiting|
  {
    if q.stalled || q.waiting == [] {
      SubsequenceSelf(Line(q));
    } else {
      WindowStaysOpen(e, q);
      RoundInOrder(e, q);
      DrainKeepsOrder(e, Round(e, q));
      SubsequenceTransitive(Line(Drain(e, q)), Line(Round(e, q)), Line(q));
    }
  }

  // ---- the blast radius ------------------------------------------------------------------------

  ghost predicate ClosedUnder(cands: seq<Change>, ids: set<nat>) {
    forall c :: c in cands && DependsOn(c, ids) ==> c.id in ids
  }

  /** A failure takes down exactly itself and what transitively declared a dependency on it: the
      least set of ids that holds it and is closed under the declarations. */
  lemma {:induction false} ClosureIsLeast(cands: seq<Change>, ids: set<nat>, other: set<nat>)
    ensures ClosedUnder(cands, Closure(cands, ids))
    ensures ids <= other && ClosedUnder(cands, other) ==> Closure(cands, ids) <= other
    decreases |Ids(cands) - ids|
  {
    var next := NewDependents(cands, ids);
    if next == {} {
      forall c | c in cands && DependsOn(c, ids)
        ensures c.id in ids
      {
        assert c.id !in ids ==> c.id in next;
      }
    } else {
      ClosureShrinks(cands, ids, next);
      ClosureIsLeast(cands, ids + next, other);
    }
  }

  /** Some other change of `cands` declares that it depends on `failed`. */
  predicate OthersDepend(cands: seq<Change>, failed: nat) {
    exists c | c in cands :: c.id != failed && failed in c.depends
  }

  lemma {:induction false} NobodyGoesDown(cands: seq<Change>, failed: nat)
    ensures Closure(cands, {failed}) == {failed} <==> !OthersDepend(cands, failed)
  {
    if OthersDepend(cands, failed) {
      var c :| c in cands && c.id != failed && failed in c.depends;
      assert DependsOn(c, {failed});
      assert DependsOn(c, Closure(cands, {failed}));
    } else {
      assert NewDependents(cands, {failed}) == {};
    }
  }

  /** Those of `cands` that go down, in order. */
  function Going(cands: seq<Change>, ids: set<nat>): seq<Change> {
    if cands == [] then []
    else
      var c := cands[|cands| - 1];
      Going(cands[..|cands| - 1], ids) + if c.id in ids then [c] else []
  }

  function Backwards<T>(s: seq<T>): seq<T> {
    if s == [] then [] else [s[|s| - 1]] + Backwards(s[..|s| - 1])
  }

  function Ejected(gone: seq<Change>, on: nat): (r: seq<(Change, Rejection)>)
    ensures |r| == |gone|
  {
    seq(|gone|, i requires 0 <= i < |gone| => (gone[i], DependencyEjection(on)))
  }

  lemma {:induction false} EjectionsAre(cands: seq<Change>, ids: set<nat>, on: nat)
    ensures Ejections(cands, ids, on) == Ejected(Going(cands, ids), on)
  {
    if cands != [] {
      var before := cands[..|cands| - 1];
      EjectionsAre(before, ids, on);
      assert Going(before, ids) + [] == Going(before, ids);
    }
  }

  lemma {:induction false} EjectedFirst(c: Change, gone: seq<Change>, on: nat)
    ensures Ejected(Backwards(gone + [c]), on) == [(c, DependencyEjection(on))] + Ejected(Backwards(gone), on)
  {
    assert (gone + [c])[..|gone|] == gone;
  }

  lemma {:induction false} ReversedAre(cands: seq<Change>, ids: set<nat>, on: nat)
    ensures EjectionsReversed(cands, ids, on) == Ejected(Backwards(Going(cands, ids)), on)
  {
    if cands != [] {
      var before, c := cands[..|cands| - 1], cands[|cands| - 1];
      ReversedAre(before, ids, on);
      assert Going(before, ids) + [] == Going(before, ids);
      assert [] + EjectionsReversed(before, ids, on) == EjectionsReversed(before, ids, on);
      EjectedFirst(c, Going(before, ids), on);
    }
  }

  /** What an eviction reports: the failure, then what goes down with it of the train, last first, and of the
      queue. */
  lemma {:induction false} EvictReports(q: Queue, failed: Change, behind: seq<Change>, rest: seq<Change>)
    ensures Evict(q, failed, behind, rest).rejected ==
            q.rejected + [(failed, CiFailure)]
            + if OthersDepend(behind + rest, failed.id) then
                var ids := Closure(behind + rest, {failed.id});
                Ejected(Backwards(Going(behind, ids)), failed.id) + Ejected(Going(rest, ids), failed.id)
              else []
  {
    var ids := Closure(behind + rest, {failed.id});
    NobodyGoesDown(behind + rest, failed.id);
    ReversedAre(behind, ids, failed.id);
    EjectionsAre(rest, ids, failed.id);
    Assoc(q.rejected + [(failed, CiFailure)], EjectionsReversed(behind, ids, failed.id), Ejections(rest, ids, failed.id));
    assert q.rejected + [(failed, CiFailure)] + [] == q.rejected + [(failed, CiFailure)];
  }

  // ---- the window ------------------------------------------------------------------------------

  /** What the window is after a settled round that found `window` under `ceiling` and landed so many. */
  function Grown(window: nat, ceiling: nat, landings: nat): nat {
    Min(window + landings, ceiling)
  }

  function Halved(window: nat): (r: nat)
    ensures r >= 1 && (r == 1 || 2 * r <= window < 2 * r + 2)
  {
    if window / 2 > 1 then window / 2 else 1
  }

  lemma {:induction false} LandGrows(e: Env, q: Queue, prefix: seq<Member>)
    requires q.window <= q.maxWindow
    ensures Land(e, q, prefix).window == Grown(q.window, q.maxWindow, |prefix|) && Land(e, q, prefix).maxWindow == q.maxWindow
  {
    if prefix != [] {
      LandGrows(e, q, prefix[..|prefix| - 1]);
    }
  }

  lemma {:induction false} EvictWindow(q: Queue, failed: Change, behind: seq<Change>, rest: seq<Change>)
    requires 1 <= q.window <= q.maxWindow
    ensures Evict(q, failed, behind, rest).window == if OthersDepend(behind + rest, failed.id) then q.window else Halved(q.window)
  {
    NobodyGoesDown(behind + rest, failed.id);
  }

  /** A settled round grows the window by one for each landing, up to the ceiling, and halves it, never
      below one, exactly when a change failed that no other change behind it or in the queue declares a
      dependency on. A round without verdicts leaves it alone. */
  lemma {:induction false} RoundWindow(e: Env, q: Queue)
    requires q.waiting != [] && 1 <= q.window <= q.maxWindow
    ensures var take := Min(q.window, |q.waiting|);
      var s := Speculate(e, q.landed, q.base, q.waiting[..take]);
      var i := FirstStop(e, s.train);
      var grown := Grown(q.window, q.maxWindow, i);
      && Round(e, q).maxWindow == q.maxWindow
      && Round(e, q).window ==
         if !s.available || !Answered(e, s.train) then q.window
         else if i < |s.train| && Decision(e, s.train[i]) == Failed
              && !OthersDepend(Changes(s.train[i + 1..]) + q.waiting[take..], s.train[i].change.id) then Halved(grown)
         else grown
  {
    var take := Min(q.window, |q.waiting|);
    var s := Speculate(e, q.landed, q.base, q.waiting[..take]);
    var told := q.(rejected := q.rejected + s.rejects);
    if s.available && Answered(e, s.train) {
      SettleWindow(e, told, s.train, q.waiting[take..]);
    }
  }

  lemma {:induction false} SettleWindow(e: Env, told: Queue, train: seq<Member>, rest: seq<Change>)
    requires 1 <= told.window <= told.maxWindow
    ensures var i := FirstStop(e, train);
      var grown := Grown(told.window, told.maxWindow, i);
      && Settle(e, told, train, rest).maxWindow == told.maxWindow
      && Settle(e, told, train, rest).window ==
         if i < |train| && Decision(e, train[i]) == Failed && !OthersDepend(Changes(train[i + 1..]) + rest, train[i].change.id)
         then Halved(grown) else grown
  {
    var i := FirstStop(e, train);
    LandGrows(e, told, train[..i]);
    if i < |train| && Decision(e, train[i]) == Failed {
      EvictWindow(Land(e, told, train[..i]), train[i].change, Changes(train[i + 1..]), rest);
    }
  }
}
