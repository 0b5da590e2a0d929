/** Which rounds and which runs keep the promise, exactly. */
module SpeculationProofs {
  import opened Basics
  import opened MergeQueue
  import opened MergeQueueProofs
  import opened Serial
  import opened Withheld
  import opened Speculation

  // ---- a round without verdicts --------------------------------------------------------------------

  lemma {:induction false} StuckAt(e: Env, landed: set<string>, base: State, w: seq<Change>, n: nat)
    requires n <= |w| && !Speculate(e, landed, base, w[..n]).available
    ensures var s := Speculate(e, landed, base, w[..n]);
      s.seen < n && e.identity(w[s.seen]) !in landed && e.step(w[s.seen], s.tip) == Unavailable
  {
    OfferOneMore(e, landed, base, w, n);
    if !Speculate(e, landed, base, w[..n - 1]).available {
      StuckAt(e, landed, base, w, n - 1);
    }
  }

  lemma {:induction false} VoidRound(e: Env, q: Queue)
    requires q.waiting != [] && q.window >= 1 && Voided(e, q)
    ensures Round(e, q) == Thinned(e, q).(stalled := true)
  {
  }

  /** The head of a void round's train, or the change the speculator did not answer for. */
  lemma {:induction false} VoidHead(e: Env, q: Queue)
    requires Voided(e, q)
    ensures var s, r := Offer(e, q), Thinned(e, q);
      && r.waiting != [] && e.identity(r.waiting[0]) !in q.landed
      && (s.train != [] ==> r.waiting[0] == s.train[0].change && e.step(s.train[0].change, q.base) == Advanced(s.train[0].state))
      && (s.train == [] ==> e.step(r.waiting[0], q.base) == Unavailable)
  {
    var s := Offer(e, q);
    OfferIsLinked(e, q.landed, q.base, q.waiting[..Take(q)]);
    TrainIsLinked(e, q.landed, q.base, q.waiting[..Take(q)]);
    if s.train != [] {
      assert MemberOk(e, q.base, s.train, 0);
      FirstOf(s.train, 0, q.waiting[s.seen..]);
      assert s.train[0..] == s.train;
    } else {
      StuckAt(e, q.landed, q.base, q.waiting, Take(q));
      assert [] + q.waiting[s.seen..] == q.waiting[s.seen..];
    }
  }

  lemma {:induction false} VoidIsSerial(e: Env, q: Queue)
    requires !q.stalled && q.waiting != [] && q.window >= 1 && Voided(e, q) && NothingAtStake(e, q)
    ensures SerialDrain(e, Round(e, q)) == SerialDrain(e, Thinned(e, q))
  {
    var r := Thinned(e, q);
    VoidRound(e, q);
    VoidHead(e, q);
    assert SerialStep(e, r) == r.(stalled := true);
  }

  lemma {:induction false} SettledRound(e: Env, q: Queue)
    requires q.waiting != [] && q.window >= 1 && !Voided(e, q)
    ensures Round(e, q) == Settle(e, Thinned(e, q), Offer(e, q).train, q.waiting[Take(q)..])
    ensures Offer(e, q).seen == Take(q)
  {
    var s := Offer(e, q);
    var rest := q.waiting[Take(q)..];
    SettleIgnoresWaiting(e, q.(rejected := q.rejected + s.rejects), s.train, rest, Changes(s.train) + rest);
  }

  /** A round with those it refused set aside: what it lands and evicts is what testing the others one at
      a time does. */
  lemma {:induction false} RoundIsThinned(e: Env, q: Queue)
    requires !q.stalled && q.waiting != [] && q.window >= 1
    requires if Voided(e, q) then NothingAtStake(e, q) else NoTwinsLand(e, Offer(e, q).train)
    ensures Same(SerialDrain(e, Round(e, q)), SerialDrain(e, Thinned(e, q)))
  {
    if Voided(e, q) {
      VoidIsSerial(e, q);
    } else {
      SettledRound(e, q);
      OfferIsLinked(e, q.landed, q.base, q.waiting[..Take(q)]);
      SettleIsSerial(e, Thinned(e, q), Offer(e, q).train, q.waiting[Take(q)..]);
    }
  }

  // ---- as far as rounds and the one-at-a-time queue go together ---------------------------------------

  lemma {:induction false} ExtendGrows(e: Env, landed: set<string>, s: Speculated, c: Change)
    ensures var t := Extend(e, landed, s, c);
      && s.train <= t.train && s.rejects <= t.rejects && (t.available ==> s.available)
      && (t.train != s.train ==>
            && s.available && t.train == s.train + [Member(c, t.tip)] && t.rejects == s.rejects
            && e.identity(c) !in landed && e.step(c, s.tip) == Advanced(t.tip))
  {
  }

  /** A longer offer builds on what a shorter one built. */
  lemma {:induction false} PrefixGrows(e: Env, landed: set<string>, base: State, w: seq<Change>, k: nat, n: nat)
    requires k <= n <= |w|
    ensures var a, b := Speculate(e, landed, base, w[..k]), Speculate(e, landed, base, w[..n]);
      a.train <= b.train && a.rejects <= b.rejects && (b.available ==> a.available)
  {
    if k < n {
      PrefixGrows(e, landed, base, w, k, n - 1);
      OfferOneMore(e, landed, base, w, n);
      ExtendGrows(e, landed, Speculate(e, landed, base, w[..n - 1]), w[n - 1]);
    }
  }

  /** `a` has just the first `m` members of `train`, and `c` becomes the next. */
  ghost predicate Joins(e: Env, landed: set<string>, a: Speculated, c: Change, train: seq<Member>, m: nat) {
    && m < |train| && a.available && a.train == train[..m] && c == train[m].change
    && e.identity(c) !in landed && e.step(c, a.tip) == Advanced(train[m].state)
  }

  /** Where in the line member `m` of a train came from. */
  lemma {:induction false} PositionOf(e: Env, landed: set<string>, base: State, w: seq<Change>, n: nat, m: nat) returns (k: nat)
    requires n <= |w| && m < |Speculate(e, landed, base, w[..n]).train|
    ensures k < n && Joins(e, landed, Speculate(e, landed, base, w[..k]), w[k], Speculate(e, landed, base, w[..n]).train, m)
  {
    assert w[..0] == [];
    OfferOneMore(e, landed, base, w, n);
    var s := Speculate(e, landed, base, w[..n - 1]);
    ExtendGrows(e, landed, s, w[n - 1]);
    if m < |s.train| {
      k := PositionOf(e, landed, base, w, n - 1, m);
    } else {
      k := n - 1;
    }
  }

  /** No change of `offered` has the identity of a train member ahead of it. */
  predicate NoTwins(e: Env, landed: set<string>, base: State, offered: seq<Change>) {
    offered == [] ||
    (var n := |offered| - 1;
     NoTwins(e, landed, base, offered[..n])
     && e.identity(offered[n]) !in Identities(e, Speculate(e, landed, base, offered[..n]).train))
  }

  predicate Green(e: Env, s: Speculated) {
    s.available && FirstStop(e, s.train) == |s.train| && Answered(e, s.train)
  }

  /** The queue after an offer went through green. */
  function Through(e: Env, q: Queue, s: Speculated): Queue
    requires s.seen <= |q.waiting|
  {
    q.(base := s.tip, waiting := q.waiting[s.seen..], landed := q.landed + Identities(e, s.train),
       merged := q.merged + Changes(s.train), rejected := q.rejected + s.rejects)
  }

  /** One more change that is refused, or that passes. */
  lemma {:induction false} StepThrough(e: Env, q: Queue, s: Speculated)
    requires !q.stalled && s.seen < |q.waiting| && s.available
    requires e.identity(q.waiting[s.seen]) !in Identities(e, s.train)
    requires Green(e, Extend(e, q.landed, s, q.waiting[s.seen]))
    ensures var t := Extend(e, q.landed, s, q.waiting[s.seen]);
      t.seen == s.seen + 1 && SerialStep(e, Through(e, q, s)) == Through(e, q, t)
  {
    var c, t := q.waiting[s.seen], Extend(e, q.landed, s, q.waiting[s.seen]);
    if t.train != s.train {
      JoinsBehind(e, q.landed, s, c);
      PassesThrough(e, q, s, t, c);
    } else {
      var why := RefusedWhy(e, q.landed, s, c, Through(e, q, s));
      RefusedThrough(e, q, s, t, c, why);
    }
  }

  lemma {:induction false} JoinsBehind(e: Env, landed: set<string>, s: Speculated, c: Change)
    requires var t := Extend(e, landed, s, c); s.available && Green(e, t) && t.train != s.train
    ensures var t := Extend(e, landed, s, c);
      && t.seen == s.seen + 1 && t.train == s.train + [Member(c, t.tip)] && t.rejects == s.rejects
      && e.step(c, s.tip) == Advanced(t.tip) && e.identity(c) !in landed
      && e.answers(Member(c, t.tip)) && Decision(e, Member(c, t.tip)) == Passed
  {
    var t := Extend(e, landed, s, c);
    assert t.train[|s.train|] == Member(c, t.tip);
  }

  lemma {:induction false} RefusedWhy(e: Env, landed: set<string>, s: Speculated, c: Change, x: Queue) returns (why: Rejection)
    requires var t := Extend(e, landed, s, c); s.available && t.available && t.train == s.train
    requires x.base == s.tip && landed <= x.landed && (e.identity(c) in x.landed ==> e.identity(c) in landed)
    ensures Extend(e, landed, s, c) == s.(rejects := s.rejects + [(c, why)], seen := s.seen + 1) && Refusal(e, c, x) == Some(why)
  {
    why := Extend(e, landed, s, c).rejects[|s.rejects|].1;
  }

  lemma {:induction false} PassesThrough(e: Env, q: Queue, s: Speculated, t: Speculated, c: Change)
    requires !q.stalled && s.seen < |q.waiting| && c == q.waiting[s.seen] && t.seen == s.seen + 1
    requires t.train == s.train + [Member(c, t.tip)] && t.rejects == s.rejects
    requires var x := Through(e, q, s); e.step(c, x.base) == Advanced(t.tip) && Refusal(e, c, x).None?
    requires e.answers(Member(c, t.tip)) && Decision(e, Member(c, t.tip)) == Passed
    ensures SerialStep(e, Through(e, q, s)) == Through(e, q, t)
  {
    var x := Through(e, q, s);
    ThroughOneMore(e, q, s, t, c);
    assert x.waiting[0] == c && x.waiting[1..] == q.waiting[s.seen + 1..];
    assert Trial(e, c, x.base) == Passed;
  }

  lemma {:induction false} RefusedThrough(e: Env, q: Queue, s: Speculated, t: Speculated, c: Change, why: Rejection)
    requires !q.stalled && s.seen < |q.waiting| && c == q.waiting[s.seen]
    requires t == s.(rejects := s.rejects + [(c, why)], seen := s.seen + 1) && Refusal(e, c, Through(e, q, s)) == Some(why)
    ensures SerialStep(e, Through(e, q, s)) == Through(e, q, t)
  {
    var x := Through(e, q, s);
    assert x.waiting[0] == c && x.waiting[1..] == q.waiting[s.seen + 1..];
    assert q.rejected + (s.rejects + [(c, why)]) == q.rejected + s.rejects + [(c, why)];
  }

  lemma {:induction false} ThroughOneMore(e: Env, q: Queue, s: Speculated, t: Speculated, c: Change)
    requires t.train == s.train + [Member(c, t.tip)]
    ensures q.merged + Changes(t.train) == q.merged + Changes(s.train) + [c]
    ensures q.landed + Identities(e, t.train) == q.landed + Identities(e, s.train) + {e.identity(c)}
  {
    assert t.train[..|t.train| - 1] == s.train;
  }

  lemma {:induction false} GreenBefore(e: Env, landed: set<string>, s: Speculated, c: Change)
    requires Green(e, Extend(e, landed, s, c))
    ensures Green(e, s)
  {
    var t := Extend(e, landed, s, c);
    if t.train != s.train {
      assert t.train[..|t.train| - 1] == s.train;
    }
  }

  lemma {:induction false} TwinsOneMore(e: Env, landed: set<string>, base: State, w: seq<Change>, n: nat)
    requires 0 < n <= |w|
    ensures NoTwins(e, landed, base, w[..n]) <==>
            NoTwins(e, landed, base, w[..n - 1]) && e.identity(w[n - 1]) !in Identities(e, Speculate(e, landed, base, w[..n - 1]).train)
  {
    assert w[..n][..n - 1] == w[..n - 1];
  }

  ghost predicate WentThrough(e: Env, q: Queue, s: Speculated, n: nat) {
    s.seen == n <= |q.waiting| && SerialSteps(e, q, n) == Through(e, q, s)
  }

  lemma {:induction false} NothingThrough(e: Env, q: Queue)
    ensures WentThrough(e, q, Speculate(e, q.landed, q.base, q.waiting[..0]), 0)
  {
    assert q.waiting[..0] == [];
    assert q.rejected + [] == q.rejected && q.merged + [] == q.merged && q.landed + {} == q.landed;
    assert q.waiting[0..] == q.waiting;
  }

  lemma {:induction false} OneMoreThrough(e: Env, q: Queue, s: Speculated, n: nat)
    requires !q.stalled && n < |q.waiting| && WentThrough(e, q, s, n)
    requires e.identity(q.waiting[n]) !in Identities(e, s.train) && Green(e, Extend(e, q.landed, s, q.waiting[n]))
    ensures WentThrough(e, q, Extend(e, q.landed, s, q.waiting[n]), n + 1)
  {
    GreenBefore(e, q.landed, s, q.waiting[n]);
    StepThrough(e, q, s);
  }

  /** The first `n` of `w` go through green, with no twins among them. */
  predicate Passable(e: Env, landed: set<string>, base: State, w: seq<Change>, n: nat)
    requires n <= |w|
  {
    Green(e, Speculate(e, landed, base, w[..n])) && NoTwins(e, landed, base, w[..n])
  }

  lemma {:induction false} GreenDown(e: Env, landed: set<string>, base: State, w: seq<Change>, n: nat)
    requires 0 < n <= |w| && Passable(e, landed, base, w, n)
    ensures var s := Speculate(e, landed, base, w[..n - 1]);
      && Passable(e, landed, base, w, n - 1) && e.identity(w[n - 1]) !in Identities(e, s.train)
      && Speculate(e, landed, base, w[..n]) == Extend(e, landed, s, w[n - 1])
  {
    OfferOneMore(e, landed, base, w, n);
    TwinsOneMore(e, landed, base, w, n);
    GreenBefore(e, landed, Speculate(e, landed, base, w[..n - 1]), w[n - 1]);
  }

  lemma {:induction false} GreenStep(e: Env, q: Queue, n: nat)
    requires !q.stalled && 0 < n <= |q.waiting| && Passable(e, q.landed, q.base, q.waiting, n)
    requires WentThrough(e, q, Speculate(e, q.landed, q.base, q.waiting[..n - 1]), n - 1)
    ensures WentThrough(e, q, Speculate(e, q.landed, q.base, q.waiting[..n]), n)
  {
    GreenDown(e, q.landed, q.base, q.waiting, n);
    OneMoreThrough(e, q, Speculate(e, q.landed, q.base, q.waiting[..n - 1]), n - 1);
  }

  lemma {:induction false} GreenPrefixIsSerial(e: Env, q: Queue, n: nat)
    requires !q.stalled && n <= |q.waiting| && Passable(e, q.landed, q.base, q.waiting, n)
    ensures WentThrough(e, q, Speculate(e, q.landed, q.base, q.waiting[..n]), n)
  {
    if n == 0 {
      NothingThrough(e, q);
    } else {
      GreenDown(e, q.landed, q.base, q.waiting, n);
      GreenPrefixIsSerial(e, q, n - 1);
      GreenStep(e, q, n);
    }
  }

  // ---- a round that breaks the promise tells --------------------------------------------------------------

  /** `z` is what a run makes of `r`. */
  ghost predicate Onward(r: Queue, z: Queue) {
    r.rejected <= z.rejected && r.merged <= z.merged && (r.stalled ==> z == r)
  }

  lemma {:induction false} SerialIsOnward(e: Env, r: Queue)
    ensures Onward(r, SerialDrain(e, r))
  {
    DrainGrows(e, r);
  }

  lemma {:induction false} NoTwinsWithoutTrain(e: Env, landed: set<string>, base: State, w: seq<Change>, n: nat)
    requires n <= |w| && Speculate(e, landed, base, w[..n]).train == []
    ensures NoTwins(e, landed, base, w[..n])
  {
    if n > 0 {
      PrefixGrows(e, landed, base, w, n - 1, n);
      TwinsOneMore(e, landed, base, w, n);
      NoTwinsWithoutTrain(e, landed, base, w, n - 1);
    }
  }

  ghost predicate RefusesRightly(e: Env, landed: set<string>, s: Speculated) {
    && (forall r :: r in s.rejects ==> IsRefusal(r.1) && (r.1.AlreadyLanded? ==> e.identity(r.0) in landed))
    && Identities(e, s.train) !! landed
  }

  lemma {:induction false} ExtendRefusesRightly(e: Env, landed: set<string>, s: Speculated, c: Change)
    requires RefusesRightly(e, landed, s)
    ensures RefusesRightly(e, landed, Extend(e, landed, s, c))
  {
    var t := Extend(e, landed, s, c);
    ExtendGrows(e, landed, s, c);
    if t.train != s.train {
      assert t.train[..|t.train| - 1] == s.train;
    }
  }

  lemma {:induction false} OfferRefuses(e: Env, landed: set<string>, base: State, w: seq<Change>, n: nat)
    requires n <= |w|
    ensures RefusesRightly(e, landed, Speculate(e, landed, base, w[..n]))
  {
    if n > 0 {
      OfferRefuses(e, landed, base, w, n - 1);
      OfferOneMore(e, landed, base, w, n);
      ExtendRefusesRightly(e, landed, Speculate(e, landed, base, w[..n - 1]), w[n - 1]);
    }
  }

  lemma {:induction false} OneMoreSays<T>(old': seq<T>, a: seq<T>, r: T, all: seq<T>, b: seq<T>)
    requires old' + a + [r] <= all && r !in b
    ensures multiset(old' + b) != multiset(all)
  {
    var rest := all[|old' + a + [r]|..];
    assert all == old' + a + [r] + rest;
    assert multiset(all)[r] == multiset(old')[r] + multiset(a)[r] + 1 + multiset(rest)[r];
    assert r !in multiset(b);
    assert multiset(old' + b)[r] == multiset(old')[r] + multiset(b)[r];
  }

  /** A round that goes without verdicts lands nothing and blames nobody; one at a time, the head of its
      train would have landed or been blamed. */
  lemma {:induction false} VoidTells(e: Env, q: Queue)
    requires !q.stalled && q.waiting != [] && q.window >= 1 && Voided(e, q) && !NothingAtStake(e, q)
    ensures !Same(Round(e, q), SerialDrain(e, q))
  {
    var s := Offer(e, q);
    var k := PositionOf(e, q.landed, q.base, q.waiting, Take(q), 0);
    var a, c := Speculate(e, q.landed, q.base, q.waiting[..k]), q.waiting[k];
    assert a.train == [];
    NoTwinsWithoutTrain(e, q.landed, q.base, q.waiting, k);
    GreenPrefixIsSerial(e, q, k);
    TrainIsLinked(e, q.landed, q.base, q.waiting[..k]);
    VoidRound(e, q);
    var x := Through(e, q, a);
    StepsThenDrain(e, q, k);
    assert x.waiting[0] == c && q.landed + {} == q.landed && q.merged + [] == q.merged;
    DrainGrows(e, SerialStep(e, x));
    if Trial(e, c, q.base) == Failed {
      OfferRefuses(e, q.landed, q.base, q.waiting, Take(q));
      StepLogs(e, x);
      assert q.rejected + a.rejects + [(c, CiFailure)] <= SerialStep(e, x).rejected;
      OneMoreSays(q.rejected, a.rejects, (c, CiFailure), SerialDrain(e, q).rejected, s.rejects);
    }
  }

  lemma {:induction false} FirstTwin(e: Env, landed: set<string>, base: State, w: seq<Change>, n: nat) returns (k: nat)
    requires n <= |w| && !NoTwins(e, landed, base, w[..n])
    ensures k < n && NoTwins(e, landed, base, w[..k])
    ensures e.identity(w[k]) in Identities(e, Speculate(e, landed, base, w[..k]).train)
  {
    assert n > 0 by {
      assert w[..0] == [];
    }
    TwinsOneMore(e, landed, base, w, n);
    if NoTwins(e, landed, base, w[..n - 1]) {
      k := n - 1;
    } else {
      k := FirstTwin(e, landed, base, w, n - 1);
    }
  }

  /** Up to the first twin the one-at-a-time queue goes along; the twin it refuses as landed. */
  lemma {:induction false} TwinRefused(e: Env, q: Queue, s: Speculated, k: nat) returns (x: Queue)
    requires !q.stalled && k < |q.waiting| && WentThrough(e, q, s, k) && e.identity(q.waiting[k]) in Identities(e, s.train)
    ensures x.rejected == q.rejected + s.rejects + [(q.waiting[k], AlreadyLanded)] && x.merged == q.merged + Changes(s.train)
    ensures e.identity(q.waiting[k]) in x.landed && !x.stalled && SerialDrain(e, q) == SerialDrain(e, x)
  {
    var r := Through(e, q, s);
    assert r.waiting[0] == q.waiting[k];
    x := SerialStep(e, r);
    StepsThenDrain(e, q, k);
  }

  /** What is known of a twin that the one-at-a-time queue has just refused as landed. */
  ghost predicate TwinOut(e: Env, q: Queue, s: Speculated, c: Change, x: Queue) {
    && e.identity(c) in x.landed && !x.stalled && SerialDrain(e, q) == SerialDrain(e, x)
    && x.rejected == q.rejected + s.rejects + [(c, AlreadyLanded)] && x.merged == q.merged + Changes(s.train)
  }

  /** Said of `c` later than all that the round says: the round says more of it. */
  lemma {:induction false} SaysMore(e: Env, q: Queue, s: Speculated, c: Change, x: Queue, z: Queue, why: Rejection, more: seq<(Change, Rejection)>)
    requires TwinOut(e, q, s, c, x) && (why.MergeConflict? || why.SafetyViolation? || why.CiFailure?)
    requires q.rejected + (s.rejects + more + [(c, why)]) <= z.rejected
    ensures !Same(z, SerialDrain(e, q))
  {
    var said := s.rejects + more + [(c, why)];
    var rest := z.rejected[|q.rejected + said|..];
    assert z.rejected == q.rejected + said + rest;
    LandedIsSettled(e, x, c);
    CountAppend(c, q.rejected + s.rejects, [(c, AlreadyLanded)], Judgements);
    CountAppend(c, q.rejected, s.rejects, Judgements);
    CountOne(c, (c, AlreadyLanded), Judgements);
    CountAppend(c, q.rejected + said, rest, Judgements);
    CountAppend(c, q.rejected, said, Judgements);
    CountAppend(c, s.rejects + more, [(c, why)], Judgements);
    CountAppend(c, s.rejects, more, Judgements);
    CountOne(c, (c, why), Judgements);
    assert multiset(z.rejected) == multiset(SerialDrain(e, q).rejected) ==> Count(c, z.rejected, Judgements) == Count(c, SerialDrain(e, q).rejected, Judgements);
  }

  lemma {:induction false} TwinIndex(e: Env, train: seq<Member>, n: nat) returns (m: nat)
    requires n <= |train| && !AllDiffer(e, train, n)
    ensures m < n && e.identity(train[m].change) in Identities(e, train[..m])
  {
    var j, k :| 0 <= j < k < n && e.identity(train[j].change) == e.identity(train[k].change);
    m := k;
    IdentitiesOf(e, train, m);
  }

  lemma {:induction false} PrefixIsGreen(e: Env, s: Speculated, train: seq<Member>)
    requires s.available && s.train <= train && |s.train| <= FirstStop(e, train) && Answered(e, train)
    ensures Green(e, s)
  {
    forall m | m in s.train
      ensures e.answers(m)
    {
      assert m in train;
    }
  }

  /** Among what a train lands or stops at there is a twin: the first one in the line. */
  lemma {:induction false} TwinPosition(e: Env, landed: set<string>, base: State, w: seq<Change>, n: nat) returns (k: nat)
    requires n <= |w| && !NoTwinsLand(e, Speculate(e, landed, base, w[..n]).train)
    ensures k < n && NoTwins(e, landed, base, w[..k])
    ensures var s, all := Speculate(e, landed, base, w[..k]), Speculate(e, landed, base, w[..n]);
      s.train <= all.train && |s.train| <= FirstStop(e, all.train) && e.identity(w[k]) in Identities(e, s.train)
  {
    var train := Speculate(e, landed, base, w[..n]).train;
    var m := TwinIndex(e, train, Min(FirstStop(e, train) + 1, |train|));
    var k0 := PositionOf(e, landed, base, w, n, m);
    TwinsOneMore(e, landed, base, w, k0 + 1);
    k := FirstTwin(e, landed, base, w, k0 + 1);
    PrefixGrows(e, landed, base, w, k, k0);
  }

  /** The one-at-a-time queue goes along as far as the twin; `s` is what was offered until then. */
  ghost predicate AtTwin(e: Env, q: Queue, s: Speculated, k: nat, all: Speculated) {
    && k < |q.waiting| && WentThrough(e, q, s, k) && s.available
    && e.identity(q.waiting[k]) in Identities(e, s.train) && e.identity(q.waiting[k]) !in q.landed
    && |s.train| <= FirstStop(e, all.train) && s.train <= all.train && s.rejects <= all.rejects
    && var t := Extend(e, q.landed, s, q.waiting[k]);
       t.available && t.train <= all.train && t.rejects <= all.rejects
  }

  /** What was offered until position `k` went through, and the offer that goes on from there. */
  lemma {:induction false} OfferGoesOn(e: Env, landed: set<string>, base: State, w: seq<Change>, k: nat, n: nat)
    requires k < n <= |w|
    ensures var s, all := Speculate(e, landed, base, w[..k]), Speculate(e, landed, base, w[..n]);
      var t := Extend(e, landed, s, w[k]);
      s.rejects <= all.rejects && t.train <= all.train && t.rejects <= all.rejects && (all.available ==> s.available && t.available)
  {
    PrefixGrows(e, landed, base, w, k, n);
    PrefixGrows(e, landed, base, w, k + 1, n);
    OfferOneMore(e, landed, base, w, k + 1);
  }

  lemma {:induction false} TwinInLine(e: Env, q: Queue) returns (k: nat, s: Speculated)
    requires !q.stalled && !Voided(e, q) && !NoTwinsLand(e, Offer(e, q).train)
    ensures AtTwin(e, q, s, k, Offer(e, q))
  {
    k := TwinPosition(e, q.landed, q.base, q.waiting, Take(q));
    s := Speculate(e, q.landed, q.base, q.waiting[..k]);
    OfferGoesOn(e, q.landed, q.base, q.waiting, k, Take(q));
    OfferRefuses(e, q.landed, q.base, q.waiting, k);
    PrefixIsGreen(e, s, Offer(e, q).train);
    GreenPrefixIsSerial(e, q, k);
  }

  /** What a round with verdicts has done at least. */
  ghost predicate Said(e: Env, q: Queue, all: Speculated, r: Queue) {
    var n := FirstStop(e, all.train);
    && q.rejected + all.rejects <= r.rejected && r.merged == q.merged + Changes(all.train[..n])
    && (n < |all.train| && Decision(e, all.train[n]) == Failed ==> q.rejected + all.rejects + [(all.train[n].change, CiFailure)] <= r.rejected)
    && (n < |all.train| && Decision(e, all.train[n]) == Inconclusive ==> r.stalled && r.waiting != [] && r.waiting[0] == all.train[n].change)
  }

  lemma {:induction false} EvictSays(q: Queue, failed: Change, behind: seq<Change>, rest: seq<Change>)
    ensures q.rejected + [(failed, CiFailure)] <= Evict(q, failed, behind, rest).rejected
    ensures Evict(q, failed, behind, rest).merged == q.merged
  {
  }

  lemma {:induction false} SettleSays(e: Env, q: Queue, all: Speculated, told: Queue, rest: seq<Change>)
    requires told.rejected == q.rejected + all.rejects && told.merged == q.merged
    ensures Said(e, q, all, Settle(e, told, all.train, rest))
  {
    var n := FirstStop(e, all.train);
    LandShape(e, told, all.train[..n]);
    if n < |all.train| {
      if Decision(e, all.train[n]) == Failed {
        EvictSays(Land(e, told, all.train[..n]), all.train[n].change, Changes(all.train[n + 1..]), rest);
      } else {
        FirstOf(all.train, n, rest);
      }
    }
  }

  lemma {:induction false} RoundSays(e: Env, q: Queue)
    requires q.waiting != [] && q.window >= 1 && !Voided(e, q)
    ensures Said(e, q, Offer(e, q), Round(e, q))
  {
    SettledRound(e, q);
    SettleSays(e, q, Offer(e, q), Thinned(e, q), q.waiting[Take(q)..]);
  }

  lemma {:induction false} ChangeAt(train: seq<Member>, i: nat)
    requires i < |train|
    ensures Changes(train)[i] == train[i].change
  {
    if i < |train| - 1 {
      ChangeAt(train[..|train| - 1], i);
    }
  }

  /** Two of one identity landed: one at a time that cannot be. */
  lemma {:induction false} LandedTwice(e: Env, q: Queue, s: Speculated, c: Change, x: Queue, z: Queue)
    requires TwinOut(e, q, s, c, x)
    requires |x.merged| < |z.merged| && z.merged[|x.merged|] == c
    ensures !Same(z, SerialDrain(e, q))
  {
    if Same(z, SerialDrain(e, q)) {
      LandsOnlyNew(e, x, |x.merged|);
    }
  }

  /** The twin is the change a stalled round waits on: one at a time the queue would not wait on it. */
  lemma {:induction false} StalledOnTwin(e: Env, q: Queue, s: Speculated, c: Change, x: Queue, z: Queue)
    requires TwinOut(e, q, s, c, x) && z.stalled && z.waiting != [] && z.waiting[0] == c
    ensures !Same(z, SerialDrain(e, q))
  {
    if Same(z, SerialDrain(e, q)) {
      StalledHead(e, x);
      DrainGrows(e, x);
    }
  }

  /** Two of one identity on the part of a train that lands or stops: one at a time the second is refused,
      as the queue promises. */
  lemma {:induction false} TwinsTell(e: Env, q: Queue, z: Queue)
    requires !q.stalled && q.waiting != [] && q.window >= 1 && !Voided(e, q) && !NoTwinsLand(e, Offer(e, q).train)
    requires Onward(Round(e, q), z)
    ensures !Same(z, SerialDrain(e, q))
  {
    var k, s := TwinInLine(e, q);
    var x := TwinRefused(e, q, s, k);
    RoundSays(e, q);
    ExtendGrows(e, q.landed, s, q.waiting[k]);
    if Extend(e, q.landed, s, q.waiting[k]).train == s.train {
      RefusedTwin(e, q, s, q.waiting[k], x, z);
    } else {
      TakenTwin(e, q, s, k, Offer(e, q), Round(e, q), x, z);
    }
  }

  lemma {:induction false} TakenTwin(e: Env, q: Queue, s: Speculated, k: nat, all: Speculated, r: Queue, x: Queue, z: Queue)
    requires AtTwin(e, q, s, k, all) && Extend(e, q.landed, s, q.waiting[k]).train != s.train
    requires TwinOut(e, q, s, q.waiting[k], x) && Said(e, q, all, r) && Onward(r, z)
    ensures !Same(z, SerialDrain(e, q))
  {
    var n, c := FirstStop(e, all.train), q.waiting[k];
    ExtendGrows(e, q.landed, s, c);
    assert all.train[|s.train|].change == c;
    if |s.train| < n {
      ChangeAt(all.train[..n], |s.train|);
      LandedTwice(e, q, s, c, x, z);
    } else if Decision(e, all.train[n]) == Failed {
      var more := all.rejects[|s.rejects|..];
      assert q.rejected + all.rejects + [(c, CiFailure)] == q.rejected + (s.rejects + more + [(c, CiFailure)]);
      SaysMore(e, q, s, c, x, z, CiFailure, more);
    } else {
      StalledOnTwin(e, q, s, c, x, z);
    }
  }

  lemma {:induction false} RefusedTwin(e: Env, q: Queue, s: Speculated, c: Change, x: Queue, z: Queue)
    requires TwinOut(e, q, s, c, x) && s.available && e.identity(c) !in q.landed
    requires var t := Extend(e, q.landed, s, c); t.available && t.train == s.train && q.rejected + t.rejects <= z.rejected
    ensures !Same(z, SerialDrain(e, q))
  {
    var why := Extend(e, q.landed, s, c).rejects[|s.rejects|].1;
    assert s.rejects + [] + [(c, why)] == s.rejects + [(c, why)];
    SaysMore(e, q, s, c, x, z, why, []);
  }

  // ---- the rounds that keep the promise ------------------------------------------------------------------

  /** A round makes no difference to the outcome exactly when it is orderly. */
  lemma {:induction false} RoundIsInvisible(e: Env, q: Queue)
    requires !q.stalled && q.waiting != [] && q.window >= 1
    ensures Invisible(e, q) <==> Orderly(e, q)
  {
    SerialIsOnward(e, Round(e, q));
    if Voided(e, q) && !NothingAtStake(e, q) {
      VoidTells(e, q);
    } else if !Voided(e, q) && !NoTwinsLand(e, Offer(e, q).train) {
      TwinsTell(e, q, SerialDrain(e, Round(e, q)));
    } else {
      RoundIsThinned(e, q);
      RoundLineShape(e, q);
      LineIsTrue(e, q);
      WithheldIsInvisible(e, q, Thinned(e, q), RoundLine(e, q));
    }
  }
}
