/** Whole drains: when speculation does not show in the outcome. */
module SpeculativeRuns {
  import opened Basics
  import opened Sequences
  import opened MergeQueue
  import opened MergeQueueProofs
  import opened Serial
  import opened Withheld
  import opened Speculation
  import opened SpeculationProofs

  // ---- runs of orderly rounds -------------------------------------------------------------------

  /** Every round of the drain is orderly. */
  predicate OrderlyRun(e: Env, q: Queue)
    requires q.window >= 1 && q.maxWindow >= 1
    decreases if q.stalled then 0 else 1 + |q.waiting|
  {
    if q.stalled || q.waiting == [] then true
    else
      WindowStaysOpen(e, q);
      Orderly(e, q) && OrderlyRun(e, Round(e, q))
  }

  /** Speculation is invisible on an orderly run, whatever the window does: the same changes land in
      the same order on the same state, the same are rejected for the same reasons and the same wait. */
  lemma {:induction false} SpeculationIsInvisible(e: Env, q: Queue)
    requires q.window >= 1 && q.maxWindow >= 1 && OrderlyRun(e, q)
    ensures Same(Drain(e, q), SerialDrain(e, q))
    decreases if q.stalled then 0 else 1 + |q.waiting|
  {
    if !q.stalled && q.waiting != [] {
      WindowStaysOpen(e, q);
      RoundIsInvisible(e, q);
      SpeculationIsInvisible(e, Round(e, q));
    }
  }

  lemma {:induction false} RoundGrows(e: Env, q: Queue)
    requires q.waiting != [] && q.window >= 1
    ensures q.rejected + Offer(e, q).rejects <= Round(e, q).rejected && q.merged <= Round(e, q).merged
  {
    if Voided(e, q) {
      VoidRound(e, q);
    } else {
      RoundSays(e, q);
    }
  }

  lemma {:induction false} DrainGoesOn(e: Env, q: Queue)
    requires q.window >= 1 && q.maxWindow >= 1
    ensures Onward(q, Drain(e, q))
    decreases if q.stalled then 0 else 1 + |q.waiting|
  {
    if !q.stalled && q.waiting != [] {
      WindowStaysOpen(e, q);
      RoundGrows(e, q);
      DrainGoesOn(e, Round(e, q));
    }
  }

  lemma {:induction false} TimesGrow(x: Change, a: Queue, b: Queue)
    requires a.merged <= b.merged && a.rejected <= b.rejected && Copies(x, a) == Copies(x, b)
    ensures Times(x, b.waiting) <= Times(x, a.waiting)
  {
    TimesAppend(x, a.merged, b.merged[|a.merged|..]);
    ToldAppend(x, a.rejected, b.rejected[|a.rejected|..]);
    assert a.merged + b.merged[|a.merged|..] == b.merged && a.rejected + b.rejected[|a.rejected|..] == b.rejected;
  }

  lemma {:induction false} RoundStaysDistinct(e: Env, q: Queue)
    requires q.waiting != [] && q.window >= 1 && Distinct(q.waiting)
    ensures Distinct(Round(e, q).waiting)
  {
    RoundGrows(e, q);
    forall x
      ensures Times(x, Round(e, q).waiting) <= 1
    {
      RoundConserves(x, e, q);
      TimesGrow(x, q, Round(e, q));
      assert Times(x, q.waiting) <= 1;
    }
  }

  /** A refusal in the log of the outcome was in the outcome one at a time. */
  lemma {:induction false} OutcomeHearsAll(e: Env, q: Queue, z: Queue, told: seq<(Change, Rejection)>)
    requires q.rejected + told <= z.rejected && multiset(z.rejected) == multiset(SerialDrain(e, q).rejected)
    ensures forall r :: r in told ==> multiset(SerialDrain(e, q).rejected)[r] > multiset(q.rejected)[r]
  {
    var more := z.rejected[|q.rejected + told|..];
    assert z.rejected == q.rejected + told + more;
    forall r | r in told
      ensures multiset(SerialDrain(e, q).rejected)[r] > multiset(q.rejected)[r]
    {
      assert r in multiset(told);
      assert multiset(q.rejected + told + more)[r] == multiset(q.rejected)[r] + multiset(told)[r] + multiset(more)[r];
    }
  }

  /** A run of distinct changes that ends as one at a time began with an orderly round. */
  lemma {:induction false} FirstRoundIsOrderly(e: Env, q: Queue)
    requires q.window >= 1 && q.maxWindow >= 1 && Distinct(q.waiting) && !q.stalled && q.waiting != []
    requires Same(Drain(e, q), SerialDrain(e, q))
    ensures Orderly(e, q)
  {
    var z := Drain(e, q);
    WindowStaysOpen(e, q);
    DrainGoesOn(e, Round(e, q));
    RoundGrows(e, q);
    if Voided(e, q) && !NothingAtStake(e, q) {
      VoidRound(e, q);
      VoidTells(e, q);
    } else if !Voided(e, q) && !NoTwinsLand(e, Offer(e, q).train) {
      TwinsTell(e, q, z);
    } else {
      RoundLineShape(e, q);
      LineIsTrue(e, q);
      OutcomeHearsAll(e, q, z, Offer(e, q).rejects);
      HeardEach(e, q, RoundLine(e, q));
    }
  }

  /** When no change waits twice, a drain ends as testing one at a time would exactly when every one of
      its rounds is orderly: no later round undoes what an earlier one did. */
  lemma {:induction false} RunIsInvisibleExactly(e: Env, q: Queue)
    requires q.window >= 1 && q.maxWindow >= 1 && Distinct(q.waiting)
    ensures Same(Drain(e, q), SerialDrain(e, q)) <==> OrderlyRun(e, q)
    decreases if q.stalled then 0 else 1 + |q.waiting|
  {
    if OrderlyRun(e, q) {
      SpeculationIsInvisible(e, q);
    } else if Same(Drain(e, q), SerialDrain(e, q)) {
      WindowStaysOpen(e, q);
      FirstRoundIsOrderly(e, q);
      RoundIsInvisible(e, q);
      RoundStaysDistinct(e, q);
      RunIsInvisibleExactly(e, Round(e, q));
    }
  }

  // ---- queues that keep the promise whatever the window -----------------------------------------------

  function Names(e: Env, w: seq<Change>): set<string> {
    if w == [] then {} else Names(e, w[..|w| - 1]) + {e.identity(w[|w| - 1])}
  }

  /** The changes of `w` all differ, and none of them landed before. */
  predicate AllNew(e: Env, landed: set<string>, w: seq<Change>) {
    w == [] ||
    (var n := |w| - 1;
     AllNew(e, landed, w[..n]) && e.identity(w[n]) !in landed + Names(e, w[..n]))
  }

  /** Every one of `w` gets an answer, from the speculator and from the executor. */
  ghost predicate AlwaysAnswered(e: Env, w: seq<Change>) {
    (forall c, s :: c in w ==> e.step(c, s) != Unavailable) && (forall m: Member :: m.change in w ==> e.answers(m))
  }

  ghost predicate MergesCleanly(e: Env, w: seq<Change>) {
    forall c, s :: c in w ==> e.step(c, s).Advanced?
  }

  ghost predicate AlwaysGreen(e: Env, w: seq<Change>) {
    forall m: Member :: m.change in w ==> Decision(e, m) == Passed
  }

  /** Nothing about the waiting changes can set a round against one-at-a-time testing. */
  ghost predicate Smooth(e: Env, landed: set<string>, w: seq<Change>) {
    AllNew(e, landed, w) && AlwaysAnswered(e, w) && (MergesCleanly(e, w) || AlwaysGreen(e, w))
  }

  lemma {:induction false} NewSubsequence(e: Env, landed: set<string>, s: seq<Change>, w: seq<Change>)
    requires Subsequence(s, w) && AllNew(e, landed, w)
    ensures AllNew(e, landed, s) && Names(e, s) <= Names(e, w) && forall c :: c in s ==> c in w
    decreases |w|
  {
    if w != [] {
      var before := w[..|w| - 1];
      if Subsequence(s, before) {
        NewSubsequence(e, landed, s, before);
      } else {
        NewSubsequence(e, landed, s[..|s| - 1], before);
        assert s == s[..|s| - 1] + [s[|s| - 1]];
      }
    }
  }

  lemma {:induction false} NamesAppend(e: Env, a: seq<Change>, b: seq<Change>)
    ensures Names(e, a + b) == Names(e, a) + Names(e, b)
  {
    if b == [] {
      assert a + b == a;
    } else {
      NamesAppend(e, a, b[..|b| - 1]);
      assert (a + b)[..|a + b| - 1] == a + b[..|b| - 1];
    }
  }

  /** What follows new changes is new still once those have landed. */
  lemma {:induction false} NewBehind(e: Env, landed: set<string>, a: seq<Change>, b: seq<Change>)
    requires AllNew(e, landed, a + b)
    ensures AllNew(e, landed + Names(e, a), b)
  {
    if b != [] {
      var before := b[..|b| - 1];
      assert (a + b)[..|a + b| - 1] == a + before;
      NewBehind(e, landed, a, before);
      NamesAppend(e, a, before);
    }
  }

  lemma {:induction false} NewPrefix(e: Env, landed: set<string>, w: seq<Change>, n: nat)
    requires AllNew(e, landed, w) && 0 < n <= |w|
    ensures AllNew(e, landed, w[..n - 1]) && e.identity(w[n - 1]) !in landed + Names(e, w[..n - 1])
    ensures Names(e, w[..n]) == Names(e, w[..n - 1]) + {e.identity(w[n - 1])}
  {
    assert w[..n][..n - 1] == w[..n - 1];
    if n < |w| {
      NewPrefix(e, landed, w[..|w| - 1], n);
      assert w[..|w| - 1][..n] == w[..n] && w[..|w| - 1][..n - 1] == w[..n - 1];
    } else {
      assert w[..n] == w;
    }
  }

  lemma {:induction false} TrainNames(e: Env, train: seq<Member>)
    ensures Identities(e, train) == Names(e, Changes(train))
  {
    if train != [] {
      TrainNames(e, train[..|train| - 1]);
      assert Changes(train)[..|train| - 1] == Changes(train[..|train| - 1]);
    }
  }

  lemma {:induction false} NewTrain(e: Env, landed: set<string>, train: seq<Member>, n: nat)
    requires AllNew(e, landed, Changes(train)) && n <= |train|
    ensures AllDiffer(e, train, n)
  {
    forall j, k | 0 <= j < k < n
      ensures e.identity(train[j].change) != e.identity(train[k].change)
    {
      NewPrefix(e, landed, Changes(train), k + 1);
      ChangeAt(train, k);
      ChangeAt(train, j);
      NamesHold(e, Changes(train), k, j);
    }
  }

  lemma {:induction false} NamesHold(e: Env, w: seq<Change>, k: nat, j: nat)
    requires j < k <= |w|
    ensures e.identity(w[j]) in Names(e, w[..k])
  {
    assert w[..k][..k - 1] == w[..k - 1];
    if j < k - 1 {
      NamesHold(e, w, k - 1, j);
    }
  }

  ghost predicate SmoothSoFar(e: Env, w: seq<Change>, s: Speculated, names: set<string>) {
    && s.available && (MergesCleanly(e, w) ==> s.rejects == [])
    && Identities(e, s.train) <= names && (forall m :: m in s.train ==> m.change in w)
  }

  lemma {:induction false} SmoothExtend(e: Env, landed: set<string>, w: seq<Change>, s: Speculated, c: Change, names: set<string>)
    requires SmoothSoFar(e, w, s, names) && c in w && AlwaysAnswered(e, w) && e.identity(c) !in landed
    ensures SmoothSoFar(e, w, Extend(e, landed, s, c), names + {e.identity(c)})
  {
    var t := Extend(e, landed, s, c);
    ExtendGrows(e, landed, s, c);
    if t.train != s.train {
      assert t.train[..|t.train| - 1] == s.train;
    }
  }

  lemma {:induction false} SmoothOffer(e: Env, landed: set<string>, base: State, w: seq<Change>, n: nat)
    requires Smooth(e, landed, w) && n <= |w|
    ensures SmoothSoFar(e, w, Speculate(e, landed, base, w[..n]), Names(e, w[..n])) && NoTwins(e, landed, base, w[..n])
  {
    if n > 0 {
      SmoothOffer(e, landed, base, w, n - 1);
      OfferOneMore(e, landed, base, w, n);
      TwinsOneMore(e, landed, base, w, n);
      NewPrefix(e, landed, w, n);
      SmoothExtend(e, landed, w, Speculate(e, landed, base, w[..n - 1]), w[n - 1], Names(e, w[..n - 1]));
    }
  }

  /** Once all of a train has landed, one at a time, the thinned queue is where the whole offer leads. */
  lemma {:induction false} ThinnedThrough(e: Env, q: Queue)
    requires !q.stalled && Green(e, Offer(e, q)) && NoTwinsLand(e, Offer(e, q).train) && Offer(e, q).seen == Take(q)
    ensures SerialSteps(e, Thinned(e, q), |Offer(e, q).train|) == Through(e, q, Offer(e, q))
  {
    var s, rest := Offer(e, q), q.waiting[Take(q)..];
    OfferIsLinked(e, q.landed, q.base, q.waiting[..Take(q)]);
    TrainIsLinked(e, q.landed, q.base, q.waiting[..Take(q)]);
    PrefixLands(e, Thinned(e, q), s.train, |s.train|, rest);
    assert s.train[..|s.train|] == s.train && s.train[|s.train|..] == [] && [] + rest == rest;
  }

  /** A round that goes through green is orderly, whatever it refused on the way. */
  lemma {:induction false} GreenIsOrderly(e: Env, q: Queue)
    requires !q.stalled && Passable(e, q.landed, q.base, q.waiting, Take(q)) && NoTwinsLand(e, Offer(e, q).train)
    ensures Orderly(e, q)
  {
    RoundLineShape(e, q);
    LineIsTrue(e, q);
    GreenPrefixIsSerial(e, q, Take(q));
    ThinnedThrough(e, q);
    StepsThenDrain(e, q, Take(q));
    StepsThenDrain(e, Thinned(e, q), |Offer(e, q).train|);
    ToldInTurn(e, q, Thinned(e, q), RoundLine(e, q));
  }

  lemma {:induction false} SmoothRoundIsOrderly(e: Env, q: Queue)
    requires !q.stalled && Smooth(e, q.landed, q.waiting)
    ensures Orderly(e, q)
  {
    var s := Offer(e, q);
    SmoothOffer(e, q.landed, q.base, q.waiting, Take(q));
    TrainIsNew(e, q);
    NewTrain(e, q.landed, s.train, Min(FirstStop(e, s.train) + 1, |s.train|));
    if MergesCleanly(e, q.waiting) {
      RoundLineShape(e, q);
      NobodyToldAlike(e, q, RoundLine(e, q));
    } else {
      GreenIsOrderly(e, q);
    }
  }

  lemma {:induction false} TrainIsNew(e: Env, q: Queue)
    requires AllNew(e, q.landed, q.waiting)
    ensures AllNew(e, q.landed, Changes(Offer(e, q).train))
  {
    var s := Offer(e, q);
    TrainInOrder(e, q.landed, q.base, q.waiting[..Take(q)]);
    assert q.waiting[..Take(q)][..s.seen] == q.waiting[..s.seen];
    assert q.waiting[..s.seen] + q.waiting[s.seen..] == q.waiting;
    PrefixIsSubsequence(q.waiting, s.seen);
    SubsequenceTransitive(Changes(s.train), q.waiting[..s.seen], q.waiting);
    NewSubsequence(e, q.landed, Changes(s.train), q.waiting);
  }

  /** What landed before has no part in what is left waiting. */
  lemma {:induction false} SettleAfresh(e: Env, told: Queue, clear: Queue, train: seq<Member>, rest: seq<Change>)
    requires clear == told.(merged := [])
    ensures var n, r, r' := FirstStop(e, train), Settle(e, told, train, rest), Settle(e, clear, train, rest);
      && r'.waiting == r.waiting && r'.merged == Changes(train[..n]) && r.landed == told.landed + Identities(e, train[..n])
  {
    var n := FirstStop(e, train);
    var a, b := Land(e, told, train[..n]), Land(e, clear, train[..n]);
    LandShape(e, clear, train[..n]);
    LandIdentities(e, told, train[..n]);
    assert [] + Changes(train[..n]) == Changes(train[..n]);
    if n < |train| && Decision(e, train[n]) == Failed {
      SameEvictions(a, b, train[n].change, Changes(train[n + 1..]), rest);
      SameEvictions(b, a, train[n].change, Changes(train[n + 1..]), rest);
    }
  }

  lemma {:induction false} SameEvictions(a: Queue, b: Queue, c: Change, behind: seq<Change>, rest: seq<Change>)
    ensures var x, y := Evict(a, c, behind, rest), Evict(b, c, behind, rest);
      x.waiting == y.waiting && x.merged == a.merged && x.landed == a.landed
  {
  }

  lemma {:induction false} RoundAfresh(e: Env, q: Queue, clear: Queue) returns (lands: seq<Change>)
    requires q.waiting != [] && q.window >= 1 && clear == q.(merged := [])
    ensures Round(e, clear).waiting == Round(e, q).waiting && Round(e, clear).merged == lands
    ensures Round(e, q).landed == q.landed + Names(e, lands)
  {
    var s := Offer(e, q);
    assert s == Offer(e, clear);
    if Voided(e, q) {
      lands := [];
      VoidRound(e, q);
      VoidRound(e, clear);
      assert q.landed + {} == q.landed;
    } else {
      lands := Changes(s.train[..FirstStop(e, s.train)]);
      SettledRound(e, q);
      SettledRound(e, clear);
      SettleAfresh(e, Thinned(e, q), Thinned(e, clear), s.train, q.waiting[Take(q)..]);
      TrainNames(e, s.train[..FirstStop(e, s.train)]);
    }
  }

  /** What a round lands, followed by what it leaves waiting. */
  lemma {:induction false} RoundLeaves(e: Env, q: Queue) returns (lands: seq<Change>)
    requires q.waiting != [] && q.window >= 1
    ensures Subsequence(lands + Round(e, q).waiting, q.waiting) && Round(e, q).landed == q.landed + Names(e, lands)
  {
    var clear := q.(merged := []);
    RoundInOrder(e, clear);
    assert [] + q.waiting == q.waiting;
    lands := RoundAfresh(e, q, clear);
  }

  lemma {:induction false} SmoothStaysSmooth(e: Env, q: Queue)
    requires q.waiting != [] && q.window >= 1 && Smooth(e, q.landed, q.waiting)
    ensures Smooth(e, Round(e, q).landed, Round(e, q).waiting)
  {
    var lands := RoundLeaves(e, q);
    NewSubsequence(e, q.landed, lands + Round(e, q).waiting, q.waiting);
    NewBehind(e, q.landed, lands, Round(e, q).waiting);
    assert forall c :: c in Round(e, q).waiting ==> c in lands + Round(e, q).waiting;
  }

  /** Distinct changes that merge cleanly, whatever their tests say, or whose tests pass, whatever
      conflicts: every window, and every history of the window, gives the one-at-a-time result. */
  lemma {:induction false} SmoothQueueIsSerial(e: Env, q: Queue)
    requires q.window >= 1 && q.maxWindow >= 1 && Smooth(e, q.landed, q.waiting)
    ensures OrderlyRun(e, q) && Same(Drain(e, q), SerialDrain(e, q))
    decreases if q.stalled then 0 else 1 + |q.waiting|
  {
    if !q.stalled && q.waiting != [] {
      WindowStaysOpen(e, q);
      SmoothRoundIsOrderly(e, q);
      SmoothStaysSmooth(e, q);
      SmoothQueueIsSerial(e, Round(e, q));
    }
    SpeculationIsInvisible(e, q);
  }

  // ---- one change at a look ------------------------------------------------------------------------

  lemma {:induction false} SingleOffer(e: Env, landed: set<string>, base: State, w: seq<Change>)
    requires |w| >= 1
    ensures Speculate(e, landed, base, w[..1]) == Extend(e, landed, Speculated([], [], base, 0, true), w[0])
  {
    OfferOneMore(e, landed, base, w, 1);
    assert w[..0] == [];
  }

  lemma {:induction false} NobodyToldAlike(e: Env, q: Queue, line: seq<Place>)
    requires Notices(line) == []
    ensures ToldAlike(e, q, line)
  {
  }

  lemma {:induction false} ToldInTurn(e: Env, q: Queue, r: Queue, line: seq<Place>)
    requires Apart(q, r, line) && r.rejected == q.rejected + Notices(line) && Truthful(e, q.landed, line)
    requires SerialDrain(e, q) == SerialDrain(e, r)
    ensures ToldAlike(e, q, line)
  {
    WithheldIsInvisible(e, q, r, line);
  }

  lemma {:induction false} OneRefused(e: Env, landed: set<string>, base: State, c: Change, q: Queue, why: Rejection)
    requires q.landed == landed && q.base == base && Refusal(e, c, q) == Some(why)
    ensures Extend(e, landed, Speculated([], [], base, 0, true), c) == Speculated([], [(c, why)], base, 1, true)
  {
    assert [] + [(c, why)] == [(c, why)];
  }

  lemma {:induction false} ThinnedByOne(e: Env, q: Queue, why: Rejection)
    requires !q.stalled && q.waiting != [] && Refusal(e, q.waiting[0], q) == Some(why)
    requires Offer(e, q) == Speculated([], [(q.waiting[0], why)], q.base, 1, true)
    ensures SerialDrain(e, q) == SerialDrain(e, Thinned(e, q))
  {
    assert [] + q.waiting[1..] == q.waiting[1..];
    assert SerialStep(e, q) == Thinned(e, q);
  }

  lemma {:induction false} OneTested(e: Env, landed: set<string>, base: State, c: Change, s: Speculated, q: Queue)
    requires s == Extend(e, landed, Speculated([], [], base, 0, true), c)
    requires q.landed == landed && q.base == base && Refusal(e, c, q).None?
    ensures s.rejects == [] && (s.train == [] || s.train == [Member(c, s.tip)]) && (s.train == [] ==> !s.available)
    ensures s.train != [] && !e.answers(s.train[0]) ==> Trial(e, c, base) == Inconclusive
  {
  }

  lemma {:induction false} OneAlone(e: Env, train: seq<Member>)
    requires |train| <= 1
    ensures NoTwinsLand(e, train)
  {
  }

  lemma {:induction false} RefusedIsOrderly(e: Env, q: Queue, why: Rejection)
    requires !q.stalled && q.waiting != [] && Refusal(e, q.waiting[0], q) == Some(why)
    requires Offer(e, q) == Speculated([], [(q.waiting[0], why)], q.base, 1, true)
    ensures Orderly(e, q)
  {
    RoundLineShape(e, q);
    LineIsTrue(e, q);
    ThinnedByOne(e, q, why);
    ToldInTurn(e, q, Thinned(e, q), RoundLine(e, q));
  }

  lemma {:induction false} TestedIsOrderly(e: Env, q: Queue)
    requires !q.stalled && q.waiting != [] && Refusal(e, q.waiting[0], q).None?
    requires Offer(e, q) == Extend(e, q.landed, Speculated([], [], q.base, 0, true), q.waiting[0])
    ensures Orderly(e, q)
  {
    RoundLineShape(e, q);
    OneTested(e, q.landed, q.base, q.waiting[0], Offer(e, q), q);
    NobodyToldAlike(e, q, RoundLine(e, q));
    OneAlone(e, Offer(e, q).train);
  }

  /** A round that looks at one change only is orderly. */
  lemma {:induction false} SingleIsOrderly(e: Env, q: Queue)
    requires !q.stalled && Take(q) == 1
    ensures Orderly(e, q)
  {
    SingleOffer(e, q.landed, q.base, q.waiting);
    var why := Refusal(e, q.waiting[0], q);
    if why.Some? {
      OneRefused(e, q.landed, q.base, q.waiting[0], q, why.value);
      RefusedIsOrderly(e, q, why.value);
    } else {
      TestedIsOrderly(e, q);
    }
  }

  /** Runs in which no round looks at two changes. */
  lemma {:induction false} AloneIsOrderly(e: Env, q: Queue)
    requires q.window >= 1 && q.maxWindow >= 1
    requires q.stalled || |q.waiting| <= 1 || (q.window == 1 && (q.maxWindow == 1 || |q.waiting| <= 2))
    ensures OrderlyRun(e, q)
    decreases if q.stalled then 0 else 1 + |q.waiting|
  {
    if !q.stalled && q.waiting != [] {
      WindowStaysOpen(e, q);
      SingleIsOrderly(e, q);
      AloneIsOrderly(e, Round(e, q));
    }
  }
}
