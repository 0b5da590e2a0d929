/** Queues and settings that keep the promise whatever the speculator, the executor and the log answer. */
module SpeculationPromise {
  import opened Basics
  import opened MergeQueue
  import opened MergeQueueProofs
  import opened Serial
  import opened Speculation
  import opened SpeculationProofs
  import opened SpeculativeRuns

  /** Everything merges, is answered for and is recorded, and `doubtful` alone does not pass: nothing can be
      said of it. Changes go by the names they are given. */
  function KindWorld(naming: Change -> string, doubtful: Change -> bool): Env {
    Env((c, s) => Advanced(s), m => true, (m: Member) => if doubtful(m.change) then Inconclusive else Passed, m => true, naming)
  }

  ghost predicate AllMerge(e: Env) {
    (forall c, s :: e.step(c, s).Advanced?) && (forall m :: e.answers(m))
  }

  ghost predicate Passes(e: Env, c: Change) {
    forall s :: Decision(e, Member(c, s)) == Passed
  }

  // ---- two of one name -----------------------------------------------------------------------------

  lemma {:induction false} AllTaken(e: Env, landed: set<string>, base: State, w: seq<Change>, n: nat)
    requires n <= |w| && AllMerge(e) && forall i :: 0 <= i < n ==> e.identity(w[i]) !in landed && Passes(e, w[i])
    ensures var s := Speculate(e, landed, base, w[..n]); s.available && |s.train| == n && FirstStop(e, s.train) == n
  {
    if n > 0 {
      OfferOneMore(e, landed, base, w, n);
      AllTaken(e, landed, base, w, n - 1);
      TakenOn(e, landed, Speculate(e, landed, base, w[..n - 1]), w[n - 1]);
    }
  }

  lemma {:induction false} TakenOn(e: Env, landed: set<string>, s: Speculated, c: Change)
    requires AllMerge(e) && e.identity(c) !in landed && Passes(e, c) && s.available && FirstStop(e, s.train) == |s.train|
    ensures var t := Extend(e, landed, s, c); t.available && |t.train| == |s.train| + 1 && FirstStop(e, t.train) == |t.train|
  {
    var t := Extend(e, landed, s, c);
    ExtendGrows(e, landed, s, c);
    assert t.train[..|t.train| - 1] == s.train;
  }

  lemma {:induction false} NobodyElseLands(e: Env, q: Queue)
    requires forall c :: c in q.waiting ==> e.identity(c) in q.landed
    ensures SerialDrain(e, q).merged == q.merged
    decreases if q.stalled then 0 else 1 + |q.waiting|
  {
    if !q.stalled && q.waiting != [] {
      assert q.waiting[0] in q.waiting;
      StepGrows(e, q);
      NobodyElseLands(e, SerialStep(e, q));
    }
  }

  lemma {:induction false} OnlyOneLands(e: Env, q: Queue)
    requires !q.stalled && q.waiting != [] && AllMerge(e) && e.identity(q.waiting[0]) !in q.landed && Passes(e, q.waiting[0])
    requires forall c :: c in q.waiting ==> e.identity(c) in q.landed + {e.identity(q.waiting[0])}
    ensures |SerialDrain(e, q).merged| == |q.merged| + 1
  {
    var r := SerialStep(e, q);
    StepGrows(e, q);
    assert r.merged == q.merged + [q.waiting[0]] && r.landed == q.landed + {e.identity(q.waiting[0])};
    NobodyElseLands(e, r);
  }

  /** Two changes of one identity in one round both land; one at a time, one does. */
  lemma {:induction false} TwinsLandTogether(e: Env, q: Queue)
    requires !q.stalled && q.window >= 2 && q.maxWindow >= 1 && |q.waiting| >= 2 && AllMerge(e)
    requires e.identity(q.waiting[0]) !in q.landed
    requires forall i :: 0 <= i < Take(q) ==> e.identity(q.waiting[i]) == e.identity(q.waiting[0]) && Passes(e, q.waiting[i])
    requires forall c :: c in q.waiting ==> e.identity(c) in q.landed + {e.identity(q.waiting[0])}
    ensures |Drain(e, q).merged| >= |q.merged| + 2 && |SerialDrain(e, q).merged| == |q.merged| + 1
  {
    AllTaken(e, q.landed, q.base, q.waiting, Take(q));
    RoundSays(e, q);
    WindowStaysOpen(e, q);
    DrainGoesOn(e, Round(e, q));
    OnlyOneLands(e, q);
  }

  // ---- a change that landed behind one that nobody can judge ---------------------------------------------

  lemma {:induction false} DoubtOffer(e: Env, q: Queue)
    requires q.window == 2 && |q.waiting| >= 2 && AllMerge(e)
    requires e.identity(q.waiting[0]) !in q.landed && e.identity(q.waiting[1]) in q.landed
    ensures var s := Offer(e, q);
      s.available && s.train == [Member(q.waiting[0], e.step(q.waiting[0], q.base).next)] && s.rejects == [(q.waiting[1], AlreadyLanded)]
  {
    OfferOneMore(e, q.landed, q.base, q.waiting, 1);
    OfferOneMore(e, q.landed, q.base, q.waiting, 2);
    assert q.waiting[..0] == [];
  }

  /** One at a time, the change that landed is still waiting when the queue stops. */
  lemma {:induction false} DoubtAhead(e: Env, q: Queue)
    requires !q.stalled && q.window == 2 && q.maxWindow >= 1 && |q.waiting| >= 2 && AllMerge(e)
    requires e.identity(q.waiting[0]) !in q.landed && e.identity(q.waiting[1]) in q.landed
    requires forall s :: e.ci(Member(q.waiting[0], s)) == Inconclusive
    ensures !Same(Drain(e, q), SerialDrain(e, q))
  {
    var train := Offer(e, q).train;
    DoubtOffer(e, q);
    RoundSays(e, q);
    SettledRound(e, q);
    assert train[..0] == [] && Decision(e, train[0]) == Inconclusive;
    var i := FirstStop(e, train);
    assert i == 0;
    assert SerialDrain(e, q) == q.(stalled := true);
    assert |Round(e, q).waiting| == 1 + |q.waiting[2..]|;
  }

  lemma {:induction false} NewName(landed: set<string>) returns (name: string)
    ensures name !in landed
  {
    var n := LongestName(landed);
    name := seq(n + 1, i => 'x');
  }

  lemma {:induction false} LongestName(landed: set<string>) returns (n: nat)
    ensures forall x :: x in landed ==> |x| <= n
    decreases landed
  {
    if landed == {} {
      n := 0;
    } else {
      var x :| x in landed;
      n := LongestName(landed - {x});
      n := if n < |x| then |x| else n;
    }
  }

  // ---- one change at a look, whatever landed before ---------------------------------------------------------

  /** The first `n` have all landed before. */
  predicate LandedAll(e: Env, landed: set<string>, w: seq<Change>, n: nat)
    requires n <= |w|
  {
    forall i :: 0 <= i < n ==> e.identity(w[i]) in landed
  }

  lemma {:induction false} LandedOffer(e: Env, landed: set<string>, base: State, w: seq<Change>, n: nat)
    requires n <= |w| && LandedAll(e, landed, w, n)
    ensures var s := Speculate(e, landed, base, w[..n]); s.train == [] && s.tip == base && s.available
  {
    if n == 0 {
      assert w[..0] == [];
    } else {
      LandedOffer(e, landed, base, w, n - 1);
      OfferOneMore(e, landed, base, w, n);
    }
  }

  /** What the last change offered comes to when all ahead of it have landed. */
  lemma {:induction false} LastOffered(e: Env, q: Queue)
    requires Take(q) >= 1 && LandedAll(e, q.landed, q.waiting, Take(q) - 1)
    ensures var s, c := Speculate(e, q.landed, q.base, q.waiting[..Take(q) - 1]), q.waiting[Take(q) - 1];
      && Offer(e, q) == Extend(e, q.landed, s, c) && s.train == [] && s.tip == q.base && s.available && s.seen == Take(q) - 1
      && Passable(e, q.landed, q.base, q.waiting, Take(q) - 1)
  {
    var n := Take(q) - 1;
    LandedOffer(e, q.landed, q.base, q.waiting, n);
    OfferOneMore(e, q.landed, q.base, q.waiting, n + 1);
    NoTwinsWithoutTrain(e, q.landed, q.base, q.waiting, n);
  }

  /** The last one is tried on the base, as it would be one at a time. */
  lemma {:induction false} LastIsTried(e: Env, q: Queue)
    requires !q.stalled && Take(q) >= 1 && LandedAll(e, q.landed, q.waiting, Take(q) - 1)
    requires Refusal(e, q.waiting[Take(q) - 1], q).None?
    ensures Orderly(e, q)
  {
    var n, c := Take(q) - 1, q.waiting[Take(q) - 1];
    var s := Speculate(e, q.landed, q.base, q.waiting[..n]);
    LastOffered(e, q);
    RoundLineShape(e, q);
    LineIsTrue(e, q);
    GreenPrefixIsSerial(e, q, n);
    LeftBehind(e, q, s, c);
    StepsThenDrain(e, q, n);
    ToldInTurn(e, q, Thinned(e, q), RoundLine(e, q));
    OneAlone(e, Offer(e, q).train);
  }

  lemma {:induction false} ExtendAlone(e: Env, landed: set<string>, s: Speculated, c: Change, q: Queue)
    requires s.train == [] && s.tip == q.base && s.available && q.landed == landed && Refusal(e, c, q).None?
    ensures var t := Extend(e, landed, s, c);
      && t.rejects == s.rejects && (t.train == [] || t.train == [Member(c, t.tip)])
      && (if t.train == [] then !t.available && t.seen == s.seen else t.available && t.seen == s.seen + 1)
      && (t.train != [] && !e.answers(t.train[0]) ==> Trial(e, c, q.base) == Inconclusive)
  {
  }

  lemma {:induction false} LeftBehind(e: Env, q: Queue, s: Speculated, c: Change)
    requires s.train == [] && s.tip == q.base && s.available && s.seen < |q.waiting| && c == q.waiting[s.seen]
    requires Refusal(e, c, q).None? && Offer(e, q) == Extend(e, q.landed, s, c)
    ensures Thinned(e, q) == Through(e, q, s) && |Offer(e, q).train| <= 1 && (Voided(e, q) ==> NothingAtStake(e, q))
  {
    var t := Offer(e, q);
    ExtendAlone(e, q.landed, s, c, q);
    assert q.landed + {} == q.landed && q.merged + [] == q.merged;
    if t.train != [] {
      OneMember(t.train, c, q.waiting[t.seen..]);
      assert [c] + q.waiting[s.seen + 1..] == q.waiting[s.seen..];
    } else {
      assert [] + q.waiting[s.seen..] == q.waiting[s.seen..];
    }
  }

  lemma {:induction false} OneMember(train: seq<Member>, c: Change, rest: seq<Change>)
    requires |train| == 1 && train[0].change == c
    ensures Changes(train) == [c] && Changes(train) + rest == [c] + rest
  {
    assert train[..0] == [];
  }

  lemma {:induction false} LastIsRefused(e: Env, q: Queue)
    requires !q.stalled && Take(q) >= 1 && LandedAll(e, q.landed, q.waiting, Take(q) - 1)
    requires Refusal(e, q.waiting[Take(q) - 1], q).Some?
    ensures Orderly(e, q)
  {
    LastOffered(e, q);
    assert Offer(e, q).train == [];
    NoTwinsWithoutTrain(e, q.landed, q.base, q.waiting, Take(q));
    OneAlone(e, []);
    GreenIsOrderly(e, q);
  }

  /** A round in which all but the last have landed before is orderly. */
  lemma {:induction false} LastAlone(e: Env, q: Queue)
    requires !q.stalled && Take(q) >= 1 && LandedAll(e, q.landed, q.waiting, Take(q) - 1)
    ensures Orderly(e, q)
  {
    if Refusal(e, q.waiting[Take(q) - 1], q).None? {
      LastIsTried(e, q);
    } else {
      LastIsRefused(e, q);
    }
  }

  predicate HeadLands(e: Env, q: Queue)
    requires q.waiting != []
  {
    Refusal(e, q.waiting[0], q).None? && Trial(e, q.waiting[0], q.base) == Passed
  }

  /** What is left waiting: all but the head; or fewer, when the head took others with it and the next one
      was the same change. */
  ghost predicate LeavesLess(q: Queue, r: Queue)
    requires q.waiting != []
  {
    || r.waiting == q.waiting[1..]
    || (|r.waiting| < |q.waiting| && (|q.waiting| >= 2 && q.waiting[1] == q.waiting[0] ==> |r.waiting| <= |q.waiting| - 2)
        && forall c :: c in r.waiting ==> c in q.waiting)
  }

  lemma {:induction false} CopyGoes(c: Change, rest: seq<Change>, ids: set<nat>)
    requires c.id in ids && rest != [] && rest[0] == c
    ensures |Kept(rest, ids)| < |rest|
  {
    KeptAppend([c], rest[1..], ids);
    assert [c] + rest[1..] == rest && [c][..0] == [];
  }

  lemma {:induction false} CopiesGo(q: Queue, a: Queue, c: Change, rest: seq<Change>)
    requires q.waiting == [c] + rest
    ensures LeavesLess(q, Evict(a, c, [], rest))
  {
    var ids := Closure([] + rest, {c.id});
    assert [] + rest == rest && q.waiting[1..] == rest;
    assert Kept([], ids) == [] && [] + Kept(rest, ids) == Kept(rest, ids);
    KeptAreThere(rest, ids);
    if rest != [] && rest[0] == c {
      CopyGoes(c, rest, ids);
    }
  }

  lemma {:induction false} KeptAreThere(w: seq<Change>, ids: set<nat>)
    ensures forall c :: c in Kept(w, ids) ==> c in w
  {
    if w != [] {
      KeptAreThere(w[..|w| - 1], ids);
    }
  }

  /** Where a round that looks at one change leaves the queue. */
  ghost predicate SingleEnds(e: Env, q: Queue, r: Queue)
    requires q.waiting != []
  {
    if HeadLands(e, q) then
      Settings(r, 2, q.maxWindow) && r.waiting == q.waiting[1..] && r.landed == q.landed + {e.identity(q.waiting[0])}
    else
      r.stalled || (Settings(r, 1, q.maxWindow) && r.base == q.base && r.landed == q.landed && LeavesLess(q, r))
  }

  lemma {:induction false} SingleRefused(e: Env, q: Queue, why: Rejection)
    requires Settings(q, 1, q.maxWindow) && q.maxWindow >= 2 && q.waiting != [] && Refusal(e, q.waiting[0], q) == Some(why)
    ensures SingleEnds(e, q, Round(e, q))
  {
    SingleOffer(e, q.landed, q.base, q.waiting);
    OneRefused(e, q.landed, q.base, q.waiting[0], q, why);
    SettledRound(e, q);
    assert Land(e, Thinned(e, q), []) == Thinned(e, q);
  }

  lemma {:induction false} SingleSettled(e: Env, q: Queue, told: Queue, m: Member, rest: seq<Change>)
    requires Settings(q, 1, q.maxWindow) && q.maxWindow >= 2 && q.waiting == [m.change] + rest && HeadLands(e, q) == (Decision(e, m) == Passed)
    requires Settings(told, 1, q.maxWindow) && told.base == q.base && told.landed == q.landed
    ensures SingleEnds(e, q, Settle(e, told, [m], rest))
  {
    var train := [m];
    assert train[..1] == train && train[..0] == [] && train[1..] == [] && q.waiting[1..] == rest;
    assert FirstStop(e, []) == 0 && FirstStop(e, train) == if Decision(e, m) == Passed then 1 else 0;
    assert Land(e, told, []) == told && Changes([]) == [];
    CopiesGo(q, told, m.change, rest);
  }

  /** What trying `c` on the base comes to, and what the round offers of it. */
  ghost predicate TriedAlone(e: Env, q: Queue, s: Speculated, c: Change) {
    && (s.train == [] ==> !s.available && Trial(e, c, q.base) == Inconclusive)
    && (s.train != [] ==> s.train == [Member(c, s.tip)] && s.available)
    && (s.train != [] ==> Trial(e, c, q.base) == if e.answers(s.train[0]) then Decision(e, s.train[0]) else Inconclusive)
  }

  lemma {:induction false} OfferedAlone(e: Env, q: Queue, c: Change, s: Speculated)
    requires Refusal(e, c, q).None? && s == Extend(e, q.landed, Speculated([], [], q.base, 0, true), c)
    ensures TriedAlone(e, q, s, c)
  {
  }

  lemma {:induction false} SingleTried(e: Env, q: Queue)
    requires Settings(q, 1, q.maxWindow) && q.maxWindow >= 2 && q.waiting != [] && Refusal(e, q.waiting[0], q).None?
    requires TriedAlone(e, q, Offer(e, q), q.waiting[0])
    ensures SingleEnds(e, q, Round(e, q))
  {
    if Voided(e, q) {
      VoidRound(e, q);
    } else {
      SettledRound(e, q);
      SingleSettled(e, q, Thinned(e, q), Offer(e, q).train[0], q.waiting[1..]);
    }
  }

  lemma {:induction false} SingleRound(e: Env, q: Queue)
    requires Settings(q, 1, q.maxWindow) && q.maxWindow >= 2 && q.waiting != []
    ensures SingleEnds(e, q, Round(e, q))
  {
    var c := q.waiting[0];
    var why := Refusal(e, c, q);
    if why.Some? {
      SingleRefused(e, q, why.value);
    } else {
      SingleOffer(e, q.landed, q.base, q.waiting);
      OfferedAlone(e, q, c, Offer(e, q));
      SingleTried(e, q);
    }
  }

  // ---- queues ---------------------------------------------------------------------------------------------

  /** A queue that starts with these settings. */
  ghost predicate Settings(q: Queue, window: nat, ceiling: nat) {
    !q.stalled && q.window == window && q.maxWindow == ceiling
  }

  lemma {:induction false} BreaksLater(e: Env, q: Queue, r: Queue)
    requires !q.stalled && q.waiting != [] && q.window >= 1 && q.maxWindow >= 1 && r == Round(e, q) && r.window >= 1 && r.maxWindow >= 1
    requires Invisible(e, q) && !Same(Drain(e, r), SerialDrain(e, r))
    ensures !Same(Drain(e, q), SerialDrain(e, q))
  {
  }

  /** The first of a queue lands and opens the window. */
  lemma {:induction false} FirstOpens(e: Env, q: Queue)
    requires Settings(q, 1, q.maxWindow) && q.maxWindow >= 2 && q.waiting != [] && AllMerge(e)
    requires e.identity(q.waiting[0]) !in q.landed && Passes(e, q.waiting[0])
    ensures var r := Round(e, q);
      && r.waiting == q.waiting[1..] && Settings(r, 2, q.maxWindow) && r.landed == q.landed + {e.identity(q.waiting[0])}
      && Invisible(e, q)
  {
    SingleRound(e, q);
    SingleIsOrderly(e, q);
    RoundIsInvisible(e, q);
  }

  lemma {:induction false} TwinsBehind(e: Env, q: Queue)
    requires Settings(q, 1, q.maxWindow) && q.maxWindow >= 2 && |q.waiting| >= 3 && AllMerge(e) && forall c :: Passes(e, c)
    requires var w := q.waiting;
      && e.identity(w[0]) !in q.landed && e.identity(w[1]) == e.identity(w[2]) && e.identity(w[1]) !in q.landed + {e.identity(w[0])}
      && forall c :: c in w ==> e.identity(c) in {e.identity(w[0]), e.identity(w[1])}
    ensures !Same(Drain(e, q), SerialDrain(e, q))
  {
    var r := Round(e, q);
    FirstOpens(e, q);
    TwinsLandTogether(e, r);
    BreaksLater(e, q, r);
  }

  lemma {:induction false} DoubtBehind(e: Env, q: Queue)
    requires Settings(q, 1, q.maxWindow) && q.maxWindow >= 2 && |q.waiting| >= 3 && AllMerge(e)
    requires var w := q.waiting;
      && e.identity(w[0]) !in q.landed && Passes(e, w[0]) && e.identity(w[2]) == e.identity(w[0])
      && e.identity(w[1]) !in q.landed + {e.identity(w[0])} && forall s :: e.ci(Member(w[1], s)) == Inconclusive
    ensures !Same(Drain(e, q), SerialDrain(e, q))
  {
    var r := Round(e, q);
    FirstOpens(e, q);
    DoubtAhead(e, r);
    BreaksLater(e, q, r);
  }

  /** Three or more wait, the second is not the first again, and the window opens: some world breaks the
      promise. */
  lemma {:induction false} SomeWorldBreaks(q: Queue) returns (e: Env)
    requires Settings(q, 1, q.maxWindow) && q.maxWindow >= 2 && |q.waiting| >= 3 && q.waiting[0] != q.waiting[1]
    ensures !Same(Drain(e, q), SerialDrain(e, q))
  {
    var first, second := q.waiting[0], q.waiting[1];
    var one := NewName(q.landed);
    var other := NewName(q.landed + {one});
    var naming := (c: Change) => if c == first then one else other;
    if q.waiting[2] != first {
      e := KindWorld(naming, c => false);
      TwinsBehind(e, q);
    } else {
      e := KindWorld(naming, c => c == second);
      DoubtBehind(e, q);
    }
  }

  predicate AllSame(w: seq<Change>) {
    forall i :: 0 <= i < |w| ==> w[i] == w[0]
  }

  /** One change waits, any number of times; once the window is open it has landed. */
  predicate CopiesWait(e: Env, q: Queue) {
    AllSame(q.waiting) && (q.window == 1 || q.waiting == [] || e.identity(q.waiting[0]) in q.landed)
  }

  lemma {:induction false} CopiesStay(e: Env, q: Queue)
    requires !q.stalled && q.waiting != [] && q.window >= 1 && q.maxWindow >= 2 && CopiesWait(e, q)
    ensures Orderly(e, q) && (Round(e, q).stalled || CopiesWait(e, Round(e, q)))
  {
    var r := Round(e, q);
    if q.window == 1 {
      SingleIsOrderly(e, q);
      SingleRound(e, q);
      assert forall c :: c in q.waiting ==> c == q.waiting[0];
      assert forall i :: 0 <= i < |r.waiting| ==> r.waiting[i] in r.waiting;
    } else {
      LastAlone(e, q);
      LandedOffer(e, q.landed, q.base, q.waiting, Take(q));
      SettledRound(e, q);
      assert Land(e, Thinned(e, q), []) == Thinned(e, q);
    }
  }

  lemma {:induction false} CopiesAreOrderly(e: Env, q: Queue)
    requires q.window >= 1 && q.maxWindow >= 2 && (q.stalled || CopiesWait(e, q))
    ensures OrderlyRun(e, q)
    decreases if q.stalled then 0 else 1 + |q.waiting|
  {
    if !q.stalled && q.waiting != [] {
      WindowStaysOpen(e, q);
      CopiesStay(e, q);
      CopiesAreOrderly(e, Round(e, q));
    }
  }

  lemma {:induction false} OneLeft(e: Env, q: Queue)
    requires !q.stalled && q.window == 2 && 2 <= |q.waiting| <= 3 && e.identity(q.waiting[0]) in q.landed
    ensures Round(e, q).stalled || |Round(e, q).waiting| <= 1
  {
    LastOffered(e, q);
    ExtendGrows(e, q.landed, Speculate(e, q.landed, q.base, q.waiting[..1]), q.waiting[1]);
    if Voided(e, q) {
      VoidRound(e, q);
    } else {
      SettledRound(e, q);
    }
  }

  /** The head has landed, and two or fewer follow. */
  lemma {:induction false} LandedLeads(e: Env, q: Queue)
    requires Settings(q, 2, q.maxWindow) && q.maxWindow >= 1 && 1 <= |q.waiting| <= 3 && e.identity(q.waiting[0]) in q.landed
    ensures OrderlyRun(e, q)
  {
    if |q.waiting| == 1 {
      AloneIsOrderly(e, q);
    } else {
      LastAlone(e, q);
      OneLeft(e, q);
      WindowStaysOpen(e, q);
      AloneIsOrderly(e, Round(e, q));
    }
  }

  lemma {:induction false} NeverLands(e: Env, q: Queue)
    requires Settings(q, 1, q.maxWindow) && q.maxWindow >= 2 && 1 <= |q.waiting| <= 3 && !HeadLands(e, q)
    ensures OrderlyRun(e, q)
  {
    SingleIsOrderly(e, q);
    SingleRound(e, q);
    WindowStaysOpen(e, q);
    AloneIsOrderly(e, Round(e, q));
  }

  /** The same change is waiting twice at the head, and two or fewer follow: what lands first opens the
      window on its own copy, and what does not land does not land the second time. */
  lemma {:induction false} PairLeads(e: Env, q: Queue)
    requires Settings(q, 1, q.maxWindow) && q.maxWindow >= 2 && 2 <= |q.waiting| <= 4 && q.waiting[0] == q.waiting[1]
    ensures OrderlyRun(e, q)
  {
    var r := Round(e, q);
    SingleIsOrderly(e, q);
    SingleRound(e, q);
    WindowStaysOpen(e, q);
    if HeadLands(e, q) {
      LandedLeads(e, r);
    } else if r.stalled || |r.waiting| <= 2 {
      AloneIsOrderly(e, r);
    } else {
      NeverLands(e, r);
    }
  }

  // ---- the promise ------------------------------------------------------------------------------------------

  /** No round of the queue can look at two changes that have not landed. */
  predicate OneAtALook(q: Queue) {
    || |q.waiting| <= 1
    || (q.window == 1 && (q.maxWindow == 1 || |q.waiting| <= 2 || AllSame(q.waiting) || (|q.waiting| <= 4 && q.waiting[0] == q.waiting[1])))
  }

  /** Two or more wait and the window takes two: with one name for all, the promise breaks. */
  lemma {:induction false} TwinsBreak(q: Queue) returns (e: Env)
    requires !q.stalled && q.window >= 2 && q.maxWindow >= 1 && |q.waiting| >= 2
    ensures !Same(Drain(e, q), SerialDrain(e, q))
  {
    var name := NewName(q.landed);
    e := KindWorld(c => name, c => false);
    TwinsLandTogether(e, q);
  }

  lemma {:induction false} LookingIsOrderly(e: Env, q: Queue)
    requires !q.stalled && q.window >= 1 && q.maxWindow >= 1 && OneAtALook(q)
    ensures OrderlyRun(e, q)
  {
    if |q.waiting| <= 1 || (q.window == 1 && (q.maxWindow == 1 || |q.waiting| <= 2)) {
      AloneIsOrderly(e, q);
    } else if AllSame(q.waiting) {
      CopiesAreOrderly(e, q);
    } else {
      PairLeads(e, q);
    }
  }

  lemma {:induction false} AloneIsPromised(q: Queue)
    requires !q.stalled && q.window >= 1 && q.maxWindow >= 1 && OneAtALook(q)
    ensures forall e :: Same(Drain(e, q), SerialDrain(e, q))
  {
    forall e
      ensures Same(Drain(e, q), SerialDrain(e, q))
    {
      LookingIsOrderly(e, q);
      SpeculationIsInvisible(e, q);
    }
  }

  /** A queue keeps the promise, whatever the speculator, the executor and the log answer, exactly when no
      round of it can look at two changes that have not landed. With a window of one that may open, this is
      said of queues that do not begin with the same change twice, of queues of that change alone, and of
      queues of four or fewer. */
  lemma {:induction false} PromiseForQueue(q: Queue)
    requires !q.stalled && q.window >= 1 && q.maxWindow >= 1
    requires q.window == 1 && q.maxWindow >= 2 && |q.waiting| >= 5 ==> q.waiting[0] != q.waiting[1] || AllSame(q.waiting)
    ensures (forall e :: Same(Drain(e, q), SerialDrain(e, q))) <==> OneAtALook(q)
  {
    if OneAtALook(q) {
      AloneIsPromised(q);
    } else if q.window == 1 {
      var e := SomeWorldBreaks(q);
      assert !Same(Drain(e, q), SerialDrain(e, q));
    } else {
      var e := TwinsBreak(q);
      assert !Same(Drain(e, q), SerialDrain(e, q));
    }
  }

  // ---- settings -------------------------------------------------------------------------------------------

  lemma {:induction false} SettingsBreak(window: nat, ceiling: nat) returns (e: Env, q: Queue)
    requires 1 <= window <= ceiling && ceiling >= 2
    ensures Settings(q, window, ceiling) && !Same(Drain(e, q), SerialDrain(e, q))
  {
    var a, b := Change(1, [], [], []), Change(2, [], [], []);
    q := Queue([], window, ceiling, [a, b, b], {}, [], [], false);
    if window == 1 {
      e := SomeWorldBreaks(q);
    } else {
      e := TwinsBreak(q);
    }
  }

  /** The promise holds for every environment and every queue exactly when the window and its ceiling
      are one: when there is no speculation. */
  lemma {:induction false} PromiseForSettings(window: nat, ceiling: nat)
    requires 1 <= window <= ceiling
    ensures (forall e, q :: Settings(q, window, ceiling) ==> Same(Drain(e, q), SerialDrain(e, q))) <==> window == 1 && ceiling == 1
  {
    if ceiling == 1 {
      forall e, q | Settings(q, window, ceiling)
        ensures Same(Drain(e, q), SerialDrain(e, q))
      {
        AloneIsPromised(q);
      }
    } else {
      var e, q := SettingsBreak(window, ceiling);
      assert Settings(q, window, ceiling) && !Same(Drain(e, q), SerialDrain(e, q));
    }
  }
}
