/** The promise "exactly as if they had been tested one at a time": which rounds keep it, which runs do,
    and which settings make it hold whatever happens. */
module Speculation {
  import opened Basics
  import opened Sequences
  import opened MergeQueue
  import opened MergeQueueProofs
  import opened Serial
  import opened Withheld

  function Take(q: Queue): (n: nat)
    ensures n <= |q.waiting|
  {
    Min(q.window, |q.waiting|)
  }

  /** What a round offers comes to. */
  function Offer(e: Env, q: Queue): (s: Speculated)
    ensures s.seen <= Take(q)
  {
    Speculate(e, q.landed, q.base, q.waiting[..Take(q)])
  }

  // ---- when a round makes no difference ----------------------------------------------------------

  /** Run one change at a time from here on, the outcome is as if this round had been, too. */
  ghost predicate Invisible(e: Env, q: Queue)
    requires q.waiting != [] && q.window >= 1
  {
    Same(SerialDrain(e, Round(e, q)), SerialDrain(e, q))
  }

  /** The line as the round leaves it: a change it refused is told why ahead of its turn. */
  function Places(e: Env, landed: set<string>, base: State, offered: seq<Change>): seq<Place> {
    if offered == [] then []
    else
      var n := |offered| - 1;
      var s := Speculate(e, landed, base, offered[..n]);
      Places(e, landed, base, offered[..n]) + [PlaceOf(e, landed, s, offered[n])]
  }

  function PlaceOf(e: Env, landed: set<string>, s: Speculated, c: Change): Place {
    var t := Extend(e, landed, s, c);
    Place(c, if |t.rejects| > |s.rejects| then Some(t.rejects[|s.rejects|].1) else None)
  }

  function Plain(w: seq<Change>): seq<Place> {
    if w == [] then [] else Plain(w[..|w| - 1]) + [Place(w[|w| - 1], None)]
  }

  function RoundLine(e: Env, q: Queue): seq<Place> {
    Places(e, q.landed, q.base, q.waiting[..Take(q)]) + Plain(q.waiting[Take(q)..])
  }

  /** A round without verdicts. */
  predicate Voided(e: Env, q: Queue) {
    !Offer(e, q).available || !Answered(e, Offer(e, q).train)
  }

  /** The change at the head of the train would have stopped the one-at-a-time queue as well. */
  predicate NothingAtStake(e: Env, q: Queue) {
    Offer(e, q).train == [] || Trial(e, Offer(e, q).train[0].change, q.base) == Inconclusive
  }

  predicate AllDiffer(e: Env, train: seq<Member>, n: nat)
    requires n <= |train|
  {
    forall j, k :: 0 <= j < k < n ==> e.identity(train[j].change) != e.identity(train[k].change)
  }

  /** No identity repeats among the members that land and the one the train stops at. */
  predicate NoTwinsLand(e: Env, train: seq<Member>) {
    AllDiffer(e, train, Min(FirstStop(e, train) + 1, |train|))
  }

  /** What keeps a round true to the promise: nothing was at stake if it was void, no identity repeats
      among what it landed if it was not, and those it refused would have been refused anyway. */
  predicate Orderly(e: Env, q: Queue) {
    && (if Voided(e, q) then NothingAtStake(e, q) else NoTwinsLand(e, Offer(e, q).train))
    && ToldAlike(e, q, RoundLine(e, q))
  }

  // ---- the line ------------------------------------------------------------------------------------

  lemma {:induction false} OfferOneMore(e: Env, landed: set<string>, base: State, w: seq<Change>, n: nat)
    requires 0 < n <= |w|
    ensures Speculate(e, landed, base, w[..n]) == Extend(e, landed, Speculate(e, landed, base, w[..n - 1]), w[n - 1])
    ensures Places(e, landed, base, w[..n]) ==
            Places(e, landed, base, w[..n - 1]) + [PlaceOf(e, landed, Speculate(e, landed, base, w[..n - 1]), w[n - 1])]
  {
    assert w[..n][..n - 1] == w[..n - 1];
  }

  lemma {:induction false} OneMorePlain(w: seq<Change>, line: seq<Place>)
    requires w != [] && Whole(line) == w[..|w| - 1] && Staying(line) == w[..|w| - 1] && Notices(line) == []
    ensures var l := line + [Place(w[|w| - 1], None)]; Whole(l) == w && Staying(l) == w && Notices(l) == []
  {
    LastOfLine(line, Place(w[|w| - 1], None));
    assert w[..|w| - 1] + [w[|w| - 1]] == w;
  }

  lemma {:induction false} PlainLine(w: seq<Change>)
    ensures Whole(Plain(w)) == w && Staying(Plain(w)) == w && Notices(Plain(w)) == []
  {
    if w != [] {
      PlainLine(w[..|w| - 1]);
      OneMorePlain(w, Plain(w[..|w| - 1]));
    }
  }

  /** The line as far as an offer has been gone through. */
  ghost predicate LineOf(line: seq<Place>, taken: seq<Change>, told: seq<(Change, Rejection)>, seen: nat, w: seq<Change>, n: nat) {
    && seen <= n <= |w|
    && Whole(line) == w[..n] && Notices(line) == told && Staying(line) == taken + w[seen..n]
  }

  ghost predicate PlacesFit(e: Env, landed: set<string>, base: State, w: seq<Change>, n: nat)
    requires n <= |w|
  {
    var s := Speculate(e, landed, base, w[..n]);
    LineOf(Places(e, landed, base, w[..n]), Changes(s.train), s.rejects, s.seen, w, n)
  }

  lemma {:induction false} PlacesStart(e: Env, landed: set<string>, base: State, w: seq<Change>)
    ensures PlacesFit(e, landed, base, w, 0)
  {
    assert w[..0] == [];
  }

  lemma {:induction false} PlacesStep(e: Env, landed: set<string>, base: State, w: seq<Change>, n: nat)
    requires n < |w| && PlacesFit(e, landed, base, w, n)
    ensures PlacesFit(e, landed, base, w, n + 1)
  {
    OfferOneMore(e, landed, base, w, n + 1);
    LineGoesOn(e, landed, Speculate(e, landed, base, w[..n]), Places(e, landed, base, w[..n]), w, n);
  }

  lemma {:induction false} PlacesShape(e: Env, landed: set<string>, base: State, w: seq<Change>, n: nat)
    requires n <= |w|
    ensures PlacesFit(e, landed, base, w, n)
  {
    if n == 0 {
      PlacesStart(e, landed, base, w);
    } else {
      PlacesShape(e, landed, base, w, n - 1);
      PlacesStep(e, landed, base, w, n - 1);
    }
  }

  lemma {:induction false} LineGoesOn(e: Env, landed: set<string>, s: Speculated, line: seq<Place>, w: seq<Change>, n: nat)
    requires n < |w| && LineOf(line, Changes(s.train), s.rejects, s.seen, w, n) && (s.available ==> s.seen == n)
    ensures var t := Extend(e, landed, s, w[n]);
      LineOf(line + [PlaceOf(e, landed, s, w[n])], Changes(t.train), t.rejects, t.seen, w, n + 1)
  {
    var t, p := Extend(e, landed, s, w[n]), PlaceOf(e, landed, s, w[n]);
    ExtendCases(e, landed, s, w[n]);
    if p.told.Some? {
      LineRefuses(line, Changes(s.train), s.rejects, p, w, n);
    } else if t.train == s.train {
      LineWaits(line, Changes(s.train), s.rejects, s.seen, p, w, n);
    } else {
      LineTakes(line, Changes(s.train), s.rejects, p, w, n);
    }
  }

  lemma {:induction false} LineRefuses(line: seq<Place>, taken: seq<Change>, told: seq<(Change, Rejection)>, p: Place, w: seq<Change>, n: nat)
    requires n < |w| && LineOf(line, taken, told, n, w, n) && p.told.Some? && p.change == w[n]
    ensures LineOf(line + [p], taken, told + [(w[n], p.told.value)], n + 1, w, n + 1)
  {
    LastOfLine(line, p);
    OneFurther(taken, w, n, n);
  }

  lemma {:induction false} LineWaits(line: seq<Place>, taken: seq<Change>, told: seq<(Change, Rejection)>, seen: nat, p: Place, w: seq<Change>, n: nat)
    requires n < |w| && LineOf(line, taken, told, seen, w, n) && p == Place(w[n], None)
    ensures LineOf(line + [p], taken, told, seen, w, n + 1)
  {
    LastOfLine(line, p);
    OneFurther(taken, w, seen, n);
  }

  lemma {:induction false} LineTakes(line: seq<Place>, taken: seq<Change>, told: seq<(Change, Rejection)>, p: Place, w: seq<Change>, n: nat)
    requires n < |w| && LineOf(line, taken, told, n, w, n) && p == Place(w[n], None)
    ensures LineOf(line + [p], taken + [w[n]], told, n + 1, w, n + 1)
  {
    LastOfLine(line, p);
    OneFurther(taken, w, n, n);
  }

  /** A change is refused, or joins the train, or is left waiting with all that follow. */
  lemma {:induction false} ExtendCases(e: Env, landed: set<string>, s: Speculated, c: Change)
    ensures var t, p := Extend(e, landed, s, c), PlaceOf(e, landed, s, c);
      && p.change == c
      && if p.told.Some? then s.available && t.train == s.train && t.seen == s.seen + 1 && t.rejects == s.rejects + [(c, p.told.value)] && t.available
         else if t.train == s.train then t.seen == s.seen && t.rejects == s.rejects && !t.available
         else s.available && t.seen == s.seen + 1 && t.rejects == s.rejects && Changes(t.train) == Changes(s.train) + [c] && t.available
  {
    var t := Extend(e, landed, s, c);
    if t.train != s.train {
      assert t.train[..|t.train| - 1] == s.train;
    }
  }

  /** The queue with those the round refused taken out of the line. */
  function Thinned(e: Env, q: Queue): Queue {
    var s := Offer(e, q);
    q.(waiting := Changes(s.train) + q.waiting[s.seen..], rejected := q.rejected + s.rejects)
  }

  lemma {:induction false} LinesMeet(front: seq<Place>, back: seq<Place>, taken: seq<Change>, told: seq<(Change, Rejection)>, seen: nat,
                                     w: seq<Change>, n: nat)
    requires LineOf(front, taken, told, seen, w, n) && Whole(back) == w[n..] && Staying(back) == w[n..] && Notices(back) == []
    ensures Whole(front + back) == w && Staying(front + back) == taken + w[seen..] && Notices(front + back) == told
  {
    StayingAppend(front, back);
    NoticesAppend(front, back);
    ThreeParts(taken, w, seen, n);
    assert Whole(front + back) == Whole(front) + Whole(back);
    assert told + [] == told;
  }

  lemma {:induction false} RoundLineShape(e: Env, q: Queue)
    ensures Apart(q, Thinned(e, q), RoundLine(e, q)) && Notices(RoundLine(e, q)) == Offer(e, q).rejects
  {
    var take, s := Take(q), Offer(e, q);
    PlacesShape(e, q.landed, q.base, q.waiting, take);
    PlainLine(q.waiting[take..]);
    LinesMeet(Places(e, q.landed, q.base, q.waiting[..take]), Plain(q.waiting[take..]), Changes(s.train), s.rejects, s.seen, q.waiting, take);
  }

  lemma {:induction false} ExtendTellsTruly(e: Env, landed: set<string>, s: Speculated, c: Change)
    ensures var p := PlaceOf(e, landed, s, c);
      p.told.Some? ==> IsRefusal(p.told.value) && (p.told.value.AlreadyLanded? ==> e.identity(c) in landed)
  {
  }

  lemma {:induction false} RoundTellsTruly(e: Env, landed: set<string>, base: State, w: seq<Change>, n: nat)
    requires n <= |w|
    ensures Truthful(e, landed, Places(e, landed, base, w[..n]))
  {
    if n > 0 {
      RoundTellsTruly(e, landed, base, w, n - 1);
      OfferOneMore(e, landed, base, w, n);
      ExtendTellsTruly(e, landed, Speculate(e, landed, base, w[..n - 1]), w[n - 1]);
    }
  }

  lemma {:induction false} PlainIsTrue(e: Env, landed: set<string>, w: seq<Change>)
    ensures Truthful(e, landed, Plain(w))
  {
    if w != [] {
      PlainIsTrue(e, landed, w[..|w| - 1]);
    }
  }

  lemma {:induction false} LineIsTrue(e: Env, q: Queue)
    ensures Truthful(e, q.landed, RoundLine(e, q))
  {
    RoundTellsTruly(e, q.landed, q.base, q.waiting, Take(q));
    PlainIsTrue(e, q.landed, q.waiting[Take(q)..]);
  }

  // ---- the train, one member at a time ---------------------------------------------------------------

  function Identities(e: Env, train: seq<Member>): set<string> {
    if train == [] then {} else Identities(e, train[..|train| - 1]) + {e.identity(train[|train| - 1].change)}
  }

  /** The queue after the first `i` members landed. */
  function Ahead(e: Env, told: Queue, train: seq<Member>, i: nat, rest: seq<Change>): Queue
    requires i <= |train|
  {
    told.(base := StateBefore(told.base, train, i), landed := told.landed + Identities(e, train[..i]),
          merged := told.merged + Changes(train[..i]), waiting := Changes(train[i..]) + rest)
  }

  /** What building a train makes of it. */
  ghost predicate WellLinked(e: Env, landed: set<string>, base: State, train: seq<Member>) {
    && (forall k :: 0 <= k < |train| ==> MemberOk(e, base, train, k))
    && (forall k :: 0 <= k < |train| ==> e.identity(train[k].change) !in landed)
  }

  lemma {:induction false} OfferIsLinked(e: Env, landed: set<string>, base: State, offered: seq<Change>)
    ensures WellLinked(e, landed, base, Speculate(e, landed, base, offered).train)
  {
    TrainIsLinked(e, landed, base, offered);
    MembersAreNew(e, landed, base, offered);
  }

  lemma {:induction false} MembersAreNew(e: Env, landed: set<string>, base: State, offered: seq<Change>)
    ensures forall k :: 0 <= k < |Speculate(e, landed, base, offered).train| ==>
              e.identity(Speculate(e, landed, base, offered).train[k].change) !in landed
  {
    if offered != [] {
      MembersAreNew(e, landed, base, offered[..|offered| - 1]);
    }
  }

  lemma {:induction false} NotAmong(e: Env, train: seq<Member>, i: nat, n: nat)
    requires i < n <= |train| && AllDiffer(e, train, n)
    ensures e.identity(train[i].change) !in Identities(e, train[..i])
  {
    IdentitiesOf(e, train, i);
  }

  lemma {:induction false} IdentitiesOf(e: Env, train: seq<Member>, i: nat)
    requires i <= |train|
    ensures forall x :: x in Identities(e, train[..i]) <==> exists j :: 0 <= j < i && e.identity(train[j].change) == x
  {
    if i > 0 {
      IdentitiesOf(e, train, i - 1);
      assert train[..i][..i - 1] == train[..i - 1];
    }
  }

  lemma {:induction false} FirstOf(train: seq<Member>, i: nat, rest: seq<Change>)
    requires i < |train|
    ensures Changes(train[i..]) + rest == [train[i].change] + (Changes(train[i + 1..]) + rest)
    ensures Changes(train[..i + 1]) == Changes(train[..i]) + [train[i].change]
  {
    ChangesSplit(train[i..], 1);
    assert train[i..][..1] == [train[i]] && train[i..][1..] == train[i + 1..] && [train[i]][..0] == [];
    assert train[..i + 1][..i] == train[..i];
  }

  lemma {:induction false} MemberLands(e: Env, told: Queue, train: seq<Member>, i: nat, rest: seq<Change>)
    requires i < FirstStop(e, train) && !told.stalled && WellLinked(e, told.landed, told.base, train)
    requires e.answers(train[i]) && e.identity(train[i].change) !in Identities(e, train[..i])
    ensures SerialStep(e, Ahead(e, told, train, i, rest)) == Ahead(e, told, train, i + 1, rest)
  {
    var q := Ahead(e, told, train, i, rest);
    FirstOf(train, i, rest);
    assert MemberOk(e, told.base, train, i);
    assert q.waiting[0] == train[i].change && q.waiting[1..] == Changes(train[i + 1..]) + rest;
    assert Trial(e, train[i].change, q.base) == Passed;
    assert train[..i + 1][..i] == train[..i];
    assert told.merged + (Changes(train[..i]) + [train[i].change]) == told.merged + Changes(train[..i]) + [train[i].change];
    assert told.landed + (Identities(e, train[..i]) + {e.identity(train[i].change)}) ==
           told.landed + Identities(e, train[..i]) + {e.identity(train[i].change)};
  }

  lemma {:induction false} PrefixLands(e: Env, told: Queue, train: seq<Member>, i: nat, rest: seq<Change>)
    requires i <= FirstStop(e, train) && !told.stalled && WellLinked(e, told.landed, told.base, train)
    requires told.waiting == Changes(train) + rest && Answered(e, train) && AllDiffer(e, train, i)
    ensures SerialSteps(e, told, i) == Ahead(e, told, train, i, rest)
  {
    if i == 0 {
      assert train[..0] == [] && train[0..] == train;
      assert told.merged + [] == told.merged && told.landed + {} == told.landed;
    } else {
      PrefixLands(e, told, train, i - 1, rest);
      NotAmong(e, train, i - 1, i);
      MemberLands(e, told, train, i - 1, rest);
    }
  }

  lemma {:induction false} LandIdentities(e: Env, q: Queue, prefix: seq<Member>)
    ensures Land(e, q, prefix).landed == q.landed + Identities(e, prefix)
  {
    if prefix != [] {
      LandIdentities(e, q, prefix[..|prefix| - 1]);
    }
  }

  lemma {:induction false} LandIsAhead(e: Env, told: Queue, train: seq<Member>, i: nat, rest: seq<Change>)
    requires i <= |train|
    ensures Alongside(Land(e, told, train[..i]).(waiting := Changes(train[i..]) + rest), Ahead(e, told, train, i, rest))
    ensures Land(e, told, train[..i]).rejected == told.rejected
  {
    LandShape(e, told, train[..i]);
    LandIdentities(e, told, train[..i]);
  }

  // ---- an eviction does not care how much was speculated ----------------------------------------------

  lemma {:induction false} ReversedIsSame(cands: seq<Change>, ids: set<nat>, on: nat)
    ensures multiset(EjectionsReversed(cands, ids, on)) == multiset(Ejections(cands, ids, on))
  {
    if cands != [] {
      ReversedIsSame(cands[..|cands| - 1], ids, on);
    }
  }

  lemma {:induction false} SameBag<T>(x: seq<T>, a: seq<T>, b: seq<T>, c: seq<T>, all: seq<T>)
    requires multiset(a) == multiset(b) && all == b + c
    ensures multiset(x + a + c) == multiset(x + [] + all)
  {
  }

  /** Taking a train apart from its end, or never having built it, ejects and keeps the same. */
  lemma {:induction false} EvictUnspeculated(a: Queue, b: Queue, failed: Change, behind: seq<Change>, rest: seq<Change>)
    requires a.rejected == b.rejected && a.base == b.base && a.merged == b.merged && a.landed == b.landed && a.stalled == b.stalled
    ensures Same(Evict(a, failed, behind, rest), Evict(b, failed, [], behind + rest))
  {
    var ids, blamed := Closure(behind + rest, {failed.id}), a.rejected + [(failed, CiFailure)];
    assert [] + (behind + rest) == behind + rest;
    if ids != {failed.id} {
      KeptAppend(behind, rest, ids);
      EjectionsAppend(behind, rest, ids, failed.id);
      ReversedIsSame(behind, ids, failed.id);
      SameBag(blamed, EjectionsReversed(behind, ids, failed.id), Ejections(behind, ids, failed.id),
              Ejections(rest, ids, failed.id), Ejections(behind + rest, ids, failed.id));
      assert [] + Kept(behind + rest, ids) == Kept(behind + rest, ids);
    }
  }

  lemma {:induction false} StopIsSerial(e: Env, told: Queue, train: seq<Member>, rest: seq<Change>)
    requires var i := FirstStop(e, train);
      i < |train| && e.answers(train[i]) && e.identity(train[i].change) !in Identities(e, train[..i])
    requires !told.stalled && WellLinked(e, told.landed, told.base, train)
    ensures Same(Settle(e, told, train, rest), SerialStep(e, Ahead(e, told, train, FirstStop(e, train), rest)))
  {
    var i := FirstStop(e, train);
    LandIsAhead(e, told, train, i, rest);
    FirstOf(train, i, rest);
    assert MemberOk(e, told.base, train, i);
    AtTheStop(e, Land(e, told, train[..i]), Ahead(e, told, train, i, rest), train[i], Changes(train[i + 1..]), rest, Changes(train[i..]));
  }

  /** A member that does not land, on a round's way and on the one-at-a-time way. */
  lemma {:induction false} AtTheStop(e: Env, green: Queue, ahead: Queue, m: Member, behind: seq<Change>, rest: seq<Change>, all: seq<Change>)
    requires Alongside(green.(waiting := ahead.waiting), ahead) && green.rejected == ahead.rejected && !green.stalled
    requires ahead.waiting == [m.change] + (behind + rest) && all + rest == ahead.waiting
    requires e.step(m.change, ahead.base) == Advanced(m.state) && e.answers(m) && e.identity(m.change) !in ahead.landed
    requires Decision(e, m) != Passed
    ensures Same(if Decision(e, m) == Inconclusive then green.(waiting := all + rest, stalled := true) else Evict(green, m.change, behind, rest),
                 SerialStep(e, ahead))
  {
    assert ahead.waiting[0] == m.change && ahead.waiting[1..] == behind + rest;
    assert Refusal(e, m.change, ahead).None? && Trial(e, m.change, ahead.base) == Decision(e, m);
    if Decision(e, m) == Failed {
      EvictUnspeculated(green, ahead, m.change, behind, rest);
    }
  }

  /** Settling a train is so many one-at-a-time steps. */
  lemma {:induction false} SettleIsSerial(e: Env, told: Queue, train: seq<Member>, rest: seq<Change>)
    requires !told.stalled && WellLinked(e, told.landed, told.base, train)
    requires told.waiting == Changes(train) + rest && Answered(e, train) && NoTwinsLand(e, train)
    ensures Same(SerialDrain(e, Settle(e, told, train, rest)), SerialDrain(e, told))
  {
    var i := FirstStop(e, train);
    PrefixLands(e, told, train, i, rest);
    StepsThenDrain(e, told, i);
    if i == |train| {
      AllLanded(e, told, train, rest);
      SameDrains(e, Settle(e, told, train, rest), Ahead(e, told, train, i, rest));
    } else {
      NotAmong(e, train, i, i + 1);
      StopIsSerial(e, told, train, rest);
      SameDrains(e, Settle(e, told, train, rest), SerialStep(e, Ahead(e, told, train, i, rest)));
      StepsThenDrain(e, Ahead(e, told, train, i, rest), 1);
    }
  }

  lemma {:induction false} AllLanded(e: Env, told: Queue, train: seq<Member>, rest: seq<Change>)
    requires FirstStop(e, train) == |train|
    ensures Same(Settle(e, told, train, rest), Ahead(e, told, train, |train|, rest))
  {
    LandIsAhead(e, told, train, |train|, rest);
    assert train[|train|..] == [] && [] + rest == rest;
  }
}
