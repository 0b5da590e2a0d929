/** What it does to the one-at-a-time queue when some of its changes are told no ahead of their turn and
    taken out of the line, as a round does with those it cannot put on its train. */
module Withheld {
  import opened Basics
  import opened MergeQueue
  import opened MergeQueueProofs
  import opened Serial

  /** A place in the line: a change, and why it is told no ahead of its turn if it is. */
  datatype Place = Place(change: Change, told: Option<Rejection>)

  function Whole(line: seq<Place>): (w: seq<Change>)
    ensures |w| == |line| && forall i :: 0 <= i < |w| ==> w[i] == line[i].change
  {
    seq(|line|, i requires 0 <= i < |line| => line[i].change)
  }

  /** The changes that stay in the line. */
  function Staying(line: seq<Place>): (w: seq<Change>)
    ensures |w| + |Notices(line)| == |line|
  {
    if line == [] then []
    else
      var p, before := line[|line| - 1], Staying(line[..|line| - 1]);
      if p.told.None? then before + [p.change] else before
  }

  /** What the others are told. */
  function Notices(line: seq<Place>): seq<(Change, Rejection)> {
    if line == [] then []
    else
      var p, before := line[|line| - 1], Notices(line[..|line| - 1]);
      if p.told.None? then before else before + [(p.change, p.told.value)]
  }

  lemma {:induction false} LastOfLine(line: seq<Place>, p: Place)
    ensures Whole(line + [p]) == Whole(line) + [p.change]
    ensures Staying(line + [p]) == if p.told.None? then Staying(line) + [p.change] else Staying(line)
    ensures Notices(line + [p]) == if p.told.None? then Notices(line) else Notices(line) + [(p.change, p.told.value)]
  {
    assert (line + [p])[..|line|] == line;
  }

  lemma {:induction false} OneInLine(p: Place)
    ensures Staying([p]) == if p.told.None? then [p.change] else []
    ensures Notices([p]) == if p.told.None? then [] else [(p.change, p.told.value)]
  {
    assert [p][..0] == [];
  }

  lemma {:induction false} StayingAppend(a: seq<Place>, b: seq<Place>)
    ensures Staying(a + b) == Staying(a) + Staying(b)
  {
    if b == [] {
      assert a + b == a;
    } else {
      var before, p := b[..|b| - 1], b[|b| - 1];
      assert a + b == (a + before) + [p] && b == before + [p];
      StayingAppend(a, before);
      LastOfLine(a + before, p);
      LastOfLine(before, p);
    }
  }

  lemma {:induction false} NoticesAppend(a: seq<Place>, b: seq<Place>)
    ensures Notices(a + b) == Notices(a) + Notices(b)
  {
    if b == [] {
      assert a + b == a;
    } else {
      var before, p := b[..|b| - 1], b[|b| - 1];
      assert a + b == (a + before) + [p] && b == before + [p];
      NoticesAppend(a, before);
      LastOfLine(a + before, p);
      LastOfLine(before, p);
    }
  }

  lemma {:induction false} HeadOfLine(line: seq<Place>)
    requires line != []
    ensures var p, rest := line[0], line[1..];
      && Whole(line)[0] == p.change && Whole(line)[1..] == Whole(rest)
      && Staying(line) == (if p.told.None? then [p.change] + Staying(rest) else Staying(rest))
      && Notices(line) == (if p.told.None? then Notices(rest) else [(p.change, p.told.value)] + Notices(rest))
  {
    assert line == [line[0]] + line[1..];
    assert [] + Staying(line[1..]) == Staying(line[1..]) && [] + Notices(line[1..]) == Notices(line[1..]);
    StayingAppend([line[0]], line[1..]);
    NoticesAppend([line[0]], line[1..]);
    OneInLine(line[0]);
  }

  lemma {:induction false} NobodyTold(line: seq<Place>)
    requires Notices(line) == []
    ensures Staying(line) == Whole(line)
  {
    if line != [] {
      var before, p := line[..|line| - 1], line[|line| - 1];
      assert line == before + [p];
      LastOfLine(before, p);
      NobodyTold(before);
    }
  }

  lemma {:induction false} TellLine(line: seq<Place>, i: nat)
    requires i < |line| && line[i].told.Some?
    ensures (line[i].change, line[i].told.value) in Notices(line)
  {
    var n := |line| - 1;
    if i < n {
      TellLine(line[..n], i);
    }
  }

  // ---- an eviction from the line ---------------------------------------------------------------

  function Remaining(line: seq<Place>, gone: set<nat>): (r: seq<Place>)
    ensures |r| <= |line| && forall p :: p in r ==> p in line && p.change.id !in gone
  {
    if line == [] then []
    else
      var p, before := line[|line| - 1], Remaining(line[..|line| - 1], gone);
      if p.change.id in gone then before else before + [p]
  }

  /** No change that was told no goes. */
  predicate Spared(line: seq<Place>, gone: set<nat>) {
    forall i :: 0 <= i < |line| && line[i].told.Some? ==> line[i].change.id !in gone
  }

  lemma {:induction false} RemainingLast(line: seq<Place>, p: Place, gone: set<nat>)
    ensures Remaining(line + [p], gone) == if p.change.id in gone then Remaining(line, gone) else Remaining(line, gone) + [p]
  {
    assert (line + [p])[..|line|] == line;
  }

  lemma {:induction false} KeptLastOne(cands: seq<Change>, c: Change, ids: set<nat>, on: nat)
    ensures Kept(cands + [c], ids) == if c.id in ids then Kept(cands, ids) else Kept(cands, ids) + [c]
    ensures Ejections(cands + [c], ids, on) ==
            if c.id in ids then Ejections(cands, ids, on) + [(c, DependencyEjection(on))] else Ejections(cands, ids, on)
  {
    assert (cands + [c])[..|cands|] == cands;
  }

  lemma {:induction false} RemainingWhole(line: seq<Place>, gone: set<nat>, on: nat)
    ensures Whole(Remaining(line, gone)) == Kept(Whole(line), gone)
  {
    if line != [] {
      var before, p := line[..|line| - 1], line[|line| - 1];
      assert line == before + [p];
      RemainingWhole(before, gone, on);
      RemainingLast(before, p, gone);
      LastOfLine(before, p);
      LastOfLine(Remaining(before, gone), p);
      KeptLastOne(Whole(before), p.change, gone, on);
    }
  }

  lemma {:induction false} RemainingNotices(line: seq<Place>, gone: set<nat>)
    requires Spared(line, gone)
    ensures Notices(Remaining(line, gone)) == Notices(line)
  {
    if line != [] {
      var before, p := line[..|line| - 1], line[|line| - 1];
      assert line == before + [p];
      RemainingNotices(before, gone);
      RemainingLast(before, p, gone);
      LastOfLine(before, p);
      LastOfLine(Remaining(before, gone), p);
    }
  }

  lemma {:induction false} RemainingStaying(line: seq<Place>, gone: set<nat>, on: nat)
    requires Spared(line, gone)
    ensures Staying(Remaining(line, gone)) == Kept(Staying(line), gone)
  {
    if line != [] {
      var before, p := line[..|line| - 1], line[|line| - 1];
      assert line == before + [p];
      RemainingStaying(before, gone, on);
      RemainingLast(before, p, gone);
      LastOfLine(before, p);
      LastOfLine(Remaining(before, gone), p);
      KeptLastOne(Staying(before), p.change, gone, on);
    }
  }

  /** When everyone told no is spared, the same changes are ejected with them in the line and without. */
  lemma {:induction false} SameEjections(line: seq<Place>, gone: set<nat>, on: nat)
    requires Spared(line, gone)
    ensures Ejections(Staying(line), gone, on) == Ejections(Whole(line), gone, on)
  {
    if line != [] {
      var before, p := line[..|line| - 1], line[|line| - 1];
      assert line == before + [p];
      SameEjections(before, gone, on);
      LastOfLine(before, p);
      KeptLastOne(Whole(before), p.change, gone, on);
      KeptLastOne(Staying(before), p.change, gone, on);
    }
  }

  lemma {:induction false} InLine(line: seq<Place>)
    ensures forall c :: c in Staying(line) ==> c in Whole(line)
    ensures forall c :: c in Whole(line) && c !in Staying(line) ==> exists i :: 0 <= i < |line| && line[i].told.Some? && line[i].change == c
  {
    if line != [] {
      var before, p := line[..|line| - 1], line[|line| - 1];
      assert line == before + [p];
      InLine(before);
      LastOfLine(before, p);
    }
  }

  /** When everyone told no is spared, a failure takes down the same ids with them and without. */
  lemma {:induction false} SameGone(line: seq<Place>, c: Change)
    requires Spared(line, Gone(Whole(line), c))
    ensures Gone(Staying(line), c) == Gone(Whole(line), c)
  {
    var all, some := Closure(Whole(line), {c.id}), Closure(Staying(line), {c.id});
    InLine(line);
    assert ClosedUnder(Staying(line), all);
    ClosureIsLeast(Staying(line), {c.id}, all);
    if all != {c.id} {
      ClosedWithout(line, all, some);
      ClosureIsLeast(Whole(line), {c.id}, some);
    }
  }

  lemma {:induction false} ClosedWithout(line: seq<Place>, all: set<nat>, some: set<nat>)
    requires Spared(line, all) && some <= all && ClosedUnder(Staying(line), some) && ClosedUnder(Whole(line), all)
    ensures ClosedUnder(Whole(line), some)
  {
    InLine(line);
    forall c | c in Whole(line) && DependsOn(c, some)
      ensures c.id in some
    {
      assert DependsOn(c, all);
      assert c.id in all;
    }
  }

  lemma {:induction false} NobodyRemoved(line: seq<Place>)
    ensures Remaining(line, {}) == line
  {
    if line != [] {
      NobodyRemoved(line[..|line| - 1]);
    }
  }

  // ---- what the one-at-a-time queue says of those told no ---------------------------------------

  /** What is left of the line once its head has had its turn. */
  function Next(e: Env, q: Queue, line: seq<Place>): (r: seq<Place>)
    requires line != []
    ensures |r| < |line|
  {
    var c, behind := line[0].change, line[1..];
    if Refusal(e, c, q).None? && Trial(e, c, q.base) == Failed then Remaining(behind, Gone(Whole(behind), c)) else behind
  }

  /** The turn of the head tells someone told no apart from the others for good: it is landed, it or
      what depends on it is ejected, or the queue stops with it still there. */
  predicate Parted(e: Env, q: Queue, line: seq<Place>)
    requires line != []
  {
    var p, behind := line[0], line[1..];
    && Refusal(e, p.change, q).None?
    && match Trial(e, p.change, q.base)
       case Inconclusive => true
       case Passed => p.told.Some?
       case Failed => var gone := Gone(Whole(behind), p.change); !Spared(behind, gone) || (p.told.Some? && gone != {})
  }

  /** What the head is rejected for, if it is. */
  function Answer(e: Env, q: Queue, c: Change): Rejection {
    var why := Refusal(e, c, q);
    if why.Some? then why.value else CiFailure
  }

  function Note(p: Place, why: Rejection, rest: Option<seq<(Change, Rejection)>>): Option<seq<(Change, Rejection)>> {
    if p.told.None? || rest.None? then rest else Some([(p.change, why)] + rest.value)
  }

  /** What the one-at-a-time queue, with the whole line waiting, rejects those told no for; nothing
      when one of them lands, is ejected, ejects others, or never has its turn. */
  function Heard(e: Env, q: Queue, line: seq<Place>): (h: Option<seq<(Change, Rejection)>>)
    decreases |line|
  {
    if Notices(line) == [] then Some([])
    else if q.stalled || Parted(e, q, line) then None
    else Note(line[0], Answer(e, q, line[0].change), Heard(e, SerialStep(e, q.(waiting := Whole(line))), Next(e, q, line)))
  }

  /** `a` waits with the whole line, `b` without those told no. */
  ghost predicate Apart(a: Queue, b: Queue, line: seq<Place>) {
    a.waiting == Whole(line) && Alongside(a.(waiting := Staying(line)), b)
  }

  lemma {:induction false} FailsAlone(q: Queue, c: Change, rest: seq<Change>)
    requires Gone(rest, c) == {}
    ensures Alongside(Evict(q, c, [], rest), q.(waiting := rest))
    ensures [(c, CiFailure)] + Ejections(rest, Gone(rest, c), c.id) == [(c, CiFailure)]
  {
    EvictedHead(q, c, rest);
    NobodyGone(rest, c.id);
  }

  lemma {:induction false} ToldAnswer(e: Env, q: Queue, c: Change, rest: seq<Change>)
    requires !q.stalled && q.waiting != [] && q.waiting[0] == c && q.waiting[1..] == rest
    requires Refusal(e, c, q).Some? || (Trial(e, c, q.base) == Failed && Gone(rest, c) == {})
    ensures Alongside(SerialStep(e, q), q.(waiting := rest)) && StepLog(e, q) == [(c, Answer(e, q, c))]
  {
    if Refusal(e, c, q).None? {
      FailsAlone(q, c, rest);
    }
  }

  /** The turn of someone told no. */
  lemma {:induction false} ToldTurn(e: Env, a: Queue, b: Queue, line: seq<Place>)
    requires Apart(a, b, line) && line != [] && line[0].told.Some? && !a.stalled && !Parted(e, a, line)
    ensures Apart(SerialStep(e, a), b, Next(e, a, line))
    ensures StepLog(e, a) == [(line[0].change, Answer(e, a, line[0].change))]
    ensures Notices(line) == [(line[0].change, line[0].told.value)] + Notices(Next(e, a, line))
  {
    HeadOfLine(line);
    NobodyRemoved(line[1..]);
    ToldAnswer(e, a, line[0].change, Whole(line[1..]));
  }

  lemma {:induction false} UntoldFailure(e: Env, a: Queue, b: Queue, c: Change, behind: seq<Place>)
    requires !a.stalled && a.waiting == [c] + Whole(behind) && Alongside(a.(waiting := [c] + Staying(behind)), b)
    requires Refusal(e, c, a).None? && Trial(e, c, a.base) == Failed && Spared(behind, Gone(Whole(behind), c))
    ensures Apart(SerialStep(e, a), SerialStep(e, b), Remaining(behind, Gone(Whole(behind), c)))
    ensures StepLog(e, a) == StepLog(e, b)
  {
    var gone := Gone(Whole(behind), c);
    FailedStep(e, a, c, Whole(behind));
    FailedStep(e, b, c, Staying(behind));
    SameGone(behind, c);
    RemainingWhole(behind, gone, c.id);
    RemainingStaying(behind, gone, c.id);
    SameEjections(behind, gone, c.id);
  }

  lemma {:induction false} FailedStep(e: Env, q: Queue, c: Change, rest: seq<Change>)
    requires !q.stalled && q.waiting == [c] + rest && Refusal(e, c, q).None? && Trial(e, c, q.base) == Failed
    ensures Alongside(SerialStep(e, q), q.(waiting := Kept(rest, Gone(rest, c))))
    ensures StepLog(e, q) == [(c, CiFailure)] + Ejections(rest, Gone(rest, c), c.id)
  {
    assert q.waiting[1..] == rest;
    EvictedHead(q, c, rest);
  }

  lemma {:induction false} UntoldPass(e: Env, a: Queue, b: Queue, c: Change, behind: seq<Place>)
    requires !a.stalled && a.waiting == [c] + Whole(behind) && Alongside(a.(waiting := [c] + Staying(behind)), b)
    requires Refusal(e, c, a).Some? || Trial(e, c, a.base) == Passed
    ensures Apart(SerialStep(e, a), SerialStep(e, b), behind) && StepLog(e, a) == StepLog(e, b)
  {
    assert a.waiting[1..] == Whole(behind) && b.waiting[1..] == Staying(behind);
  }

  /** The turn of someone who stayed in the line. */
  lemma {:induction false} UntoldTurn(e: Env, a: Queue, b: Queue, line: seq<Place>)
    requires Apart(a, b, line) && line != [] && line[0].told.None? && !a.stalled && !Parted(e, a, line)
    ensures Apart(SerialStep(e, a), SerialStep(e, b), Next(e, a, line))
    ensures StepLog(e, a) == StepLog(e, b)
    ensures Notices(line) == Notices(Next(e, a, line))
  {
    var c, behind := line[0].change, line[1..];
    HeadOfLine(line);
    assert Whole(line) == [c] + Whole(behind);
    if Refusal(e, c, a).None? && Trial(e, c, a.base) == Failed {
      UntoldFailure(e, a, b, c, behind);
      RemainingNotices(behind, Gone(Whole(behind), c));
    } else {
      UntoldPass(e, a, b, c, behind);
    }
  }

  // ---- those told no are heard -------------------------------------------------------------------

  /** What `a` gains over `b` on its way from one state to another. */
  ghost predicate GainsMore<T>(a: seq<T>, a': seq<T>, b: seq<T>, b': seq<T>, more: seq<T>) {
    multiset(a') + multiset(b) == multiset(b') + multiset(a) + multiset(more)
  }

  lemma {:induction false} GainsAfterTurn<T>(a: seq<T>, a': seq<T>, a'': seq<T>, b: seq<T>, b': seq<T>, b'': seq<T>,
                                             g: seq<T>, h: seq<T>, x: seq<T>, more: seq<T>)
    requires a' == a + g + x && b' == b + g && GainsMore(a', a'', b', b'', more) && h == x + more
    ensures GainsMore(a, a'', b, b'', h)
  {
    forall r
      ensures multiset(a'')[r] + multiset(b)[r] == multiset(b'')[r] + multiset(a)[r] + multiset(h)[r]
    {
      assert (multiset(a'') + multiset(b'))[r] == (multiset(b'') + multiset(a') + multiset(more))[r];
      assert multiset(a + g + x)[r] == multiset(a)[r] + multiset(g)[r] + multiset(x)[r];
      assert multiset(b + g)[r] == multiset(b)[r] + multiset(g)[r];
      assert multiset(x + more)[r] == multiset(x)[r] + multiset(more)[r];
    }
  }

  lemma {:induction false} NobodyApart(e: Env, a: Queue, b: Queue, line: seq<Place>)
    requires Apart(a, b, line) && Notices(line) == []
    ensures Alongside(SerialDrain(e, a), SerialDrain(e, b))
    ensures GainsMore(a.rejected, SerialDrain(e, a).rejected, b.rejected, SerialDrain(e, b).rejected, [])
  {
    NobodyTold(line);
    DrainAlongside(e, a, b);
  }

  /** When each of those told no has its hearing, the others fare the same with them in the line and
      without, and the rejections differ only by what those told no hear. */
  lemma {:induction false} HeardAlike(e: Env, a: Queue, b: Queue, line: seq<Place>)
    requires Apart(a, b, line) && Heard(e, a, line).Some?
    ensures Alongside(SerialDrain(e, a), SerialDrain(e, b))
    ensures GainsMore(a.rejected, SerialDrain(e, a).rejected, b.rejected, SerialDrain(e, b).rejected, Heard(e, a, line).value)
    decreases |line|
  {
    if Notices(line) == [] {
      NobodyApart(e, a, b, line);
    } else {
      var a', rest := SerialStep(e, a), Next(e, a, line);
      assert a.(waiting := Whole(line)) == a;
      StepLogs(e, a);
      if line[0].told.Some? {
        ToldTurn(e, a, b, line);
        HeardAlike(e, a', b, rest);
        assert a.rejected + [] == a.rejected && b.rejected + [] == b.rejected;
        GainsAfterTurn(a.rejected, a'.rejected, SerialDrain(e, a).rejected, b.rejected, b.rejected, SerialDrain(e, b).rejected,
                       [], Heard(e, a, line).value, StepLog(e, a), Heard(e, a', rest).value);
      } else {
        var b' := SerialStep(e, b);
        UntoldTurn(e, a, b, line);
        StepLogs(e, b);
        HeardAlike(e, a', b', rest);
        assert a'.rejected + [] == a'.rejected && [] + Heard(e, a', rest).value == Heard(e, a', rest).value;
        GainsAfterTurn(a.rejected, a'.rejected, SerialDrain(e, a).rejected, b.rejected, b'.rejected, SerialDrain(e, b).rejected,
                       StepLog(e, a), Heard(e, a, line).value, [], Heard(e, a', rest).value);
      }
    }
  }

  // ---- those told no are not heard ---------------------------------------------------------------

  /** Those told no were told as a round tells them: refused, and as landed only when they had. */
  predicate Truthful(e: Env, landed: set<string>, line: seq<Place>) {
    forall p :: p in line && p.told.Some? ==> IsRefusal(p.told.value) && (p.told.value.AlreadyLanded? ==> e.identity(p.change) in landed)
  }

  /** `x` is refused, or judged, more often by what was told than by the queue that has everyone wait. */
  ghost predicate Shortchanged(x: Change, t: Tally, a: Queue, a': Queue, b: Queue, b': Queue, line: seq<Place>) {
    Count(x, a'.rejected, t) + Count(x, b.rejected, t) < Count(x, b'.rejected, t) + Count(x, a.rejected, t) + Count(x, Notices(line), t)
  }

  lemma {:induction false} ToldCounts(x: Change, line: seq<Place>, i: nat, t: Tally)
    requires i < |line| && line[i].change == x && line[i].told.Some?
    requires line[i].told.value.MergeConflict? || line[i].told.value.SafetyViolation? || (t.Refusals? && line[i].told.value.AlreadyLanded?)
    ensures Count(x, Notices(line), t) >= 1
  {
    TellLine(line, i);
    assert (x, line[i].told.value) in multiset(Notices(line));
  }

  /** Nothing more is ever said of `x` on one side, and it was told no on the other. */
  lemma {:induction false} ShortchangedNow(e: Env, x: Change, t: Tally, a: Queue, a': Queue, b: Queue, line: seq<Place>)
    requires Count(x, SerialDrain(e, a').rejected, t) == Count(x, a.rejected, t) && Count(x, Notices(line), t) >= 1
    requires SerialDrain(e, a) == SerialDrain(e, a')
    ensures Shortchanged(x, t, a, SerialDrain(e, a), b, SerialDrain(e, b), line)
  {
    DrainGrows(e, b);
    var more := SerialDrain(e, b).rejected[|b.rejected|..];
    assert SerialDrain(e, b).rejected == b.rejected + more;
    CountAppend(x, b.rejected, more, t);
  }

  lemma {:induction false} TestsRefuseNobody(e: Env, q: Queue, x: Change)
    requires !q.stalled && q.waiting != [] && Refusal(e, q.waiting[0], q).None?
    ensures Count(x, SerialStep(e, q).rejected, Refusals) == Count(x, q.rejected, Refusals)
  {
    var c, rest := q.waiting[0], q.waiting[1..];
    StepCount(e, q, x, Refusals);
    CountAppend(x, [(c, CiFailure)], Ejections(rest, Gone(rest, c), c.id), Refusals);
    CountOne(x, (c, CiFailure), Refusals);
    EjectionsCountNothing(x, rest, Gone(rest, c), c.id, Refusals);
  }

  /** Someone told no who goes when the head fails. */
  lemma {:induction false} GoneUnheard(e: Env, a: Queue, b: Queue, line: seq<Place>, i: nat)
    requires Apart(a, b, line) && i < |line| && line[i].told.Some? && IsRefusal(line[i].told.value) && !a.stalled
    requires Refusal(e, line[0].change, a).None? && Trial(e, line[0].change, a.base) == Failed
    requires line[i].change.id in Gone(Whole(line[1..]), line[0].change)
    ensures Shortchanged(line[i].change, Refusals, a, SerialDrain(e, a), b, SerialDrain(e, b), line)
  {
    var x, c, rest := line[i].change, line[0].change, Whole(line[1..]);
    HeadOfLine(line);
    EvictedHead(a, c, rest);
    KeptAreCandidates(rest, Gone(rest, c));
    TestsRefuseNobody(e, a, x);
    AbsentIsSettled(e, SerialStep(e, a), x, Refusals);
    ToldCounts(x, line, i, Refusals);
    ShortchangedNow(e, x, Refusals, a, SerialStep(e, a), b, line);
  }

  /** Someone told no whom the queue that has everyone wait would land. */
  lemma {:induction false} LandedUnheard(e: Env, a: Queue, b: Queue, line: seq<Place>)
    requires Apart(a, b, line) && line != [] && line[0].told.Some? && !a.stalled && Truthful(e, a.landed, line)
    requires Refusal(e, line[0].change, a).None? && Trial(e, line[0].change, a.base) == Passed
    ensures Shortchanged(line[0].change, Judgements, a, SerialDrain(e, a), b, SerialDrain(e, b), line)
  {
    var x := line[0].change;
    assert line[0] in line;
    LandedIsSettled(e, SerialStep(e, a), x);
    ToldCounts(x, line, 0, Judgements);
    ShortchangedNow(e, x, Judgements, a, SerialStep(e, a), b, line);
  }

  lemma {:induction false} PartedTells(e: Env, a: Queue, b: Queue, line: seq<Place>) returns (x: Change, t: Tally)
    requires Apart(a, b, line) && Notices(line) != [] && !a.stalled && Parted(e, a, line) && Truthful(e, a.landed, line)
    ensures |SerialDrain(e, b).waiting| < |SerialDrain(e, a).waiting|
         || Shortchanged(x, t, a, SerialDrain(e, a), b, SerialDrain(e, b), line)
  {
    var c, behind := line[0].change, line[1..];
    x, t := c, Refusals;
    match Trial(e, c, a.base)
    case Inconclusive =>
      DrainGrows(e, b);
      assert SerialDrain(e, a) == a.(stalled := true);
    case Passed =>
      t := Judgements;
      LandedUnheard(e, a, b, line);
    case Failed =>
      if Spared(behind, Gone(Whole(behind), c)) {
        assert line[0] in line;
        GoneUnheard(e, a, b, line, 0);
      } else {
        var i :| 0 <= i < |behind| && behind[i].told.Some? && behind[i].change.id in Gone(Whole(behind), c);
        x := behind[i].change;
        assert line[i + 1] in line && line[i + 1] == behind[i];
        GoneUnheard(e, a, b, line, i + 1);
      }
  }

  lemma {:induction false} ToldNoLess(e: Env, q: Queue, p: Place, x: Change, t: Tally)
    requires p.told.Some? && IsRefusal(p.told.value) && (p.told.value.AlreadyLanded? ==> e.identity(p.change) in q.landed)
    ensures Count(x, [(p.change, Answer(e, q, p.change))], t) <= Count(x, [(p.change, p.told.value)], t)
  {
    CountOne(x, (p.change, Answer(e, q, p.change)), t);
    CountOne(x, (p.change, p.told.value), t);
  }

  lemma {:induction false} StillTruthful(e: Env, q: Queue, line: seq<Place>)
    requires line != [] && Truthful(e, q.landed, line)
    ensures Truthful(e, SerialStep(e, q).landed, Next(e, q, line))
  {
    StepGrows(e, q);
  }

  /** When one of those told no has no hearing, the outcome is another: somebody is told no who never
      would be, or the queue stops with more of them waiting. */
  lemma {:induction false} UnheardTells(e: Env, a: Queue, b: Queue, line: seq<Place>) returns (x: Change, t: Tally)
    requires Apart(a, b, line) && Heard(e, a, line).None? && Truthful(e, a.landed, line)
    ensures |SerialDrain(e, b).waiting| < |SerialDrain(e, a).waiting|
         || Shortchanged(x, t, a, SerialDrain(e, a), b, SerialDrain(e, b), line)
    decreases |line|
  {
    if a.stalled {
      x, t := line[0].change, Refusals;
    } else if Parted(e, a, line) {
      x, t := PartedTells(e, a, b, line);
    } else {
      var p, a', rest := line[0], SerialStep(e, a), Next(e, a, line);
      assert a.(waiting := Whole(line)) == a;
      StillTruthful(e, a, line);
      StepLogs(e, a);
      if p.told.Some? {
        ToldTurn(e, a, b, line);
        x, t := UnheardTells(e, a', b, rest);
        assert p in line;
        ToldNoLess(e, a, p, x, t);
        CountAppend(x, a.rejected, StepLog(e, a), t);
        CountAppend(x, [(p.change, p.told.value)], Notices(rest), t);
      } else {
        UntoldTurn(e, a, b, line);
        StepLogs(e, b);
        x, t := UnheardTells(e, a', SerialStep(e, b), rest);
        CountAppend(x, a.rejected, StepLog(e, a), t);
        CountAppend(x, b.rejected, StepLog(e, a), t);
      }
    }
  }

  // ---- when it makes no difference ------------------------------------------------------------------

  /** Each of those told no would be rejected in turn anyway, and all together for the same reasons. */
  predicate ToldAlike(e: Env, q: Queue, line: seq<Place>) {
    Heard(e, q, line).Some? && multiset(Heard(e, q, line).value) == multiset(Notices(line))
  }

  lemma {:induction false} EvenOnlyIf<T>(a: seq<T>, a': seq<T>, b: seq<T>, b': seq<T>, told: seq<T>, heard: seq<T>)
    requires GainsMore(a, a', b, b', heard) && b == a + told
    ensures multiset(a') == multiset(b') <==> multiset(heard) == multiset(told)
  {
    assert multiset(b) == multiset(a) + multiset(told);
    if multiset(a') == multiset(b') {
      forall r
        ensures multiset(heard)[r] == multiset(told)[r]
      {
        assert (multiset(a') + multiset(b))[r] == (multiset(b') + multiset(a) + multiset(heard))[r];
      }
    }
    if multiset(heard) == multiset(told) {
      forall r
        ensures multiset(a')[r] == multiset(b')[r]
      {
        assert (multiset(a') + multiset(b))[r] == (multiset(b') + multiset(a) + multiset(heard))[r];
      }
    }
  }

  /** Telling changes no ahead of their turn makes no difference to the one-at-a-time queue exactly
      when it would have told them the same. */
  lemma {:induction false} WithheldIsInvisible(e: Env, a: Queue, b: Queue, line: seq<Place>)
    requires Apart(a, b, line) && b.rejected == a.rejected + Notices(line) && Truthful(e, a.landed, line)
    ensures Same(SerialDrain(e, a), SerialDrain(e, b)) <==> ToldAlike(e, a, line)
  {
    var a', b' := SerialDrain(e, a), SerialDrain(e, b);
    if Heard(e, a, line).Some? {
      HeardAlike(e, a, b, line);
      EvenOnlyIf(a.rejected, a'.rejected, b.rejected, b'.rejected, Notices(line), Heard(e, a, line).value);
    } else {
      var x, t := UnheardTells(e, a, b, line);
      CountAppend(x, a.rejected, Notices(line), t);
      assert multiset(a'.rejected) == multiset(b'.rejected) ==> Count(x, a'.rejected, t) == Count(x, b'.rejected, t);
    }
  }

  // ---- a line in which no change stands twice -----------------------------------------------------

  ghost predicate Distinct(w: seq<Change>) {
    forall x :: Times(x, w) <= 1
  }

  lemma {:induction false} TimesZero(x: Change, w: seq<Change>)
    ensures Times(x, w) == 0 <==> x !in w
  {
    if w != [] {
      TimesZero(x, w[..|w| - 1]);
    }
  }

  lemma {:induction false} TimesHead(x: Change, c: Change, rest: seq<Change>)
    ensures Times(x, [c] + rest) == One(x, c) + Times(x, rest)
  {
    TimesAppend(x, [c], rest);
    assert [c][..0] == [];
  }

  lemma {:induction false} TimesKept(x: Change, cands: seq<Change>, ids: set<nat>)
    ensures Times(x, Kept(cands, ids)) <= Times(x, cands)
  {
    EjectedOrKept(x, cands, ids, 0);
  }

  /** After its turn the head no longer waits, unless it stalls the queue; of the others no more wait than before. */
  lemma {:induction false} TurnLeaves(e: Env, q: Queue, x: Change)
    requires q.waiting != [] && !q.stalled
    ensures var r := SerialStep(e, q); if r.stalled then r.waiting == q.waiting else Times(x, r.waiting) <= Times(x, q.waiting[1..])
  {
    var c, rest := q.waiting[0], q.waiting[1..];
    if Refusal(e, c, q).None? && Trial(e, c, q.base) == Failed {
      EvictedHead(q, c, rest);
      TimesKept(x, rest, Gone(rest, c));
    }
  }

  lemma {:induction false} DistinctRest(w: seq<Change>, x: Change)
    requires w != [] && Distinct(w)
    ensures Times(x, w[1..]) <= Times(x, w) <= 1 && Times(w[0], w[1..]) == 0
  {
    assert w == [w[0]] + w[1..];
    TimesHead(x, w[0], w[1..]);
    TimesHead(w[0], w[0], w[1..]);
    assert Times(x, w) <= 1 && Times(w[0], w) <= 1;
  }

  lemma {:induction false} DistinctTurn(e: Env, q: Queue)
    requires Distinct(q.waiting) && q.waiting != [] && !q.stalled
    ensures Distinct(SerialStep(e, q).waiting) && (!SerialStep(e, q).stalled ==> q.waiting[0] !in SerialStep(e, q).waiting)
  {
    var c, r := q.waiting[0], SerialStep(e, q);
    forall x
      ensures Times(x, r.waiting) <= 1
    {
      TurnLeaves(e, q, x);
      DistinctRest(q.waiting, x);
    }
    TurnLeaves(e, q, c);
    DistinctRest(q.waiting, c);
    TimesZero(c, r.waiting);
  }

  lemma {:induction false} NoticesOfWaiting(line: seq<Place>)
    ensures forall r :: r in Notices(line) ==> exists p :: p in line && p.told == Some(r.1) && p.change == r.0
  {
    if line != [] {
      NoticesOfWaiting(line[..|line| - 1]);
    }
  }

  /** Everyone told no is told the same again when everyone waits. */
  ghost predicate AllHeard(e: Env, q: Queue, line: seq<Place>) {
    forall r :: r in Notices(line) ==> multiset(SerialDrain(e, q).rejected)[r] > multiset(q.rejected)[r]
  }

  lemma {:induction false} GoneIsUnheard(e: Env, q: Queue, line: seq<Place>, i: nat)
    requires q.waiting == Whole(line) && !q.stalled && i < |line| && line[i].told.Some? && IsRefusal(line[i].told.value)
    requires Refusal(e, line[0].change, q).None? && Trial(e, line[0].change, q.base) == Failed
    requires line[i].change.id in Gone(Whole(line[1..]), line[0].change)
    ensures !AllHeard(e, q, line)
  {
    var c, rest := line[0].change, Whole(line[1..]);
    HeadOfLine(line);
    EvictedHead(q, c, rest);
    KeptAreCandidates(rest, Gone(rest, c));
    UnheardAt(e, q, line, i);
  }

  lemma {:induction false} LandedIsUnheard(e: Env, q: Queue, line: seq<Place>)
    requires q.waiting == Whole(line) && Distinct(q.waiting) && Truthful(e, q.landed, line) && !q.stalled
    requires line != [] && line[0].told.Some? && Refusal(e, line[0].change, q).None? && Trial(e, line[0].change, q.base) == Passed
    ensures !AllHeard(e, q, line)
  {
    DistinctTurn(e, q);
    assert line[0] in line;
    UnheardAt(e, q, line, 0);
  }

  lemma {:induction false} StalledIsUnheard(e: Env, q: Queue, line: seq<Place>)
    requires q.waiting == Whole(line) && !q.stalled && Notices(line) != []
    requires Refusal(e, line[0].change, q).None? && Trial(e, line[0].change, q.base) == Inconclusive
    ensures !AllHeard(e, q, line)
  {
    assert SerialDrain(e, q) == q.(stalled := true);
    assert Notices(line)[0] in Notices(line);
  }

  /** Somebody who was refused goes down with the failure. */
  lemma {:induction false} EjectedIsUnheard(e: Env, q: Queue, line: seq<Place>, i: nat)
    requires q.waiting == Whole(line) && Truthful(e, q.landed, line) && !q.stalled && Notices(line) != [] && Parted(e, q, line)
    requires Trial(e, line[0].change, q.base) == Failed
    requires i + 1 < |line| && line[1..][i].told.Some? && line[1..][i].change.id in Gone(Whole(line[1..]), line[0].change)
    ensures !AllHeard(e, q, line)
  {
    assert line[i + 1] == line[1..][i] && line[i + 1] in line;
    GoneIsUnheard(e, q, line, i + 1);
  }

  lemma {:induction false} FailureIsUnheard(e: Env, q: Queue, line: seq<Place>)
    requires q.waiting == Whole(line) && Truthful(e, q.landed, line) && !q.stalled && Notices(line) != [] && Parted(e, q, line)
    requires Trial(e, line[0].change, q.base) == Failed
    ensures !AllHeard(e, q, line)
  {
    var c, behind := line[0].change, line[1..];
    if Spared(behind, Gone(Whole(behind), c)) {
      assert line[0] in line;
      GoneIsUnheard(e, q, line, 0);
    } else {
      var i: nat :| i < |behind| && behind[i].told.Some? && behind[i].change.id in Gone(Whole(behind), c);
      EjectedIsUnheard(e, q, line, i);
    }
  }

  /** Somebody who parts from the others is never told what they were told. */
  lemma {:induction false} PartedIsUnheard(e: Env, q: Queue, line: seq<Place>)
    requires q.waiting == Whole(line) && Distinct(q.waiting) && Truthful(e, q.landed, line) && !q.stalled
    requires Notices(line) != [] && Parted(e, q, line)
    ensures !AllHeard(e, q, line)
  {
    match Trial(e, line[0].change, q.base)
    case Inconclusive => StalledIsUnheard(e, q, line);
    case Passed => LandedIsUnheard(e, q, line);
    case Failed => FailureIsUnheard(e, q, line);
  }

  lemma {:induction false} UnheardAt(e: Env, q: Queue, line: seq<Place>, i: nat)
    requires q.waiting == Whole(line) && !q.stalled && i < |line| && line[i].told.Some? && IsRefusal(line[i].told.value)
    requires Refusal(e, q.waiting[0], q).None? && line[i].change !in SerialStep(e, q).waiting
    ensures !AllHeard(e, q, line)
  {
    var r := (line[i].change, line[i].told.value);
    TellLine(line, i);
    StepRefuses(e, q, r);
    AbsentIsSilent(e, SerialStep(e, q), r.0, r.1);
    assert r in Notices(line);
  }

  lemma {:induction false} HeadHeard(e: Env, q: Queue, line: seq<Place>)
    requires q.waiting == Whole(line) && Distinct(q.waiting) && !q.stalled && line != []
    requires line[0].told.Some? && !Parted(e, q, line) && AllHeard(e, q, line) && StepLog(e, q) == [(line[0].change, Answer(e, q, line[0].change))]
    ensures line[0].told.value == Answer(e, q, line[0].change)
  {
    var c, why := line[0].change, line[0].told.value;
    TellLine(line, 0);
    StepLogs(e, q);
    DistinctTurn(e, q);
    AbsentIsSilent(e, SerialStep(e, q), c, why);
    assert multiset(SerialDrain(e, q).rejected)[(c, why)] > multiset(q.rejected)[(c, why)];
    assert multiset(q.rejected + StepLog(e, q))[(c, why)] == multiset(q.rejected)[(c, why)] + multiset(StepLog(e, q))[(c, why)];
    assert (c, why) in multiset(StepLog(e, q));
  }

  /** Those behind are still to be heard. */
  lemma {:induction false} OthersHeard(e: Env, q: Queue, line: seq<Place>, rest: seq<Place>)
    requires q.waiting == Whole(line) && Distinct(q.waiting) && !q.stalled && line != [] && AllHeard(e, q, line)
    requires Truthful(e, q.landed, line) && SerialStep(e, q).waiting == Whole(rest) && (forall p :: p in rest ==> p in line)
    requires forall r :: r in Notices(rest) ==> r in Notices(line)
    requires !SerialStep(e, q).stalled
    ensures AllHeard(e, SerialStep(e, q), rest)
  {
    DistinctTurn(e, q);
    NoticesOfWaiting(rest);
    forall r | r in Notices(rest)
      ensures multiset(SerialDrain(e, SerialStep(e, q)).rejected)[r] > multiset(SerialStep(e, q).rejected)[r]
    {
      var p :| p in rest && p.told == Some(r.1) && p.change == r.0;
      var i :| 0 <= i < |rest| && rest[i] == p;
      assert Whole(rest)[i] == r.0;
      assert r.0 != q.waiting[0];
      StepRefuses(e, q, r);
    }
  }

  /** In a line without repeats, those told no are told alike one by one if the outcome is to tell all of
      them the same. */
  lemma {:induction false} HeardEach(e: Env, q: Queue, line: seq<Place>)
    requires q.waiting == Whole(line) && Distinct(q.waiting) && Truthful(e, q.landed, line) && AllHeard(e, q, line)
    ensures Heard(e, q, line) == Some(Notices(line))
    decreases |line|
  {
    if Notices(line) != [] {
      assert Notices(line)[0] in Notices(line);
      if Parted(e, q, line) {
        PartedIsUnheard(e, q, line);
      } else {
        var b, rest := q.(waiting := Staying(line)), Next(e, q, line);
        assert q.(waiting := Whole(line)) == q;
        if line[0].told.Some? {
          ToldTurn(e, q, b, line);
          HeadHeard(e, q, line);
        } else {
          UntoldTurn(e, q, b, line);
        }
        StillTruthful(e, q, line);
        DistinctTurn(e, q);
        OthersHeard(e, q, line, rest);
        HeardEach(e, SerialStep(e, q), rest);
      }
    }
  }
}
