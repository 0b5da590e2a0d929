/** `choir-bridge harvest` (crates/choir-bridge/src/main.rs): merges are replayed once each, oldest first,
    into a ledger that later runs consult, and a run may stop at a band of merges that do not build. */
module Harvest {
  import opened Basics
  import opened Sequences

  datatype Verdict = InconclusiveParentFailure | InteractionFailure | Settled

  /** What replaying a merge says, nothing when it could not be replayed; and which merges change only
      paths that cannot matter. */
  datatype Env = Env(replay: string -> Option<Verdict>, inert: string -> bool)

  /** How far a run has got. `rows` are the merges it has added to the ledger, `left` those it never
      looked at because it had stopped. */
  datatype Tally = Tally(
    observed: nat, failed: nat, skipped: nat, inert: seq<string>, streak: nat, stopped: bool, rows: seq<string>, left: nat)

  const START: Tally := Tally(0, 0, 0, [], 0, false, [], 0)

  function Visit(e: Env, known: set<string>, stopAfter: nat, t: Tally, merge: string): Tally {
    if t.stopped then t.(left := t.left + 1)
    else if merge in known then t.(skipped := t.skipped + 1)
    else if e.inert(merge) then t.(inert := t.inert + [merge])
    else
      match e.replay(merge)
      case None => t.(failed := t.failed + 1)
      case Some(v) =>
        var u := t.(observed := t.observed + 1, rows := t.rows + [merge]);
        if v == InconclusiveParentFailure then
          u.(streak := t.streak + 1, stopped := stopAfter > 0 && t.streak + 1 >= stopAfter)
        else u.(streak := 0)
  }

  function Walk(e: Env, known: set<string>, stopAfter: nat, merges: seq<string>): Tally {
    if merges == [] then START
    else Visit(e, known, stopAfter, Walk(e, known, stopAfter, merges[..|merges| - 1]), merges[|merges| - 1])
  }

  function Elements(s: seq<string>): (r: set<string>)
    ensures forall x :: x in r <==> x in s
  {
    set x | x in s
  }

  /** The ledger after a run. */
  function Ledger(e: Env, known: set<string>, stopAfter: nat, merges: seq<string>): set<string> {
    known + Elements(Walk(e, known, stopAfter, merges).rows)
  }

  method Run(e: Env, known: set<string>, stopAfter: nat, merges: seq<string>) returns (t: Tally)
    ensures t == Walk(e, known, stopAfter, merges)
  {
    var observed, failed, skipped, inert, streak, stopped, rows := 0, 0, 0, [], 0, false, [];
    var i := 0;
    while i < |merges| && !stopped
      invariant i <= |merges|
      invariant Walk(e, known, stopAfter, merges[..i]) == Tally(observed, failed, skipped, inert, streak, stopped, rows, 0)
    {
      var merge := merges[i];
      assert merges[..i + 1][..i] == merges[..i];
      i := i + 1;
      if merge in known {
        skipped := skipped + 1;
        continue;
      }
      if e.inert(merge) {
        inert := inert + [merge];
        continue;
      }
      match e.replay(merge)
      case None =>
        failed := failed + 1;
      case Some(v) =>
        observed := observed + 1;
        rows := rows + [merge];
        if v == InconclusiveParentFailure {
          streak := streak + 1;
          if stopAfter > 0 && streak >= stopAfter {
            stopped := true;
          }
        } else {
          streak := 0;
        }
    }
    t := Tally(observed, failed, skipped, inert, streak, stopped, rows, |merges| - i);
    if stopped {
      RestIsLeft(e, known, stopAfter, merges, i);
    } else {
      assert merges[..i] == merges;
    }
  }

  /** Nothing behind the stop is looked at. */
  lemma {:induction false} RestIsLeft(e: Env, known: set<string>, stopAfter: nat, merges: seq<string>, i: nat)
    requires i <= |merges| && Walk(e, known, stopAfter, merges[..i]).stopped
    ensures var t := Walk(e, known, stopAfter, merges[..i]);
      Walk(e, known, stopAfter, merges) == t.(left := t.left + (|merges| - i))
  {
    if i == |merges| {
      assert merges[..i] == merges;
    } else {
      var n := |merges| - 1;
      assert merges[..n][..i] == merges[..i];
      RestIsLeft(e, known, stopAfter, merges[..n], i);
    }
  }

  // ---- one run ------------------------------------------------------------------------------------

  /** What there is to record: merges that matter and can be replayed. */
  predicate Recordable(e: Env, merges: seq<string>, m: string) {
    m in merges && !e.inert(m) && e.replay(m).Some?
  }

  /** Every merge is counted under exactly one heading. */
  lemma {:induction false} EveryMergeCounted(e: Env, known: set<string>, stopAfter: nat, merges: seq<string>)
    ensures var t := Walk(e, known, stopAfter, merges);
      && t.observed + t.failed + t.skipped + |t.inert| + t.left == |merges|
      && |t.rows| == t.observed && (!t.stopped ==> t.left == 0)
  {
    if merges != [] {
      EveryMergeCounted(e, known, stopAfter, merges[..|merges| - 1]);
    }
  }

  /** A run replays only what no earlier run has recorded, and records only what it replayed; a run that
      was not stopped has recorded everything there was; one that was has recorded at least as many
      as the band that stopped it. */
  lemma {:induction false} RunRecords(e: Env, known: set<string>, stopAfter: nat, merges: seq<string>)
    ensures var t := Walk(e, known, stopAfter, merges);
      && (forall m :: m in t.rows ==> m !in known && Recordable(e, merges, m))
      && (!t.stopped ==> forall m :: Recordable(e, merges, m) && m !in known ==> m in t.rows)
      && |t.rows| >= t.streak && (t.stopped ==> t.streak >= stopAfter > 0)
  {
    if merges != [] {
      var n := |merges| - 1;
      RunRecords(e, known, stopAfter, merges[..n]);
      var s, t := Walk(e, known, stopAfter, merges[..n]), Walk(e, known, stopAfter, merges);
      forall m | m in t.rows
        ensures m !in known && Recordable(e, merges, m)
      {
        AtEnd(merges, m);
      }
      if !t.stopped {
        forall m | Recordable(e, merges, m) && m !in known
          ensures m in t.rows
        {
          AtEnd(merges, m);
        }
      }
    }
  }

  /** What a run looks at and has to replay, in order, as far as it goes. */
  function Replayable(e: Env, known: set<string>, merges: seq<string>): seq<string> {
    if merges == [] then []
    else
      var m := merges[|merges| - 1];
      Replayable(e, known, merges[..|merges| - 1]) + if m !in known && Recordable(e, [m], m) then [m] else []
  }

  /** The rows of a run are what it had to replay of the merges it got to, in order. */
  lemma {:induction false} RowsInOrder(e: Env, known: set<string>, stopAfter: nat, merges: seq<string>)
    ensures var t := Walk(e, known, stopAfter, merges);
      t.left <= |merges| && t.rows == Replayable(e, known, merges[..|merges| - t.left])
  {
    if merges == [] {
      assert merges[..0] == [];
    } else {
      var n, front := |merges| - 1, merges[..|merges| - 1];
      var s := Walk(e, known, stopAfter, front);
      RowsInOrder(e, known, stopAfter, front);
      EveryMergeCounted(e, known, stopAfter, front);
      if s.stopped {
        assert front[..n - s.left] == merges[..n - s.left];
      } else {
        assert front[..n] == front && merges[..|merges|] == merges;
      }
    }
  }

  predicate Inconclusive(e: Env, m: string) {
    e.replay(m) == Some(InconclusiveParentFailure)
  }

  /** `n` in a row from row `i` on were inconclusive. */
  ghost predicate Band(e: Env, rows: seq<string>, i: nat, n: nat) {
    i + n <= |rows| && forall k :: i <= k < i + n ==> Inconclusive(e, rows[k])
  }

  /** How many at the end were. */
  function Trailing(e: Env, rows: seq<string>): (n: nat)
    ensures n <= |rows|
  {
    if rows == [] || !Inconclusive(e, rows[|rows| - 1]) then 0 else 1 + Trailing(e, rows[..|rows| - 1])
  }

  lemma {:induction false} TrailingIsBand(e: Env, rows: seq<string>, n: nat)
    requires n <= |rows|
    ensures Band(e, rows, |rows| - n, n) <==> Trailing(e, rows) >= n
  {
    if n > 0 && Inconclusive(e, rows[|rows| - 1]) {
      var front := rows[..|rows| - 1];
      TrailingIsBand(e, front, n - 1);
      assert forall k :: 0 <= k < |front| ==> rows[k] == front[k];
    }
  }

  lemma {:induction false} BandBefore(e: Env, rows: seq<string>, m: string, i: nat, n: nat)
    requires i + n <= |rows|
    ensures Band(e, rows + [m], i, n) <==> Band(e, rows, i, n)
  {
    assert forall k :: 0 <= k < |rows| ==> (rows + [m])[k] == rows[k];
  }

  /** The run stops at the first band: exactly when the last `stopAfter` rows were all inconclusive, and no
      earlier `stopAfter` in a row were. */
  ghost predicate StoppedAtBand(e: Env, stopAfter: nat, rows: seq<string>, stopped: bool) {
    && (stopped <==> 0 < stopAfter <= |rows| && Band(e, rows, |rows| - stopAfter, stopAfter))
    && (stopAfter > 0 ==> forall i: nat :: i + stopAfter < |rows| ==> !Band(e, rows, i, stopAfter))
  }

  lemma {:induction false} OneMoreRow(e: Env, stopAfter: nat, rows: seq<string>, m: string)
    requires StoppedAtBand(e, stopAfter, rows, false)
    ensures var n := Trailing(e, rows + [m]); StoppedAtBand(e, stopAfter, rows + [m], stopAfter > 0 && n >= stopAfter)
  {
    var all := rows + [m];
    if 0 < stopAfter <= |all| {
      TrailingIsBand(e, all, stopAfter);
      forall i: nat | i + stopAfter < |all|
        ensures !Band(e, all, i, stopAfter)
      {
        BandBefore(e, rows, m, i, stopAfter);
      }
    }
  }

  lemma {:induction false} VisitKeepsBand(e: Env, known: set<string>, stopAfter: nat, t: Tally, m: string)
    requires StoppedAtBand(e, stopAfter, t.rows, t.stopped) && t.streak == Trailing(e, t.rows)
    ensures var u := Visit(e, known, stopAfter, t, m);
      StoppedAtBand(e, stopAfter, u.rows, u.stopped) && u.streak == Trailing(e, u.rows)
  {
    if Visit(e, known, stopAfter, t, m).rows != t.rows {
      assert (t.rows + [m])[..|t.rows|] == t.rows;
      OneMoreRow(e, stopAfter, t.rows, m);
    }
  }

  /** A run stops a band, never a scattered few: it is stopped exactly when the last `stopAfter` merges it
      replayed were all inconclusive, and no earlier `stopAfter` in a row were. */
  lemma {:induction false} StopsAtFirstBand(e: Env, known: set<string>, stopAfter: nat, merges: seq<string>)
    ensures var t := Walk(e, known, stopAfter, merges); StoppedAtBand(e, stopAfter, t.rows, t.stopped) && t.streak == Trailing(e, t.rows)
  {
    if merges != [] {
      var n := |merges| - 1;
      StopsAtFirstBand(e, known, stopAfter, merges[..n]);
      VisitKeepsBand(e, known, stopAfter, Walk(e, known, stopAfter, merges[..n]), merges[n]);
    }
  }

  // ---- runs in a row ------------------------------------------------------------------------------------

  function Repeated(e: Env, known: set<string>, stopAfter: nat, merges: seq<string>, times: nat): set<string> {
    if times == 0 then known
    else
      var before := Repeated(e, known, stopAfter, merges, times - 1);
      Ledger(e, before, stopAfter, merges)
  }

  function All(e: Env, merges: seq<string>): (r: set<string>)
    ensures forall m :: m in r <==> Recordable(e, merges, m)
  {
    set m | m in merges && Recordable(e, merges, m)
  }

  /** No merge is listed twice. */
  ghost predicate Listed(merges: seq<string>) {
    forall i, j :: 0 <= i < j < |merges| ==> merges[i] != merges[j]
  }

  /** How many merges a run records at least, if as many are left. */
  function Pace(stopAfter: nat, left: nat): nat {
    if stopAfter == 0 || left < stopAfter then left else stopAfter
  }

  lemma {:induction false} RowsOnce(e: Env, known: set<string>, stopAfter: nat, merges: seq<string>)
    requires Listed(merges)
    ensures var rows := Walk(e, known, stopAfter, merges).rows;
      |Elements(rows)| == |rows| && forall m :: m in rows ==> m in merges
  {
    if merges == [] {
      assert Elements([]) == {};
    } else {
      var n := |merges| - 1;
      var s, t := Walk(e, known, stopAfter, merges[..n]), Walk(e, known, stopAfter, merges);
      RowsOnce(e, known, stopAfter, merges[..n]);
      if t.rows != s.rows {
        assert merges[n] !in merges[..n];
        assert Elements(t.rows) == Elements(s.rows) + {merges[n]};
      }
    }
  }

  /** A run records as many as stop it, or all that are left. */
  lemma {:induction false} RunProgresses(e: Env, known: set<string>, stopAfter: nat, merges: seq<string>)
    requires Listed(merges)
    ensures var after, left := Ledger(e, known, stopAfter, merges), All(e, merges) - known;
      known <= after <= known + All(e, merges) && |All(e, merges) - after| + Pace(stopAfter, |left|) <= |left|
  {
    var t := Walk(e, known, stopAfter, merges);
    var after, left := Ledger(e, known, stopAfter, merges), All(e, merges) - known;
    RunRecords(e, known, stopAfter, merges);
    RowsOnce(e, known, stopAfter, merges);
    assert All(e, merges) - after == left - Elements(t.rows) && Elements(t.rows) <= left;
    assert |left - Elements(t.rows)| == |left| - |Elements(t.rows)|;
    if !t.stopped {
      assert left <= Elements(t.rows);
      SubsetSmaller(left, Elements(t.rows));
    }
  }

  /** Stopping at a band only postpones. Run again often enough, one run for each full band there is to
      record and one for what is left over, and the ledger is what a single run without a stop records. */
  lemma {:induction false} StoppingOnlyPostpones(e: Env, known: set<string>, stopAfter: nat, merges: seq<string>, times: nat)
    requires Listed(merges)
    requires if stopAfter == 0 then times >= 1 else times * stopAfter >= |All(e, merges) - known|
    ensures Repeated(e, known, stopAfter, merges, times) == Ledger(e, known, 0, merges) == known + All(e, merges)
  {
    RunProgresses(e, known, 0, merges);
    Remainder(e, known, stopAfter, merges, times);
    NothingLeft(known, Ledger(e, known, 0, merges), All(e, merges));
    NothingLeft(known, Repeated(e, known, stopAfter, merges, times), All(e, merges));
  }

  lemma {:induction false} NothingLeft(known: set<string>, after: set<string>, all: set<string>)
    requires known <= after <= known + all && |all - after| == 0
    ensures after == known + all
  {
    assert all - after == {};
    assert forall m :: m in all ==> m in after || m in all - after;
  }

  /** How many of `left` can still be missing after `times` runs. */
  function Missing(left: nat, stopAfter: nat, times: nat): nat {
    if times == 0 then left
    else if stopAfter == 0 || times * stopAfter >= left then 0
    else left - times * stopAfter
  }

  lemma {:induction false} OneRunLess(left: nat, stopAfter: nat, times: nat, before: nat, after: nat)
    requires times > 0 && before <= Missing(left, stopAfter, times - 1) && after + Pace(stopAfter, before) <= before
    ensures after <= Missing(left, stopAfter, times)
  {
    assert times * stopAfter == (times - 1) * stopAfter + stopAfter;
  }

  /** A ledger that grew from `known` and still lacks at most so many of `all`. */
  ghost predicate Lacks(known: set<string>, all: set<string>, end: set<string>, most: nat) {
    known <= end <= known + all && |all - end| <= most
  }

  lemma {:induction false} OneRunMore(e: Env, known: set<string>, before: set<string>, stopAfter: nat, merges: seq<string>, times: nat)
    requires Listed(merges) && times > 0
    requires Lacks(known, All(e, merges), before, Missing(|All(e, merges) - known|, stopAfter, times - 1))
    ensures Lacks(known, All(e, merges), Ledger(e, before, stopAfter, merges), Missing(|All(e, merges) - known|, stopAfter, times))
  {
    var all, after := All(e, merges), Ledger(e, before, stopAfter, merges);
    RunProgresses(e, before, stopAfter, merges);
    OneRunLess(|all - known|, stopAfter, times, |all - before|, |all - after|);
  }

  lemma {:induction false} Remainder(e: Env, known: set<string>, stopAfter: nat, merges: seq<string>, times: nat)
    requires Listed(merges)
    ensures Lacks(known, All(e, merges), Repeated(e, known, stopAfter, merges, times), Missing(|All(e, merges) - known|, stopAfter, times))
  {
    if times > 0 {
      Remainder(e, known, stopAfter, merges, times - 1);
      OneRunMore(e, known, Repeated(e, known, stopAfter, merges, times - 1), stopAfter, merges, times);
    }
  }
}
