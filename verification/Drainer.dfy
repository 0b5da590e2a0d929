/** The merge queue as the program runs it: fields updated in place, a drain that loops. */
module Drainer {
  import opened Basics
  import opened MergeQueue

  const DEFAULT_WINDOW: nat := 20

  class TrainQueue {
    const env: Env
    var base: State
    var window: nat
    var maxWindow: nat
    var waiting: seq<Change>
    var landed: set<string>

    ghost predicate Valid()
      reads this
    {
      1 <= window <= maxWindow
    }

    /** The queue together with what a drain has reported so far. */
    ghost function View(merged: seq<Change>, rejected: seq<(Change, Rejection)>, stalled: bool): Queue
      reads this
    {
      Queue(base, window, maxWindow, waiting, landed, merged, rejected, stalled)
    }

    constructor (env: Env, base: State)
      ensures Valid() && this.env == env && View([], [], false) == Queue(base, 20, 20, [], {}, [], [], false)
    {
      this.env := env;
      this.base := base;
      this.window := DEFAULT_WINDOW;
      this.maxWindow := DEFAULT_WINDOW;
      this.waiting := [];
      this.landed := {};
    }

    method Submit(c: Change)
      requires Valid()
      modifies `waiting
      ensures Valid() && waiting == old(waiting) + [c]
    {
      waiting := waiting + [c];
    }

    /** Every move of the window goes through the ceiling. */
    method Resize(to: nat)
      modifies `window
      ensures window == Min(to, maxWindow)
    {
      window := if to < maxWindow then to else maxWindow;
    }

    /** Lowering the ceiling brings the window under it at once. */
    method SetMaxWindow(n: nat)
      requires Valid() && n > 0
      modifies `maxWindow, `window
      ensures Valid() && maxWindow == n && window == Min(old(window), n)
    {
      maxWindow := n;
      if window > n {
        Resize(n);
      }
    }

    /** Pops up to `take` changes and merges each on the state the ones ahead of it produce. */
    method BuildTrain(take: nat) returns (train: seq<Member>, rejects: seq<(Change, Rejection)>, available: bool)
      requires take <= |waiting|
      modifies `waiting
      ensures var s := Speculate(env, landed, base, old(waiting)[..take]);
        train == s.train && rejects == s.rejects && available == s.available && waiting == old(waiting)[s.seen..]
    {
      train, rejects, available := [], [], true;
      var tip, seen := base, 0;
      ghost var line := waiting;
      while seen < take && available
        invariant seen <= take && line == old(waiting)
        invariant waiting == line[seen..]
        invariant available ==> Speculate(env, landed, base, line[..seen]) == Speculated(train, rejects, tip, seen, true)
        invariant !available ==> seen < take && Speculate(env, landed, base, line[..seen + 1]) == Speculated(train, rejects, tip, seen, false)
        decreases available, take - seen
      {
        var change := waiting[0];
        ghost var before := Speculated(train, rejects, tip, seen, true);
        OneMoreOffered(env, landed, base, line, seen);
        waiting := waiting[1..];
        if env.identity(change) in landed {
          rejects := rejects + [(change, AlreadyLanded)];
          seen := seen + 1;
        } else {
          match env.step(change, tip)
          case Advanced(next) =>
            tip := next;
            train := train + [Member(change, next)];
            seen := seen + 1;
          case Conflict =>
            rejects := rejects + [(change, MergeConflict)];
            seen := seen + 1;
          case Unsafe =>
            rejects := rejects + [(change, SafetyViolation)];
            seen := seen + 1;
          case Unavailable =>
            waiting := [change] + waiting;
            available := false;
        }
      }
      if !available {
        StuckStays(env, landed, base, line, seen + 1, take);
      }
    }

    /** Lands a prefix of the train in order, front first, adding to what this drain has merged, up to
        the first landing that the log refuses. */
    method LandPrefix(prefix: seq<Member>, soFar: seq<Change>, ghost rejected: seq<(Change, Rejection)>)
      returns (merged: seq<Change>, n: nat)
      modifies `base, `landed, `window
      ensures n <= |prefix| && (forall k :: 0 <= k < n ==> env.records(prefix[k])) && (n < |prefix| ==> !env.records(prefix[n]))
      ensures View(merged, rejected, false) == Land(env, old(View(soFar, rejected, false)), prefix[..n])
    {
      merged, n := soFar, 0;
      while n < |prefix| && env.records(prefix[n])
        invariant n <= |prefix| && forall k :: 0 <= k < n ==> env.records(prefix[k])
        invariant View(merged, rejected, false) == Land(env, old(View(soFar, rejected, false)), prefix[..n])
      {
        var m := prefix[n];
        assert prefix[..n + 1][..n] == prefix[..n];
        base := m.state;
        landed := landed + {env.identity(m.change)};
        merged := merged + [m.change];
        Resize(window + 1);
        n := n + 1;
      }
    }

    /** Everything that goes down with `failed`: dependents are added until there are none. */
    method Blast(behind: seq<Change>, failed: nat) returns (ejected: set<nat>)
      ensures ejected == Closure(behind + waiting, {failed})
    {
      ejected := {failed};
      var next := NewDependents(behind + waiting, ejected);
      while next != {}
        invariant next == NewDependents(behind + waiting, ejected)
        invariant Closure(behind + waiting, ejected) == Closure(behind + waiting, {failed})
        decreases |Ids(behind + waiting) - ejected|
      {
        ClosureShrinks(behind + waiting, ejected, next);
        ejected := ejected + next;
        next := NewDependents(behind + waiting, ejected);
      }
    }

    /** Takes what is left of the train apart from its end: the ejected are reported, the others go
        back to the front of the queue. */
    method TakeApart(behind: seq<Change>, ejected: set<nat>, on: nat) returns (rejects: seq<(Change, Rejection)>)
      modifies `waiting
      ensures rejects == EjectionsReversed(behind, ejected, on)
      ensures waiting == Kept(behind, ejected) + old(waiting)
    {
      rejects := [];
      var n := |behind|;
      assert behind[..n] == behind;
      while n > 0
        invariant n <= |behind|
        invariant rejects + EjectionsReversed(behind[..n], ejected, on) == EjectionsReversed(behind, ejected, on)
        invariant Kept(behind[..n], ejected) + waiting == Kept(behind, ejected) + old(waiting)
      {
        var c := behind[n - 1];
        LastOfTrain(behind, n, ejected, on, rejects, waiting);
        if c.id in ejected {
          rejects := rejects + [(c, DependencyEjection(on))];
        } else {
          waiting := [c] + waiting;
        }
        n := n - 1;
      }
    }

    /** Goes through the whole queue, reporting the ejected and keeping the others in order. */
    method Sift(ejected: set<nat>, on: nat) returns (rejects: seq<(Change, Rejection)>)
      modifies `waiting
      ensures rejects == Ejections(old(waiting), ejected, on)
      ensures waiting == Kept(old(waiting), ejected)
    {
      rejects := [];
      var all, n := waiting, 0;
      waiting := [];
      while n < |all|
        invariant n <= |all|
        invariant rejects == Ejections(all[..n], ejected, on)
        invariant waiting == Kept(all[..n], ejected)
      {
        var c := all[n];
        assert all[..n + 1][..n] == all[..n];
        if c.id in ejected {
          rejects := rejects + [(c, DependencyEjection(on))];
        } else {
          waiting := waiting + [c];
        }
        n := n + 1;
      }
      assert all[..n] == all;
    }

    /** Ejects from the train and then from the whole queue, survivors of the train included. */
    method EjectAll(behind: seq<Change>, ejected: set<nat>, on: nat) returns (fromTrain: seq<(Change, Rejection)>, fromQueue: seq<(Change, Rejection)>)
      modifies `waiting
      ensures fromTrain == EjectionsReversed(behind, ejected, on) && fromQueue == Ejections(old(waiting), ejected, on)
      ensures waiting == Kept(behind, ejected) + Kept(old(waiting), ejected)
    {
      KeptAgain(behind, ejected, on);
      KeptAppend(Kept(behind, ejected), waiting, ejected);
      EjectionsAppend(Kept(behind, ejected), waiting, ejected, on);
      fromTrain := TakeApart(behind, ejected, on);
      fromQueue := Sift(ejected, on);
      assert [] + Ejections(old(waiting), ejected, on) == Ejections(old(waiting), ejected, on);
    }

    /** A change failed its tests: it goes, and so does what declared that it depends on it; when
        nothing did, the window is halved instead. */
    method EvictFailed(failed: Change, behind: seq<Change>, soFar: seq<(Change, Rejection)>, ghost merged: seq<Change>)
      returns (rejected: seq<(Change, Rejection)>)
      modifies `waiting, `window
      ensures View(merged, rejected, false) == Evict(old(View(merged, soFar, false)), failed, behind, old(waiting))
    {
      rejected := soFar + [(failed, CiFailure)];
      var ejected := Blast(behind, failed.id);
      OneIsFailed(ejected, failed.id);
      if |ejected| > 1 {
        var fromTrain, fromQueue := EjectAll(behind, ejected, failed.id);
        rejected := rejected + fromTrain + fromQueue;
      } else {
        Resize(if window / 2 > 1 then window / 2 else 1);
        waiting := behind + waiting;
      }
    }

    /** Acts on the verdicts of a train: the green prefix lands, a failure is evicted, and a verdict
        about nobody or a refused landing stops the drain with everything from there on queued again. */
    method SettleTrain(train: seq<Member>, mergedSoFar: seq<Change>, rejectedSoFar: seq<(Change, Rejection)>)
      returns (merged: seq<Change>, rejected: seq<(Change, Rejection)>, stalled: bool)
      modifies `base, `landed, `window, `waiting
      ensures View(merged, rejected, stalled) == Settle(env, old(View(mergedSoFar, rejectedSoFar, false)), train, old(waiting))
    {
      ghost var told, rest := View(mergedSoFar, rejectedSoFar, false), waiting;
      rejected, stalled := rejectedSoFar, false;
      var i := 0;
      while i < |train| && env.ci(train[i]) == Passed
        invariant i <= |train| && forall k :: 0 <= k < i ==> env.ci(train[k]) == Passed
      {
        i := i + 1;
      }
      var n;
      merged, n := LandPrefix(train[..i], mergedSoFar, rejected);
      assert train[..i][..n] == train[..n];
      assert n == FirstStop(env, train);
      LandShape(env, told, train[..n]);
      if n < i || (i < |train| && env.ci(train[i]) == Inconclusive) {
        stalled := true;
        waiting := Changes(train[n..]) + waiting;
      } else if i < |train| {
        rejected := EvictFailed(train[i].change, Changes(train[i + 1..]), rejected, merged);
      }
    }

    /** One turn of the drain loop. */
    method RunRound(mergedSoFar: seq<Change>, rejectedSoFar: seq<(Change, Rejection)>)
      returns (merged: seq<Change>, rejected: seq<(Change, Rejection)>, stalled: bool)
      requires Valid() && waiting != []
      modifies `base, `landed, `window, `waiting
      ensures View(merged, rejected, stalled) == Round(env, old(View(mergedSoFar, rejectedSoFar, false)))
    {
      ghost var start := View(mergedSoFar, rejectedSoFar, false);
      var train, rejects, available := BuildTrain(if window < |waiting| then window else |waiting|);
      if available && Answered(env, train) {
        SettleIgnoresWaiting(env, start.(rejected := rejectedSoFar + rejects), train, waiting, waiting);
        merged, rejected, stalled := SettleTrain(train, mergedSoFar, rejectedSoFar + rejects);
      } else {
        waiting := Changes(train) + waiting;
        merged, rejected, stalled := mergedSoFar, rejectedSoFar + rejects, true;
      }
    }

    /** The drain loop. */
    method DrainAll() returns (merged: seq<Change>, rejected: seq<(Change, Rejection)>, stalled: bool)
      requires Valid()
      modifies `base, `landed, `window, `waiting
      ensures Valid()
      ensures View(merged, rejected, stalled) == Drain(env, old(View([], [], false)))
    {
      merged, rejected, stalled := [], [], false;
      while waiting != [] && !stalled
        invariant Valid() && maxWindow == old(maxWindow)
        invariant Drain(env, View(merged, rejected, stalled)) == Drain(env, old(View([], [], false)))
        decreases !stalled, |waiting|
      {
        WindowStaysOpen(env, View(merged, rejected, false));
        merged, rejected, stalled := RunRound(merged, rejected);
      }
    }
  }

  lemma {:induction false} OneIsFailed(ejected: set<nat>, failed: nat)
    requires failed in ejected
    ensures |ejected| > 1 <==> ejected != {failed}
  {
    if ejected != {failed} {
      assert |ejected - {failed}| == |ejected| - 1;
      assert ejected - {failed} != {};
    }
  }

  /** The last of a train joins what was reported, or goes in front of what waits. */
  lemma {:induction false} LastOfTrain(behind: seq<Change>, n: nat, ids: set<nat>, on: nat, told: seq<(Change, Rejection)>, waiting: seq<Change>)
    requires 0 < n <= |behind|
    ensures var c := behind[n - 1];
      if c.id in ids then
        && Kept(behind[..n - 1], ids) == Kept(behind[..n], ids)
        && told + [(c, DependencyEjection(on))] + EjectionsReversed(behind[..n - 1], ids, on) == told + EjectionsReversed(behind[..n], ids, on)
      else
        && EjectionsReversed(behind[..n - 1], ids, on) == EjectionsReversed(behind[..n], ids, on)
        && Kept(behind[..n - 1], ids) + ([c] + waiting) == Kept(behind[..n], ids) + waiting
  {
    assert behind[..n][..n - 1] == behind[..n - 1];
  }

  lemma {:induction false} OneMoreOffered(e: Env, landed: set<string>, base: State, line: seq<Change>, k: nat)
    requires k < |line|
    ensures Speculate(e, landed, base, line[..k + 1]) == Extend(e, landed, Speculate(e, landed, base, line[..k]), line[k])
  {
    assert line[..k + 1][..k] == line[..k];
  }

  /** Once the speculator has not answered, nothing more of the offer is taken. */
  lemma {:induction false} StuckStays(e: Env, landed: set<string>, base: State, line: seq<Change>, k: nat, n: nat)
    requires k <= n <= |line| && !Speculate(e, landed, base, line[..k]).available
    ensures Speculate(e, landed, base, line[..n]) == Speculate(e, landed, base, line[..k])
  {
    if k < n {
      StuckStays(e, landed, base, line, k, n - 1);
      assert line[..n][..n - 1] == line[..n - 1];
    }
  }
}
