/** Queue backpressure with bottom-up pausing (src/queues.rs). */
module QueuePausing {

  const LIVE_WATCH := "live_watch"
  const HISTORICAL_BACKFILL := "historical_backfill"
  const SIGNAL_EVAL := "signal_eval"

  /** Fixed precedence, highest first. */
  const ALL_QUEUES: seq<string> :=
    [LIVE_WATCH, "funding_radar", "telegram_ingest", "seed_sync", HISTORICAL_BACKFILL, SIGNAL_EVAL]

  type Pauses = map<string, bool>

  predicate IsPaused(paused: Pauses, queue: string) {
    queue in paused && paused[queue]
  }

  /** Every paused entry counts, including `live_watch` and names outside the precedence list. */
  function PausedSet(paused: Pauses): set<string> {
    set q | q in paused && paused[q]
  }

  /** Pausing `queues`, lowest precedence last in the list, until `target` entries are paused. */
  function PausedFrom(paused: Pauses, queues: seq<string>, target: nat): Pauses
    decreases |queues|
  {
    if queues == [] || |PausedSet(paused)| >= target then paused
    else
      var lowest := queues[|queues| - 1];
      var rest := queues[..|queues| - 1];
      if lowest == LIVE_WATCH || IsPaused(paused, lowest) then PausedFrom(paused, rest, target)
      else PausedFrom(paused[lowest := true], rest, target)
  }

  function Pausable(paused: Pauses, queues: seq<string>): set<string> {
    set q | q in queues && q != LIVE_WATCH && !IsPaused(paused, q)
  }

  predicate BackfillRuns(paused: Pauses, lagSeconds: map<string, nat>, pauseLagSeconds: nat) {
    !IsPaused(paused, HISTORICAL_BACKFILL) &&
    (if HISTORICAL_BACKFILL in lagSeconds then lagSeconds[HISTORICAL_BACKFILL] else 0) < pauseLagSeconds
  }

  class QueueState {
    var paused: Pauses
    var lagSeconds: map<string, nat>

    constructor ()
      ensures paused == map[] && lagSeconds == map[]
    {
      paused, lagSeconds := map[], map[];
    }

    method PauseBottomUp(target: nat)
      modifies this`paused
      ensures paused == PausedFrom(old(paused), ALL_QUEUES, target)
    {
      var count := |PausedSet(paused)|;
      var i := |ALL_QUEUES|;
      assert ALL_QUEUES[..i] == ALL_QUEUES;
      while i > 0 && count < target
        invariant 0 <= i <= |ALL_QUEUES| && count == |PausedSet(paused)|
        invariant PausedFrom(paused, ALL_QUEUES[..i], target) == PausedFrom(old(paused), ALL_QUEUES, target)
      {
        i := i - 1;
        var queue := ALL_QUEUES[i];
        assert ALL_QUEUES[..i + 1][..i] == ALL_QUEUES[..i];
        if queue != LIVE_WATCH && !IsPaused(paused, queue) {
          PauseAddsOne(paused, queue);
          paused := paused[queue := true];
          count := count + 1;
        }
      }
    }

    method ResumeAll()
      modifies this`paused
      ensures paused.Keys == old(paused).Keys + set q | q in ALL_QUEUES
      ensures forall q | q in paused :: paused[q] == (q !in ALL_QUEUES && IsPaused(old(paused), q))
    {
      var i := 0;
      while i < |ALL_QUEUES|
        invariant 0 <= i <= |ALL_QUEUES|
        invariant paused.Keys == old(paused).Keys + set q | q in ALL_QUEUES[..i]
        invariant forall q | q in paused :: paused[q] == (q !in ALL_QUEUES[..i] && IsPaused(old(paused), q))
      {
        paused := paused[ALL_QUEUES[i] := false];
        i := i + 1;
      }
    }

    method BackfillAllowed(pauseLagSeconds: nat) returns (allowed: bool)
      ensures allowed == BackfillRuns(paused, lagSeconds, pauseLagSeconds)
      ensures "historical_backfill" in lagSeconds && lagSeconds["historical_backfill"] >= pauseLagSeconds ==> !allowed
      ensures !IsPaused(paused, "historical_backfill") && pauseLagSeconds > 0 && !allowed ==>
                "historical_backfill" in lagSeconds && lagSeconds["historical_backfill"] >= pauseLagSeconds
      ensures pauseLagSeconds == 0 || IsPaused(paused, "historical_backfill") ==> !allowed
    {
      var lag := 0;
      if HISTORICAL_BACKFILL in lagSeconds {
        lag := lagSeconds[HISTORICAL_BACKFILL];
      }
      allowed := !IsPaused(paused, HISTORICAL_BACKFILL) && lag < pauseLagSeconds;
    }
  }

  lemma PauseAddsOne(paused: Pauses, queue: string)
    requires !IsPaused(paused, queue)
    ensures PausedSet(paused[queue := true]) == PausedSet(paused) + {queue}
    ensures |PausedSet(paused[queue := true])| == |PausedSet(paused)| + 1
  {
    assert PausedSet(paused[queue := true]) == PausedSet(paused) + {queue};
  }

  lemma {:induction false} PausingOnlyAdds(paused: Pauses, queues: seq<string>, target: nat)
    ensures var after := PausedFrom(paused, queues, target);
            && (forall q :: IsPaused(paused, q) ==> IsPaused(after, q))
            && (forall q :: IsPaused(after, q) && !IsPaused(paused, q) ==> q in queues && q != LIVE_WATCH)
            && (forall q | q in paused && (q !in queues || q == LIVE_WATCH) :: q in after && after[q] == paused[q])
    decreases |queues|
  {
    if queues != [] && |PausedSet(paused)| < target {
      var lowest, rest := queues[|queues| - 1], queues[..|queues| - 1];
      if lowest == LIVE_WATCH || IsPaused(paused, lowest) {
        PausingOnlyAdds(paused, rest, target);
      } else {
        var next := paused[lowest := true];
        PausingOnlyAdds(next, rest, target);
        assert forall q :: IsPaused(next, q) <==> IsPaused(paused, q) || q == lowest;
        assert lowest in queues && forall q | q in rest :: q in queues;
      }
    }
  }

  /** Every newly paused queue leaves no queue of lower precedence running. */
  lemma {:induction false} LowerPrecedencePausedFirst(paused: Pauses, queues: seq<string>, target: nat, i: nat, j: nat)
    requires i < j < |queues| && queues[j] != LIVE_WATCH
    requires forall k, l | 0 <= k < l < |queues| :: queues[k] != queues[l]
    requires IsPaused(PausedFrom(paused, queues, target), queues[i]) && !IsPaused(paused, queues[i])
    ensures IsPaused(PausedFrom(paused, queues, target), queues[j])
    decreases |queues|
  {
    var lowest, rest := queues[|queues| - 1], queues[..|queues| - 1];
    var next := if lowest == LIVE_WATCH || IsPaused(paused, lowest) then paused else paused[lowest := true];
    PausingOnlyAdds(next, rest, target);
    if j < |queues| - 1 {
      LowerPrecedencePausedFirst(next, rest, target, i, j);
    }
  }

  lemma PausableLast(paused: Pauses, rest: seq<string>, lowest: string)
    requires lowest !in rest
    ensures var all := rest + [lowest];
            if lowest == LIVE_WATCH || IsPaused(paused, lowest) then Pausable(paused, all) == Pausable(paused, rest)
            else Pausable(paused, all) == Pausable(paused[lowest := true], rest) + {lowest} &&
                 lowest !in Pausable(paused[lowest := true], rest)
  {
    var all, next := rest + [lowest], paused[lowest := true];
    assert forall q :: q in all <==> q in rest || q == lowest;
    assert forall q :: IsPaused(next, q) <==> IsPaused(paused, q) || q == lowest;
  }

  /** The final count is the initial one or the target, capped by what is pausable. */
  lemma {:induction false} PausedCount(paused: Pauses, queues: seq<string>, target: nat)
    requires forall k, l | 0 <= k < l < |queues| :: queues[k] != queues[l]
    ensures var before := |PausedSet(paused)|;
            var reachable := before + |Pausable(paused, queues)|;
            var capped := if target <= reachable then target else reachable;
            |PausedSet(PausedFrom(paused, queues, target))| == if before >= capped then before else capped
    decreases |queues|
  {
    hide IsPaused, PausedSet, Pausable;
    if queues == [] {
      NothingPausable(paused);
    } else if |PausedSet(paused)| < target {
      var lowest, rest := queues[|queues| - 1], queues[..|queues| - 1];
      assert queues == rest + [lowest];
      PausableLast(paused, rest, lowest);
      if lowest == LIVE_WATCH || IsPaused(paused, lowest) {
        PausedCount(paused, rest, target);
      } else {
        PauseAddsOne(paused, lowest);
        PausedCount(paused[lowest := true], rest, target);
      }
    }
  }

  lemma SettledLast(paused: Pauses, queues: seq<string>, target: nat)
    requires queues != []
    requires queues[|queues| - 1] == LIVE_WATCH || IsPaused(paused, queues[|queues| - 1])
    ensures PausedFrom(paused, queues, target) == PausedFrom(paused, queues[..|queues| - 1], target)
  {
  }

  /** Two pausing calls in a row are one call with the larger target, in either order. */
  lemma {:induction false} PausingComposes(paused: Pauses, queues: seq<string>, m: nat, n: nat)
    ensures PausedFrom(PausedFrom(paused, queues, m), queues, n) ==
            PausedFrom(paused, queues, if m >= n then m else n)
    decreases |queues|
  {
    hide IsPaused, PausedSet;
    if queues != [] && |PausedSet(paused)| < m {
      var lowest, rest := queues[|queues| - 1], queues[..|queues| - 1];
      var next := if lowest == LIVE_WATCH || IsPaused(paused, lowest) then paused else paused[lowest := true];
      PausesOne(paused, lowest);
      PausingOnlyAdds(next, rest, m);
      PausingComposes(next, rest, m, n);
      SettledLast(PausedFrom(next, rest, m), queues, n);
    }
  }

  /** The precedence list has no repeats, so the results above hold of `pause_bottom_up` itself. */
  lemma QueuesAreDistinct()
    ensures forall k, l | 0 <= k < l < |ALL_QUEUES| :: ALL_QUEUES[k] != ALL_QUEUES[l]
    ensures ALL_QUEUES[0] == LIVE_WATCH
  {
    assert |"live_watch"| == 10 && |"funding_radar"| == 13 && |"telegram_ingest"| == 15;
    assert |"seed_sync"| == 9 && |"historical_backfill"| == 19 && |"signal_eval"| == 11;
  }

  /** What one `pause_bottom_up` call guarantees about any pause state. */
  lemma PauseBottomUpContract(paused: Pauses, target: nat)
    ensures var after := PausedFrom(paused, ALL_QUEUES, target);
            && (IsPaused(after, LIVE_WATCH) <==> IsPaused(paused, LIVE_WATCH))
            && (forall i, j | 0 <= i < j < |ALL_QUEUES| ::
                  IsPaused(after, ALL_QUEUES[i]) && !IsPaused(paused, ALL_QUEUES[i]) ==> IsPaused(after, ALL_QUEUES[j]))
            && var before := |PausedSet(paused)|;
               var reachable := before + |Pausable(paused, ALL_QUEUES)|;
               var capped := if target <= reachable then target else reachable;
               |PausedSet(after)| == if before >= capped then before else capped
  {
    QueuesAreDistinct();
    PausingOnlyAdds(paused, ALL_QUEUES, target);
    PausedCount(paused, ALL_QUEUES, target);
    var after := PausedFrom(paused, ALL_QUEUES, target);
    forall i, j | 0 <= i < j < |ALL_QUEUES| && IsPaused(after, ALL_QUEUES[i]) && !IsPaused(paused, ALL_QUEUES[i])
      ensures IsPaused(after, ALL_QUEUES[j])
    {
      LowerPrecedencePausedFirst(paused, ALL_QUEUES, target, i, j);
    }
  }

  /** Exactly when a running queue is paused: with everything pausable below it paused, the target is still unmet. */
  lemma {:induction false} PausedWhenNeeded(paused: Pauses, queues: seq<string>, target: nat, i: nat)
    requires i < |queues| && queues[i] != LIVE_WATCH && !IsPaused(paused, queues[i])
    requires forall k, l | 0 <= k < l < |queues| :: queues[k] != queues[l]
    ensures IsPaused(PausedFrom(paused, queues, target), queues[i]) <==>
            |PausedSet(paused)| + |Pausable(paused, queues[i + 1..])| < target
    decreases |queues|
  {
    hide IsPaused, Pausable, PausedSet;
    var lowest, rest := queues[|queues| - 1], queues[..|queues| - 1];
    if |PausedSet(paused)| >= target {
    } else if i == |queues| - 1 {
      NothingPausable(paused);
      PausesOne(paused, lowest);
      PausingOnlyAdds(paused[lowest := true], rest, target);
    } else {
      assert queues[i + 1..] == rest[i + 1..] + [lowest];
      PausableLast(paused, rest[i + 1..], lowest);
      PausesOne(paused, lowest);
      if lowest == LIVE_WATCH || IsPaused(paused, lowest) {
        PausedWhenNeeded(paused, rest, target, i);
      } else {
        PauseAddsOne(paused, lowest);
        PausedWhenNeeded(paused[lowest := true], rest, target, i);
      }
    }
  }

  lemma NothingPausable(paused: Pauses)
    ensures Pausable(paused, []) == {}
  {
  }

  lemma PausesOne(paused: Pauses, queue: string)
    ensures forall q :: IsPaused(paused[queue := true], q) <==> IsPaused(paused, q) || q == queue
  {
  }

  /** A running backfill goes on exactly when the target is met without it: only signal evaluation lies below. */
  lemma BackfillGoesSecond(paused: Pauses, target: nat, lagSeconds: map<string, nat>, pauseLagSeconds: nat)
    requires BackfillRuns(paused, lagSeconds, pauseLagSeconds)
    ensures BackfillRuns(PausedFrom(paused, ALL_QUEUES, target), lagSeconds, pauseLagSeconds) <==>
            |PausedSet(paused)| + (if IsPaused(paused, SIGNAL_EVAL) then 0 else 1) >= target
  {
    hide PausedFrom, PausedSet, IsPaused;
    QueuesAreDistinct();
    assert ALL_QUEUES[4] == HISTORICAL_BACKFILL && ALL_QUEUES[5] == SIGNAL_EVAL;
    PausedWhenNeeded(paused, ALL_QUEUES, target, 4);
    assert ALL_QUEUES[5..] == [SIGNAL_EVAL];
    assert Pausable(paused, [SIGNAL_EVAL]) == if IsPaused(paused, SIGNAL_EVAL) then {} else {SIGNAL_EVAL};
  }

  /** The order in which queues give way. */
  lemma PrecedenceOrder(target: nat)
    ensures var after := PausedFrom(map[], ALL_QUEUES, target);
            && (IsPaused(after, "signal_eval") <==> target >= 1) && (IsPaused(after, "historical_backfill") <==> target >= 2)
            && (IsPaused(after, "seed_sync") <==> target >= 3) && (IsPaused(after, "telegram_ingest") <==> target >= 4)
            && (IsPaused(after, "funding_radar") <==> target >= 5) && !IsPaused(after, "live_watch")
  {
    hide PausedFrom, Pausable, IsPaused, PausedSet;
    QueuesAreDistinct();
    PauseBottomUpContract(map[], target);
    NothingPaused();
    forall i: nat | 1 <= i < |ALL_QUEUES|
      ensures IsPaused(PausedFrom(map[], ALL_QUEUES, target), ALL_QUEUES[i]) <==> |ALL_QUEUES| - 1 - i < target
    {
      PausableBelow(i);
      PausedWhenNeeded(map[], ALL_QUEUES, target, i);
    }
    assert ALL_QUEUES[1] == "funding_radar" && ALL_QUEUES[2] == "telegram_ingest" && ALL_QUEUES[3] == "seed_sync";
    assert ALL_QUEUES[4] == "historical_backfill" && ALL_QUEUES[5] == "signal_eval";
  }

  lemma NothingPaused()
    ensures PausedSet(map[]) == {} && forall q :: !IsPaused(map[], q)
  {
  }

  /** Below the queue at `i` there is one pausable queue for every place. */
  lemma {:induction false} PausableBelow(i: nat)
    requires 1 <= i < |ALL_QUEUES|
    ensures |Pausable(map[], ALL_QUEUES[i + 1..])| == |ALL_QUEUES| - 1 - i
    decreases |ALL_QUEUES| - i
  {
    hide Pausable;
    QueuesAreDistinct();
    if i == |ALL_QUEUES| - 1 {
      NothingPausable(map[]);
    } else {
      PausableBelow(i + 1);
      PausableFirst(ALL_QUEUES[i + 1], ALL_QUEUES[i + 2..]);
      assert ALL_QUEUES[i + 1..] == [ALL_QUEUES[i + 1]] + ALL_QUEUES[i + 2..];
    }
  }

  lemma PausableFirst(queue: string, rest: seq<string>)
    requires queue != LIVE_WATCH && queue !in rest
    ensures |Pausable(map[], [queue] + rest)| == |Pausable(map[], rest)| + 1
  {
    assert Pausable(map[], [queue] + rest) == Pausable(map[], rest) + {queue};
  }
}
