/** Draining: what can still happen after `drain`, and exactly when its promise resolves. */
module MediatorDrain {
  import opened Wrappers
  import opened Mediator
  import opened MediatorTargets
  import opened MediatorSafety

  predicate NewWork(e: Event) {
    e.Scheduled? || e.Started? || e.RescanBegan?
  }

  /** The later history only adds events that finish what was under way. */
  ghost predicate WindsDown(before: seq<Event>, after: seq<Event>) {
    && before <= after
    && forall k | |before| <= k < |after| :: !NewWork(after[k])
  }

  ghost predicate AllWindDown(m: State, r: State) {
    && |r.targets| == |m.targets|
    && forall i | 0 <= i < |m.targets| :: WindsDown(m.targets[i].history, r.targets[i].history)
  }

  lemma ActiveMeansBusy(m: State, i: nat)
    requires Core(m) && i < |m.targets| && m.targets[i].active.Some?
    ensures m.activeSlots >= 1
  {
    ActiveCountUpdate(m.targets, i, m.targets[i].(active := None));
  }

  lemma IdleHasNoActive(m: State, i: nat)
    requires Core(m) && !Busy(m) && i < |m.targets|
    ensures m.targets[i].active.None? && m.targets[i].rescan.Idle?
  {
    if m.targets[i].active.Some? {
      ActiveMeansBusy(m, i);
    }
  }

  // ---- one step after drain -------------------------------------------------

  /** `busy` says whether anything was in flight when drain was called. */
  ghost predicate ResolutionOk(m: State, busy: bool) {
    && m.draining
    && (m.resolved <==> busy && !Busy(m))
    && (Busy(m) ==> busy)
  }

  ghost predicate StillDraining(m: State, r: State, busy: bool) {
    AllWindDown(m, r) && ResolutionOk(r, busy)
  }

  lemma EndRunWindsDown(m: State, i: nat, busy: bool)
    requires Core(m) && ResolutionOk(m, busy) && i < |m.targets| && m.targets[i].active.Some?
    ensures StillDraining(m, EndRun(m, i), busy)
  {
    hide Good;
    ActiveMeansBusy(m, i);
  }

  lemma LogKeepsCore(m: State, i: nat, reason: Reason)
    requires Core(m) && i < |m.targets| && m.targets[i].active.Some?
    ensures Core(Put(m, i, m.targets[i].Log(Cancelled(m.targets[i].active.value.work.run, reason))))
  {
    var e := Cancelled(m.targets[i].active.value.work.run, reason);
    LogKeepsGood(m.targets[i], e, m.observing, m.nextRun);
    PutKeepsCore(m, i, m.targets[i].Log(e));
  }

  lemma AbandonWindsDown(m: State, i: nat, reason: Reason, busy: bool)
    requires Core(m) && ResolutionOk(m, busy) && i < |m.targets| && m.targets[i].active.Some?
    ensures StillDraining(m, AbandonRun(m, i, reason), busy)
  {
    hide EndRun, Core;
    var t := m.targets[i];
    var told := Put(m, i, t.Log(Cancelled(t.active.value.work.run, reason)));
    LogKeepsCore(m, i, reason);
    assert Busy(told) <==> Busy(m) by {
      assert forall k | 0 <= k < |m.targets| :: told.targets[k].rescan == m.targets[k].rescan;
    }
    EndRunWindsDown(told, i, busy);
  }

  /** Changing one target's flags or phase without starting or ending anything. */
  lemma PutWindsDown(m: State, i: nat, t: Target, busy: bool)
    requires ResolutionOk(m, busy) && i < |m.targets|
    requires t.rescan.Idle? == m.targets[i].rescan.Idle? && WindsDown(m.targets[i].history, t.history)
    ensures StillDraining(m, Put(m, i, t), busy)
  {
    assert Busy(Put(m, i, t)) <==> Busy(m) by {
      assert forall k | 0 <= k < |m.targets| ::
          Put(m, i, t).targets[k].rescan.Idle? == m.targets[k].rescan.Idle?;
    }
  }

  lemma EndRescanWindsDown(m: State, i: nat, busy: bool)
    requires Core(m) && ResolutionOk(m, busy) && i < |m.targets| && !m.targets[i].rescan.Idle?
    ensures StillDraining(m, EndRescan(m, i), busy)
  {
    hide Good;
    assert Busy(m);
    var t := m.targets[i].(rescan := Idle, deferred := None);
    assert EndRescan(m, i) == FinishDrainIfIdle(Put(m, i, t));
  }

  lemma StepWindsDown(m: State, s: Step, busy: bool)
    requires Inv(m) && ResolutionOk(m, busy) && Enabled(m, s)
    ensures StillDraining(m, Next(m, s), busy)
  {
    hide Good, EndRun, AbandonRun, EndRescan;
    match s
    case StartCalled =>
    case InitialScanned(i, _) => PutWindsDown(m, i, m.targets[i].(initialScan := false), busy);
    case InitialScanFailed(i) => PutWindsDown(m, i, m.targets[i].(initialScan := false), busy);
    case StartSettled =>
    case HintCalled(_, _) =>
    case TimerFired(i) => NoTimersWhenStopped(m, i);
    case Scanned(i) => PutWindsDown(m, i, m.targets[i].(rescan := AwaitStable(m.targets[i].rescan.trigger)), busy);
    case Stabilised(i, _) => EndRescanWindsDown(m, i, busy);
    case RescanFailed(i) => EndRescanWindsDown(m, i, busy);
    case RunReturned(i) => AbandonWindsDown(m, i, NotFreshReason(m, m.targets[i].active.value), busy);
    case RunFailed(i) => AbandonWindsDown(m, i, Failed, busy);
    case SnapshotRead(i, now) =>
      var t := m.targets[i];
      var same := SameSnapshot(now, t.active.value.work.snapshot);
      PutWindsDown(m, i, SetPhase(t, Compared(same)).Log(Rescanned(t.active.value.work.run, same)), busy);
    case SnapshotReadFailed(i) => AbandonWindsDown(m, i, Failed, busy);
    case Decided(i) =>
      var t := m.targets[i];
      var a := t.active.value;
      if a.phase.same {
        PutWindsDown(m, i, SetPhase(t, Committing).Log(Committed(a.work.run, a.work.generation)), busy);
      } else {
        AbandonWindsDown(m, i, NotFreshReason(m, a), busy);
      }
    case CommitReturned(i) => EndRunWindsDown(m, i, busy);
    case CommitFailed(i) => AbandonWindsDown(m, i, Failed, busy);
    case DrainCalled =>
  }

  lemma NoTimersWhenStopped(m: State, i: nat)
    requires Inv(m) && m.draining && i < |m.targets|
    ensures m.targets[i].timer.None?
  {
    assert Good(m.targets[i], m.observing, m.nextRun);
  }

  lemma {:induction false} RunWindsDown(m: State, steps: seq<Step>, busy: bool)
    requires Inv(m) && ResolutionOk(m, busy)
    ensures StillDraining(m, Run(m, steps), busy)
    decreases |steps|
  {
    if steps != [] {
      var before := Run(m, steps[..|steps| - 1]);
      RunWindsDown(m, steps[..|steps| - 1], busy);
      RunKeepsInv(m, steps[..|steps| - 1]);
      if Enabled(before, steps[|steps| - 1]) {
        hide Inv, Next, ResolutionOk;
        StepWindsDown(before, steps[|steps| - 1], busy);
      }
    }
  }

  // ---- the promises of drain -------------------------------------------------

  ghost predicate Reachable(m: State) {
    exists slots, count, steps :: m == Run(Initially(slots, count), steps)
  }

  /** Reachable states are closed under steps. */
  lemma ReachableNext(m: State, s: Step)
    requires Reachable(m) && Enabled(m, s)
    ensures Reachable(Next(m, s))
  {
    hide Next, Enabled;
    var slots, count, steps :| m == Run(Initially(slots, count), steps);
    assert (steps + [s])[..|steps|] == steps;
    assert Run(Initially(slots, count), steps + [s]) == Next(m, s);
  }

  lemma {:induction false} ReachableRun(m: State, steps: seq<Step>)
    requires Reachable(m)
    ensures Reachable(Run(m, steps))
    decreases |steps|
  {
    if steps != [] {
      var before, s := Run(m, steps[..|steps| - 1]), steps[|steps| - 1];
      ReachableRun(m, steps[..|steps| - 1]);
      if Enabled(before, s) {
        ReachableNext(before, s);
      }
    }
  }

  lemma ReachableInv(m: State)
    requires Reachable(m)
    ensures Inv(m)
  {
    var slots, count, steps :| m == Run(Initially(slots, count), steps);
    InitiallyInv(slots, count);
    RunKeepsInv(Initially(slots, count), steps);
  }

  lemma DrainStartsWindingDown(m: State)
    requires Inv(m) && !m.draining && !m.resolved
    ensures ResolutionOk(Drain(m), Busy(m)) && Busy(Drain(m)) == Busy(m)
    ensures forall i | 0 <= i < |m.targets| :: WindsDown(m.targets[i].history, Drain(m).targets[i].history)
  {
    hide Good;
    assert forall i | 0 <= i < |m.targets| :: Drain(m).targets[i].rescan == m.targets[i].rescan;
  }

  /**
   The promise returned by the first `drain` call resolves exactly when there was
   work in flight at the call and all of it has finished. A drain that finds the
   mediator idle never resolves.
   */
  lemma DrainResolvesIffItFoundWork(m: State, steps: seq<Step>)
    requires Reachable(m) && !m.draining && !m.resolved
    ensures Run(Drain(m), steps).resolved <==> Busy(m) && !Busy(Run(Drain(m), steps))
  {
    ReachableInv(m);
    DrainStartsWindingDown(m);
    DrainKeepsInv(m);
    RunWindsDown(Drain(m), steps, Busy(m));
  }

  lemma QueuedMeansPending(m: State)
    requires QueueOk(m)
    ensures m.queue != [] ==> exists i: nat :: i < |m.targets| && m.targets[i].pending.Some?
  {
    if m.queue != [] {
      assert m.queue[0] in m.queue;
    }
  }

  /** After drain nothing is scheduled, started or taken to a re-scan any more. */
  lemma NothingStartsAfterDrain(m: State, steps: seq<Step>)
    requires Reachable(m) && m.draining
    ensures var r := Run(m, steps);
      && AllWindDown(m, r)
      && r.queue == []
      && forall i | 0 <= i < |r.targets| :: r.targets[i].pending.None? && r.targets[i].timer.None?
  {
    ReachableInv(m);
    ReachableResolution(m);
    var busy :| ResolutionOk(m, busy);
    RunWindsDown(m, steps, busy);
    RunKeepsInv(m, steps);
    var r := Run(m, steps);
    forall i | 0 <= i < |r.targets| ensures r.targets[i].pending.None? && r.targets[i].timer.None? {
      assert Good(r.targets[i], r.observing, r.nextRun);
    }
    hide Good;
    QueuedMeansPending(r);
  }

  lemma QuietStep(m: State, s: Step)
    requires Inv(m) && m.draining && !Busy(m) && Enabled(m, s)
    ensures !Busy(Next(m, s)) && Next(m, s).draining && |Next(m, s).targets| == |m.targets|
    ensures forall i | 0 <= i < |m.targets| :: Next(m, s).targets[i].history == m.targets[i].history
  {
    hide Good, EndRun, AbandonRun, EndRescan, Pump;
    forall i: nat | i < |m.targets| ensures m.targets[i].active.None? && m.targets[i].rescan.Idle? {
      IdleHasNoActive(m, i);
    }
    match s
    case TimerFired(i) => NoTimersWhenStopped(m, i);
    case StartSettled => assert Pump(m.(startup := Settled)) == m.(startup := Settled) by { PumpStopped(m.(startup := Settled)); }
    case _ =>
  }

  lemma PumpStopped(m: State)
    requires !m.observing
    ensures Pump(m) == m
  {
  }

  lemma {:induction false} QuietRun(m: State, steps: seq<Step>)
    requires Inv(m) && m.draining && !Busy(m)
    ensures Inv(Run(m, steps)) && !Busy(Run(m, steps)) && Run(m, steps).draining
    ensures |Run(m, steps).targets| == |m.targets|
    ensures forall i | 0 <= i < |m.targets| :: Run(m, steps).targets[i].history == m.targets[i].history
    decreases |steps|
  {
    if steps != [] {
      var before := Run(m, steps[..|steps| - 1]);
      QuietRun(m, steps[..|steps| - 1]);
      if Enabled(before, steps[|steps| - 1]) {
        hide Inv, Next, Busy;
        QuietStep(before, steps[|steps| - 1]);
        NextKeepsInv(before, steps[|steps| - 1]);
      }
    }
  }

  /** Once resolved, the mediator is idle and its histories never change again. */
  lemma ResolvedMeansQuiet(m: State, steps: seq<Step>)
    requires Reachable(m) && m.resolved
    ensures m.draining && m.queue == [] && m.activeSlots == 0
    ensures forall i | 0 <= i < |m.targets| ::
              m.targets[i].pending.None? && m.targets[i].active.None? && m.targets[i].rescan.Idle?
    ensures |Run(m, steps).targets| == |m.targets|
    ensures forall i | 0 <= i < |m.targets| :: Run(m, steps).targets[i].history == m.targets[i].history
  {
    ReachableInv(m);
    ReachableResolution(m);
    QuietRun(m, steps);
    NothingStartsAfterDrain(m, []);
    forall i: nat | i < |m.targets| ensures m.targets[i].active.None? && m.targets[i].rescan.Idle? {
      IdleHasNoActive(m, i);
    }
  }

  ghost predicate Accounted(m: State) {
    if m.draining then exists busy :: ResolutionOk(m, busy) else !m.resolved
  }

  lemma StepKeepsAccounted(m: State, s: Step)
    requires Inv(m) && Accounted(m) && Enabled(m, s)
    ensures Accounted(Next(m, s))
  {
    if m.draining {
      var busy :| ResolutionOk(m, busy);
      StepWindsDown(m, s, busy);
    } else if s.DrainCalled? {
      DrainStartsWindingDown(m);
    } else {
      hide Inv, Pump, EndRun, AbandonRun, Hint, ConfirmChange, AcceptStable, EndRescan, Drain, Start, OnInitialScan,
        OnRunReturned, OnSnapshotRead, OnDecided;
    }
  }

  lemma {:induction false} RunKeepsAccounted(m: State, steps: seq<Step>)
    requires Inv(m) && Accounted(m)
    ensures Accounted(Run(m, steps))
    decreases |steps|
  {
    if steps != [] {
      RunKeepsAccounted(m, steps[..|steps| - 1]);
      RunKeepsInv(m, steps[..|steps| - 1]);
      if Enabled(Run(m, steps[..|steps| - 1]), steps[|steps| - 1]) {
        hide Inv, Next, Accounted;
        StepKeepsAccounted(Run(m, steps[..|steps| - 1]), steps[|steps| - 1]);
      }
    }
  }

  lemma ReachableResolution(m: State)
    requires Reachable(m)
    ensures Accounted(m)
  {
    var slots, count, steps :| m == Run(Initially(slots, count), steps);
    InitiallyInv(slots, count);
    RunKeepsAccounted(Initially(slots, count), steps);
  }
}
