/**
 What becomes of a change: the trigger of every debounce timer that fires is confirmed by a scan
 that begins later, and every changed stable snapshot becomes a scheduled run of a new generation.
 */
module MediatorChanges {
  import opened Wrappers
  import opened Mediator
  import opened MediatorTargets
  import opened MediatorSafety
  import opened MediatorDrain
  import opened MediatorTheorems

  // ---- what pumping does to one target -------------------------------------------------------------

  /** Starting the waiting run, in terms of the fields. */
  predicate StartsPending(t: Target, u: Target) {
    && t.pending.Some? && t.active.None?
    && u.pending.None? && u.active == Some(Active(t.pending.value, false, Running))
    && u.history == t.history + [Started(t.pending.value.run, t.pending.value.generation)]
    && SameOutside(t, u)
  }

  /** Everything but the runs. */
  predicate SameOutside(t: Target, u: Target) {
    && u.generation == t.generation && u.snapshot == t.snapshot && u.timer == t.timer
    && u.rescan == t.rescan && u.deferred == t.deferred && u.initialScan == t.initialScan
  }

  lemma {:induction false} PumpTouches(m: State, i: nat)
    requires i < |m.targets|
    ensures Pump(m).targets[i] == m.targets[i] || StartsPending(m.targets[i], Pump(m).targets[i])
    decreases |m.queue|
  {
    if m.observing && m.activeSlots < m.slots && |m.queue| > 0 {
      var k := FirstEligible(m, 0);
      if k < |m.queue| {
        PumpTouches(LaunchAt(m, k), i);
      }
    }
  }

  lemma EndRunTouches(m: State, i: nat, j: nat)
    requires i < |m.targets| && m.targets[i].active.Some? && j < |m.targets|
    ensures SameOutside(m.targets[j], EndRun(m, i).targets[j])
  {
    hide Pump;
    var t := m.targets[i];
    var freed := FinishDrainIfIdle(
      Put(m, i, t.(active := None).Log(Ended(t.active.value.work.run))).(activeSlots := m.activeSlots - 1));
    PumpTouches(freed, j);
  }

  lemma AbandonTouches(m: State, i: nat, reason: Reason, j: nat)
    requires i < |m.targets| && m.targets[i].active.Some? && j < |m.targets|
    ensures SameOutside(m.targets[j], AbandonRun(m, i, reason).targets[j])
  {
    hide EndRun;
    var t := m.targets[i];
    EndRunTouches(Put(m, i, t.Log(Cancelled(t.active.value.work.run, reason))), i, j);
  }

  /** An uncancelled run of the newest generation, awaited by a mediator that observes. */
  predicate Fresh(m: State, i: nat) {
    InPhase(m, i, Running) && m.observing
    && !m.targets[i].active.value.cancelled && m.targets[i].active.value.work.generation == m.targets[i].generation
  }

  // ---- re-scans --------------------------------------------------------------------------------------

  predicate EndsRescan(s: Step, i: nat) {
    s == RescanFailed(i) || (s.Stabilised? && s.target == i)
  }

  predicate MovesRescan(s: Step, i: nat) {
    EndsRescan(s, i) || s == TimerFired(i) || s == Scanned(i)
  }

  predicate SameRescan(t: Target, u: Target) {
    u.rescan == t.rescan && u.deferred == t.deferred
  }

  lemma AcceptTouches(m: State, i: nat, trigger: Trigger, stable: Option<Snapshot>, j: nat)
    requires i < |m.targets| && j < |m.targets|
    ensures SameRescan(m.targets[j], AcceptStable(m, i, trigger, stable).targets[j])
    ensures AcceptStable(m, i, trigger, stable).observing == m.observing
  {
    hide Pump, Advance;
    var t := m.targets[i];
    if m.observing && stable.Some? && !(t.snapshot.Some? && SameSnapshot(t.snapshot.value, stable.value)) {
      AdvanceIs(t, trigger, stable.value, m.nextRun);
      var queued := Enqueue(Put(m, i, Advance(t, trigger, stable.value, m.nextRun)), i).(nextRun := m.nextRun + 1);
      PumpTouches(queued, j);
    }
  }

  lemma RunStepsLeaveRescan(m: State, s: Step, i: nat)
    requires Enabled(m, s) && i < |m.targets| && RunStep(s)
    ensures SameRescan(m.targets[i], Next(m, s).targets[i])
  {
    hide Pump, EndRun, AbandonRun;
    match s
    case RunReturned(j) =>
      if !Fresh(m, j) {
        AbandonTouches(m, j, NotFreshReason(m, m.targets[j].active.value), i);
      }
    case RunFailed(j) => AbandonTouches(m, j, Failed, i);
    case SnapshotReadFailed(j) => AbandonTouches(m, j, Failed, i);
    case Decided(j) =>
      if !m.targets[j].active.value.phase.same {
        AbandonTouches(m, j, NotFreshReason(m, m.targets[j].active.value), i);
      }
    case CommitReturned(j) => EndRunTouches(m, j, i);
    case CommitFailed(j) => AbandonTouches(m, j, Failed, i);
    case _ =>
  }

  /** A re-scan moves only by its own timer, scan, stability check and failure. */
  lemma OtherStepsLeaveRescan(m: State, s: Step, i: nat)
    requires Enabled(m, s) && i < |m.targets| && !MovesRescan(s, i)
    ensures SameRescan(m.targets[i], Next(m, s).targets[i])
  {
    hide Pump, EndRun, AbandonRun, AcceptStable;
    if RunStep(s) {
      RunStepsLeaveRescan(m, s, i);
    } else if s.StartSettled? {
      PumpTouches(m.(startup := Settled), i);
    } else if s.Stabilised? {
      AcceptTouches(m, s.target, m.targets[s.target].rescan.trigger, s.stable, i);
    }
  }

  /** A fired timer begins a scan, or while a re-scan is in flight replaces the trigger that waits for its end. */
  lemma FiredTimerIsKept(m: State, i: nat, trigger: Trigger)
    requires Enabled(m, TimerFired(i)) && m.targets[i].timer == Some(trigger) && m.observing
    ensures var t, u := m.targets[i], Next(m, TimerFired(i)).targets[i];
      && u.timer.None?
      && (t.rescan.Idle? ==> u.rescan == AwaitScan(trigger) && u.deferred == t.deferred)
      && (!t.rescan.Idle? ==> u.rescan == t.rescan && u.deferred == Some(trigger))
  {
  }

  /** However a re-scan ends while observing, the trigger that waited for its end is scanned next. */
  lemma DeferredTriggerIsScanned(m: State, s: Step, i: nat)
    requires Enabled(m, s) && i < |m.targets| && EndsRescan(s, i) && m.observing
    ensures var t, u := m.targets[i], Next(m, s).targets[i];
      && u.deferred.None?
      && (t.deferred.Some? ==> u.rescan == AwaitScan(t.deferred.value))
      && (t.deferred.None? ==> u.rescan.Idle?)
  {
    hide AcceptStable;
    if s.Stabilised? {
      AcceptTouches(m, i, m.targets[i].rescan.trigger, s.stable, i);
    }
  }

  /** After a drain it is dropped. */
  lemma DrainedRescanEnds(m: State, s: Step, i: nat)
    requires Enabled(m, s) && i < |m.targets| && EndsRescan(s, i) && !m.observing
    ensures var u := Next(m, s).targets[i]; u.rescan.Idle? && u.deferred.None?
  {
  }

  lemma ScanGoesOn(m: State, i: nat)
    requires Enabled(m, Scanned(i))
    ensures var t, u := m.targets[i], Next(m, Scanned(i)).targets[i];
      u.rescan == AwaitStable(t.rescan.trigger) && u.deferred == t.deferred
  {
  }

  // ---- over every interleaving -----------------------------------------------------------------------

  /** The state after the first `k` steps. */
  function At(m: State, steps: seq<Step>, k: nat): State
    requires k <= |steps|
  {
    Run(m, steps[..k])
  }

  /** Step `k` takes place. */
  predicate Happens(m: State, steps: seq<Step>, k: nat)
    requires k < |steps|
  {
    Enabled(At(m, steps, k), steps[k])
  }

  lemma AtNext(m: State, steps: seq<Step>, k: nat)
    requires k < |steps|
    ensures At(m, steps, k + 1) == if Happens(m, steps, k) then Next(At(m, steps, k), steps[k]) else At(m, steps, k)
  {
    hide Next, Enabled;
    assert steps[..k + 1][..k] == steps[..k];
  }

  /** Step `k` is the expiry of target `i`'s timer. */
  predicate Fires(m: State, steps: seq<Step>, i: nat, k: nat) {
    k < |steps| && steps[k] == TimerFired(i) && Happens(m, steps, k)
  }

  /** The trigger of the timer that expires in step `k`. */
  function FiredTrigger(m: State, steps: seq<Step>, i: nat, k: nat): Trigger
    requires Fires(m, steps, i, k)
  {
    At(m, steps, k).targets[i].timer.value
  }

  /** Step `k` begins a scan that confirms a change of target `i`. */
  predicate BeginsScan(m: State, steps: seq<Step>, i: nat, k: nat, trigger: Trigger) {
    && k < |steps| && Happens(m, steps, k)
    && i < |At(m, steps, k).targets| && i < |At(m, steps, k + 1).targets|
    && At(m, steps, k + 1).targets[i].rescan == AwaitScan(trigger)
    && (At(m, steps, k).targets[i].rescan.Idle? || EndsRescan(steps[k], i))
  }

  /** The last expiry from step `n` on and before step `k` is step `j`. */
  ghost predicate LastFired(m: State, steps: seq<Step>, i: nat, n: nat, j: nat, k: nat) {
    n <= j < k && Fires(m, steps, i, j) && forall x | j < x < k :: !Fires(m, steps, i, x)
  }

  /** Step `k` begins a scan for what fired last, in step `j`. */
  ghost predicate Answered(m: State, steps: seq<Step>, i: nat, n: nat, j: nat, k: nat) {
    LastFired(m, steps, i, n, j, k + 1) && BeginsScan(m, steps, i, k, FiredTrigger(m, steps, i, j))
  }

  /** What fired last waits for the end of a re-scan in flight. */
  ghost predicate Waits(m: State, steps: seq<Step>, i: nat, n: nat, j: nat, to: nat) {
    && to <= |steps| && LastFired(m, steps, i, n, j, to) && i < |At(m, steps, to).targets|
    && At(m, steps, to).targets[i].deferred == Some(FiredTrigger(m, steps, i, j))
    && !At(m, steps, to).targets[i].rescan.Idle?
  }

  ghost predicate AnsweredBy(m: State, steps: seq<Step>, i: nat, n: nat, to: nat) {
    exists j: nat, k: nat :: k < to && Answered(m, steps, i, n, j, k)
  }

  ghost predicate Kept(m: State, steps: seq<Step>, i: nat, n: nat, to: nat) {
    AnsweredBy(m, steps, i, n, to) || exists j: nat :: Waits(m, steps, i, n, j, to)
  }

  lemma StepObserves(m: State, s: Step)
    requires Enabled(m, s)
    ensures m.draining ==> Next(m, s).draining
    ensures m.observing ==> Next(m, s).observing || Next(m, s).draining
  {
    hide Pump, AcceptStable;
    if s.Stabilised? {
      AcceptTouches(m, s.target, m.targets[s.target].rescan.trigger, s.stable, s.target);
    }
  }

  lemma {:induction false} KeepsObserving(m: State, steps: seq<Step>, n: nat, k: nat)
    requires n <= k <= |steps| && At(m, steps, n).observing
    ensures At(m, steps, k).observing || At(m, steps, k).draining
    decreases k - n
  {
    hide Next, Enabled;
    if n < k {
      KeepsObserving(m, steps, n, k - 1);
      AtNext(m, steps, k - 1);
      if Happens(m, steps, k - 1) {
        StepKeepsDraining(At(m, steps, k - 1), steps[k - 1]);
      }
    }
  }

  lemma StepKeepsDraining(m: State, s: Step)
    requires Enabled(m, s) && (m.observing || m.draining)
    ensures Next(m, s).observing || Next(m, s).draining
  {
    StepObserves(m, s);
  }

  lemma AtKeeps(m: State, steps: seq<Step>, k: nat)
    requires Inv(m) && k <= |steps|
    ensures Inv(At(m, steps, k)) && |At(m, steps, k).targets| == |m.targets|
  {
    RunKeepsInv(m, steps[..k]);
    RunKeepsShape(m, steps[..k]);
  }

  /** If it observes after a step and has observed before, it observed throughout. */
  lemma ObservedBefore(m: State, steps: seq<Step>, n: nat, k: nat)
    requires Inv(m) && n <= k < |steps| && At(m, steps, n).observing && At(m, steps, k + 1).observing
    ensures At(m, steps, k).observing
  {
    hide Next, Enabled;
    KeepsObserving(m, steps, n, k);
    AtKeeps(m, steps, k + 1);
    AtNext(m, steps, k);
    if Happens(m, steps, k) {
      StepObserves(At(m, steps, k), steps[k]);
    }
  }

  lemma FiringObserves(m: State, steps: seq<Step>, i: nat, n: nat)
    requires Inv(m) && Fires(m, steps, i, n)
    ensures At(m, steps, n).observing
  {
    AtKeeps(m, steps, n);
    var b := At(m, steps, n);
    assert Good(b.targets[i], b.observing, b.nextRun);
  }

  /** The expiry itself. */
  lemma FiringIsKept(m: State, steps: seq<Step>, i: nat, n: nat)
    requires Inv(m) && Fires(m, steps, i, n)
    ensures Kept(m, steps, i, n, n + 1)
  {
    hide Next, Inv;
    var b := At(m, steps, n);
    AtKeeps(m, steps, n);
    AtKeeps(m, steps, n + 1);
    FiringObserves(m, steps, i, n);
    AtNext(m, steps, n);
    FiredTimerIsKept(b, i, FiredTrigger(m, steps, i, n));
    assert LastFired(m, steps, i, n, n, n + 1);
    if b.targets[i].rescan.Idle? {
      assert Answered(m, steps, i, n, n, n);
    } else {
      assert Waits(m, steps, i, n, n, n + 1);
    }
  }

  /** One more step while a trigger waits. */
  lemma WaitingIsKept(m: State, steps: seq<Step>, i: nat, n: nat, j: nat, k: nat)
    requires Inv(m) && n < k < |steps| && Waits(m, steps, i, n, j, k) && At(m, steps, k).observing
    ensures Kept(m, steps, i, n, k + 1)
  {
    hide Next, Inv, Enabled, At, FiredTrigger;
    var b, s := At(m, steps, k), steps[k];
    AtKeeps(m, steps, k);
    AtKeeps(m, steps, k + 1);
    AtNext(m, steps, k);
    if Fires(m, steps, i, k) {
      WaitingIsReplaced(m, steps, i, n, k);
    } else {
      assert LastFired(m, steps, i, n, j, k + 1);
      if !Happens(m, steps, k) {
        assert Waits(m, steps, i, n, j, k + 1);
      } else if EndsRescan(s, i) {
        DeferredTriggerIsScanned(b, s, i);
        assert Answered(m, steps, i, n, j, k);
      } else {
        RescanGoesOn(b, s, i);
        assert Waits(m, steps, i, n, j, k + 1);
      }
    }
  }

  lemma RescanGoesOn(m: State, s: Step, i: nat)
    requires Enabled(m, s) && i < |m.targets| && !EndsRescan(s, i) && s != TimerFired(i) && !m.targets[i].rescan.Idle?
    ensures i < |Next(m, s).targets|
    ensures var u := Next(m, s).targets[i]; u.deferred == m.targets[i].deferred && !u.rescan.Idle?
  {
    NextKeepsShape(m, s);
    if s == Scanned(i) {
      ScanGoesOn(m, i);
    } else {
      OtherStepsLeaveRescan(m, s, i);
    }
  }

  lemma WaitingIsReplaced(m: State, steps: seq<Step>, i: nat, n: nat, k: nat)
    requires Inv(m) && n < k && Fires(m, steps, i, k) && At(m, steps, k).observing && !At(m, steps, k).targets[i].rescan.Idle?
    ensures Kept(m, steps, i, n, k + 1)
  {
    hide Next, Inv;
    AtKeeps(m, steps, k);
    AtKeeps(m, steps, k + 1);
    AtNext(m, steps, k);
    FiredTimerIsKept(At(m, steps, k), i, FiredTrigger(m, steps, i, k));
    assert LastFired(m, steps, i, n, k, k + 1);
    assert Waits(m, steps, i, n, k, k + 1);
  }

  lemma {:induction false} TriggerIsKept(m: State, steps: seq<Step>, i: nat, n: nat, k: nat)
    requires Inv(m) && n < k <= |steps| && Fires(m, steps, i, n) && At(m, steps, k).observing
    ensures Kept(m, steps, i, n, k)
    decreases k
  {
    hide At, Inv, Fires, Answered, Waits;
    if k == n + 1 {
      FiringIsKept(m, steps, i, n);
    } else {
      FiringObserves(m, steps, i, n);
      ObservedBefore(m, steps, n, k - 1);
      TriggerIsKept(m, steps, i, n, k - 1);
      if AnsweredBy(m, steps, i, n, k - 1) {
        var j: nat, a: nat :| a < k - 1 && Answered(m, steps, i, n, j, a);
      } else {
        var j: nat :| Waits(m, steps, i, n, j, k - 1);
        WaitingIsKept(m, steps, i, n, j, k - 1);
      }
    }
  }

  /**
   No confirmed trigger is lost. Whatever the interleaving, if a timer expires and the mediator
   still observes at the end, then a scan for the newest trigger then expired began at or after
   that expiry, or the newest trigger waits behind a re-scan that is still in flight.
   */
  lemma NoTriggerIsLost(slots: nat, count: nat, steps: seq<Step>, i: nat, n: nat)
    requires Fires(Initially(slots, count), steps, i, n) && Run(Initially(slots, count), steps).observing
    ensures Kept(Initially(slots, count), steps, i, n, |steps|)
  {
    hide Kept, Inv, Happens;
    InitiallyInv(slots, count);
    assert steps[..|steps|] == steps;
    TriggerIsKept(Initially(slots, count), steps, i, n, |steps|);
  }

  ghost predicate DeferredInFlight(m: State) {
    forall i | 0 <= i < |m.targets| && m.targets[i].deferred.Some? :: !m.targets[i].rescan.Idle?
  }

  lemma StepKeepsDeferred(m: State, s: Step)
    requires DeferredInFlight(m) && Enabled(m, s)
    ensures DeferredInFlight(Next(m, s))
  {
    hide Next, Enabled;
    NextKeepsShape(m, s);
    forall i: nat | i < |m.targets| && Next(m, s).targets[i].deferred.Some? ensures !Next(m, s).targets[i].rescan.Idle? {
      if EndsRescan(s, i) {
        if m.observing {
          DeferredTriggerIsScanned(m, s, i);
        } else {
          DrainedRescanEnds(m, s, i);
        }
      } else if s == Scanned(i) {
        ScanGoesOn(m, i);
      } else if s == TimerFired(i) {
        FiredOrIgnored(m, i);
      } else {
        OtherStepsLeaveRescan(m, s, i);
      }
    }
  }

  lemma FiredOrIgnored(m: State, i: nat)
    requires Enabled(m, TimerFired(i)) && (m.targets[i].deferred.Some? ==> !m.targets[i].rescan.Idle?)
    ensures var u := Next(m, TimerFired(i)).targets[i]; u.deferred.Some? ==> !u.rescan.Idle?
  {
  }

  /** In every reachable state a trigger waits only behind a re-scan in flight. */
  lemma {:induction false} DeferredWaitsForRescan(slots: nat, count: nat, steps: seq<Step>)
    ensures DeferredInFlight(Run(Initially(slots, count), steps))
    decreases |steps|
  {
    hide Next, Enabled;
    if steps != [] {
      DeferredWaitsForRescan(slots, count, steps[..|steps| - 1]);
      var before := Run(Initially(slots, count), steps[..|steps| - 1]);
      if Enabled(before, steps[|steps| - 1]) {
        StepKeepsDeferred(before, steps[|steps| - 1]);
      }
    }
  }

  // ---- from a stable snapshot to a run ---------------------------------------------------------------

  /** The run for a changed snapshot waits or has been started. */
  predicate Holds(t: Target, w: Work) {
    t.pending == Some(w) || t.active == Some(Active(w, false, Running))
  }

  /** What a target is told when its newest snapshot becomes a run. */
  function Announced(t: Target, run: nat): seq<Event> {
    t.history
    + (if t.pending.Some? then [Cancelled(t.pending.value.run, Superseded)] else [])
    + (if t.active.Some? then [Cancelled(t.active.value.work.run, Superseded)] else [])
    + [Scheduled(run, t.generation + 1)]
  }

  lemma EndRescanKeepsRuns(m: State, i: nat)
    requires i < |m.targets|
    ensures var t, u := m.targets[i], EndRescan(m, i).targets[i];
      && u.generation == t.generation && u.snapshot == t.snapshot && u.history == t.history && u.timer == t.timer
      && u.pending == t.pending && u.active == t.active
    ensures EndRescan(m, i).nextRun == m.nextRun
  {
  }

  lemma AcceptAdvances(m: State, i: nat, trigger: Trigger, stable: Snapshot)
    requires i < |m.targets| && m.observing
    requires m.targets[i].snapshot.Some? ==> !SameSnapshot(m.targets[i].snapshot.value, stable)
    ensures var advanced, u := Advance(m.targets[i], trigger, stable, m.nextRun), AcceptStable(m, i, trigger, Some(stable)).targets[i];
      u == advanced || StartsPending(advanced, u)
    ensures AcceptStable(m, i, trigger, Some(stable)).nextRun == m.nextRun + 1
  {
    hide Pump, Advance;
    var advanced := Advance(m.targets[i], trigger, stable, m.nextRun);
    var queued := Enqueue(Put(m, i, advanced), i).(nextRun := m.nextRun + 1);
    PumpTouches(queued, i);
    PumpKeepsNumber(queued);
  }

  /** A changed stable snapshot becomes a run of a new generation; what waited or ran before is told so. */
  lemma ChangeIsScheduled(m: State, i: nat, stable: Snapshot)
    requires Enabled(m, Stabilised(i, Some(stable))) && m.observing
    requires m.targets[i].snapshot.Some? ==> !SameSnapshot(m.targets[i].snapshot.value, stable)
    ensures var t, u := m.targets[i], Next(m, Stabilised(i, Some(stable))).targets[i];
      var w := Work(t.generation + 1, t.rescan.trigger, stable, m.nextRun);
      && u.generation == t.generation + 1 && u.snapshot == Some(stable) && Holds(u, w)
      && (u.history == Announced(t, w.run) || u.history == Announced(t, w.run) + [Started(w.run, w.generation)])
      && (t.active.Some? ==> u.active == Some(t.active.value.(cancelled := true)))
    ensures Next(m, Stabilised(i, Some(stable))).nextRun == m.nextRun + 1
  {
    hide AcceptStable, EndRescan, Advance;
    var t := m.targets[i];
    AdvanceIs(t, t.rescan.trigger, stable, m.nextRun);
    AcceptAdvances(m, i, t.rescan.trigger, stable);
    EndRescanKeepsRuns(AcceptStable(m, i, t.rescan.trigger, Some(stable)), i);
  }

  lemma {:induction false} PumpKeepsNumber(m: State)
    ensures Pump(m).nextRun == m.nextRun
    decreases |m.queue|
  {
    if m.observing && m.activeSlots < m.slots && |m.queue| > 0 && FirstEligible(m, 0) < |m.queue| {
      PumpKeepsNumber(LaunchAt(m, FirstEligible(m, 0)));
    }
  }

  lemma AdvanceIs(t: Target, trigger: Trigger, found: Snapshot, run: nat)
    ensures var u := Advance(t, trigger, found, run);
      && u.generation == t.generation + 1 && u.snapshot == Some(found)
      && u.pending == Some(Work(t.generation + 1, trigger, found, run))
      && u.rescan == t.rescan && u.deferred == t.deferred && u.timer == t.timer
      && u.active == (if t.active.Some? then Some(t.active.value.(cancelled := true)) else None)
      && u.history == Announced(t, run)
  {
  }

  /** An unchanged one changes nothing about runs. */
  lemma SameSnapshotIsIgnored(m: State, i: nat, stable: Snapshot)
    requires Enabled(m, Stabilised(i, Some(stable)))
    requires m.targets[i].snapshot.Some? && SameSnapshot(m.targets[i].snapshot.value, stable)
    ensures var t, u := m.targets[i], Next(m, Stabilised(i, Some(stable))).targets[i];
      && u.generation == t.generation && u.snapshot == t.snapshot && u.history == t.history
      && u.pending == t.pending && u.active == t.active && u.timer == t.timer
  {
  }

  /** An unstable one gets another debounce interval, with the same trigger. */
  lemma UnstableSnapshotIsHintedAgain(m: State, i: nat)
    requires Enabled(m, Stabilised(i, None)) && m.observing
    ensures var t, u := m.targets[i], Next(m, Stabilised(i, None)).targets[i];
      && u.timer == Some(t.rescan.trigger)
      && u.generation == t.generation && u.snapshot == t.snapshot && u.history == t.history
      && u.pending == t.pending && u.active == t.active
  {
  }

  /** A hint restarts the timer of its target and of no other. */
  lemma HintRestartsTimer(m: State, i: nat, trigger: Trigger, j: nat)
    requires m.observing && i < |m.targets| && j < |m.targets|
    ensures var t, u := m.targets[j], Next(m, HintCalled(i, trigger)).targets[j];
      && u.timer == (if j == i then Some(trigger) else t.timer)
      && SameRescan(t, u) && u.history == t.history && u.pending == t.pending && u.active == t.active
  {
  }

  /** Each target's initial snapshot becomes a run of its current generation. */
  lemma InitialScanIsScheduled(m: State, i: nat, found: Snapshot)
    requires Enabled(m, InitialScanned(i, found)) && m.observing
    ensures var r := Next(m, InitialScanned(i, found));
      && r.targets[i].snapshot == Some(found)
      && r.targets[i].pending == Some(Work(m.targets[i].generation, Initial, found, m.nextRun))
      && r.targets[i].history[|r.targets[i].history| - 1] == Scheduled(m.nextRun, m.targets[i].generation)
      && r.queue == (if i in m.queue then m.queue else m.queue + [i]) && r.nextRun == m.nextRun + 1
  {
  }

  lemma FreshRunIsRescanned(m: State, i: nat)
    requires Fresh(m, i)
    ensures var w, r := m.targets[i].active.value.work, Run(m, [RunReturned(i)]);
      && InPhase(r, i, Rescanning) && r.targets[i].active.value.work == w
      && r.targets[i].history == m.targets[i].history + [RescanBegan(w.run, w.generation, w.generation, false, true)]
  {
    hide Run;
    RunOne(m, RunReturned(i), []);
  }

  lemma RescanIsCompared(m: State, i: nat, now: Snapshot)
    requires InPhase(m, i, Rescanning)
    ensures var w, r := m.targets[i].active.value.work, Run(m, [SnapshotRead(i, now)]);
      && InPhase(r, i, Compared(SameSnapshot(now, w.snapshot))) && r.targets[i].active.value.work == w
      && r.targets[i].history == m.targets[i].history + [Rescanned(w.run, SameSnapshot(now, w.snapshot))]
  {
    hide Run;
    RunOne(m, SnapshotRead(i, now), []);
  }

  lemma SameIsCommitted(m: State, i: nat)
    requires InPhase(m, i, Compared(true))
    ensures var w, r := m.targets[i].active.value.work, Run(m, [Decided(i)]);
      && InPhase(r, i, Committing) && r.targets[i].active.value.work == w
      && r.targets[i].history == m.targets[i].history + [Committed(w.run, w.generation)]
  {
    hide Run;
    RunOne(m, Decided(i), []);
  }

  /** A fresh run whose re-scan finds its own snapshot commits. */
  lemma FreshRunCommits(m: State, i: nat, now: Snapshot)
    requires Fresh(m, i) && SameSnapshot(now, m.targets[i].active.value.work.snapshot)
    ensures var w, r := m.targets[i].active.value.work, Run(m, [RunReturned(i), SnapshotRead(i, now), Decided(i)]);
      && InPhase(r, i, Committing)
      && r.targets[i].history == m.targets[i].history
         + [RescanBegan(w.run, w.generation, w.generation, false, true), Rescanned(w.run, true), Committed(w.run, w.generation)]
  {
    hide Run;
    RunThree(m, RunReturned(i), SnapshotRead(i, now), Decided(i));
    FreshRunIsRescanned(m, i);
    var m1 := Run(m, [RunReturned(i)]);
    RescanIsCompared(m1, i, now);
    SameIsCommitted(Run(m1, [SnapshotRead(i, now)]), i);
  }

  /** A committed or failed run frees its slot; a free slot starts waiting runs. */
  lemma EndedRunFreesItsSlot(m: State, i: nat)
    requires Inv(m) && InPhase(m, i, Committing)
    ensures var r := Next(m, CommitReturned(i));
      && (r.targets[i].active.Some? ==> Some(r.targets[i].active.value.work) == m.targets[i].pending)
      && (forall j | j in r.queue && r.observing && r.activeSlots < r.slots :: !Eligible(r, j))
  {
    hide Pump, Good;
    var t := m.targets[i];
    var freed := FinishDrainIfIdle(
      Put(m, i, t.(active := None).Log(Ended(t.active.value.work.run))).(activeSlots := m.activeSlots - 1));
    PumpTouches(freed, i);
    CommittingWasCommitted(m, i);
    PumpSaturates(freed);
  }

  lemma {:induction false} PumpSaturates(m: State)
    ensures Saturated(Pump(m))
    decreases |m.queue|
  {
    if m.observing && m.activeSlots < m.slots && |m.queue| > 0 && FirstEligible(m, 0) < |m.queue| {
      PumpSaturates(LaunchAt(m, FirstEligible(m, 0)));
    }
  }

  lemma RunOne(m: State, s: Step, none: seq<Step>)
    requires none == []
    ensures Run(m, [s]) == if Enabled(m, s) then Next(m, s) else m
  {
    hide Next, Enabled;
    assert [s][..0] == [];
    assert Run(m, []) == m;
  }

  lemma RunThree(m: State, a: Step, b: Step, c: Step)
    ensures Run(m, [a, b, c]) == Run(Run(Run(m, [a]), [b]), [c])
  {
    hide Next, Enabled;
    assert [a, b, c][..2] == [a, b] && [a, b][..1] == [a];
    RunOne(m, a, []);
    RunOne(Run(m, [a]), b, []);
    RunOne(Run(m, [a, b]), c, []);
    assert Run(m, [a, b]) == Run(Run(m, [a]), [b]);
  }

  // ---- the queue -------------------------------------------------------------------------------------

  ghost predicate Precedes(xs: seq<nat>, a: nat, b: nat) {
    exists x, y :: 0 <= x < y < |xs| && xs[x] == a && xs[y] == b
  }

  /** `xs` stands in `ys` in the same order. */
  ghost predicate InOrder(xs: seq<nat>, ys: seq<nat>) {
    forall p, q | 0 <= p < q < |xs| :: Precedes(ys, xs[p], xs[q])
  }

  lemma PrecedesWith(xs: seq<nat>, k: nat, a: nat, b: nat)
    requires k < |xs| && Precedes(xs[..k] + xs[k + 1..], a, b)
    ensures Precedes(xs, a, b)
  {
    var less := xs[..k] + xs[k + 1..];
    var x, y :| 0 <= x < y < |less| && less[x] == a && less[y] == b;
    var x', y' := if x < k then x else x + 1, if y < k then y else y + 1;
    assert xs[x'] == a && xs[y'] == b;
  }

  lemma InOrderWith(xs: seq<nat>, ys: seq<nat>, k: nat)
    requires k < |ys| && InOrder(xs, ys[..k] + ys[k + 1..])
    ensures InOrder(xs, ys)
  {
    hide Precedes;
    forall p, q | 0 <= p < q < |xs| ensures Precedes(ys, xs[p], xs[q]) {
      PrecedesWith(ys, k, xs[p], xs[q]);
    }
  }

  lemma InOrderSelf(xs: seq<nat>)
    ensures InOrder(xs, xs)
  {
    forall p, q | 0 <= p < q < |xs| ensures Precedes(xs, xs[p], xs[q]) {
      assert xs[p] == xs[p] && xs[q] == xs[q];
    }
  }

  /** Pumping takes targets from the queue and leaves the others in order. */
  lemma {:induction false} PumpKeepsOrder(m: State)
    ensures InOrder(Pump(m).queue, m.queue)
    decreases |m.queue|
  {
    hide InOrder;
    if m.observing && m.activeSlots < m.slots && |m.queue| > 0 && FirstEligible(m, 0) < |m.queue| {
      var k := FirstEligible(m, 0);
      PumpKeepsOrder(LaunchAt(m, k));
      InOrderWith(Pump(LaunchAt(m, k)).queue, m.queue, k);
    } else {
      InOrderSelf(m.queue);
    }
  }

  /** Launching one target leaves the others eligible, and moves them up. */
  lemma LaunchLeaves(m: State, f: nat, k: nat)
    requires f < k < |m.queue| && Eligible(m, m.queue[f]) && Eligible(m, m.queue[k]) && Distinct(m.queue)
    ensures var r := LaunchAt(m, f);
      && |r.queue| == |m.queue| - 1 && r.queue[k - 1] == m.queue[k] && Eligible(r, m.queue[k]) && Distinct(r.queue)
      && |r.targets| == |m.targets|
  {
  }

  predicate Distinct(xs: seq<nat>) {
    forall x, y | 0 <= x < y < |xs| :: xs[x] != xs[y]
  }

  /** The first step of pumping, when target `k` of the queue may launch. */
  lemma PumpLaunches(m: State, k: nat)
    requires k < |m.queue| && Eligible(m, m.queue[k])
    ensures var f := FirstEligible(m, 0);
      f <= k && Eligible(m, m.queue[f])
      && (if m.observing && m.activeSlots < m.slots then Pump(m) == Pump(LaunchAt(m, f)) else Pump(m) == m)
  {
    hide Eligible, LaunchAt;
  }

  lemma LaunchedStays(m: State, k: nat)
    requires k < |m.queue| && Eligible(m, m.queue[k])
    ensures Pump(LaunchAt(m, k)).targets[m.queue[k]].active.Some?
  {
    hide Pump;
    PumpTouches(LaunchAt(m, k), m.queue[k]);
  }

  /** Of two targets that may launch, the one queued earlier is launched first. */
  lemma {:induction false} PumpIsFair(m: State, k: nat, l: nat)
    requires k < l < |m.queue| && Eligible(m, m.queue[k]) && Eligible(m, m.queue[l]) && Distinct(m.queue)
    requires m.queue[k] < |m.targets| && m.queue[l] < |m.targets|
    requires Pump(m).targets[m.queue[l]].active.Some?
    ensures Pump(m).targets[m.queue[k]].active.Some?
    decreases |m.queue|
  {
    var f := FirstEligible(m, 0);
    PumpLaunches(m, k);
    if m.observing && m.activeSlots < m.slots {
      hide LaunchAt, Distinct, Eligible, Pump;
      if f == k {
        LaunchedStays(m, k);
      } else {
        LaunchLeaves(m, f, k);
        LaunchLeaves(m, f, l);
        PumpIsFair(LaunchAt(m, f), k - 1, l - 1);
      }
    }
  }

  // ---- what is reported ------------------------------------------------------------------------------

  lemma AbandonReports(m: State, i: nat, reason: Reason)
    requires i < |m.targets| && m.targets[i].active.Some?
    ensures var run, h := m.targets[i].active.value.work.run, AbandonRun(m, i, reason).targets[i].history;
      |h| >= |m.targets[i].history| + 2 && h[..|m.targets[i].history|] == m.targets[i].history
      && h[|m.targets[i].history|] == Cancelled(run, reason) && h[|m.targets[i].history| + 1] == Ended(run)
  {
    hide Pump;
    var t := m.targets[i];
    var told := t.Log(Cancelled(t.active.value.work.run, reason));
    var freed := FinishDrainIfIdle(
      Put(Put(m, i, told), i, told.(active := None).Log(Ended(t.active.value.work.run))).(activeSlots := m.activeSlots - 1));
    PumpTouches(freed, i);
  }

  /** The reason given for a run that returns but is not fresh. */
  lemma StaleRunIsReported(m: State, i: nat)
    requires InPhase(m, i, Running) && !Fresh(m, i)
    ensures var a, t, h := m.targets[i].active.value, m.targets[i], Next(m, RunReturned(i)).targets[i].history;
      |h| >= |t.history| + 2 && h[|t.history| + 1] == Ended(a.work.run)
      && h[|t.history|] == Cancelled(a.work.run, if a.cancelled then Canceled else if m.observing then Stale else Draining)
  {
    hide AbandonRun;
    AbandonReports(m, i, NotFreshReason(m, m.targets[i].active.value));
  }

  /** Or whose re-scan found another snapshot. */
  lemma ChangedRunIsReported(m: State, i: nat)
    requires InPhase(m, i, Compared(false))
    ensures var a, t, h := m.targets[i].active.value, m.targets[i], Next(m, Decided(i)).targets[i].history;
      |h| >= |t.history| + 2 && h[|t.history| + 1] == Ended(a.work.run)
      && h[|t.history|] == Cancelled(a.work.run, if a.cancelled then Canceled else if m.observing then Stale else Draining)
  {
    hide AbandonRun;
    AbandonReports(m, i, NotFreshReason(m, m.targets[i].active.value));
  }

  /** A run, a re-scan or a commit that throws. */
  lemma FailureIsReported(m: State, i: nat, s: Step)
    requires Enabled(m, s) && (s == RunFailed(i) || s == SnapshotReadFailed(i) || s == CommitFailed(i))
    ensures var run, t, h := m.targets[i].active.value.work.run, m.targets[i], Next(m, s).targets[i].history;
      |h| >= |t.history| + 2 && h[|t.history|] == Cancelled(run, Failed) && h[|t.history| + 1] == Ended(run)
  {
    hide AbandonRun;
    AbandonReports(m, i, Failed);
  }

  /** Draining stops timers and waiting runs, cancels running ones, and tells each of it. */
  lemma DrainStopsEverything(m: State, i: nat)
    requires !m.draining && i < |m.targets|
    ensures var t, r := m.targets[i], Next(m, DrainCalled);
      && !r.observing && r.draining && r.queue == []
      && r.targets[i].timer.None? && r.targets[i].pending.None?
      && r.targets[i].active == (if t.active.Some? then Some(t.active.value.(cancelled := true)) else None)
      && r.targets[i].history == t.history
         + (if t.pending.Some? then [Cancelled(t.pending.value.run, Draining)] else [])
         + (if t.active.Some? then [Cancelled(t.active.value.work.run, Draining)] else [])
      && SameRescan(t, r.targets[i])
  {
  }

  /** Starting observes and scans every target, once. */
  lemma StartScansEverything(m: State, i: nat)
    requires i < |m.targets|
    ensures !m.observing && !m.draining ==>
              Next(m, StartCalled).observing && Next(m, StartCalled).targets[i] == m.targets[i].(initialScan := true)
    ensures m.observing || m.draining ==> Next(m, StartCalled) == m
  {
  }
}
