/** What holds in every state the mediator can reach, whatever the interleaving. */
module MediatorSafety {
  import opened Wrappers
  import opened Mediator
  import opened MediatorTargets

  function ActiveCount(ts: seq<Target>): nat {
    if ts == [] then 0 else ActiveCount(ts[..|ts| - 1]) + if ts[|ts| - 1].active.Some? then 1 else 0
  }

  lemma ActiveCountUpdate(ts: seq<Target>, i: nat, t: Target)
    requires i < |ts|
    ensures ActiveCount(ts[i := t])
         == ActiveCount(ts) + (if t.active.Some? then 1 else 0) - (if ts[i].active.Some? then 1 else 0)
  {
    var last := |ts| - 1;
    if i == last {
      assert ts[i := t][..last] == ts[..last];
    } else {
      assert ts[i := t][..last] == ts[..last][i := t];
      ActiveCountUpdate(ts[..last], i, t);
    }
  }

  lemma ActiveCountSame(ts: seq<Target>, us: seq<Target>)
    requires |ts| == |us| && forall i | 0 <= i < |ts| :: ts[i].active.Some? == us[i].active.Some?
    ensures ActiveCount(ts) == ActiveCount(us)
  {
    if ts != [] {
      ActiveCountSame(ts[..|ts| - 1], us[..|us| - 1]);
    }
  }

  /** The queue holds each target with a pending run once, and no other. */
  ghost predicate QueueOk(m: State) {
    && (forall j, k | 0 <= j < k < |m.queue| :: m.queue[j] != m.queue[k])
    && (forall i | i in m.queue :: i < |m.targets| && m.targets[i].pending.Some?)
    && (forall i | 0 <= i < |m.targets| && m.targets[i].pending.Some? :: i in m.queue)
  }

  ghost predicate AllGood(m: State) {
    forall i | 0 <= i < |m.targets| :: Good(m.targets[i], m.observing, m.nextRun)
  }

  /** No eligible target waits beside a free slot. */
  ghost predicate Saturated(m: State) {
    m.observing && m.activeSlots < m.slots ==> forall i | i in m.queue :: !Eligible(m, i)
  }

  ghost predicate StartupOk(m: State) {
    && (m.startup.Settled? || m.startup.NotStarted? ==> forall i | 0 <= i < |m.targets| :: !m.targets[i].initialScan)
    && (m.startup.NotStarted? ==> forall i | 0 <= i < |m.targets| :: m.targets[i].active.None?)
    && (!m.observing && !m.draining ==> m.startup.NotStarted?)
    && (m.observing ==> !m.startup.NotStarted?)
    && (m.draining ==> !m.observing)
  }

  /** Everything but saturation, which only pumping restores. */
  ghost predicate Core(m: State) {
    && AllGood(m)
    && QueueOk(m)
    && m.activeSlots == ActiveCount(m.targets)
    && m.activeSlots <= m.slots
    && StartupOk(m)
  }

  ghost predicate Inv(m: State) {
    Core(m) && (m.startup.Settled? ==> Saturated(m))
  }

  lemma InitiallyInv(slots: nat, count: nat)
    ensures Inv(Initially(slots, count))
  {
    var ts := Initially(slots, count).targets;
    NoneActive(ts);
  }

  lemma NoneActive(ts: seq<Target>)
    requires forall i | 0 <= i < |ts| :: ts[i].active.None?
    ensures ActiveCount(ts) == 0
  {
    if ts != [] {
      NoneActive(ts[..|ts| - 1]);
    }
  }

  // ---- replacing one target ------------------------------------------------

  /** Changing a target without touching which runs it holds. */
  lemma PutKeepsCore(m: State, i: nat, t: Target)
    requires Core(m) && i < |m.targets|
    requires Good(t, m.observing, m.nextRun)
    requires t.pending.Some? == m.targets[i].pending.Some? && t.active.Some? == m.targets[i].active.Some?
    requires t.initialScan ==> m.targets[i].initialScan
    ensures Core(Put(m, i, t))
    ensures Saturated(m) ==> Saturated(Put(m, i, t))
  {
    hide Good;
    ActiveCountUpdate(m.targets, i, t);
  }

  lemma FinishKeeps(m: State)
    ensures Core(m) ==> Core(FinishDrainIfIdle(m))
    ensures Saturated(m) ==> Saturated(FinishDrainIfIdle(m))
  {
  }

  // ---- pumping -------------------------------------------------------------

  lemma LaunchAtKeepsCore(m: State, k: nat)
    requires Core(m) && m.observing && m.activeSlots < m.slots
    requires k < |m.queue| && Eligible(m, m.queue[k])
    ensures Core(LaunchAt(m, k))
  {
    hide Good, ActiveCount;
    var i := m.queue[k];
    var q := m.queue[..k] + m.queue[k + 1..];
    LaunchKeepsGood(m.targets[i], m.nextRun);
    ActiveCountUpdate(m.targets, i, Launch(m.targets[i]));
    forall j | 0 <= j < |m.targets| && j != i && m.targets[j].pending.Some? ensures j in q {
      var x :| 0 <= x < |m.queue| && m.queue[x] == j;
      assert q[if x < k then x else x - 1] == j;
    }
    forall j | j in q ensures j != i && j in m.queue {
      var x :| 0 <= x < |q| && q[x] == j;
      assert q[x] == m.queue[if x < k then x else x + 1];
    }
  }

  lemma {:induction false} PumpKeepsInv(m: State)
    requires Core(m)
    ensures Core(Pump(m)) && Saturated(Pump(m))
    ensures Pump(m).startup == m.startup
    decreases |m.queue|
  {
    if m.observing && m.activeSlots < m.slots && |m.queue| > 0 {
      var k := FirstEligible(m, 0);
      if k < |m.queue| {
        LaunchAtKeepsCore(m, k);
        PumpKeepsInv(LaunchAt(m, k));
      }
    }
  }

  // ---- the compound transitions --------------------------------------------

  /** Giving a target a fresh pending run and queueing it. */
  lemma QueueKeepsCore(m: State, i: nat, t: Target)
    requires Core(m) && i < |m.targets| && m.observing
    requires t.pending.Some? && t.active.Some? == m.targets[i].active.Some?
    requires Good(t, true, m.nextRun + 1) && (t.initialScan ==> m.targets[i].initialScan)
    ensures Core(Enqueue(Put(m, i, t), i).(nextRun := m.nextRun + 1))
  {
    hide Good, ActiveCount;
    ActiveCountUpdate(m.targets, i, t);
    forall j | 0 <= j < |m.targets| ensures Good(m.targets[j], true, m.nextRun + 1) {
      LaterNumbersKeepGood(m.targets[j], true, m.nextRun);
    }
  }

  lemma EndRunKeepsInv(m: State, i: nat)
    requires Core(m) && i < |m.targets| && m.targets[i].active.Some?
    requires var run := m.targets[i].active.value.work.run;
             WasCommitted(m.targets[i].history, run) || WasCancelled(m.targets[i].history, run)
    ensures Inv(EndRun(m, i))
  {
    hide Good, ActiveCount, Pump, WasCommitted, WasCancelled;
    var t := m.targets[i];
    var t' := t.(active := None).Log(Ended(t.active.value.work.run));
    EndKeepsGood(t, m.observing, m.nextRun);
    ActiveCountUpdate(m.targets, i, t');
    var freed := Put(m, i, t').(activeSlots := m.activeSlots - 1);
    assert Core(freed);
    FinishKeeps(freed);
    PumpKeepsInv(FinishDrainIfIdle(freed));
  }

  lemma AbandonKeepsInv(m: State, i: nat, reason: Reason)
    requires Core(m) && i < |m.targets| && m.targets[i].active.Some?
    ensures Inv(AbandonRun(m, i, reason))
  {
    var t := m.targets[i];
    var e := Cancelled(t.active.value.work.run, reason);
    LogKeepsGood(t, e, m.observing, m.nextRun);
    MembersAppend(t.history, e);
    PutKeepsCore(m, i, t.Log(e));
    EndRunKeepsInv(Put(m, i, t.Log(e)), i);
  }

  lemma ConfirmChangeKeepsInv(m: State, i: nat, trigger: Trigger)
    requires Inv(m) && i < |m.targets|
    ensures Inv(ConfirmChange(m, i, trigger))
  {
    var t := m.targets[i];
    if m.observing {
      PutKeepsCore(m, i, if t.rescan.Idle? then t.(rescan := AwaitScan(trigger)) else t.(deferred := Some(trigger)));
    }
  }

  lemma AcceptStableKeepsInv(m: State, i: nat, trigger: Trigger, stable: Option<Snapshot>)
    requires Inv(m) && i < |m.targets|
    ensures Inv(AcceptStable(m, i, trigger, stable))
    ensures |AcceptStable(m, i, trigger, stable).targets| == |m.targets|
  {
    hide Good, Advance;
    var t := m.targets[i];
    if m.observing && stable.None? {
      SameRunsKeepGood(t, t.(timer := Some(trigger)), m.observing, m.nextRun);
      PutKeepsCore(m, i, t.(timer := Some(trigger)));
    } else if m.observing && !(t.snapshot.Some? && SameSnapshot(t.snapshot.value, stable.value)) {
      var t' := Advance(t, trigger, stable.value, m.nextRun);
      AdvanceKeepsGood(t, trigger, stable.value, m.nextRun);
      QueueKeepsCore(m, i, t');
      PumpKeepsInv(Enqueue(Put(m, i, t'), i).(nextRun := m.nextRun + 1));
    }
  }

  lemma EndRescanKeepsInv(m: State, i: nat)
    requires Inv(m) && i < |m.targets|
    ensures Inv(EndRescan(m, i))
  {
    var t := m.targets[i].(rescan := Idle, deferred := None);
    PutKeepsCore(m, i, t);
    var done := FinishDrainIfIdle(Put(m, i, t));
    FinishKeeps(Put(m, i, t));
    assert Inv(done);
    if done.observing && m.targets[i].deferred.Some? {
      ConfirmChangeKeepsInv(done, i, m.targets[i].deferred.value);
    }
  }

  lemma DrainKeepsInv(m: State)
    requires Inv(m)
    ensures Inv(Drain(m))
  {
    if !m.draining {
      var stopped := m.(observing := false,
        targets := seq(|m.targets|, i requires 0 <= i < |m.targets| => DrainTarget(m.targets[i])),
        queue := []);
      forall i | 0 <= i < |m.targets| ensures Good(stopped.targets[i], false, m.nextRun) {
        if m.observing {
          DrainKeepsGood(m.targets[i], m.nextRun);
        } else {
          DrainAgainKeepsGood(m.targets[i], m.nextRun);
        }
      }
      ActiveCountSame(m.targets, stopped.targets);
    }
  }

  lemma DrainAgainKeepsGood(t: Target, nextRun: nat)
    requires Good(t, false, nextRun)
    ensures Good(DrainTarget(t), false, nextRun)
  {
    if t.active.Some? {
      LogKeepsGood(t, Cancelled(t.active.value.work.run, Draining), false, nextRun);
    }
  }

  lemma StartKeepsInv(m: State)
    requires Inv(m)
    ensures Inv(Start(m))
  {
    if !m.observing && !m.draining {
      ActiveCountSame(m.targets, Start(m).targets);
      forall i | 0 <= i < |m.targets| ensures Good(Start(m).targets[i], true, m.nextRun) {
        assert Good(m.targets[i], false, m.nextRun);
      }
    }
  }

  lemma ReplacePendingKeepsCore(m: State, i: nat, trigger: Trigger, found: Snapshot)
    requires Core(m) && i < |m.targets| && m.observing
    ensures Core(ReplacePending(m, i, trigger, found))
  {
    hide Good, Schedule, Enqueue;
    var t := m.targets[i];
    var w := Work(t.generation, trigger, found, m.nextRun);
    ScheduleKeepsGood(t, w, m.nextRun);
    QueueKeepsCore(m, i, Schedule(t, w));
  }

  lemma InitialScanKeepsInv(m: State, i: nat, found: Snapshot)
    requires Inv(m) && i < |m.targets| && m.targets[i].initialScan
    ensures Inv(OnInitialScan(m, i, found))
  {
    hide Good, ReplacePending;
    var t := m.targets[i].(initialScan := false);
    SameRunsKeepGood(m.targets[i], t, m.observing, m.nextRun);
    PutKeepsCore(m, i, t);
    if m.observing {
      var cleared := Put(m, i, t);
      var t' := t.(snapshot := Some(found));
      SameRunsKeepGood(t, t', true, m.nextRun);
      PutKeepsCore(cleared, i, t');
      ReplacePendingKeepsCore(Put(cleared, i, t'), i, Initial, found);
      ReplacePendingKeepsStartup(Put(cleared, i, t'), i, Initial, found);
    }
  }

  lemma ReplacePendingKeepsStartup(m: State, i: nat, trigger: Trigger, found: Snapshot)
    requires i < |m.targets|
    ensures ReplacePending(m, i, trigger, found).startup == m.startup
  {
  }

  lemma RunReturnedKeepsInv(m: State, i: nat)
    requires Inv(m) && InPhase(m, i, Running)
    ensures Inv(OnRunReturned(m, i))
  {
    var t := m.targets[i];
    var a := t.active.value;
    if m.observing && t.generation == a.work.generation && !a.cancelled {
      BeginRescanKeepsGood(t, m.nextRun);
      hide Good;
      PutKeepsCore(m, i, SetPhase(t, Rescanning)
        .Log(RescanBegan(a.work.run, a.work.generation, t.generation, a.cancelled, m.observing)));
    } else {
      AbandonKeepsInv(m, i, NotFreshReason(m, a));
    }
  }

  lemma DecidedKeepsInv(m: State, i: nat)
    requires Inv(m) && i < |m.targets| && m.targets[i].active.Some? && m.targets[i].active.value.phase.Compared?
    ensures Inv(OnDecided(m, i))
  {
    var t := m.targets[i];
    var a := t.active.value;
    if a.phase.same {
      CommitKeepsGood(t, m.observing, m.nextRun);
      hide Good;
      PutKeepsCore(m, i, SetPhase(t, Committing).Log(Committed(a.work.run, a.work.generation)));
    } else {
      AbandonKeepsInv(m, i, NotFreshReason(m, a));
    }
  }

  /** Timers and scan flags can change without touching any run. */
  lemma TouchKeepsInv(m: State, i: nat, u: Target)
    requires Inv(m) && i < |m.targets|
    requires var t := m.targets[i];
             && u.generation == t.generation && u.pending == t.pending && u.active == t.active && u.history == t.history
             && (m.observing || u.timer.None? || u.timer == t.timer)
             && (u.initialScan ==> t.initialScan)
    ensures Inv(Put(m, i, u))
  {
    SameRunsKeepGood(m.targets[i], u, m.observing, m.nextRun);
    hide Good;
    PutKeepsCore(m, i, u);
  }

  lemma SnapshotReadKeepsInv(m: State, i: nat, now: Snapshot)
    requires Inv(m) && InPhase(m, i, Rescanning)
    ensures Inv(OnSnapshotRead(m, i, now))
  {
    var t := m.targets[i];
    var same := SameSnapshot(now, t.active.value.work.snapshot);
    CompareKeepsGood(t, same, m.observing, m.nextRun);
    hide Good;
    PutKeepsCore(m, i, SetPhase(t, Compared(same)).Log(Rescanned(t.active.value.work.run, same)));
  }

  lemma StartSettledKeepsInv(m: State)
    requires Inv(m) && Enabled(m, StartSettled)
    ensures Inv(Pump(m.(startup := Settled)))
  {
    hide Good;
    PumpKeepsInv(m.(startup := Settled));
  }

  /** The steps of start, hint, drain and change detection. */
  lemma ObservingStepKeepsInv(m: State, s: Step)
    requires Inv(m) && Enabled(m, s) && !RunStep(s)
    ensures Inv(Next(m, s))
  {
    hide Good, Pump, EndRescan, AcceptStable, ConfirmChange, OnInitialScan, Drain, Start;
    match s
    case StartCalled => StartKeepsInv(m);
    case InitialScanned(i, found) => InitialScanKeepsInv(m, i, found);
    case InitialScanFailed(i) => TouchKeepsInv(m, i, m.targets[i].(initialScan := false));
    case StartSettled => StartSettledKeepsInv(m);
    case HintCalled(i, trigger) => HintKeepsInv(m, i, trigger);
    case TimerFired(i) =>
      var quiet := m.targets[i].(timer := None);
      TouchKeepsInv(m, i, quiet);
      ConfirmChangeKeepsInv(Put(m, i, quiet), i, m.targets[i].timer.value);
    case Scanned(i) => TouchKeepsInv(m, i, m.targets[i].(rescan := AwaitStable(m.targets[i].rescan.trigger)));
    case Stabilised(i, stable) =>
      AcceptStableKeepsInv(m, i, m.targets[i].rescan.trigger, stable);
      EndRescanKeepsInv(AcceptStable(m, i, m.targets[i].rescan.trigger, stable), i);
    case RescanFailed(i) => EndRescanKeepsInv(m, i);
    case DrainCalled => DrainKeepsInv(m);
  }

  lemma HintKeepsInv(m: State, i: nat, trigger: Trigger)
    requires Inv(m)
    ensures Inv(Hint(m, i, trigger))
  {
    if m.observing && i < |m.targets| {
      TouchKeepsInv(m, i, m.targets[i].(timer := Some(trigger)));
    }
  }

  predicate RunStep(s: Step) {
    || s.RunReturned? || s.RunFailed? || s.SnapshotRead? || s.SnapshotReadFailed?
    || s.Decided? || s.CommitReturned? || s.CommitFailed?
  }

  /** The steps of an executing run. */
  lemma RunStepKeepsInv(m: State, s: Step)
    requires Inv(m) && Enabled(m, s) && RunStep(s)
    ensures Inv(Next(m, s))
  {
    hide Good, EndRun, AbandonRun, OnRunReturned, OnSnapshotRead, OnDecided;
    match s
    case RunReturned(i) => RunReturnedKeepsInv(m, i);
    case RunFailed(i) => AbandonKeepsInv(m, i, Failed);
    case SnapshotRead(i, now) => SnapshotReadKeepsInv(m, i, now);
    case SnapshotReadFailed(i) => AbandonKeepsInv(m, i, Failed);
    case Decided(i) => DecidedKeepsInv(m, i);
    case CommitReturned(i) =>
      CommittingWasCommitted(m, i);
      EndRunKeepsInv(m, i);
    case CommitFailed(i) => AbandonKeepsInv(m, i, Failed);
  }

  lemma NextKeepsInv(m: State, s: Step)
    requires Inv(m) && Enabled(m, s)
    ensures Inv(Next(m, s))
  {
    hide Inv, Next, Enabled;
    if RunStep(s) {
      RunStepKeepsInv(m, s);
    } else {
      ObservingStepKeepsInv(m, s);
    }
  }

  lemma CommittingWasCommitted(m: State, i: nat)
    requires Core(m) && InPhase(m, i, Committing)
    ensures WasCommitted(m.targets[i].history, m.targets[i].active.value.work.run)
  {
    assert Good(m.targets[i], m.observing, m.nextRun);
  }

  // ---- every reachable state ----------------------------------------------

  lemma {:induction false} RunKeepsInv(m: State, steps: seq<Step>)
    requires Inv(m)
    ensures Inv(Run(m, steps))
    decreases |steps|
  {
    hide Inv;
    if steps != [] {
      var before := Run(m, steps[..|steps| - 1]);
      RunKeepsInv(m, steps[..|steps| - 1]);
      if Enabled(before, steps[|steps| - 1]) {
        NextKeepsInv(before, steps[|steps| - 1]);
      }
    }
  }
}
