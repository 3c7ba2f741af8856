/**
 The latest-wins watch mediator as a state machine (src/watch/scheduler.ts).

 Every stretch of code between two awaits is one step. A `Step` names which
 awaited promise settled (or which public method was called) and carries what
 the environment supplied; `Next` is the code that then runs. Targets are
 named by their position in registration order, and `createRunId` is a counter.
 */
module Mediator {
  import opened Wrappers

  /** What a scan reports; `files` is metadata that comparison ignores. */
  datatype Snapshot = Snapshot(inputHash: string, configurationHash: string, files: seq<string>)

  datatype Trigger = Initial | Change | Overflow | Reset | Error

  datatype Reason = Superseded | Canceled | Stale | Draining | Failed

  /** A scheduled run: `PendingRun` in the source. */
  datatype Work = Work(generation: nat, trigger: Trigger, snapshot: Snapshot, run: nat)

  /** Where an executing run is suspended. */
  datatype Phase =
    | Running                  // awaiting the run itself
    | Rescanning               // awaiting the scan inside isSnapshotCurrent
    | Compared(same: bool)     // isSnapshotCurrent has answered, execute has not resumed
    | Committing               // awaiting result.commit()

  datatype Active = Active(work: Work, cancelled: bool, phase: Phase)

  /** Where confirmChange is suspended; `rescanInFlight` is `!Idle?`. */
  datatype Rescan = Idle | AwaitScan(trigger: Trigger) | AwaitStable(trigger: Trigger)

  /** What happened to one target's runs, oldest first. */
  datatype Event =
    | Scheduled(run: nat, generation: nat)
    | Cancelled(run: nat, reason: Reason)
    | Started(run: nat, generation: nat)
    | RescanBegan(run: nat, generation: nat, newest: nat, cancelled: bool, observing: bool)
    | Rescanned(run: nat, same: bool)
    | Committed(run: nat, generation: nat)
    | Ended(run: nat)

  datatype Target = Target(
    generation: nat,
    snapshot: Option<Snapshot>,
    timer: Option<Trigger>,
    pending: Option<Work>,
    active: Option<Active>,
    rescan: Rescan,
    deferred: Option<Trigger>,
    initialScan: bool,
    history: seq<Event>)
  {
    function Log(e: Event): Target {
      this.(history := history + [e])
    }
  }

  datatype State = State(
    slots: nat,
    targets: seq<Target>,
    queue: seq<nat>,
    activeSlots: int,
    observing: bool,
    startup: Startup,
    draining: bool,
    resolved: bool,
    nextRun: nat)

  /** The promise returned by `start`. */
  datatype Startup = NotStarted | Scanning | ScanFailed | Settled

  datatype Step =
    | StartCalled
    | InitialScanned(target: nat, found: Snapshot)
    | InitialScanFailed(target: nat)
    | StartSettled
    | HintCalled(target: nat, trigger: Trigger)
    | TimerFired(target: nat)
    | Scanned(target: nat)
    | Stabilised(target: nat, stable: Option<Snapshot>)
    | RescanFailed(target: nat)
    | RunReturned(target: nat)
    | RunFailed(target: nat)
    | SnapshotRead(target: nat, now: Snapshot)
    | SnapshotReadFailed(target: nat)
    | Decided(target: nat)
    | CommitReturned(target: nat)
    | CommitFailed(target: nat)
    | DrainCalled

  predicate SameSnapshot(left: Snapshot, right: Snapshot) {
    left.inputHash == right.inputHash && left.configurationHash == right.configurationHash
  }

  const FRESH_TARGET := Target(0, None, None, None, None, Idle, None, false, [])

  function Initially(slots: nat, count: nat): State {
    State(slots, seq(count, _ => FRESH_TARGET), [], 0, false, NotStarted, false, false, 0)
  }

  function Put(m: State, i: nat, t: Target): State
    requires i < |m.targets|
  {
    m.(targets := m.targets[i := t])
  }

  // ---- scheduling ----------------------------------------------------------

  function Enqueue(m: State, i: nat): State {
    if i in m.queue then m else m.(queue := m.queue + [i])
  }

  function CancelPending(t: Target, reason: Reason): Target {
    if t.pending.Some? then t.(pending := None).Log(Cancelled(t.pending.value.run, reason)) else t
  }

  function CancelActive(t: Target, reason: Reason): Target {
    if t.active.Some?
    then t.(active := Some(t.active.value.(cancelled := true))).Log(Cancelled(t.active.value.work.run, reason))
    else t
  }

  function Schedule(t: Target, work: Work): Target {
    CancelPending(t, Superseded).(pending := Some(work)).Log(Scheduled(work.run, work.generation))
  }

  function ReplacePending(m: State, i: nat, trigger: Trigger, found: Snapshot): (r: State)
    requires i < |m.targets|
    ensures |r.targets| == |m.targets| && r.slots == m.slots
    ensures r.draining == m.draining && (m.draining || r.resolved == m.resolved)
  {
    var t := m.targets[i];
    Enqueue(Put(m, i, Schedule(t, Work(t.generation, trigger, found, m.nextRun))), i).(nextRun := m.nextRun + 1)
  }

  predicate Eligible(m: State, i: nat) {
    i < |m.targets| && m.targets[i].active.None? && m.targets[i].pending.Some?
  }

  /** `queue.findIndex(...)`, with the length of the queue standing for -1. */
  function FirstEligible(m: State, from: nat): (k: nat)
    requires from <= |m.queue|
    ensures from <= k <= |m.queue|
    ensures k < |m.queue| ==> Eligible(m, m.queue[k])
    ensures forall j | from <= j < k :: !Eligible(m, m.queue[j])
    decreases |m.queue| - from
  {
    if from == |m.queue| || Eligible(m, m.queue[from]) then from else FirstEligible(m, from + 1)
  }

  function Launch(t: Target): Target
    requires t.pending.Some?
  {
    t.(pending := None, active := Some(Active(t.pending.value, false, Running)))
     .Log(Started(t.pending.value.run, t.pending.value.generation))
  }

  function LaunchAt(m: State, k: nat): State
    requires k < |m.queue| && Eligible(m, m.queue[k])
  {
    Put(m, m.queue[k], Launch(m.targets[m.queue[k]]))
      .(queue := m.queue[..k] + m.queue[k + 1..], activeSlots := m.activeSlots + 1)
  }

  function Pump(m: State): (r: State)
    ensures |r.targets| == |m.targets| && r.slots == m.slots && r.startup == m.startup
    ensures r.observing == m.observing && r.draining == m.draining && r.resolved == m.resolved
    decreases |m.queue|
  {
    if m.observing && m.activeSlots < m.slots && |m.queue| > 0 then
      var k := FirstEligible(m, 0);
      if k == |m.queue| then m else Pump(LaunchAt(m, k))
    else m
  }

  // ---- finishing -----------------------------------------------------------

  predicate Busy(m: State) {
    m.activeSlots != 0 || exists i | 0 <= i < |m.targets| :: !m.targets[i].rescan.Idle?
  }

  function FinishDrainIfIdle(m: State): (r: State)
    ensures |r.targets| == |m.targets| && r.slots == m.slots
    ensures r.draining == m.draining && (m.draining || r.resolved == m.resolved)
  {
    if m.draining && !Busy(m) then m.(resolved := true) else m
  }

  /** The `finally` block of execute. */
  function EndRun(m: State, i: nat): (r: State)
    requires i < |m.targets| && m.targets[i].active.Some?
    ensures |r.targets| == |m.targets| && r.slots == m.slots
    ensures r.draining == m.draining && (m.draining || r.resolved == m.resolved)
  {
    var t := m.targets[i];
    Pump(FinishDrainIfIdle(
           Put(m, i, t.(active := None).Log(Ended(t.active.value.work.run)))
             .(activeSlots := m.activeSlots - 1)))
  }

  /** The not-fresh branch and the `catch` block of execute, then `finally`. */
  function AbandonRun(m: State, i: nat, reason: Reason): (r: State)
    requires i < |m.targets| && m.targets[i].active.Some?
    ensures |r.targets| == |m.targets| && r.slots == m.slots
    ensures r.draining == m.draining && (m.draining || r.resolved == m.resolved)
  {
    var t := m.targets[i];
    EndRun(Put(m, i, t.Log(Cancelled(t.active.value.work.run, reason))), i)
  }

  function NotFreshReason(m: State, a: Active): Reason {
    if a.cancelled then Canceled else if m.observing then Stale else Draining
  }

  // ---- change detection ----------------------------------------------------

  function Hint(m: State, i: nat, trigger: Trigger): (r: State)
    ensures |r.targets| == |m.targets| && r.slots == m.slots
    ensures r.draining == m.draining && (m.draining || r.resolved == m.resolved)
  {
    if !m.observing || i >= |m.targets| then m
    else Put(m, i, m.targets[i].(timer := Some(trigger)))
  }

  function ConfirmChange(m: State, i: nat, trigger: Trigger): (r: State)
    requires i < |m.targets|
    ensures |r.targets| == |m.targets| && r.slots == m.slots
    ensures r.draining == m.draining && (m.draining || r.resolved == m.resolved)
  {
    var t := m.targets[i];
    if !m.observing then m
    else if !t.rescan.Idle? then Put(m, i, t.(deferred := Some(trigger)))
    else Put(m, i, t.(rescan := AwaitScan(trigger)))
  }

  /** A confirmed change: advance the generation, replace the pending run, cancel the active one. */
  function Advance(t: Target, trigger: Trigger, found: Snapshot, run: nat): Target {
    var next := t.generation + 1;
    var scheduled := CancelPending(t, Superseded)
      .(generation := next, snapshot := Some(found), pending := Some(Work(next, trigger, found, run)));
    CancelActive(scheduled, Superseded).Log(Scheduled(run, next))
  }

  function AcceptStable(m: State, i: nat, trigger: Trigger, stable: Option<Snapshot>): (r: State)
    requires i < |m.targets|
    ensures |r.targets| == |m.targets| && r.slots == m.slots
    ensures r.draining == m.draining && (m.draining || r.resolved == m.resolved)
  {
    var t := m.targets[i];
    if !m.observing || stable.None? then
      if m.observing then Hint(m, i, trigger) else m
    else if t.snapshot.Some? && SameSnapshot(t.snapshot.value, stable.value) then m
    else
      Pump(Enqueue(Put(m, i, Advance(t, trigger, stable.value, m.nextRun)), i).(nextRun := m.nextRun + 1))
  }

  /** The `finally` block of confirmChange. */
  function EndRescan(m: State, i: nat): (r: State)
    requires i < |m.targets|
    ensures |r.targets| == |m.targets| && r.slots == m.slots
    ensures r.draining == m.draining && (m.draining || r.resolved == m.resolved)
  {
    var deferred := m.targets[i].deferred;
    var done := FinishDrainIfIdle(Put(m, i, m.targets[i].(rescan := Idle, deferred := None)));
    if done.observing && deferred.Some? then ConfirmChange(done, i, deferred.value) else done
  }

  // ---- drain ---------------------------------------------------------------

  function DrainTarget(t: Target): Target {
    CancelActive(CancelPending(t.(timer := None), Draining), Draining)
  }

  /** The idle check runs inside the promise executor, before `draining` is assigned. */
  function Drain(m: State): (r: State)
    ensures |r.targets| == |m.targets| && r.slots == m.slots
  {
    if m.draining then m
    else
      FinishDrainIfIdle(
        m.(observing := false,
        targets := seq(|m.targets|, i requires 0 <= i < |m.targets| => DrainTarget(m.targets[i])),
        queue := []))
      .(draining := true)
  }

  function Start(m: State): (r: State)
    ensures |r.targets| == |m.targets| && r.slots == m.slots
    ensures r.draining == m.draining && (m.draining || r.resolved == m.resolved)
  {
    if m.observing || m.draining then m
    else m.(observing := true, startup := Scanning,
      targets := seq(|m.targets|, i requires 0 <= i < |m.targets| => m.targets[i].(initialScan := true)))
  }

  // ---- steps ---------------------------------------------------------------

  predicate InPhase(m: State, i: nat, phase: Phase) {
    i < |m.targets| && m.targets[i].active.Some? && m.targets[i].active.value.phase == phase
  }

  /** Whether the promise the step settles is outstanding. */
  predicate Enabled(m: State, s: Step) {
    match s
    case StartCalled => true
    case InitialScanned(i, _) => i < |m.targets| && m.targets[i].initialScan
    case InitialScanFailed(i) => i < |m.targets| && m.targets[i].initialScan
    case StartSettled => m.startup == Scanning && forall i | 0 <= i < |m.targets| :: !m.targets[i].initialScan
    case HintCalled(_, _) => true
    case TimerFired(i) => i < |m.targets| && m.targets[i].timer.Some?
    case Scanned(i) => i < |m.targets| && m.targets[i].rescan.AwaitScan?
    case Stabilised(i, _) => i < |m.targets| && m.targets[i].rescan.AwaitStable?
    case RescanFailed(i) => i < |m.targets| && !m.targets[i].rescan.Idle?
    case RunReturned(i) => InPhase(m, i, Running)
    case RunFailed(i) => InPhase(m, i, Running)
    case SnapshotRead(i, _) => InPhase(m, i, Rescanning)
    case SnapshotReadFailed(i) => InPhase(m, i, Rescanning)
    case Decided(i) => InPhase(m, i, Compared(true)) || InPhase(m, i, Compared(false))
    case CommitReturned(i) => InPhase(m, i, Committing)
    case CommitFailed(i) => InPhase(m, i, Committing)
    case DrainCalled => true
  }

  function SetPhase(t: Target, phase: Phase): Target
    requires t.active.Some?
  {
    t.(active := Some(t.active.value.(phase := phase)))
  }

  function OnInitialScan(m: State, i: nat, found: Snapshot): (r: State)
    requires i < |m.targets|
    ensures |r.targets| == |m.targets| && r.slots == m.slots
    ensures r.draining == m.draining && (m.draining || r.resolved == m.resolved)
  {
    var cleared := Put(m, i, m.targets[i].(initialScan := false));
    if !m.observing then cleared
    else ReplacePending(Put(cleared, i, cleared.targets[i].(snapshot := Some(found))), i, Initial, found)
  }

  function OnRunReturned(m: State, i: nat): (r: State)
    requires InPhase(m, i, Running)
    ensures |r.targets| == |m.targets| && r.slots == m.slots
    ensures r.draining == m.draining && (m.draining || r.resolved == m.resolved)
  {
    var t := m.targets[i];
    var a := t.active.value;
    if m.observing && t.generation == a.work.generation && !a.cancelled then
      Put(m, i, SetPhase(t, Rescanning)
        .Log(RescanBegan(a.work.run, a.work.generation, t.generation, a.cancelled, m.observing)))
    else AbandonRun(m, i, NotFreshReason(m, a))
  }

  function OnSnapshotRead(m: State, i: nat, now: Snapshot): (r: State)
    requires InPhase(m, i, Rescanning)
    ensures |r.targets| == |m.targets| && r.slots == m.slots
    ensures r.draining == m.draining && (m.draining || r.resolved == m.resolved)
  {
    var t := m.targets[i];
    var same := SameSnapshot(now, t.active.value.work.snapshot);
    Put(m, i, SetPhase(t, Compared(same)).Log(Rescanned(t.active.value.work.run, same)))
  }

  function OnDecided(m: State, i: nat): (r: State)
    requires i < |m.targets| && m.targets[i].active.Some? && m.targets[i].active.value.phase.Compared?
    ensures |r.targets| == |m.targets| && r.slots == m.slots
    ensures r.draining == m.draining && (m.draining || r.resolved == m.resolved)
  {
    var t := m.targets[i];
    var a := t.active.value;
    if a.phase.same then Put(m, i, SetPhase(t, Committing).Log(Committed(a.work.run, a.work.generation)))
    else AbandonRun(m, i, NotFreshReason(m, a))
  }

  function Next(m: State, s: Step): State
    requires Enabled(m, s)
  {
    match s
    case StartCalled => Start(m)
    case InitialScanned(i, found) => OnInitialScan(m, i, found)
    case InitialScanFailed(i) => Put(m, i, m.targets[i].(initialScan := false)).(startup := ScanFailed)
    case StartSettled => Pump(m.(startup := Settled))
    case HintCalled(i, trigger) => Hint(m, i, trigger)
    case TimerFired(i) =>
      ConfirmChange(Put(m, i, m.targets[i].(timer := None)), i, m.targets[i].timer.value)
    case Scanned(i) => Put(m, i, m.targets[i].(rescan := AwaitStable(m.targets[i].rescan.trigger)))
    case Stabilised(i, stable) => EndRescan(AcceptStable(m, i, m.targets[i].rescan.trigger, stable), i)
    case RescanFailed(i) => EndRescan(m, i)
    case RunReturned(i) => OnRunReturned(m, i)
    case RunFailed(i) => AbandonRun(m, i, Failed)
    case SnapshotRead(i, now) => OnSnapshotRead(m, i, now)
    case SnapshotReadFailed(i) => AbandonRun(m, i, Failed)
    case Decided(i) => OnDecided(m, i)
    case CommitReturned(i) => EndRun(m, i)
    case CommitFailed(i) => AbandonRun(m, i, Failed)
    case DrainCalled => Drain(m)
  }

  /** One interleaving: steps whose promise is not outstanding cannot happen and change nothing. */
  function Run(m: State, steps: seq<Step>): State
    decreases |steps|
  {
    if steps == [] then m
    else
      var before := Run(m, steps[..|steps| - 1]);
      var s := steps[|steps| - 1];
      if Enabled(before, s) then Next(before, s) else before
  }
}
