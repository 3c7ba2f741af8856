/**
 The mediator as the source writes it: an object whose methods and await
 continuations update its fields. Each method's new state is the one the state
 machine in `Mediator` gives, so its theorems are about this object.
 */
module WatchMediator {
  import opened Wrappers
  import M = Mediator
  import T = MediatorTargets
  import D = MediatorDrain
  import Theorems = MediatorTheorems

  class WatchMediator {
    const slots: nat
    var targets: seq<M.Target>
    var queue: seq<nat>
    var activeSlots: int
    var observing: bool
    var startup: M.Startup
    var draining: bool
    var resolved: bool
    var nextRun: nat

    ghost function Abs(): M.State
      reads this
    {
      M.State(slots, targets, queue, activeSlots, observing, startup, draining, resolved, nextRun)
    }

    /** The state is one that some interleaving reaches, so the theorems hold of it. */
    ghost predicate Valid()
      reads this
    {
      D.Reachable(Abs())
    }

    constructor (slots: nat, count: nat)
      requires slots >= 1
      ensures Valid() && Abs() == M.Initially(slots, count)
    {
      this.slots := slots;
      targets := seq(count, _ => M.FRESH_TARGET);
      queue, activeSlots, nextRun := [], 0, 0;
      observing, draining, resolved := false, false, false;
      startup := M.NotStarted;
      new;
      assert M.Run(M.Initially(slots, count), []) == Abs();
    }

    // ---- public methods ------------------------------------------------------

    method Start()
      modifies this
      ensures Abs() == M.Start(old(Abs()))
      ensures old(Valid()) ==> Valid()
    {
      if Valid() { D.ReachableNext(Abs(), M.StartCalled); }
      if observing || draining { return; }
      observing, startup := true, M.Scanning;
      var i := 0;
      while i < |targets|
        invariant 0 <= i <= |targets| == |old(targets)|
        invariant Abs() == old(Abs()).(observing := true, startup := M.Scanning, targets := targets)
        invariant forall j | 0 <= j < |targets| ::
            targets[j] == if j < i then old(targets)[j].(initialScan := true) else old(targets)[j]
      {
        targets := targets[i := targets[i].(initialScan := true)];
        i := i + 1;
      }
      assert targets == M.Start(old(Abs())).targets;
    }

    method Hint(i: nat, trigger: M.Trigger)
      modifies this
      ensures Abs() == M.Hint(old(Abs()), i, trigger)
      ensures old(Valid()) ==> Valid()
    {
      if Valid() { D.ReachableNext(Abs(), M.HintCalled(i, trigger)); }
      if !observing || i >= |targets| { return; }
      targets := targets[i := targets[i].(timer := Some(trigger))];
    }

    /** A burst of hints, one per target. */
    method HintAll(trigger: M.Trigger)
      modifies this
      ensures Abs() == M.Run(old(Abs()), seq(|old(targets)|, i requires i >= 0 => M.HintCalled(i, trigger)))
                    || (!old(observing) && Abs() == old(Abs()))
      ensures old(Valid()) ==> Valid()
    {
      if !observing { return; }
      var i := 0;
      ghost var hints := [];
      while i < |targets|
        invariant 0 <= i <= |targets| == |old(targets)|
        invariant hints == seq(i, j requires j >= 0 => M.HintCalled(j, trigger))
        invariant Abs() == M.Run(old(Abs()), hints) && (old(Valid()) ==> Valid())
      {
        Hint(i, trigger);
        assert (hints + [M.HintCalled(i, trigger)])[..|hints|] == hints;
        hints := hints + [M.HintCalled(i, trigger)];
        i := i + 1;
      }
    }

    method Drain()
      modifies this
      ensures Abs() == M.Drain(old(Abs()))
      ensures old(Valid()) ==> Valid()
    {
      if Valid() { D.ReachableNext(Abs(), M.DrainCalled); }
      if draining { return; }
      observing := false;
      var i := 0;
      while i < |targets|
        invariant 0 <= i <= |targets| == |old(targets)|
        invariant Abs() == old(Abs()).(observing := false, targets := targets)
        invariant forall j | 0 <= j < |targets| ::
            targets[j] == if j < i then M.DrainTarget(old(targets)[j]) else old(targets)[j]
      {
        targets := targets[i := M.DrainTarget(targets[i])];
        i := i + 1;
      }
      queue := [];
      assert targets == seq(|old(targets)|, i requires 0 <= i < |old(targets)| => M.DrainTarget(old(targets)[i]));
      FinishDrainIfIdle();
      draining := true;
    }

    // ---- scheduling ----------------------------------------------------------

    method Enqueue(i: nat)
      modifies this`queue
      ensures Abs() == M.Enqueue(old(Abs()), i)
    {
      if i !in queue {
        queue := queue + [i];
      }
    }

    method ReplacePending(i: nat, trigger: M.Trigger, found: M.Snapshot)
      requires i < |targets|
      modifies this
      ensures Abs() == M.ReplacePending(old(Abs()), i, trigger, found)
    {
      var t := targets[i];
      targets := targets[i := M.Schedule(t, M.Work(t.generation, trigger, found, nextRun))];
      Enqueue(i);
      nextRun := nextRun + 1;
    }

    method FindEligible() returns (k: nat)
      ensures k == M.FirstEligible(Abs(), 0)
    {
      k := 0;
      while k < |queue| && !(queue[k] < |targets| && targets[queue[k]].active.None? && targets[queue[k]].pending.Some?)
        invariant k <= |queue|
        invariant M.FirstEligible(Abs(), k) == M.FirstEligible(Abs(), 0)
      {
        k := k + 1;
      }
    }

    method LaunchAt(k: nat)
      requires k < |queue| && M.Eligible(Abs(), queue[k])
      modifies this
      ensures Abs() == M.LaunchAt(old(Abs()), k)
    {
      var i := queue[k];
      queue := queue[..k] + queue[k + 1..];
      targets := targets[i := M.Launch(targets[i])];
      activeSlots := activeSlots + 1;
    }

    method Pump()
      modifies this
      ensures Abs() == M.Pump(old(Abs()))
    {
      while observing && activeSlots < slots && |queue| > 0
        invariant M.Pump(Abs()) == M.Pump(old(Abs()))
        decreases |queue|
      {
        var k := FindEligible();
        if k == |queue| { return; }
        LaunchAt(k);
      }
    }

    method FinishDrainIfIdle()
      modifies this`resolved
      ensures Abs() == M.FinishDrainIfIdle(old(Abs()))
    {
      if !draining || activeSlots != 0 { return; }
      var i := 0;
      while i < |targets|
        invariant 0 <= i <= |targets|
        invariant forall j | 0 <= j < i :: targets[j].rescan.Idle?
      {
        if !targets[i].rescan.Idle? { return; }
        i := i + 1;
      }
      resolved := true;
    }

    method EndRun(i: nat)
      requires i < |targets| && targets[i].active.Some?
      modifies this
      ensures Abs() == M.EndRun(old(Abs()), i)
    {
      var t := targets[i];
      targets := targets[i := t.(active := None).Log(M.Ended(t.active.value.work.run))];
      activeSlots := activeSlots - 1;
      FinishDrainIfIdle();
      Pump();
    }

    method AbandonRun(i: nat, reason: M.Reason)
      requires i < |targets| && targets[i].active.Some?
      modifies this
      ensures Abs() == M.AbandonRun(old(Abs()), i, reason)
    {
      targets := targets[i := targets[i].Log(M.Cancelled(targets[i].active.value.work.run, reason))];
      EndRun(i);
    }

    method NotFreshReason(a: M.Active) returns (reason: M.Reason)
      ensures reason == M.NotFreshReason(Abs(), a)
    {
      if a.cancelled { return M.Canceled; }
      if observing { return M.Stale; }
      return M.Draining;
    }

    method ConfirmChange(i: nat, trigger: M.Trigger)
      requires i < |targets|
      modifies this
      ensures Abs() == M.ConfirmChange(old(Abs()), i, trigger)
    {
      if !observing { return; }
      if !targets[i].rescan.Idle? {
        targets := targets[i := targets[i].(deferred := Some(trigger))];
        return;
      }
      targets := targets[i := targets[i].(rescan := M.AwaitScan(trigger))];
    }

    method AcceptStable(i: nat, trigger: M.Trigger, stable: Option<M.Snapshot>)
      requires i < |targets|
      modifies this
      ensures Abs() == M.AcceptStable(old(Abs()), i, trigger, stable)
    {
      hide M.Advance, M.Pump, M.Enqueue;
      var t := targets[i];
      if !observing || stable.None? {
        if observing {
          Hint(i, trigger);
        }
        return;
      }
      if t.snapshot.Some? && M.SameSnapshot(t.snapshot.value, stable.value) { return; }
      targets := targets[i := M.Advance(t, trigger, stable.value, nextRun)];
      Enqueue(i);
      nextRun := nextRun + 1;
      Pump();
    }

    // ---- continuations -------------------------------------------------------

    method OnInitialScan(i: nat, found: M.Snapshot)
      requires M.Enabled(Abs(), M.InitialScanned(i, found))
      modifies this
      ensures Abs() == M.Next(old(Abs()), M.InitialScanned(i, found))
      ensures old(Valid()) ==> Valid()
    {
      if Valid() { D.ReachableNext(Abs(), M.InitialScanned(i, found)); }
      targets := targets[i := targets[i].(initialScan := false)];
      if !observing { return; }
      targets := targets[i := targets[i].(snapshot := Some(found))];
      ReplacePending(i, M.Initial, found);
    }

    method OnStartSettled()
      requires M.Enabled(Abs(), M.StartSettled)
      modifies this
      ensures Abs() == M.Next(old(Abs()), M.StartSettled)
      ensures old(Valid()) ==> Valid()
    {
      if Valid() { D.ReachableNext(Abs(), M.StartSettled); }
      startup := M.Settled;
      Pump();
    }

    method OnTimer(i: nat)
      requires M.Enabled(Abs(), M.TimerFired(i))
      modifies this
      ensures Abs() == M.Next(old(Abs()), M.TimerFired(i))
      ensures old(Valid()) ==> Valid()
    {
      if Valid() { D.ReachableNext(Abs(), M.TimerFired(i)); }
      var trigger := targets[i].timer.value;
      targets := targets[i := targets[i].(timer := None)];
      ConfirmChange(i, trigger);
    }

    method OnScanned(i: nat)
      requires M.Enabled(Abs(), M.Scanned(i))
      modifies this
      ensures Abs() == M.Next(old(Abs()), M.Scanned(i))
      ensures old(Valid()) ==> Valid()
    {
      if Valid() { D.ReachableNext(Abs(), M.Scanned(i)); }
      targets := targets[i := targets[i].(rescan := M.AwaitStable(targets[i].rescan.trigger))];
    }

    method OnStabilised(i: nat, stable: Option<M.Snapshot>)
      requires M.Enabled(Abs(), M.Stabilised(i, stable))
      modifies this
      ensures Abs() == M.Next(old(Abs()), M.Stabilised(i, stable))
      ensures old(Valid()) ==> Valid()
    {
      if Valid() { D.ReachableNext(Abs(), M.Stabilised(i, stable)); }
      AcceptStable(i, targets[i].rescan.trigger, stable);
      EndRescan(i);
    }

    method OnRescanFailed(i: nat)
      requires M.Enabled(Abs(), M.RescanFailed(i))
      modifies this
      ensures Abs() == M.Next(old(Abs()), M.RescanFailed(i))
      ensures old(Valid()) ==> Valid()
    {
      if Valid() { D.ReachableNext(Abs(), M.RescanFailed(i)); }
      EndRescan(i);
    }

    method EndRescan(i: nat)
      requires i < |targets|
      modifies this
      ensures Abs() == M.EndRescan(old(Abs()), i)
    {
      var deferred := targets[i].deferred;
      targets := targets[i := targets[i].(rescan := M.Idle, deferred := None)];
      FinishDrainIfIdle();
      if observing && deferred.Some? {
        ConfirmChange(i, deferred.value);
      }
    }

    method OnRunReturned(i: nat)
      requires M.Enabled(Abs(), M.RunReturned(i))
      modifies this
      ensures Abs() == M.Next(old(Abs()), M.RunReturned(i))
      ensures old(Valid()) ==> Valid()
    {
      if Valid() { D.ReachableNext(Abs(), M.RunReturned(i)); }
      var t := targets[i];
      var a := t.active.value;
      if observing && t.generation == a.work.generation && !a.cancelled {
        targets := targets[i := M.SetPhase(t, M.Rescanning)
          .Log(M.RescanBegan(a.work.run, a.work.generation, t.generation, a.cancelled, observing))];
      } else {
        var reason := NotFreshReason(a);
        AbandonRun(i, reason);
      }
    }

    method OnSnapshotRead(i: nat, now: M.Snapshot)
      requires M.Enabled(Abs(), M.SnapshotRead(i, now))
      modifies this
      ensures Abs() == M.Next(old(Abs()), M.SnapshotRead(i, now))
      ensures old(Valid()) ==> Valid()
    {
      if Valid() { D.ReachableNext(Abs(), M.SnapshotRead(i, now)); }
      var t := targets[i];
      var same := M.SameSnapshot(now, t.active.value.work.snapshot);
      targets := targets[i := M.SetPhase(t, M.Compared(same)).Log(M.Rescanned(t.active.value.work.run, same))];
    }

    method OnDecided(i: nat)
      requires M.Enabled(Abs(), M.Decided(i))
      modifies this
      ensures Abs() == M.Next(old(Abs()), M.Decided(i))
      ensures old(Valid()) ==> Valid()
    {
      if Valid() { D.ReachableNext(Abs(), M.Decided(i)); }
      var t := targets[i];
      var a := t.active.value;
      if a.phase.same {
        targets := targets[i := M.SetPhase(t, M.Committing).Log(M.Committed(a.work.run, a.work.generation))];
      } else {
        var reason := NotFreshReason(a);
        AbandonRun(i, reason);
      }
    }

    ghost function FailureOf(phase: M.Phase, i: nat): M.Step {
      match phase
      case Running => M.RunFailed(i)
      case Rescanning => M.SnapshotReadFailed(i)
      case _ => M.CommitFailed(i)
    }

    /** The run, its re-scan or its commit threw. */
    method OnFailed(i: nat)
      requires i < |targets| && targets[i].active.Some? && !targets[i].active.value.phase.Compared?
      modifies this
      ensures Abs() == M.AbandonRun(old(Abs()), i, M.Failed)
      ensures old(Valid()) ==> Valid()
    {
      if Valid() { D.ReachableNext(Abs(), FailureOf(targets[i].active.value.phase, i)); }
      AbandonRun(i, M.Failed);
    }

    method OnCommitReturned(i: nat)
      requires M.Enabled(Abs(), M.CommitReturned(i))
      modifies this
      ensures Abs() == M.Next(old(Abs()), M.CommitReturned(i))
      ensures old(Valid()) ==> Valid()
    {
      if Valid() { D.ReachableNext(Abs(), M.CommitReturned(i)); }
      EndRun(i);
    }
  }

  /** What the theorems say of the object at any time. */
  lemma KeepsItsPromises(w: WatchMediator)
    requires w.Valid()
    ensures 0 <= w.activeSlots <= w.slots
    ensures forall i: nat | i < |w.targets| ::
              var t := w.targets[i];
              && (i in w.queue <==> t.pending.Some?)
              && (t.pending.Some? ==> t.pending.value.generation == t.generation)
              && T.RunsDoNotOverlap(t.history) && T.CommitsInOrder(t.history) && T.CommitsVouched(t.history) && T.NothingLost(t)
    ensures w.resolved ==> w.queue == [] && forall i | 0 <= i < |w.targets| :: w.targets[i].active.None?
  {
    var slots, count, steps :| w.Abs() == M.Run(M.Initially(slots, count), steps);
    Theorems.ReachableStatesAreConsistent(slots, count, steps);
    Theorems.RunHistoriesAreLatestWins(slots, count, steps);
    Theorems.RunKeepsShape(M.Initially(slots, count), steps);
    assert w.activeSlots == |Theorems.ActiveTargets(w.Abs())|;
    if w.resolved {
      D.ResolvedMeansQuiet(w.Abs(), []);
    }
  }

  // ---- construction --------------------------------------------------------------

  datatype ConfigError = BadDebounce | BadSlots | DuplicateTarget(id: string)

  const MAX_SAFE_INTEGER := 0x1f_ffff_ffff_ffff

  predicate DistinctIds(ids: seq<string>) {
    forall i, j | 0 <= i < j < |ids| :: ids[i] != ids[j]
  }

  predicate BadOptions(debounceMs: int, slots: int) {
    !(0 <= debounceMs <= MAX_SAFE_INTEGER) || !(1 <= slots <= MAX_SAFE_INTEGER)
  }

  /** The checks of the source's constructor, then the object. */
  method Construct(ids: seq<string>, debounceMs: int, slots: int) returns (r: Result<WatchMediator, ConfigError>)
    ensures r.Ok? <==> !BadOptions(debounceMs, slots) && DistinctIds(ids)
    ensures r.Ok? ==> fresh(r.value) && r.value.Valid() && r.value.Abs() == M.Initially(slots, |ids|)
    ensures r.Err? && r.error.DuplicateTarget? ==> exists i, j :: 0 <= i < j < |ids| && ids[i] == ids[j] == r.error.id
  {
    if !(0 <= debounceMs <= MAX_SAFE_INTEGER) { return Err(BadDebounce); }
    if !(1 <= slots <= MAX_SAFE_INTEGER) { return Err(BadSlots); }
    var seen: set<string> := {};
    var n := 0;
    while n < |ids|
      invariant 0 <= n <= |ids| && DistinctIds(ids[..n])
      invariant forall id :: id in seen <==> id in ids[..n]
    {
      if ids[n] in seen {
        ghost var i :| 0 <= i < n && ids[..n][i] == ids[n];
        assert ids[i] == ids[n];
        return Err(DuplicateTarget(ids[n]));
      }
      seen := seen + {ids[n]};
      assert ids[..n + 1] == ids[..n] + [ids[n]];
      n := n + 1;
    }
    assert ids[..n] == ids;
    var w := new WatchMediator(slots, |ids|);
    return Ok(w);
  }
}
