/** What the mediator does not promise, shown by concrete interleavings. */
module MediatorLimits {
  import opened Wrappers
  import opened Mediator
  import opened MediatorTargets
  import opened MediatorSafety
  import opened MediatorDrain

  const OLD := Snapshot("input-0", "config-0", [])
  const NEW := Snapshot("input-1", "config-0", [])

  /** A mediator drained while no slot and no re-scan is in use: the promise stays pending for ever. */
  lemma IdleDrainNeverResolves(m: State, steps: seq<Step>)
    requires Reachable(m) && !m.draining && !Busy(m)
    ensures !Run(Drain(m), steps).resolved
  {
    ReachableResolution(m);
    DrainResolvesIffItFoundWork(m, steps);
  }

  /** One more step of an interleaving. */
  lemma RunOne(m: State, steps: seq<Step>, s: Step)
    requires Enabled(Run(m, steps), s)
    ensures Run(m, steps + [s]) == Next(Run(m, steps), s)
  {
    assert (steps + [s])[..|steps|] == steps;
  }

  /** One target, generation 0 running in the only slot. */
  const FIRST_RUN := Work(0, Initial, OLD, 0)
  const RUNNING := State(1, [Target(0, Some(OLD), None, None, Some(Active(FIRST_RUN, false, Running)), Idle, None, false,
                                    [Scheduled(0, 0), Started(0, 0)])],
                         [], 1, true, Settled, false, false, 1)

  const PRELUDE := [StartCalled, InitialScanned(0, OLD), StartSettled]

  lemma PreludeReachesRunning()
    ensures Run(Initially(1, 1), PRELUDE) == RUNNING
  {
    var m0 := Initially(1, 1);
    assert Run(m0, []) == m0;
    RunOne(m0, [], StartCalled);
    RunOne(m0, [StartCalled], InitialScanned(0, OLD));
    var m2 := Next(Next(m0, StartCalled), InitialScanned(0, OLD));
    assert [StartCalled] + [InitialScanned(0, OLD)] == [StartCalled, InitialScanned(0, OLD)];
    RunOne(m0, [StartCalled, InitialScanned(0, OLD)], StartSettled);
    assert [StartCalled, InitialScanned(0, OLD)] + [StartSettled] == PRELUDE;
    var ready := m2.(startup := Settled);
    assert Eligible(ready, 0) && FirstEligible(ready, 0) == 0;
    assert Pump(LaunchAt(ready, 0)) == LaunchAt(ready, 0);
    var launched := LaunchAt(ready, 0);
    assert launched.targets[0].history == [Scheduled(0, 0), Started(0, 0)];
    assert launched.targets[0] == RUNNING.targets[0];
    assert launched.targets == RUNNING.targets && launched.queue == [];
  }

  /** The run returns, its re-scan begins, and a change is noticed meanwhile. */
  const OVERTAKEN := [RunReturned(0), HintCalled(0, Change), TimerFired(0), Scanned(0), SnapshotRead(0, OLD)]

  lemma OvertakenReachesCompared()
    ensures AboutToCommit(Run(RUNNING, OVERTAKEN))
  {
    hide Pump;
    assert Run(RUNNING, []) == RUNNING;
    RunOne(RUNNING, [], RunReturned(0));
    var s1 := [RunReturned(0)];
    var m1 := Next(RUNNING, RunReturned(0));
    assert Run(RUNNING, s1) == m1 && m1.targets[0].active == Some(Active(FIRST_RUN, false, Rescanning));
    hide AbandonRun, OnRunReturned, Run;
    RunOne(RUNNING, s1, HintCalled(0, Change));
    var s2 := s1 + [HintCalled(0, Change)];
    RunOne(RUNNING, s2, TimerFired(0));
    var s3 := s2 + [TimerFired(0)];
    RunOne(RUNNING, s3, Scanned(0));
    var s4 := s3 + [Scanned(0)];
    RunOne(RUNNING, s4, SnapshotRead(0, OLD));
    assert s4 + [SnapshotRead(0, OLD)] == OVERTAKEN;
  }

  lemma RunConcat(m: State, before: seq<Step>, after: seq<Step>)
    ensures Run(m, before + after) == Run(Run(m, before), after)
    decreases |after|
  {
    if after == [] {
      assert before + after == before;
    } else {
      assert (before + after)[..|before + after| - 1] == before + after[..|after| - 1];
      RunConcat(m, before, after[..|after| - 1]);
    }
  }

  /** The first run of one target, compared and about to be decided, while a change awaits stability. */
  ghost predicate AboutToCommit(m: State) {
    && |m.targets| == 1 && m.observing && !m.draining && m.queue == [] && m.activeSlots == 1 == m.slots
    && m.targets[0].rescan == AwaitStable(Change) && m.targets[0].snapshot == Some(OLD)
    && m.targets[0].active == Some(Active(FIRST_RUN, false, Compared(true)))
    && m.targets[0].generation == 0 && m.targets[0].pending.None? && m.targets[0].deferred.None?
  }

  ghost predicate Overtaken(m: State) {
    |m.targets| == 1 && m.targets[0].generation == 1 && m.targets[0].active == Some(Active(FIRST_RUN, true, Compared(true)))
  }

  lemma ChangeOvertakes(m: State)
    requires AboutToCommit(m)
    ensures Overtaken(Next(m, Stabilised(0, Some(NEW))))
  {
  }

  lemma OvertakenCommits(m: State)
    requires Overtaken(m)
    ensures var r := Next(m, Decided(0));
      |r.targets| == 1 && r.targets[0].generation == 1 && r.targets[0].active.Some?
      && r.targets[0].active.value.cancelled && Committed(0, 0) in r.targets[0].history
  {
    var h := Next(m, Decided(0)).targets[0].history;
    assert h[|h| - 1] == Committed(0, 0);
  }

  /** Confirming the change supersedes the compared run, which commits all the same. */
  lemma ComparedRunCommitsLate(m: State)
    requires AboutToCommit(m)
    ensures var r := Run(m, [Stabilised(0, Some(NEW)), Decided(0)]);
      |r.targets| == 1 && r.targets[0].generation == 1 && r.targets[0].active.Some?
      && r.targets[0].active.value.cancelled && Committed(0, 0) in r.targets[0].history
  {
    ChangeOvertakes(m);
    OvertakenCommits(Next(m, Stabilised(0, Some(NEW))));
    assert Run(m, []) == m;
    RunOne(m, [], Stabilised(0, Some(NEW)));
    hide Next, Run;
    assert [] + [Stabilised(0, Some(NEW))] == [Stabilised(0, Some(NEW))];
    RunOne(m, [Stabilised(0, Some(NEW))], Decided(0));
    assert [Stabilised(0, Some(NEW))] + [Decided(0)] == [Stabilised(0, Some(NEW)), Decided(0)];
  }

  /**
   The checks are made before the awaited re-scan and not again after it: a run
   whose generation is superseded while its re-scan is under way still commits.
   */
  lemma SupersededRunStillCommits()
    ensures exists steps ::
      var m := Run(Initially(1, 1), steps);
      |m.targets| == 1 && m.targets[0].generation == 1 && m.targets[0].active.Some?
      && m.targets[0].active.value.cancelled && Committed(0, 0) in m.targets[0].history
  {
    hide Run;
    PreludeReachesRunning();
    OvertakenReachesCompared();
    RunConcat(Initially(1, 1), PRELUDE, OVERTAKEN);
    var late := [Stabilised(0, Some(NEW)), Decided(0)];
    ComparedRunCommitsLate(Run(RUNNING, OVERTAKEN));
    RunConcat(Initially(1, 1), PRELUDE + OVERTAKEN, late);
    assert Committed(0, 0) in Run(Initially(1, 1), PRELUDE + OVERTAKEN + late).targets[0].history;
  }

  lemma CancelledMeansOvertaken(m: State, i: nat)
    requires Inv(m) && i < |m.targets| && m.targets[i].active.Some?
    ensures var a := m.targets[i].active.value;
      !a.cancelled <==> m.observing && a.work.generation == m.targets[i].generation
  {
    hide QueueOk, StartupOk, HistoryOk, Vouched;
    assert Good(m.targets[i], m.observing, m.nextRun);
  }

  lemma DecidedCommits(m: State, i: nat)
    requires InPhase(m, i, Compared(true))
    ensures var a := m.targets[i].active.value;
      Next(m, Decided(i)).targets[i].history == m.targets[i].history + [Committed(a.work.run, a.work.generation)]
  {
  }

  /** The late commit is of a live run of the newest generation exactly when the run was not cancelled meanwhile. */
  lemma CommitIsNewestIffNotCancelled(m: State, i: nat)
    requires Reachable(m) && InPhase(m, i, Compared(true))
    ensures var a := m.targets[i].active.value;
      && Next(m, Decided(i)).targets[i].history
           == m.targets[i].history + [Committed(a.work.run, a.work.generation)]
      && (!a.cancelled <==> m.observing && a.work.generation == m.targets[i].generation)
  {
    hide Inv, Next, Reachable;
    ReachableInv(m);
    CancelledMeansOvertaken(m, i);
    DecidedCommits(m, i);
  }
}
