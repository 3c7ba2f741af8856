/** The promises of the watch mediator, over every interleaving of its steps. */
module MediatorTheorems {
  import opened Wrappers
  import opened Mediator
  import opened MediatorTargets
  import opened MediatorSafety

  ghost function ActiveTargets(m: State): set<nat> {
    set i: nat | i < |m.targets| && m.targets[i].active.Some?
  }

  lemma {:induction false} ActiveCountIsCardinality(ts: seq<Target>)
    ensures ActiveCount(ts) == |set i: nat | i < |ts| && ts[i].active.Some?|
  {
    if ts != [] {
      var last: nat := |ts| - 1;
      var before := set i: nat | i < last && ts[..last][i].active.Some?;
      ActiveCountIsCardinality(ts[..last]);
      assert (set i: nat | i < |ts| && ts[i].active.Some?)
          == before + if ts[last].active.Some? then {last} else {};
    }
  }

  lemma NextKeepsShape(m: State, s: Step)
    requires Enabled(m, s)
    ensures |Next(m, s).targets| == |m.targets| && Next(m, s).slots == m.slots
  {
    hide Pump, EndRun, AbandonRun, Hint, ConfirmChange, AcceptStable, EndRescan, Drain, Start, OnInitialScan,
      OnRunReturned, OnSnapshotRead, OnDecided;
  }

  lemma {:induction false} RunKeepsShape(m: State, steps: seq<Step>)
    ensures |Run(m, steps).targets| == |m.targets| && Run(m, steps).slots == m.slots
    decreases |steps|
  {
    if steps != [] {
      RunKeepsShape(m, steps[..|steps| - 1]);
      if Enabled(Run(m, steps[..|steps| - 1]), steps[|steps| - 1]) {
        NextKeepsShape(Run(m, steps[..|steps| - 1]), steps[|steps| - 1]);
      }
    }
  }

  /** Slots, queue, generations and cancellation agree in every reachable state. */
  lemma ReachableStatesAreConsistent(slots: nat, count: nat, steps: seq<Step>)
    ensures var m := Run(Initially(slots, count), steps);
      && m.activeSlots == |ActiveTargets(m)| <= slots
      && (forall j, k | 0 <= j < k < |m.queue| :: m.queue[j] != m.queue[k])
      && (forall i: nat | i < |m.targets| :: i in m.queue <==> m.targets[i].pending.Some?)
      && (forall i: nat | i < |m.targets| && m.targets[i].pending.Some? ::
            m.targets[i].pending.value.generation == m.targets[i].generation)
      && (forall i: nat | i < |m.targets| && m.targets[i].active.Some? ::
            var a := m.targets[i].active.value;
            && a.work.generation <= m.targets[i].generation
            && (m.observing ==> (a.cancelled <==> a.work.generation < m.targets[i].generation)))
      && (m.observing && m.startup.Settled? && m.activeSlots < slots ==>
            forall i | i in m.queue :: !Eligible(m, i))
  {
    InitiallyInv(slots, count);
    RunKeepsInv(Initially(slots, count), steps);
    RunKeepsShape(Initially(slots, count), steps);
    var m := Run(Initially(slots, count), steps);
    ActiveCountIsCardinality(m.targets);
    forall i: nat | i < |m.targets|
      ensures PendingOk(m.targets[i], m.nextRun) && ActiveOk(m.targets[i], m.observing, m.nextRun)
    {
      assert Good(m.targets[i], m.observing, m.nextRun);
    }
    hide Good;
  }

  /** One target's runs: never two at once, commits in order and vouched for, none lost. */
  lemma RunHistoriesAreLatestWins(slots: nat, count: nat, steps: seq<Step>)
    ensures var m := Run(Initially(slots, count), steps);
      forall i: nat | i < |m.targets| ::
        && RunsDoNotOverlap(m.targets[i].history)
        && CommitsInOrder(m.targets[i].history)
        && CommitsVouched(m.targets[i].history)
        && NothingLost(m.targets[i])
  {
    InitiallyInv(slots, count);
    RunKeepsInv(Initially(slots, count), steps);
    var m := Run(Initially(slots, count), steps);
    forall i: nat | i < |m.targets| ensures HistoryOk(m.targets[i], m.nextRun) {
      assert Good(m.targets[i], m.observing, m.nextRun);
    }
  }
}
