/**
 The worker pool of a stress run (src/application/stress-test-command.ts:276-324).
 Each stretch of a worker between two awaits is one step; a schedule is any
 sequence of completions. Whether a case fails is a function of its index.
 */
module StressPool {
  import opened Wrappers

  datatype Worker = Running(index: nat) | Exited

  datatype State = State(
    workers: seq<Worker>,
    next: nat,
    completed: nat,
    stopped: bool,
    canceled: bool,
    findings: seq<nat>,
    claims: seq<nat>)

  /** What a worker sees at the head of its loop: cancellation requested, deadline passed. */
  datatype Sight = Sight(cancel: bool, late: bool)

  const CLEAR := Sight(false, false)

  /** A completion: the worker whose case finished, and what it sees next. */
  datatype Event = Finish(worker: nat, sight: Sight)

  /** The head of the loop: leave, or claim the next index. */
  function LoopHead(s: State, w: nat, max: nat, sight: Sight): State
    requires w < |s.workers|
  {
    if s.stopped || s.next >= max || sight.late then s.(workers := s.workers[w := Exited])
    else if sight.cancel then s.(workers := s.workers[w := Exited], canceled := true, stopped := true)
    else s.(workers := s.workers[w := Running(s.next)], next := s.next + 1, claims := s.claims + [s.next])
  }

  /** `worker()` is called for each worker in turn before any case finishes. */
  function Launch(sights: seq<Sight>, max: nat): (s: State)
    ensures |s.workers| == |sights|
  {
    if sights == [] then State([], 0, 0, false, false, [], [])
    else
      var before := Launch(sights[..|sights| - 1], max);
      LoopHead(before.(workers := before.workers + [Exited]), |sights| - 1, max, sights[|sights| - 1])
  }

  predicate Enabled(s: State, e: Event) {
    e.worker < |s.workers| && s.workers[e.worker].Running?
  }

  function Record(s: State, index: nat, fails: nat -> bool): State {
    if fails(index) then s.(completed := s.completed + 1, findings := s.findings + [index], stopped := true)
    else s.(completed := s.completed + 1)
  }

  function Step(s: State, e: Event, max: nat, fails: nat -> bool): State
    requires Enabled(s, e)
  {
    LoopHead(Record(s, s.workers[e.worker].index, fails), e.worker, max, e.sight)
  }

  /** The state after a schedule, if every event of it was possible. */
  function Run(sights: seq<Sight>, events: seq<Event>, max: nat, fails: nat -> bool): Option<State> {
    if events == [] then Some(Launch(sights, max))
    else
      match Run(sights, events[..|events| - 1], max, fails)
      case None => None
      case Some(s) =>
        var e := events[|events| - 1];
        if Enabled(s, e) then Some(Step(s, e, max, fails)) else None
  }

  predicate Finished(s: State) {
    forall w | 0 <= w < |s.workers| :: s.workers[w].Exited?
  }

  function Smallest(xs: seq<nat>): Option<nat> {
    if xs == [] then None
    else
      match Smallest(xs[1..])
      case None => Some(xs[0])
      case Some(m) => Some(if xs[0] < m then xs[0] else m)
  }

  /** `findings[0] ?? null` after sorting by index. */
  function Finding(s: State): Option<nat> {
    Smallest(s.findings)
  }

  // ---- invariant ------------------------------------------------------------------------

  predicate IsRunning(s: State, index: nat) {
    exists w | 0 <= w < |s.workers| :: s.workers[w] == Running(index)
  }

  function RunningCount(workers: seq<Worker>): nat {
    if workers == [] then 0 else RunningCount(workers[..|workers| - 1]) + if workers[|workers| - 1].Running? then 1 else 0
  }

  /** Claims are the contiguous prefix, each once; a claimed case is running in one worker or has been recorded. */
  ghost predicate Claimed(s: State, max: nat) {
    && s.next <= max && |s.claims| == s.next && (forall i | 0 <= i < s.next :: s.claims[i] == i)
    && (forall w | 0 <= w < |s.workers| && s.workers[w].Running? :: s.workers[w].index < s.next)
    && (forall v, w | 0 <= v < w < |s.workers| && s.workers[v].Running? && s.workers[w].Running? ::
          s.workers[v].index != s.workers[w].index)
    && s.completed + RunningCount(s.workers) == s.next
  }

  /** The findings are exactly the claimed cases that have finished and failed. */
  ghost predicate Recorded(s: State, fails: nat -> bool) {
    && (forall i: nat :: i in s.findings <==> i < s.next && !IsRunning(s, i) && fails(i))
    && (s.stopped <==> s.findings != [] || s.canceled)
  }

  ghost predicate Inv(s: State, max: nat, fails: nat -> bool) {
    Claimed(s, max) && Recorded(s, fails)
  }

  lemma {:induction false} CountUpdate(workers: seq<Worker>, w: nat, to: Worker)
    requires w < |workers|
    ensures RunningCount(workers[w := to]) + (if workers[w].Running? then 1 else 0)
         == RunningCount(workers) + (if to.Running? then 1 else 0)
  {
    var n := |workers| - 1;
    if w < n {
      CountUpdate(workers[..n], w, to);
      assert workers[w := to][..n] == workers[..n][w := to];
    } else {
      assert workers[w := to][..n] == workers[..n];
    }
  }

  /** A worker that holds no claim of its own reaches the head of its loop. */
  lemma LoopHeadKeepsClaims(s: State, w: nat, max: nat, sight: Sight)
    requires w < |s.workers| && s.workers[w].Exited? && Claimed(s, max)
    ensures Claimed(LoopHead(s, w, max, sight), max)
  {
    CountUpdate(s.workers, w, Exited);
    CountUpdate(s.workers, w, Running(s.next));
  }

  lemma RunningAfter(s: State, w: nat, to: Worker, i: nat)
    requires w < |s.workers| && s.workers[w].Exited?
    ensures IsRunning(s.(workers := s.workers[w := to]), i) <==> IsRunning(s, i) || to == Running(i)
  {
    var t := s.(workers := s.workers[w := to]);
    if IsRunning(s, i) {
      var v :| 0 <= v < |s.workers| && s.workers[v] == Running(i);
      assert t.workers[v] == Running(i);
    }
    if to == Running(i) {
      assert t.workers[w] == Running(i);
    }
  }

  lemma LoopHeadKeepsRecords(s: State, w: nat, max: nat, sight: Sight, fails: nat -> bool)
    requires w < |s.workers| && s.workers[w].Exited? && Recorded(s, fails)
    ensures Recorded(LoopHead(s, w, max, sight), fails)
  {
    hide IsRunning;
    var t := LoopHead(s, w, max, sight);
    forall i: nat ensures IsRunning(t, i) <==> IsRunning(s, i) || t.workers[w] == Running(i) {
      RunningAfter(s, w, t.workers[w], i);
      SameWorkers(t, s.(workers := s.workers[w := t.workers[w]]), i);
    }
    forall i: nat ensures i in t.findings <==> i < t.next && !IsRunning(t, i) && fails(i) {
    }
  }

  lemma SameWorkers(s: State, t: State, i: nat)
    requires s.workers == t.workers
    ensures IsRunning(s, i) <==> IsRunning(t, i)
  {
  }

  /** The state as if the worker had already let go of its finished case. */
  function Released(s: State, w: nat, fails: nat -> bool): State
    requires w < |s.workers| && s.workers[w].Running?
  {
    Record(s, s.workers[w].index, fails).(workers := s.workers[w := Exited])
  }

  lemma StepIsLoopHead(s: State, e: Event, max: nat, fails: nat -> bool)
    requires Enabled(s, e)
    ensures Step(s, e, max, fails) == LoopHead(Released(s, e.worker, fails), e.worker, max, e.sight)
  {
    var idle := s.workers[e.worker := Exited];
    assert s.workers[e.worker := Exited] == idle[e.worker := Exited];
    assert s.workers[e.worker := Running(s.next)] == idle[e.worker := Running(s.next)];
  }

  lemma ReleaseKeepsInv(s: State, w: nat, max: nat, fails: nat -> bool)
    requires w < |s.workers| && s.workers[w].Running? && Inv(s, max, fails)
    ensures Inv(Released(s, w, fails), max, fails)
  {
    var index, t := s.workers[w].index, Released(s, w, fails);
    CountUpdate(s.workers, w, Exited);
    forall i: nat ensures IsRunning(t, i) <==> IsRunning(s, i) && i != index {
      if IsRunning(s, i) && i != index {
        var v :| 0 <= v < |s.workers| && s.workers[v] == Running(i);
        assert t.workers[v] == Running(i);
      }
    }
    assert IsRunning(s, index);
  }

  lemma StepKeepsInv(s: State, e: Event, max: nat, fails: nat -> bool)
    requires Enabled(s, e) && Inv(s, max, fails)
    ensures Inv(Step(s, e, max, fails), max, fails)
  {
    hide Claimed, Recorded, LoopHead, Step;
    StepIsLoopHead(s, e, max, fails);
    ReleaseKeepsInv(s, e.worker, max, fails);
    LoopHeadKeepsClaims(Released(s, e.worker, fails), e.worker, max, e.sight);
    LoopHeadKeepsRecords(Released(s, e.worker, fails), e.worker, max, e.sight, fails);
  }

  lemma {:induction false} LaunchHasInv(sights: seq<Sight>, max: nat, fails: nat -> bool)
    ensures Inv(Launch(sights, max), max, fails)
  {
    if sights != [] {
      var n := |sights| - 1;
      LaunchHasInv(sights[..n], max, fails);
      var before := Launch(sights[..n], max);
      var joined := before.(workers := before.workers + [Exited]);
      assert joined.workers[..n] == before.workers;
      forall i: nat ensures IsRunning(joined, i) <==> IsRunning(before, i) {
        if IsRunning(before, i) {
          var v :| 0 <= v < n && before.workers[v] == Running(i);
          assert joined.workers[v] == Running(i);
        }
      }
      assert Inv(joined, max, fails);
      LoopHeadKeepsClaims(joined, n, max, sights[n]);
      LoopHeadKeepsRecords(joined, n, max, sights[n], fails);
    }
  }

  /** Over every schedule, with or without cancellation and deadline. */
  lemma {:induction false} EveryRunKeepsInv(sights: seq<Sight>, events: seq<Event>, max: nat, fails: nat -> bool)
    requires Run(sights, events, max, fails).Some?
    ensures Inv(Run(sights, events, max, fails).value, max, fails)
  {
    hide Inv, Step, Launch;
    if events == [] {
      LaunchHasInv(sights, max, fails);
    } else {
      var init, e := events[..|events| - 1], events[|events| - 1];
      EveryRunKeepsInv(sights, init, max, fails);
      StepKeepsInv(Run(sights, init, max, fails).value, e, max, fails);
    }
  }

  // ---- progress -----------------------------------------------------------------------------

  lemma {:induction false} CompletedCounts(sights: seq<Sight>, events: seq<Event>, max: nat, fails: nat -> bool)
    requires Run(sights, events, max, fails).Some?
    ensures Run(sights, events, max, fails).value.completed == |events|
  {
    if events == [] {
      LaunchCompletesNothing(sights, max);
    } else {
      CompletedCounts(sights, events[..|events| - 1], max, fails);
    }
  }

  lemma {:induction false} LaunchCompletesNothing(sights: seq<Sight>, max: nat)
    ensures Launch(sights, max).completed == 0
  {
    if sights != [] {
      LaunchCompletesNothing(sights[..|sights| - 1], max);
    }
  }

  /** A pool finishes: no schedule is longer than the case limit, and an unfinished pool can always step. */
  lemma PoolTerminates(sights: seq<Sight>, events: seq<Event>, max: nat, fails: nat -> bool)
    requires Run(sights, events, max, fails).Some?
    ensures |events| <= max
    ensures var s := Run(sights, events, max, fails).value; !Finished(s) ==> exists w :: Enabled(s, Finish(w, CLEAR))
  {
    EveryRunKeepsInv(sights, events, max, fails);
    CompletedCounts(sights, events, max, fails);
    var s := Run(sights, events, max, fails).value;
    if !Finished(s) {
      var w :| 0 <= w < |s.workers| && !s.workers[w].Exited?;
      assert Enabled(s, Finish(w, CLEAR));
    }
  }

  // ---- the finding ----------------------------------------------------------------------------

  lemma {:induction false} SmallestIsLeast(xs: seq<nat>)
    ensures match Smallest(xs) case None => xs == [] case Some(m) => m in xs && forall x | x in xs :: m <= x
  {
    if xs != [] {
      SmallestIsLeast(xs[1..]);
      var m := Smallest(xs).value;
      forall x | x in xs ensures m <= x {
        assert x == xs[0] || x in xs[1..];
      }
    }
  }

  lemma {:induction false} NoneRunning(workers: seq<Worker>)
    requires forall w | 0 <= w < |workers| :: workers[w].Exited?
    ensures RunningCount(workers) == 0
  {
    if workers != [] {
      NoneRunning(workers[..|workers| - 1]);
    }
  }

  /** When all workers have left, every claimed case is complete and the least failing claimed index is reported. */
  lemma FinishedReportsLeastClaimed(sights: seq<Sight>, events: seq<Event>, max: nat, fails: nat -> bool)
    requires Run(sights, events, max, fails).Some? && Finished(Run(sights, events, max, fails).value)
    ensures var s := Run(sights, events, max, fails).value;
      && s.completed == s.next <= max
      && match Finding(s)
         case None => forall i | 0 <= i < s.next :: !fails(i)
         case Some(m) => m < s.next && fails(m) && forall i | 0 <= i < m :: !fails(i)
  {
    EveryRunKeepsInv(sights, events, max, fails);
    var s := Run(sights, events, max, fails).value;
    NoneRunning(s.workers);
    SmallestIsLeast(s.findings);
    forall i: nat ensures i in s.findings <==> i < s.next && fails(i) {
    }
  }

  // ---- undisturbed runs --------------------------------------------------------------------------

  predicate Undisturbed(sights: seq<Sight>, events: seq<Event>) {
    (forall k | 0 <= k < |sights| :: sights[k] == CLEAR) && forall k | 0 <= k < |events| :: events[k].sight == CLEAR
  }

  /** Nobody leaves while there is work and no failure. */
  predicate Busy(s: State, max: nat) {
    !s.canceled && ((exists w | 0 <= w < |s.workers| :: s.workers[w].Exited?) ==> s.stopped || s.next >= max)
  }

  lemma LoopHeadKeepsBusy(s: State, w: nat, max: nat)
    requires w < |s.workers| && !s.canceled
    requires (exists v | 0 <= v < |s.workers| && v != w :: s.workers[v].Exited?) ==> s.stopped || s.next >= max
    ensures Busy(LoopHead(s, w, max, CLEAR), max)
  {
    var t := LoopHead(s, w, max, CLEAR);
    forall v | 0 <= v < |t.workers| && v != w ensures t.workers[v] == s.workers[v] {
    }
  }

  lemma {:induction false} LaunchIsBusy(sights: seq<Sight>, max: nat)
    requires forall k | 0 <= k < |sights| :: sights[k] == CLEAR
    ensures Busy(Launch(sights, max), max)
  {
    if sights != [] {
      var n := |sights| - 1;
      LaunchIsBusy(sights[..n], max);
      var before := Launch(sights[..n], max);
      var joined := before.(workers := before.workers + [Exited]);
      forall v | 0 <= v < |joined.workers| && v != n ensures joined.workers[v] == before.workers[v] {
      }
      LoopHeadKeepsBusy(joined, n, max);
    }
  }

  lemma {:induction false} UndisturbedIsBusy(sights: seq<Sight>, events: seq<Event>, max: nat, fails: nat -> bool)
    requires Undisturbed(sights, events) && Run(sights, events, max, fails).Some?
    ensures Busy(Run(sights, events, max, fails).value, max)
  {
    if events == [] {
      LaunchIsBusy(sights, max);
    } else {
      var init, e := events[..|events| - 1], events[|events| - 1];
      UndisturbedIsBusy(sights, init, max, fails);
      var s := Run(sights, init, max, fails).value;
      LoopHeadKeepsBusy(Record(s, s.workers[e.worker].index, fails), e.worker, max);
    }
  }

  /** The least failing index below `max`, whatever happens to be run. */
  function LeastFailing(from: nat, max: nat, fails: nat -> bool): Option<nat>
    decreases max - from
  {
    if from >= max then None else if fails(from) then Some(from) else LeastFailing(from + 1, max, fails)
  }

  lemma {:induction false} LeastFailingIs(from: nat, max: nat, fails: nat -> bool)
    ensures match LeastFailing(from, max, fails)
      case None => forall i | from <= i < max :: !fails(i)
      case Some(m) => from <= m < max && fails(m) && forall i | from <= i < m :: !fails(i)
    decreases max - from
  {
    if from < max && !fails(from) {
      LeastFailingIs(from + 1, max, fails);
    }
  }

  function WorkerCount(jobs: nat, max: nat): nat {
    var n := if jobs < max then jobs else max;
    if n < 1 then 1 else n
  }

  /**
   Whatever the schedule and the number of workers, an undisturbed pool reports
   the least failing index of all cases, or null exactly when none fails, and then
   it has run every case.
   */
  lemma FindingIsScheduleIndependent(jobs: nat, sights: seq<Sight>, events: seq<Event>, max: nat, fails: nat -> bool)
    requires |sights| == WorkerCount(jobs, max) && Undisturbed(sights, events)
    requires Run(sights, events, max, fails).Some? && Finished(Run(sights, events, max, fails).value)
    ensures var s := Run(sights, events, max, fails).value;
      && Finding(s) == LeastFailing(0, max, fails)
      && (Finding(s).None? ==> s.completed == max)
  {
    hide Run, Launch;
    FinishedReportsLeastClaimed(sights, events, max, fails);
    UndisturbedIsBusy(sights, events, max, fails);
    EveryRunKeepsInv(sights, events, max, fails);
    LeastFailingIs(0, max, fails);
    var s := Run(sights, events, max, fails).value;
    assert |s.workers| == |sights| by { WorkersStay(sights, events, max, fails); }
    assert s.workers[0].Exited?;
    SmallestIsLeast(s.findings);
  }

  lemma {:induction false} WorkersStay(sights: seq<Sight>, events: seq<Event>, max: nat, fails: nat -> bool)
    requires Run(sights, events, max, fails).Some?
    ensures |Run(sights, events, max, fails).value.workers| == |sights|
  {
    if events != [] {
      WorkersStay(sights, events[..|events| - 1], max, fails);
    }
  }
}
