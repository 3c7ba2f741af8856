/**
 The worker pool of a fixed-case run (src/application/test-command.ts:409-447).
 Workers claim ordinals; results land in the slot of their case, so the list
 they leave is in source order whatever the schedule. A case interrupted by
 cancellation has no result.
 */
module FixedCasePool {
  import opened Wrappers

  datatype Worker = Running(ordinal: nat) | Exited

  datatype State<R> = State(workers: seq<Worker>, next: nat, completed: seq<Option<R>>, claims: seq<nat>)

  /** A completion: its worker, the result unless the case was interrupted, and whether cancellation is now requested. */
  datatype Event<R> = Finish(worker: nat, result: Option<R>, cancel: bool)

  function LoopHead<R>(s: State<R>, w: nat, n: nat, cancel: bool): State<R>
    requires w < |s.workers|
  {
    if cancel || s.next >= n then s.(workers := s.workers[w := Exited])
    else s.(workers := s.workers[w := Running(s.next)], next := s.next + 1, claims := s.claims + [s.next])
  }

  function Blank<R>(n: nat): (r: seq<Option<R>>)
    ensures |r| == n && forall i | 0 <= i < n :: r[i] == None
  {
    seq(n, _ => None)
  }

  function Launch<R>(cancels: seq<bool>, n: nat): (s: State<R>)
    ensures |s.workers| == |cancels|
  {
    if cancels == [] then State([], 0, Blank(n), [])
    else
      var before := Launch<R>(cancels[..|cancels| - 1], n);
      LoopHead(before.(workers := before.workers + [Exited]), |cancels| - 1, n, cancels[|cancels| - 1])
  }

  /** Only cancellation interrupts a case; otherwise its result is a function of the case. */
  ghost predicate Enabled<R>(s: State<R>, e: Event<R>, results: nat -> R) {
    e.worker < |s.workers| && s.workers[e.worker].Running? && s.workers[e.worker].ordinal < |s.completed|
    && (e.result.Some? ==> e.result.value == results(s.workers[e.worker].ordinal))
    && (e.result.None? ==> e.cancel)
  }

  function Record<R>(s: State<R>, ordinal: nat, result: Option<R>): State<R>
    requires ordinal < |s.completed|
  {
    if result.Some? then s.(completed := s.completed[ordinal := result]) else s
  }

  function Step<R>(s: State<R>, e: Event<R>, n: nat, results: nat -> R): State<R>
    requires Enabled(s, e, results)
  {
    var recorded := Record(s, s.workers[e.worker].ordinal, e.result);
    if e.result.None? || e.cancel then recorded.(workers := recorded.workers[e.worker := Exited])
    else LoopHead(recorded, e.worker, n, e.cancel)
  }

  ghost function Run<R>(cancels: seq<bool>, events: seq<Event<R>>, n: nat, results: nat -> R): Option<State<R>> {
    if events == [] then Some(Launch(cancels, n))
    else
      match Run(cancels, events[..|events| - 1], n, results)
      case None => None
      case Some(s) =>
        var e := events[|events| - 1];
        if Enabled(s, e, results) then Some(Step(s, e, n, results)) else None
  }

  predicate Finished<R>(s: State<R>) {
    forall w | 0 <= w < |s.workers| :: s.workers[w].Exited?
  }

  /** `completed.filter((item) => item !== undefined)` */
  function Filter<R>(completed: seq<Option<R>>): seq<R> {
    if completed == [] then [] else (if completed[0].Some? then [completed[0].value] else []) + Filter(completed[1..])
  }

  function Results<R>(s: State<R>): seq<R> {
    Filter(s.completed)
  }

  // ---- invariant ---------------------------------------------------------------------------

  predicate IsRunning<R>(s: State<R>, ordinal: nat) {
    exists w | 0 <= w < |s.workers| :: s.workers[w] == Running(ordinal)
  }

  /** Claims are the contiguous prefix, each once, and no two workers hold the same one. */
  ghost predicate Claimed<R>(s: State<R>, n: nat) {
    && s.next <= n && |s.claims| == s.next && (forall i | 0 <= i < s.next :: s.claims[i] == i)
    && (forall w | 0 <= w < |s.workers| && s.workers[w].Running? :: s.workers[w].ordinal < s.next)
    && (forall v, w | 0 <= v < w < |s.workers| && s.workers[v].Running? && s.workers[w].Running? ::
          s.workers[v].ordinal != s.workers[w].ordinal)
  }

  /** A slot holds its own case's result or nothing; nothing for unclaimed and running cases. */
  ghost predicate Placed<R>(s: State<R>, n: nat, results: nat -> R) {
    && |s.completed| == n
    && (forall i | 0 <= i < n && s.completed[i].Some? :: i < s.next && s.completed[i].value == results(i))
    && (forall i | 0 <= i < n && IsRunning(s, i) :: s.completed[i].None?)
  }

  ghost predicate Inv<R>(s: State<R>, n: nat, results: nat -> R) {
    Claimed(s, n) && Placed(s, n, results)
  }

  lemma RunningAfter<R>(s: State<R>, t: State<R>, w: nat, i: nat)
    requires w < |s.workers| == |t.workers| && t.workers == s.workers[w := t.workers[w]] && IsRunning(t, i)
    ensures IsRunning(s, i) || t.workers[w] == Running(i)
  {
    var v :| 0 <= v < |t.workers| && t.workers[v] == Running(i);
    if v != w {
      assert s.workers[v] == Running(i);
    }
  }

  lemma LoopHeadKeepsInv<R>(s: State<R>, w: nat, n: nat, cancel: bool, results: nat -> R)
    requires w < |s.workers| && s.workers[w].Exited? && Inv(s, n, results)
    ensures Inv(LoopHead(s, w, n, cancel), n, results)
  {
    var t := LoopHead(s, w, n, cancel);
    forall i | 0 <= i < n && IsRunning(t, i) ensures t.completed[i].None? {
      RunningAfter(s, t, w, i);
    }
  }

  /** The state once the worker has stored its result and let go of the case. */
  function Released<R>(s: State<R>, e: Event<R>): State<R>
    requires e.worker < |s.workers| && s.workers[e.worker].Running? && s.workers[e.worker].ordinal < |s.completed|
  {
    Record(s, s.workers[e.worker].ordinal, e.result).(workers := s.workers[e.worker := Exited])
  }

  lemma ReleaseKeepsInv<R>(s: State<R>, e: Event<R>, n: nat, results: nat -> R)
    requires Enabled(s, e, results) && Inv(s, n, results)
    ensures Inv(Released(s, e), n, results)
  {
    var t, ordinal := Released(s, e), s.workers[e.worker].ordinal;
    forall i | 0 <= i < n && IsRunning(t, i) ensures t.completed[i].None? {
      RunningAfter(s, t, e.worker, i);
      var v :| 0 <= v < |t.workers| && t.workers[v] == Running(i);
      assert s.workers[v] == Running(i) && v != e.worker;
    }
  }

  lemma StepIsLoopHead<R>(s: State<R>, e: Event<R>, n: nat, results: nat -> R)
    requires Enabled(s, e, results)
    ensures Step(s, e, n, results) == LoopHead(Released(s, e), e.worker, n, e.cancel)
  {
    var idle := s.workers[e.worker := Exited];
    assert s.workers[e.worker := Exited] == idle[e.worker := Exited];
    assert s.workers[e.worker := Running(s.next)] == idle[e.worker := Running(s.next)];
  }

  lemma {:induction false} LaunchHasInv<R>(cancels: seq<bool>, n: nat, results: nat -> R)
    ensures Inv(Launch<R>(cancels, n), n, results)
  {
    if cancels != [] {
      var k := |cancels| - 1;
      LaunchHasInv(cancels[..k], n, results);
      var before := Launch<R>(cancels[..k], n);
      var joined := before.(workers := before.workers + [Exited]);
      forall i | 0 <= i < n && IsRunning(joined, i) ensures joined.completed[i].None? {
        var v :| 0 <= v < |joined.workers| && joined.workers[v] == Running(i);
        assert before.workers[v] == Running(i);
      }
      LoopHeadKeepsInv(joined, k, n, cancels[k], results);
    }
  }

  /** Over every schedule, cancelled or not. */
  lemma {:induction false} EveryRunKeepsInv<R>(cancels: seq<bool>, events: seq<Event<R>>, n: nat, results: nat -> R)
    requires Run(cancels, events, n, results).Some?
    ensures Inv(Run(cancels, events, n, results).value, n, results)
  {
    if events == [] {
      LaunchHasInv(cancels, n, results);
    } else {
      hide Inv, Step, LoopHead, Enabled;
      var init, e := events[..|events| - 1], events[|events| - 1];
      EveryRunKeepsInv(cancels, init, n, results);
      var s := Run(cancels, init, n, results).value;
      ReleaseKeepsInv(s, e, n, results);
      StepIsLoopHead(s, e, n, results);
      ReleasedExits(s, e, results);
      LoopHeadKeepsInv(Released(s, e), e.worker, n, e.cancel, results);
    }
  }

  lemma ReleasedExits<R>(s: State<R>, e: Event<R>, results: nat -> R)
    requires Enabled(s, e, results)
    ensures e.worker < |Released(s, e).workers| && Released(s, e).workers[e.worker].Exited?
  {
  }

  // ---- progress -----------------------------------------------------------------------------

  function BusyWorkers(workers: seq<Worker>): nat {
    if workers == [] then 0 else (if workers[0].Running? then 1 else 0) + BusyWorkers(workers[1..])
  }

  lemma {:induction false} BusyUpdate(workers: seq<Worker>, w: nat, to: Worker)
    requires w < |workers|
    ensures BusyWorkers(workers[w := to]) + (if workers[w].Running? then 1 else 0)
         == BusyWorkers(workers) + (if to.Running? then 1 else 0)
  {
    if w > 0 {
      BusyUpdate(workers[1..], w - 1, to);
      assert workers[w := to][1..] == workers[1..][w - 1 := to];
    } else {
      assert workers[0 := to][1..] == workers[1..];
    }
  }

  lemma {:induction false} BusySnoc(workers: seq<Worker>)
    ensures BusyWorkers(workers + [Exited]) == BusyWorkers(workers)
  {
    if workers == [] {
      assert [Exited][1..] == [];
    } else {
      BusySnoc(workers[1..]);
      assert (workers + [Exited])[1..] == workers[1..] + [Exited];
    }
  }

  /** Each claimed case has finished or is running. */
  lemma {:induction false} LaunchIsBalanced<R>(cancels: seq<bool>, n: nat)
    ensures BusyWorkers(Launch<R>(cancels, n).workers) == Launch<R>(cancels, n).next
  {
    if cancels != [] {
      var k := |cancels| - 1;
      LaunchIsBalanced<R>(cancels[..k], n);
      var before := Launch<R>(cancels[..k], n);
      BusySnoc(before.workers);
      BusyUpdate(before.workers + [Exited], k, Launch<R>(cancels, n).workers[k]);
    }
  }

  lemma StepIsBalanced<R>(s: State<R>, e: Event<R>, n: nat, results: nat -> R)
    requires Enabled(s, e, results)
    ensures 1 + BusyWorkers(Step(s, e, n, results).workers) - Step(s, e, n, results).next == BusyWorkers(s.workers) - s.next
  {
    BusyUpdate(s.workers, e.worker, Step(s, e, n, results).workers[e.worker]);
  }

  lemma {:induction false} RunIsBalanced<R>(cancels: seq<bool>, events: seq<Event<R>>, n: nat, results: nat -> R)
    requires Run(cancels, events, n, results).Some?
    ensures var s := Run(cancels, events, n, results).value; |events| + BusyWorkers(s.workers) == s.next
  {
    if events == [] {
      LaunchIsBalanced<R>(cancels, n);
    } else {
      hide Step, Enabled;
      var init := events[..|events| - 1];
      RunIsBalanced(cancels, init, n, results);
      StepIsBalanced(Run(cancels, init, n, results).value, events[|events| - 1], n, results);
    }
  }

  /** A pool finishes, cancelled or not: no schedule is longer than the case list, and an unfinished pool can always step. */
  lemma PoolTerminates<R>(cancels: seq<bool>, events: seq<Event<R>>, n: nat, results: nat -> R)
    requires Run(cancels, events, n, results).Some?
    ensures |events| <= n
    ensures var s := Run(cancels, events, n, results).value; !Finished(s) ==> exists e :: Enabled(s, e, results)
  {
    EveryRunKeepsInv(cancels, events, n, results);
    RunIsBalanced(cancels, events, n, results);
    var s := Run(cancels, events, n, results).value;
    if !Finished(s) {
      var w :| 0 <= w < |s.workers| && !s.workers[w].Exited?;
      assert Enabled(s, Finish(w, Some(results(s.workers[w].ordinal)), false), results);
    }
  }

  // ---- results in source order ------------------------------------------------------------------

  /** Which cases have a result. */
  function Ordinals<R>(completed: seq<Option<R>>, from: nat): seq<nat> {
    if completed == [] then [] else (if completed[0].Some? then [from] else []) + Ordinals(completed[1..], from + 1)
  }

  function MapResults<R>(ordinals: seq<nat>, results: nat -> R): (r: seq<R>)
    ensures |r| == |ordinals| && forall i | 0 <= i < |r| :: r[i] == results(ordinals[i])
  {
    seq(|ordinals|, i requires 0 <= i < |ordinals| => results(ordinals[i]))
  }

  lemma MapSplit<R>(a: seq<nat>, b: seq<nat>, results: nat -> R)
    ensures MapResults(a + b, results) == MapResults(a, results) + MapResults(b, results)
  {
  }

  /** Each slot that is filled holds its own case's result. */
  ghost predicate OwnResults<R>(completed: seq<Option<R>>, from: nat, results: nat -> R) {
    forall i | 0 <= i < |completed| && completed[i].Some? :: completed[i].value == results(from + i)
  }

  predicate Increasing(ordinals: seq<nat>, from: nat, to: nat) {
    && (forall i, j | 0 <= i < j < |ordinals| :: ordinals[i] < ordinals[j])
    && forall i | 0 <= i < |ordinals| :: from <= ordinals[i] < to
  }

  lemma {:induction false} FilterInOrder<R>(completed: seq<Option<R>>, from: nat, results: nat -> R)
    requires OwnResults(completed, from, results)
    ensures Filter(completed) == MapResults(Ordinals(completed, from), results)
    ensures Increasing(Ordinals(completed, from), from, from + |completed|)
  {
    if completed != [] {
      var rest := Ordinals(completed[1..], from + 1);
      OwnTail(completed, from, results);
      FilterInOrder(completed[1..], from + 1, results);
      hide OwnResults, MapResults;
      if completed[0].Some? {
        FirstOwn(completed, from, results);
        MapSplit([from], rest, results);
      }
    }
  }

  lemma OwnTail<R>(completed: seq<Option<R>>, from: nat, results: nat -> R)
    requires OwnResults(completed, from, results) && completed != []
    ensures OwnResults(completed[1..], from + 1, results)
  {
    forall i | 0 <= i < |completed| - 1 && completed[1..][i].Some?
      ensures completed[1..][i].value == results(from + 1 + i)
    {
      assert completed[1..][i] == completed[i + 1];
    }
  }

  lemma FirstOwn<R>(completed: seq<Option<R>>, from: nat, results: nat -> R)
    requires OwnResults(completed, from, results) && completed != [] && completed[0].Some?
    ensures [completed[0].value] == MapResults([from], results)
  {
    assert completed[0].value == results(from + 0);
  }

  /** Cancelled or not, the results are those of distinct claimed cases, in source order. */
  lemma ResultsInSourceOrder<R>(cancels: seq<bool>, events: seq<Event<R>>, n: nat, results: nat -> R)
    requires Run(cancels, events, n, results).Some?
    ensures var s := Run(cancels, events, n, results).value;
      var ordinals := Ordinals(s.completed, 0);
      && Results(s) == MapResults(ordinals, results)
      && (forall i, j | 0 <= i < j < |ordinals| :: ordinals[i] < ordinals[j])
      && forall o | o in ordinals :: o < s.next
  {
    EveryRunKeepsInv(cancels, events, n, results);
    var s := Run(cancels, events, n, results).value;
    assert OwnResults(s.completed, 0, results);
    FilterInOrder(s.completed, 0, results);
    forall o | o in Ordinals(s.completed, 0) ensures o < s.next {
      OrdinalHasResult(s.completed, 0, o);
    }
  }

  lemma {:induction false} OrdinalHasResult<R>(completed: seq<Option<R>>, from: nat, o: nat)
    requires o in Ordinals(completed, from)
    ensures from <= o < from + |completed| && completed[o - from].Some?
  {
    if completed != [] && !(completed[0].Some? && o == from) {
      OrdinalHasResult(completed[1..], from + 1, o);
    }
  }

  // ---- undisturbed runs ----------------------------------------------------------------------------

  predicate Undisturbed<R>(cancels: seq<bool>, events: seq<Event<R>>) {
    (forall k | 0 <= k < |cancels| :: !cancels[k]) && forall k | 0 <= k < |events| :: !events[k].cancel
  }

  /** Nobody leaves while there is work, and every claimed case runs or has its result. */
  ghost predicate Busy<R>(s: State<R>, n: nat) {
    && |s.completed| == n
    && ((exists w | 0 <= w < |s.workers| :: s.workers[w].Exited?) ==> s.next >= n)
    && forall i | 0 <= i < s.next && i < n :: s.completed[i].Some? || IsRunning(s, i)
  }

  lemma RunningStays<R>(s: State<R>, t: State<R>, w: nat, i: nat)
    requires w < |s.workers| == |t.workers| && t.workers == s.workers[w := t.workers[w]] && IsRunning(s, i) && s.workers[w] != Running(i)
    ensures IsRunning(t, i)
  {
    var v :| 0 <= v < |s.workers| && s.workers[v] == Running(i);
    assert t.workers[v] == Running(i);
  }

  lemma LoopHeadKeepsBusy<R>(s: State<R>, w: nat, n: nat)
    requires w < |s.workers| && s.workers[w].Exited? && |s.completed| == n
    requires (exists v | 0 <= v < |s.workers| && v != w :: s.workers[v].Exited?) ==> s.next >= n
    requires forall i | 0 <= i < s.next && i < n :: s.completed[i].Some? || IsRunning(s, i)
    ensures Busy(LoopHead(s, w, n, false), n)
  {
    var t := LoopHead(s, w, n, false);
    forall v | 0 <= v < |t.workers| && v != w ensures t.workers[v] == s.workers[v] {
    }
    forall i | 0 <= i < t.next && i < n ensures t.completed[i].Some? || IsRunning(t, i) {
      if i < s.next && s.completed[i].None? {
        RunningStays(s, t, w, i);
      } else if i == s.next {
        assert t.workers[w] == Running(i);
      }
    }
  }

  lemma {:induction false} LaunchIsBusy<R>(cancels: seq<bool>, n: nat)
    requires forall k | 0 <= k < |cancels| :: !cancels[k]
    ensures Busy(Launch<R>(cancels, n), n)
  {
    if cancels != [] {
      var k := |cancels| - 1;
      LaunchIsBusy<R>(cancels[..k], n);
      var before := Launch<R>(cancels[..k], n);
      var joined := before.(workers := before.workers + [Exited]);
      forall v | 0 <= v < |joined.workers| && v != k ensures joined.workers[v] == before.workers[v] {
      }
      forall i | 0 <= i < joined.next && i < n ensures joined.completed[i].Some? || IsRunning(joined, i) {
        if joined.completed[i].None? {
          var v :| 0 <= v < k && before.workers[v] == Running(i);
          assert joined.workers[v] == Running(i);
        }
      }
      LoopHeadKeepsBusy(joined, k, n);
    }
  }

  lemma ReleaseKeepsBusy<R>(s: State<R>, e: Event<R>, n: nat, results: nat -> R)
    requires Enabled(s, e, results) && !e.cancel && Busy(s, n)
    ensures var t := Released(s, e);
      && ((exists v | 0 <= v < |t.workers| && v != e.worker :: t.workers[v].Exited?) ==> t.next >= n)
      && (forall i | 0 <= i < t.next && i < n :: t.completed[i].Some? || IsRunning(t, i))
  {
    var t, ordinal := Released(s, e), s.workers[e.worker].ordinal;
    forall v | 0 <= v < |t.workers| && v != e.worker ensures t.workers[v] == s.workers[v] {
    }
    forall i | 0 <= i < t.next && i < n ensures t.completed[i].Some? || IsRunning(t, i) {
      if i != ordinal && s.completed[i].None? {
        RunningStays(s, t, e.worker, i);
      }
    }
  }

  lemma {:induction false} UndisturbedIsBusy<R>(cancels: seq<bool>, events: seq<Event<R>>, n: nat, results: nat -> R)
    requires Undisturbed(cancels, events) && Run(cancels, events, n, results).Some?
    ensures Busy(Run(cancels, events, n, results).value, n)
  {
    if events == [] {
      LaunchIsBusy<R>(cancels, n);
    } else {
      hide Busy, Step, LoopHead, Enabled;
      var init, e := events[..|events| - 1], events[|events| - 1];
      UndisturbedIsBusy(cancels, init, n, results);
      var s := Run(cancels, init, n, results).value;
      ReleaseKeepsBusy(s, e, n, results);
      StepIsLoopHead(s, e, n, results);
      ReleasedExits(s, e, results);
      CompletedLength(s, n, e, results);
      LoopHeadKeepsBusy(Released(s, e), e.worker, n);
    }
  }

  lemma CompletedLength<R>(s: State<R>, n: nat, e: Event<R>, results: nat -> R)
    requires Busy(s, n) && Enabled(s, e, results)
    ensures |Released(s, e).completed| == n
  {
  }

  function AllResults<R>(n: nat, results: nat -> R): (r: seq<R>)
    ensures |r| == n && forall i | 0 <= i < n :: r[i] == results(i)
  {
    seq(n, i requires 0 <= i < n => results(i))
  }

  lemma {:induction false} FilterAll<R>(completed: seq<Option<R>>)
    requires forall i | 0 <= i < |completed| :: completed[i].Some?
    ensures |Filter(completed)| == |completed|
    ensures forall i | 0 <= i < |completed| :: Filter(completed)[i] == completed[i].value
  {
    if completed != [] {
      FilterAll(completed[1..]);
    }
  }

  /** Whatever the schedule and the number of workers: one result per case, in source order. */
  lemma OneResultPerCase<R>(cancels: seq<bool>, events: seq<Event<R>>, n: nat, results: nat -> R)
    requires |cancels| > 0 && Undisturbed(cancels, events)
    requires Run(cancels, events, n, results).Some? && Finished(Run(cancels, events, n, results).value)
    ensures Results(Run(cancels, events, n, results).value) == AllResults(n, results)
  {
    hide Run;
    UndisturbedIsBusy(cancels, events, n, results);
    EveryRunKeepsInv(cancels, events, n, results);
    WorkersStay(cancels, events, n, results);
    var s := Run(cancels, events, n, results).value;
    assert s.workers[0].Exited?;
    forall i | 0 <= i < n ensures s.completed[i] == Some(results(i)) {
      assert !IsRunning(s, i);
    }
    FilterAll(s.completed);
  }

  lemma {:induction false} WorkersStay<R>(cancels: seq<bool>, events: seq<Event<R>>, n: nat, results: nat -> R)
    requires Run(cancels, events, n, results).Some?
    ensures |Run(cancels, events, n, results).value.workers| == |cancels|
  {
    if events != [] {
      WorkersStay(cancels, events[..|events| - 1], n, results);
    }
  }

  /** `jobs` must be positive; with no cases nothing runs. */
  function WorkerCount(jobs: int, n: nat): Result<nat, bool> {
    if jobs <= 0 then Err(true) else Ok(if jobs < n then jobs else n)
  }

  lemma AnyJobCount<R>(jobs: int, n: nat, cancels: seq<bool>, events: seq<Event<R>>, results: nat -> R)
    requires WorkerCount(jobs, n) == Ok(|cancels|) && Undisturbed(cancels, events)
    requires Run(cancels, events, n, results).Some? && Finished(Run(cancels, events, n, results).value)
    ensures Results(Run(cancels, events, n, results).value) == AllResults(n, results)
  {
    if n == 0 {
      EveryRunKeepsInv(cancels, events, n, results);
      assert Run(cancels, events, n, results).value.completed == [];
    } else {
      OneResultPerCase(cancels, events, n, results);
    }
  }
}
