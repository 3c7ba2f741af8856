/** What every step of the mediator keeps about one target and its run history. */
module MediatorTargets {
  import opened Wrappers
  import opened Mediator

  // ---- what a history promises --------------------------------------------

  /** A run that has started has ended by the time the next one starts. */
  ghost predicate RunsDoNotOverlap(h: seq<Event>) {
    forall j, k | 0 <= j < k < |h| && h[j].Started? && h[k].Started? ::
      exists e :: j < e < k && h[e] == Ended(h[j].run)
  }

  /** Commits come in scheduling order, so generations never go back. */
  ghost predicate CommitsInOrder(h: seq<Event>) {
    forall j, k | 0 <= j < k < |h| && h[j].Committed? && h[k].Committed? ::
      h[j].run < h[k].run && h[j].generation <= h[k].generation
  }

  /** Before position `n`, the run was newest, live and observed, and its re-scan then matched. */
  ghost predicate Vouched(h: seq<Event>, run: nat, generation: nat, n: nat)
    requires n <= |h|
  {
    exists a, b :: 0 <= a < b < n && h[a] == RescanBegan(run, generation, generation, false, true)
                   && h[b] == Rescanned(run, true)
  }

  ghost predicate CommitsVouched(h: seq<Event>) {
    forall k | 0 <= k < |h| && h[k].Committed? :: Vouched(h, h[k].run, h[k].generation, k)
  }

  /** Some reason was reported for not committing the run. */
  ghost predicate WasCancelled(h: seq<Event>, run: nat) {
    exists e :: e in h && e.Cancelled? && e.run == run
  }

  ghost predicate WasCommitted(h: seq<Event>, run: nat) {
    exists e :: e in h && e.Committed? && e.run == run
  }

  /** No scheduled run disappears: it waits, runs, committed or was reported cancelled. */
  ghost predicate NothingLost(t: Target) {
    forall e | e in t.history && e.Scheduled? ::
      || (t.pending.Some? && t.pending.value.run == e.run)
      || (t.active.Some? && t.active.value.work.run == e.run)
      || WasCommitted(t.history, e.run)
      || WasCancelled(t.history, e.run)
  }

  // ---- the invariant -------------------------------------------------------

  /** Every start was ended, except possibly that of the current run. */
  ghost predicate StartsEndBy(h: seq<Event>, current: Option<nat>) {
    forall j | 0 <= j < |h| && h[j].Started? ::
      current == Some(h[j].run) || exists e :: j < e < |h| && h[e] == Ended(h[j].run)
  }

  function CurrentRun(t: Target): Option<nat> {
    if t.active.Some? then Some(t.active.value.work.run) else None
  }

  ghost predicate CommitsBounded(t: Target) {
    forall e | e in t.history && e.Committed? ::
      && e.generation <= t.generation
      && (t.pending.Some? ==> e.run < t.pending.value.run)
      && (t.active.Some? ==>
            && e.generation <= t.active.value.work.generation
            && e.run <= t.active.value.work.run
            && (e.run == t.active.value.work.run ==> t.active.value.phase.Committing?))
  }

  ghost predicate PendingOk(t: Target, nextRun: nat) {
    t.pending.Some? ==>
      && t.pending.value.generation == t.generation
      && t.pending.value.run < nextRun
      && (t.active.Some? ==> t.active.value.work.run < t.pending.value.run)
  }

  ghost predicate ActiveOk(t: Target, observing: bool, nextRun: nat) {
    t.active.Some? ==>
      var a := t.active.value;
      && a.work.run < nextRun
      && a.work.generation <= t.generation
      && (a.cancelled <==> !observing || a.work.generation < t.generation)
      && (a.phase.Rescanning? || a.phase.Compared? ==>
            RescanBegan(a.work.run, a.work.generation, a.work.generation, false, true) in t.history)
      && ((a.phase == Compared(true) || a.phase.Committing?) ==>
            Vouched(t.history, a.work.run, a.work.generation, |t.history|))
      && (a.phase.Committing? ==> WasCommitted(t.history, a.work.run))
  }

  ghost predicate HistoryOk(t: Target, nextRun: nat) {
    && (forall e | e in t.history :: e.run < nextRun)
    && RunsDoNotOverlap(t.history)
    && CommitsInOrder(t.history)
    && CommitsVouched(t.history)
    && StartsEndBy(t.history, CurrentRun(t))
    && CommitsBounded(t)
    && NothingLost(t)
  }

  ghost predicate Good(t: Target, observing: bool, nextRun: nat) {
    && PendingOk(t, nextRun)
    && ActiveOk(t, observing, nextRun)
    && HistoryOk(t, nextRun)
    && (!observing ==> t.pending.None? && t.timer.None?)
  }

  // ---- appending one event -------------------------------------------------

  lemma VouchedAppend(h: seq<Event>, e: Event)
    ensures forall run, generation, n: nat | n <= |h| && Vouched(h, run, generation, n) ::
      Vouched(h + [e], run, generation, n)
  {
    forall run, generation, n: nat | n <= |h| && Vouched(h, run, generation, n)
      ensures Vouched(h + [e], run, generation, n)
    {
      var a, b :| 0 <= a < b < n && h[a] == RescanBegan(run, generation, generation, false, true)
                  && h[b] == Rescanned(run, true);
      assert (h + [e])[a] == h[a] && (h + [e])[b] == h[b];
    }
  }

  lemma VouchedByAll(h: seq<Event>, e: Event, run: nat, generation: nat)
    requires Vouched(h, run, generation, |h|)
    ensures Vouched(h + [e], run, generation, |h| + 1)
  {
    var a, b :| 0 <= a < b < |h| && h[a] == RescanBegan(run, generation, generation, false, true)
                && h[b] == Rescanned(run, true);
    assert (h + [e])[a] == h[a] && (h + [e])[b] == h[b];
  }

  lemma MembersAppend(h: seq<Event>, e: Event)
    ensures forall run | WasCancelled(h, run) :: WasCancelled(h + [e], run)
    ensures forall run | WasCommitted(h, run) :: WasCommitted(h + [e], run)
    ensures e.Cancelled? ==> WasCancelled(h + [e], e.run)
    ensures e.Committed? ==> WasCommitted(h + [e], e.run)
  {
    assert forall x | x in h :: x in h + [e];
    assert e in h + [e];
    forall run | WasCancelled(h, run) ensures WasCancelled(h + [e], run) {
      var x :| x in h && x.Cancelled? && x.run == run;
      assert x in h + [e];
    }
    forall run | WasCommitted(h, run) ensures WasCommitted(h + [e], run) {
      var x :| x in h && x.Committed? && x.run == run;
      assert x in h + [e];
    }
  }

  /** Events that neither start nor commit a run keep the order properties. */
  lemma OrderAppend(h: seq<Event>, e: Event)
    requires RunsDoNotOverlap(h) && CommitsInOrder(h) && CommitsVouched(h)
    ensures !e.Started? ==> RunsDoNotOverlap(h + [e])
    ensures !e.Committed? ==> CommitsInOrder(h + [e]) && CommitsVouched(h + [e])
  {
    var g := h + [e];
    assert forall k | 0 <= k < |h| :: g[k] == h[k];
    VouchedAppend(h, e);
    if !e.Started? {
      forall j, k | 0 <= j < k < |g| && g[j].Started? && g[k].Started?
        ensures exists x :: j < x < k && g[x] == Ended(g[j].run)
      {
        var x :| j < x < k && h[x] == Ended(h[j].run);
        assert g[x] == h[x];
      }
    }
  }

  lemma StartsEndAppend(h: seq<Event>, current: Option<nat>, e: Event)
    requires StartsEndBy(h, current)
    ensures !e.Started? ==> StartsEndBy(h + [e], current)
    ensures e.Ended? && current == Some(e.run) ==> StartsEndBy(h + [e], None)
  {
    var g := h + [e];
    assert g[|h|] == e;
    forall j | 0 <= j < |h| && h[j].Started? && exists x :: j < x < |h| && h[x] == Ended(h[j].run)
      ensures g[j] == h[j] && exists x :: j < x < |g| && g[x] == Ended(g[j].run)
    {
      var x :| j < x < |h| && h[x] == Ended(h[j].run);
      assert g[x] == h[x];
    }
    assert forall j | 0 <= j < |h| :: g[j] == h[j];
  }

  /** Logging an event that is neither a start, a commit nor a new schedule. */
  lemma LogKeepsGood(t: Target, e: Event, observing: bool, nextRun: nat)
    requires Good(t, observing, nextRun) && e.run < nextRun
    requires !e.Started? && !e.Committed? && !e.Scheduled?
    ensures Good(t.Log(e), observing, nextRun)
  {
    hide RunsDoNotOverlap, CommitsInOrder, CommitsVouched, StartsEndBy;
    VouchedAppend(t.history, e);
    MembersAppend(t.history, e);
    OrderAppend(t.history, e);
    StartsEndAppend(t.history, CurrentRun(t), e);
  }

  // ---- the transitions of one target ---------------------------------------

  lemma CancelPendingKeepsGood(t: Target, reason: Reason, observing: bool, nextRun: nat)
    requires Good(t, observing, nextRun)
    ensures Good(CancelPending(t, reason), observing, nextRun)
    ensures CancelPending(t, reason).pending.None?
  {
    if t.pending.Some? {
      var e := Cancelled(t.pending.value.run, reason);
      LogKeepsGood(t, e, observing, nextRun);
      MembersAppend(t.history, e);
    }
  }

  /** Making a freshly numbered run of the current generation the pending one. */
  lemma SetPendingKeepsGood(t: Target, w: Work, observing: bool, nextRun: nat)
    requires Good(t, observing, nextRun) && t.pending.None? && observing
    requires w.run == nextRun && w.generation == t.generation
    ensures Good(t.(pending := Some(w)).Log(Scheduled(w.run, w.generation)), observing, nextRun + 1)
  {
    hide RunsDoNotOverlap, CommitsInOrder, CommitsVouched, StartsEndBy;
    var e := Scheduled(w.run, w.generation);
    VouchedAppend(t.history, e);
    MembersAppend(t.history, e);
    OrderAppend(t.history, e);
    StartsEndAppend(t.history, CurrentRun(t), e);
  }

  lemma ScheduleKeepsGood(t: Target, w: Work, nextRun: nat)
    requires Good(t, true, nextRun)
    requires w.run == nextRun && w.generation == t.generation
    ensures Good(Schedule(t, w), true, nextRun + 1)
    ensures var s := Schedule(t, w); s.pending.Some? && s.active == t.active && s.initialScan == t.initialScan
  {
    CancelPendingKeepsGood(t, Superseded, true, nextRun);
    SetPendingKeepsGood(CancelPending(t, Superseded), w, true, nextRun);
  }

  lemma CancelActiveKeepsGood(t: Target, found: Snapshot, nextRun: nat)
    requires Good(t, true, nextRun) && t.pending.None?
    ensures Good(CancelActive(t, Superseded).(generation := t.generation + 1, snapshot := Some(found)), true, nextRun)
  {
    if t.active.Some? {
      LogKeepsGood(t, Cancelled(t.active.value.work.run, Superseded), true, nextRun);
    }
  }

  /** Bumping the generation is sound only together with cancelling the active run. */
  lemma AdvanceKeepsGood(t: Target, trigger: Trigger, found: Snapshot, nextRun: nat)
    requires Good(t, true, nextRun)
    ensures Good(Advance(t, trigger, found, nextRun), true, nextRun + 1)
    ensures var a := Advance(t, trigger, found, nextRun);
            a.pending.Some? && a.active.Some? == t.active.Some? && a.initialScan == t.initialScan
  {
    hide Good;
    CancelPendingKeepsGood(t, Superseded, true, nextRun);
    var t1 := CancelPending(t, Superseded);
    CancelActiveKeepsGood(t1, found, nextRun);
    var quiet := CancelActive(t1, Superseded).(generation := t.generation + 1, snapshot := Some(found));
    var w := Work(t.generation + 1, trigger, found, nextRun);
    SetPendingKeepsGood(quiet, w, true, nextRun);
    assert quiet.(pending := Some(w)).Log(Scheduled(nextRun, t.generation + 1))
        == Advance(t, trigger, found, nextRun) by {
      if t1.active.Some? {
      }
    }
  }

  lemma StartAppend(h: seq<Event>, run: nat, generation: nat)
    requires RunsDoNotOverlap(h) && StartsEndBy(h, None)
    ensures RunsDoNotOverlap(h + [Started(run, generation)])
    ensures StartsEndBy(h + [Started(run, generation)], Some(run))
  {
    var g := h + [Started(run, generation)];
    forall j, k | 0 <= j < k < |g| && g[j].Started? && g[k].Started?
      ensures exists x :: j < x < k && g[x] == Ended(g[j].run)
    {
      assert g[j] == h[j];
      var x :| j < x < |h| && h[x] == Ended(h[j].run) && (k < |h| ==> x < k);
      assert g[x] == h[x];
    }
    forall j | 0 <= j < |g| && g[j].Started? && g[j].run != run
      ensures exists x :: j < x < |g| && g[x] == Ended(g[j].run)
    {
      assert g[j] == h[j];
      var x :| j < x < |h| && h[x] == Ended(h[j].run);
      assert g[x] == h[x];
    }
  }

  lemma LaunchKeepsGood(t: Target, nextRun: nat)
    requires Good(t, true, nextRun) && t.pending.Some? && t.active.None?
    ensures Good(Launch(t), true, nextRun)
  {
    hide RunsDoNotOverlap, CommitsInOrder, CommitsVouched, StartsEndBy;
    var w := t.pending.value;
    var e := Started(w.run, w.generation);
    StartAppend(t.history, w.run, w.generation);
    VouchedAppend(t.history, e);
    MembersAppend(t.history, e);
    OrderAppend(t.history, e);
  }

  lemma BeginRescanKeepsGood(t: Target, nextRun: nat)
    requires Good(t, true, nextRun) && t.active.Some? && t.active.value.phase.Running?
    requires t.generation == t.active.value.work.generation && !t.active.value.cancelled
    ensures var w := t.active.value.work;
            Good(SetPhase(t, Rescanning).Log(RescanBegan(w.run, w.generation, t.generation, false, true)), true, nextRun)
  {
    var w := t.active.value.work;
    var e := RescanBegan(w.run, w.generation, t.generation, false, true);
    LogKeepsGood(t, e, true, nextRun);
    assert e in t.Log(e).history;
  }

  lemma CompareKeepsGood(t: Target, same: bool, observing: bool, nextRun: nat)
    requires Good(t, observing, nextRun) && t.active.Some? && t.active.value.phase.Rescanning?
    ensures Good(SetPhase(t, Compared(same)).Log(Rescanned(t.active.value.work.run, same)), observing, nextRun)
  {
    var w := t.active.value.work;
    var e := Rescanned(w.run, same);
    LogKeepsGood(t, e, observing, nextRun);
    var g := t.Log(e).history;
    if same {
      var began := RescanBegan(w.run, w.generation, w.generation, false, true);
      var a :| 0 <= a < |t.history| && t.history[a] == began;
      assert g[a] == began && g[|t.history|] == e;
      assert Vouched(g, w.run, w.generation, |g|);
    }
  }

  lemma CommitAppend(h: seq<Event>, run: nat, generation: nat)
    requires CommitsInOrder(h) && CommitsVouched(h) && Vouched(h, run, generation, |h|)
    requires forall e | e in h && e.Committed? :: e.run < run && e.generation <= generation
    ensures CommitsInOrder(h + [Committed(run, generation)]) && CommitsVouched(h + [Committed(run, generation)])
  {
    var g := h + [Committed(run, generation)];
    VouchedAppend(h, Committed(run, generation));
    assert forall k | 0 <= k < |h| :: g[k] == h[k] && h[k] in h;
  }

  lemma CommitLosesNothing(t: Target, e: Event)
    requires NothingLost(t) && t.active.Some? && e.Committed? && e.run == t.active.value.work.run
    ensures NothingLost(SetPhase(t, Committing).Log(e))
    ensures WasCommitted(t.Log(e).history, e.run)
  {
    MembersAppend(t.history, e);
  }

  lemma CommitKeepsGood(t: Target, observing: bool, nextRun: nat)
    requires Good(t, observing, nextRun) && t.active.Some? && t.active.value.phase == Compared(true)
    ensures var w := t.active.value.work;
            Good(SetPhase(t, Committing).Log(Committed(w.run, w.generation)), observing, nextRun)
  {
    hide RunsDoNotOverlap, CommitsInOrder, CommitsVouched, StartsEndBy, NothingLost, Vouched, WasCommitted;
    var w := t.active.value.work;
    var e := Committed(w.run, w.generation);
    CommitAppend(t.history, w.run, w.generation);
    OrderAppend(t.history, e);
    StartsEndAppend(t.history, CurrentRun(t), e);
    CommitLosesNothing(t, e);
    VouchedByAll(t.history, e, w.run, w.generation);
  }

  lemma EndLosesNothing(t: Target, e: Event)
    requires NothingLost(t) && t.active.Some? && e == Ended(t.active.value.work.run)
    requires WasCommitted(t.history, e.run) || WasCancelled(t.history, e.run)
    ensures NothingLost(t.(active := None).Log(e))
  {
    MembersAppend(t.history, e);
  }

  /** A run may leave its slot once it committed or was reported cancelled. */
  lemma EndKeepsGood(t: Target, observing: bool, nextRun: nat)
    requires Good(t, observing, nextRun) && t.active.Some?
    requires var run := t.active.value.work.run; WasCommitted(t.history, run) || WasCancelled(t.history, run)
    ensures Good(t.(active := None).Log(Ended(t.active.value.work.run)), observing, nextRun)
  {
    hide RunsDoNotOverlap, CommitsInOrder, CommitsVouched, StartsEndBy;
    var e := Ended(t.active.value.work.run);
    OrderAppend(t.history, e);
    StartsEndAppend(t.history, CurrentRun(t), e);
    EndLosesNothing(t, e);
  }

  lemma DrainKeepsGood(t: Target, nextRun: nat)
    requires Good(t, true, nextRun)
    ensures Good(DrainTarget(t), false, nextRun)
  {
    hide RunsDoNotOverlap, CommitsInOrder, CommitsVouched, StartsEndBy;
    var quiet := t.(timer := None);
    CancelPendingKeepsGood(quiet, Draining, true, nextRun);
    var t1 := CancelPending(quiet, Draining);
    if t1.active.Some? {
      LogKeepsGood(t1, Cancelled(t1.active.value.work.run, Draining), true, nextRun);
    }
  }

  /** Timers, snapshots and scan flags are no part of the run history. */
  lemma SameRunsKeepGood(t: Target, u: Target, observing: bool, nextRun: nat)
    requires Good(t, observing, nextRun)
    requires u.generation == t.generation && u.pending == t.pending && u.active == t.active && u.history == t.history
    requires observing || u.timer.None? || u.timer == t.timer
    ensures Good(u, observing, nextRun)
  {
  }

  lemma LaterNumbersKeepGood(t: Target, observing: bool, nextRun: nat)
    requires Good(t, observing, nextRun)
    ensures Good(t, observing, nextRun + 1)
  {
  }
}
