/** What dispatch leaves behind: final statuses stay, and finished runs carry their times. */
module RunStability {
  import opened Wrappers
  import opened RunLifecycle
  import opened RunHistory

  /** Each run is waiting, in flight or past its dispatch, never two of these. */
  ghost predicate DeliveredOnce(w: World) {
    && (forall r :: r in w.jobs ==> r in w.births && r !in w.inFlight && r !in w.ended && r !in w.crashed)
    && (forall r :: r in w.inFlight ==> r in w.births && r !in w.ended && r !in w.crashed)
    && (forall r :: r in w.ended ==> r in w.births && r !in w.crashed)
    && (forall r :: r in w.crashed ==> r in w.births)
    && (forall r :: r in w.runs ==> r in w.births)
  }

  /** A dispatched run still has the status its dispatch wrote, except that a blocked one may be cancelled. */
  ghost predicate FinalStatus(w: World) {
    && (forall r :: r in w.ended && r in w.runs ==>
         w.runs[r].status == w.ended[r] || (w.ended[r] == Blocked && w.runs[r].status == Cancelled))
    && (forall r :: r in w.ended ==> Finished(w.ended[r]))
    && (forall r :: (r in w.inFlight || r in w.crashed) && r in w.runs ==>
         w.runs[r].status.Running? || w.runs[r].status.Cancelled?)
  }

  predicate Finished(s: RunStatus) {
    s.Succeeded? || s.Failed? || s.Cancelled? || s.Blocked?
  }

  /** A finished run carries a finish time, not before its start. */
  predicate RowTimes(run: RunRow, clock: int) {
    && (run.startedAt.Some? ==> run.startedAt.value <= clock)
    && (run.finishedAt.Some? ==> run.finishedAt.value <= clock)
    && (Finished(run.status) ==>
         && run.finishedAt.Some?
         && (run.startedAt.Some? ==> run.startedAt.value <= run.finishedAt.value))
  }

  ghost predicate TimesOrdered(w: World) {
    forall r :: r in w.runs ==> RowTimes(w.runs[r], w.clock)
  }

  ghost predicate Stable(w: World) {
    DeliveredOnce(w) && FinalStatus(w) && TimesOrdered(w)
  }

  /** Events that leave dispatch alone, and at most remove run rows. */
  ghost predicate OnlyRemovesRuns(w: World, w': World) {
    && w'.births == w.births && w'.jobs == w.jobs && w'.inFlight == w.inFlight
    && w'.ended == w.ended && w'.crashed == w.crashed && w'.clock == w.clock
    && forall r :: r in w'.runs ==> r in w.runs && w'.runs[r] == w.runs[r]
  }

  lemma RemovalKeepsStable(w: World, w': World)
    requires Stable(w) && OnlyRemovesRuns(w, w')
    ensures Stable(w')
  {
  }

  lemma AddKeepsStable(w: World, r: string, s: string, attempt: nat, retryOf: Option<string>, queueUp: bool)
    requires Stable(w) && r !in w.births
    ensures Stable(AddRun(w, r, NewRun(s, attempt, retryOf), queueUp))
  {
  }

  lemma CancelKeepsStable(w: World, r: string)
    requires Stable(w)
    ensures Stable(CancelWorld(w, r))
  {
  }

  lemma BeginKeepsDelivered(w: World, r: string, adapters: Adapters)
    requires DeliveredOnce(w) && r in w.jobs
    ensures DeliveredOnce(BeginWorld(w, r, adapters))
  {
    if r in w.runs {
      var row := BeginRow(w.schedules, w.runs[r], adapters, w.clock);
      assert DeliveredOnce(CallWorld(w, r, row));
      assert DeliveredOnce(EndWorld(w, r, row));
    }
  }

  lemma BeginKeepsFinal(w: World, r: string, adapters: Adapters)
    requires DeliveredOnce(w) && FinalStatus(w) && r in w.jobs
    ensures FinalStatus(BeginWorld(w, r, adapters))
  {
    if r in w.runs {
      BeginRowFacts(w.schedules, w.runs[r], adapters, w.clock);
      var row := BeginRow(w.schedules, w.runs[r], adapters, w.clock);
      if row.status == Running {
        CallKeepsFinal(w, r, row);
      } else {
        EndKeepsFinal(w, r, row);
      }
    }
  }

  lemma CallKeepsFinal(w: World, r: string, row: RunRow)
    requires DeliveredOnce(w) && FinalStatus(w) && r in w.jobs && row.status == Running
    ensures FinalStatus(CallWorld(w, r, row))
  {
  }

  lemma EndKeepsFinal(w: World, r: string, row: RunRow)
    requires DeliveredOnce(w) && FinalStatus(w) && r in w.jobs && (row.status == Failed || row.status == Blocked)
    ensures FinalStatus(EndWorld(w, r, row))
  {
  }

  lemma BeginKeepsTimes(w: World, r: string, adapters: Adapters)
    requires TimesOrdered(w)
    ensures TimesOrdered(BeginWorld(w, r, adapters))
  {
    if r in w.runs {
      BeginRowTimes(w.schedules, w.runs[r], adapters, w.clock);
    }
  }

  lemma BeginRowTimes(schedules: map<string, ScheduleRow>, run: RunRow, adapters: Adapters, now: int)
    requires RowTimes(run, now)
    ensures RowTimes(BeginRow(schedules, run, adapters, now), now)
  {
  }

  lemma FinishKeepsDelivered(w: World, r: string, outcome: AdapterOutcome)
    requires DeliveredOnce(w) && r in w.inFlight
    ensures DeliveredOnce(FinishWorld(w, r, outcome))
  {
  }

  lemma FinishKeepsFinal(w: World, r: string, outcome: AdapterOutcome)
    requires DeliveredOnce(w) && FinalStatus(w) && r in w.inFlight
    ensures FinalStatus(FinishWorld(w, r, outcome))
  {
  }

  lemma FinishKeepsTimes(w: World, r: string, outcome: AdapterOutcome)
    requires TimesOrdered(w)
    ensures TimesOrdered(FinishWorld(w, r, outcome))
  {
  }

  lemma CrashKeepsStable(w: World, r: string)
    requires Stable(w) && r in w.inFlight
    ensures Stable(Effect(w, Crash(r)))
  {
  }

  /** The events that touch neither run creation, nor cancelling, nor dispatch. */
  predicate Elsewhere(e: Event) {
    e.AddSchedule? || e.SetSchedule? || e.DropSchedule? || e.Delete? || e.RequestApproval? || e.DecideApproval?
  }

  lemma ElsewhereOnlyRemoves(w: World, e: Event)
    requires Enabled(w, e) && Elsewhere(e)
    ensures OnlyRemovesRuns(w, Effect(w, e))
  {
    match e
    case AddSchedule(s) =>
    case SetSchedule(s, paused, active) =>
    case DropSchedule(s, cascade) =>
    case Delete(r) =>
    case RequestApproval(s, a) =>
    case DecideApproval(a, grant) => assert OnlyRemovesRuns(w, DecideWorld(w, a, grant));
  }

  lemma RetryKeepsStable(w: World, e: Event)
    requires Enabled(w, e) && e.Retry? && Stable(w)
    ensures Stable(Effect(w, e))
  {
    var row := RetryRow(w.schedules, w.runs, e.r);
    if row.Success? {
      AddKeepsStable(w, e.fresh_, row.value.scheduleId, row.value.attempt, row.value.retryOf, e.queueUp);
    }
  }

  lemma EffectKeepsStable(w: World, e: Event)
    requires Enabled(w, e) && Stable(w)
    ensures Stable(Effect(w, e))
  {
    if Elsewhere(e) {
      ElsewhereOnlyRemoves(w, e);
      RemovalKeepsStable(w, Effect(w, e));
    } else {
      match e
      case TickRun(s, r, queueUp) => AddKeepsStable(w, r, s, 1, None, queueUp);
      case Trigger(s, r, _, queueUp) => AddKeepsStable(w, r, s, 1, None, queueUp);
      case Retry(r, fresh_, queueUp) => RetryKeepsStable(w, e);
      case Cancel(r) => CancelKeepsStable(w, r);
      case Begin(r, adapters) =>
        BeginKeepsDelivered(w, r, adapters);
        BeginKeepsFinal(w, r, adapters);
        BeginKeepsTimes(w, r, adapters);
      case Finish(r, outcome) =>
        FinishKeepsDelivered(w, r, outcome);
        FinishKeepsFinal(w, r, outcome);
        FinishKeepsTimes(w, r, outcome);
      case Crash(r) => CrashKeepsStable(w, r);
    }
  }

  /**
   * Post-dispatch stability: in every history, a run whose dispatch ended keeps its final status unless a
   * blocked one is cancelled or the row is deleted; a run whose dispatch crashed stays running until it
   * is cancelled; and finished runs have ordered times.
   */
  lemma {:induction false} DispatchIsFinal(start: int, history: seq<Timed>, w: World)
    requires After(start, history) == Some(w)
    ensures DeliveredOnce(w) && FinalStatus(w) && TimesOrdered(w)
  {
    if history != [] {
      var front, t := history[..|history| - 1], history[|history| - 1];
      var before := After(start, front).value;
      DispatchIsFinal(start, front, before);
      assert Stable(before.(clock := t.now));
      EffectKeepsStable(before.(clock := t.now), t.event);
    }
  }

  lemma EndedIsKept(w: World, e: Event, r: string)
    requires Enabled(w, e) && DeliveredOnce(w) && r in w.ended
    ensures r in Effect(w, e).ended && Effect(w, e).ended[r] == w.ended[r]
  {
    if Elsewhere(e) {
      ElsewhereOnlyRemoves(w, e);
    } else {
      match e
      case Begin(x, adapters) => assert r in BeginWorld(w, x, adapters).ended && x != r;
      case Finish(x, outcome) => assert r in FinishWorld(w, x, outcome).ended && x != r;
      case Cancel(x) => assert CancelWorld(w, x).ended == w.ended;
      case Crash(x) =>
      case TickRun(_, _, _) =>
      case Trigger(_, _, _, _) =>
      case Retry(_, _, _) =>
    }
  }

  lemma {:induction false} EndedForever(start: int, history: seq<Timed>, k: nat, early: World, late: World, r: string)
    requires k <= |history| && After(start, history[..k]) == Some(early) && After(start, history) == Some(late)
    requires r in early.ended
    ensures r in late.ended && late.ended[r] == early.ended[r]
    decreases |history| - k
  {
    if k == |history| {
      assert history[..k] == history;
    } else {
      AfterNext(start, history[..k], history[k]);
      assert history[..k] + [history[k]] == history[..k + 1];
      AfterDefined(start, history, k + 1);
      DispatchIsFinal(start, history[..k], early);
      EndedIsKept(early.(clock := history[k].now), history[k].event, r);
      EndedForever(start, history, k + 1, Step(early, history[k]), late, r);
    }
  }

  lemma {:induction false} AfterDefined(start: int, history: seq<Timed>, k: nat)
    requires k <= |history| && After(start, history).Some?
    ensures After(start, history[..k]).Some?
    decreases |history| - k
  {
    if k == |history| {
      assert history[..k] == history;
    } else {
      AfterDefined(start, history, k + 1);
      assert history[..k + 1][..k] == history[..k];
    }
  }

  // ----- When a cancel is final -----

  /** The run exists or existed, no dispatch of it is to come or under way, and its row, if any, is cancelled. */
  ghost predicate Settled(w: World, r: string) {
    && r in w.births && r !in w.jobs && r !in w.inFlight
    && (r in w.runs ==> w.runs[r].status == Cancelled)
  }

  lemma AddKeepsSettled(w: World, x: string, row: RunRow, queueUp: bool, r: string)
    requires Settled(w, r) && x !in w.births
    ensures Settled(AddRun(w, x, row, queueUp), r)
  {
  }

  lemma EffectKeepsSettled(w: World, e: Event, r: string)
    requires Enabled(w, e) && Settled(w, r)
    ensures Settled(Effect(w, e), r)
  {
    if Elsewhere(e) {
      ElsewhereOnlyRemoves(w, e);
    } else {
      match e
      case TickRun(s, x, queueUp) => AddKeepsSettled(w, x, NewRun(s, 1, None), queueUp, r);
      case Trigger(s, x, quota, queueUp) => AddKeepsSettled(w, x, NewRun(s, 1, None), queueUp, r);
      case Retry(_, x, queueUp) =>
        var row := RetryRow(w.schedules, w.runs, e.r);
        if row.Success? {
          AddKeepsSettled(w, x, row.value, queueUp, r);
        }
      case Cancel(x) => assert Settled(CancelWorld(w, x), r);
      case Begin(x, adapters) => assert Settled(BeginWorld(w, x, adapters), r);
      case Finish(x, outcome) => assert Settled(FinishWorld(w, x, outcome), r);
      case Crash(x) =>
    }
  }

  lemma {:induction false} SettledForever(start: int, history: seq<Timed>, more: seq<Timed>, w: World, late: World,
                                          r: string)
    requires After(start, history) == Some(w) && After(start, history + more) == Some(late) && Settled(w, r)
    ensures Settled(late, r)
  {
    if more == [] {
      assert history + more == history;
    } else {
      var front, t := more[..|more| - 1], more[|more| - 1];
      assert history + more == (history + front) + [t];
      AfterNext(start, history + front, t);
      var before := After(start, history + front).value;
      SettledForever(start, history, front, w, before, r);
      EffectKeepsSettled(before.(clock := t.now), t.event, r);
    }
  }

  ghost predicate CancelledAfter(start: int, history: seq<Timed>, r: string) {
    var late := After(start, history);
    late.Some? && r in late.value.runs ==> late.value.runs[r].status == Cancelled
  }

  /** In every continuation, the run stays cancelled for as long as its row exists. */
  ghost predicate StaysCancelled(start: int, history: seq<Timed>, r: string) {
    forall more :: CancelledAfter(start, history + more, r)
  }

  /** A dispatch still to come always overwrites the cancel. */
  lemma WaitingIsOverwritten(start: int, history: seq<Timed>, w: World, r: string, adapters: Adapters)
    requires After(start, history) == Some(w) && r in w.runs && r in w.jobs
    ensures !CancelledAfter(start, history + [Timed(Begin(r, adapters), w.clock)], r)
  {
    AfterNext(start, history, Timed(Begin(r, adapters), w.clock));
    BeginRowFacts(w.schedules, w.runs[r], adapters, w.clock);
  }

  /** A dispatch under way overwrites the cancel when its adapter does not report cancellation. */
  lemma InFlightIsOverwritten(start: int, history: seq<Timed>, w: World, r: string, outcome: AdapterOutcome)
    requires After(start, history) == Some(w) && r in w.runs && r in w.inFlight && outcome != AdapterCancelled
    ensures !CancelledAfter(start, history + [Timed(Finish(r, outcome), w.clock)], r)
  {
    AfterNext(start, history, Timed(Finish(r, outcome), w.clock));
  }

  /**
   * When a cancel is final: in every history, a cancelled run stays cancelled whatever happens next if
   * and only if its job is not waiting in the queue and no adapter is running for it.
   */
  lemma CancelIsFinalIff(start: int, history: seq<Timed>, w: World, r: string)
    requires After(start, history) == Some(w) && r in w.runs && w.runs[r].status == Cancelled
    ensures StaysCancelled(start, history, r) <==> r !in w.jobs && r !in w.inFlight
  {
    if r in w.jobs {
      WaitingIsOverwritten(start, history, w, r, Adapters(false, false, true));
    } else if r in w.inFlight {
      InFlightIsOverwritten(start, history, w, r, AdapterSucceeded);
    } else {
      DispatchIsFinal(start, history, w);
      forall more ensures CancelledAfter(start, history + more, r) {
        if After(start, history + more).Some? {
          SettledForever(start, history, more, w, After(start, history + more).value, r);
        }
      }
    }
  }

  /**
   * What a dispatch wrote is what every later moment finds, except that a blocked run may be cancelled;
   * and a dispatched run that is once cancelled stays so.
   */
  lemma FinalForever(start: int, history: seq<Timed>, k: nat, early: World, late: World, r: string)
    requires k <= |history| && After(start, history[..k]) == Some(early) && After(start, history) == Some(late)
    requires r in early.ended
    ensures r in late.ended && late.ended[r] == early.ended[r]
    ensures r in late.runs ==>
      late.runs[r].status == early.ended[r] || (early.ended[r] == Blocked && late.runs[r].status == Cancelled)
    ensures r in early.runs && early.runs[r].status == Cancelled && r in late.runs ==>
      late.runs[r].status == Cancelled
  {
    EndedForever(start, history, k, early, late, r);
    DispatchIsFinal(start, history, late);
    if r in early.runs && early.runs[r].status == Cancelled {
      DispatchIsFinal(start, history[..k], early);
      assert history[..k] + history[k..] == history;
      SettledForever(start, history[..k], history[k..], early, late, r);
    }
  }

  /** Posting a run of a new schedule, in an empty system. */
  lemma RunPosted(s: string, r: string) returns (history: seq<Timed>, w: World)
    ensures After(0, history) == Some(w) && w.runs == map[r := NewRun(s, 1, None)] && r in w.jobs
    ensures w.schedules == map[s := ScheduleRow(NotRequired, false, true)] && w.clock == 0
  {
    var w0 := START.(clock := 0);
    AfterEvent(0, [], w0, AddSchedule(s));
    var w1 := AddScheduleWorld(w0, s);
    assert ActiveRuns(w1.runs, s) == {};
    AfterEvent(0, [] + [Timed(AddSchedule(s), 0)], w1, Trigger(s, r, 1, true));
    history := [] + [Timed(AddSchedule(s), 0)] + [Timed(Trigger(s, r, 1, true), 0)];
    w := AddRun(w1, r, NewRun(s, 1, None), true);
  }

  /** Posting a run and having its adapter called. */
  lemma RunInFlight(s: string, r: string) returns (history: seq<Timed>, w: World)
    ensures After(0, history) == Some(w) && r in w.inFlight
    ensures r in w.runs && w.runs[r].status == Running
  {
    var begin := Begin(r, Adapters(false, false, true));
    history, w := RunPosted(s, r);
    AfterEvent(0, history, w, begin);
    history := history + [Timed(begin, w.clock)];
    w := BeginWorld(w, r, begin.adapters);
  }

  lemma CancelThenFinish(w: World, r: string)
    requires r in w.inFlight && r in w.runs && w.runs[r].status == Running
    ensures var cancelled := CancelWorld(w, r);
      && r in cancelled.inFlight && r in cancelled.runs && cancelled.runs[r].status == Cancelled
      && var late := FinishWorld(cancelled, r, AdapterSucceeded);
         r in late.runs && late.runs[r].status == Succeeded
  {
  }

  /** Such a run exists: cancelled while its adapter runs, and succeeded in the end. */
  lemma CancelledRunSucceeds(s: string, r: string)
    ensures exists history, w, late, t ::
      && After(0, history) == Some(w) && r in w.runs && w.runs[r].status == Cancelled
      && After(0, history + [t]) == Some(late) && r in late.runs && late.runs[r].status == Succeeded
  {
    var history, w := RunInFlight(s, r);
    CancelThenFinish(w, r);
    AfterEvent(0, history, w, Cancel(r));
    var cancelled := CancelWorld(w, r);
    var longer := history + [Timed(Cancel(r), w.clock)];
    AfterEvent(0, longer, cancelled, Finish(r, AdapterSucceeded));
    var late := FinishWorld(cancelled, r, AdapterSucceeded);
    assert After(0, longer + [Timed(Finish(r, AdapterSucceeded), cancelled.clock)]) == Some(late);
  }
}
