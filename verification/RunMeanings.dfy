/** What each handler and each half of a dispatch does to the rows, status by status. */
module RunMeanings {
  import opened Wrappers
  import opened RunLifecycle
  import opened RunHistory
  import Stability = RunStability

  ghost predicate OnlyRunsChange(w: World, w': World) {
    w'.schedules == w.schedules && w'.requests == w.requests && w'.inFlight == w.inFlight && w'.clock == w.clock
  }

  /** The runs of `s` that are scheduled, claimed, queued or running. */
  function InProgress(runs: map<string, RunRow>, s: string): set<string> {
    set r | r in runs && runs[r].scheduleId == s &&
      (runs[r].status == Scheduled || runs[r].status == Claimed || runs[r].status == Queued ||
       runs[r].status == Running)
  }

  /** POST /runs adds a scheduled run iff the schedule exists, is not paused, is active and is below its quota. */
  lemma TriggerMeans(w: World, s: string, r: string, quota: int, queueUp: bool)
    ensures var w' := TriggerWorld(w, s, r, quota, queueUp);
      var accepted := s in w.schedules && !w.schedules[s].paused && w.schedules[s].active &&
        |InProgress(w.runs, s)| < quota;
      && OnlyRunsChange(w, w')
      && w'.runs == (if accepted then w.runs[r := RunRow(s, Scheduled, None, None, 1, None)] else w.runs)
      && w'.jobs == (if accepted && queueUp then w.jobs + {r} else w.jobs)
    ensures var refused := TriggerRefusal(w.schedules, w.runs, s, quota);
      && (refused == Some(NotFound) <==> s !in w.schedules)
      && (refused == Some(Conflict) <==> s in w.schedules && (w.schedules[s].paused || !w.schedules[s].active))
      && (refused == Some(OverQuota) <==>
          && s in w.schedules && !w.schedules[s].paused && w.schedules[s].active
          && |InProgress(w.runs, s)| >= quota)
  {
    assert InProgress(w.runs, s) == ActiveRuns(w.runs, s);
  }

  /** A cancel takes effect on runs in progress, partially failed or blocked ones, and on no others. */
  lemma CancelMeans(w: World, r: string)
    ensures var w' := CancelWorld(w, r);
      && OnlyRunsChange(w, w') && w'.jobs == w.jobs
      && (r !in w.runs ==> w'.runs == w.runs)
      && (r in w.runs ==> match w.runs[r].status
          case Scheduled | Claimed | Queued | Running | PartiallyFailed | Blocked =>
            w'.runs == w.runs[r := w.runs[r].(status := Cancelled, finishedAt := Some(w.clock))]
          case Succeeded | Failed | Cancelled | Skipped | Misfired => w'.runs == w.runs)
  {
  }

  /** A retry adds a linked run iff the run is finished or blocked and its schedule is runnable. */
  lemma RetryMeans(w: World, r: string, fresh_: string, queueUp: bool)
    ensures var w' := RetryWorld(w, r, fresh_, queueUp);
      var accepted := r in w.runs && w.runs[r].scheduleId in w.schedules &&
        !w.schedules[w.runs[r].scheduleId].paused && w.schedules[w.runs[r].scheduleId].active &&
        (match w.runs[r].status
         case Succeeded | Failed | Cancelled | Skipped | Misfired | Blocked => true
         case Scheduled | Claimed | Queued | Running | PartiallyFailed => false);
      && OnlyRunsChange(w, w')
      && (!accepted ==> w'.runs == w.runs && w'.jobs == w.jobs)
      && (accepted ==>
          && w'.jobs == (if queueUp then w.jobs + {fresh_} else w.jobs)
          && var attempt := if w.runs[r].attempt == 0 then 2 else w.runs[r].attempt + 1;
             w'.runs == w.runs[fresh_ := RunRow(w.runs[r].scheduleId, Scheduled, None, None, attempt, Some(r))])
  {
  }

  lemma DeleteMeans(w: World, r: string)
    ensures var w' := DeleteWorld(w, r);
      && OnlyRunsChange(w, w') && w'.jobs == w.jobs
      && (r !in w.runs ==> w'.runs == w.runs)
      && (r in w.runs ==> match w.runs[r].status
          case Succeeded | Failed | Cancelled | Skipped | Misfired | Blocked => w'.runs == w.runs - {r}
          case Scheduled | Claimed | Queued | Running | PartiallyFailed => w'.runs == w.runs)
  {
  }

  /**
   * The first half of a dispatch: without its schedule a run fails; behind a pending or rejected approval
   * it is blocked; without a real adapter where those are required, or without any, it fails; else it runs.
   */
  lemma BeginMeans(schedules: map<string, ScheduleRow>, run: RunRow, adapters: Adapters, now: int)
    ensures var row := BeginRow(schedules, run, adapters, now);
      var found := run.scheduleId in schedules;
      var closed := found &&
        (schedules[run.scheduleId].approval == Pending || schedules[run.scheduleId].approval == Rejected);
      var callable := if adapters.useReal then adapters.hasReal else adapters.hasStub;
      && (row.status == Blocked <==> closed)
      && (row.status == Failed <==> !found || (!closed && !callable))
      && (row.status == Running <==> found && !closed && callable)
      && (row.status == Running ==> row == run.(status := Running, startedAt := Some(now)))
      && (row.status != Running ==> row == run.(status := row.status, finishedAt := Some(now)))
  {
  }

  /** The second half: the status says what the adapter reported, whatever it was before. */
  lemma FinishMeans(w: World, r: string, outcome: AdapterOutcome)
    ensures var w' := FinishWorld(w, r, outcome);
      && w'.schedules == w.schedules && w'.requests == w.requests && w'.jobs == w.jobs
      && w'.inFlight == w.inFlight - {r}
      && (r !in w.runs ==> w'.runs == w.runs)
      && (r in w.runs ==>
          && w'.runs.Keys == w.runs.Keys && (forall q :: q in w.runs && q != r ==> w'.runs[q] == w.runs[q])
          && (w'.runs[r].status == Succeeded <==> outcome == AdapterSucceeded)
          && (w'.runs[r].status == Cancelled <==> outcome == AdapterCancelled)
          && (w'.runs[r].status == Failed <==> outcome == AdapterFailed)
          && w'.runs[r] == w.runs[r].(status := w'.runs[r].status, finishedAt := Some(w.clock)))
  {
  }

  lemma RequestMeans(w: World, s: string, a: string)
    ensures var w' := RequestWorld(w, s, a);
      && w'.runs == w.runs && w'.jobs == w.jobs
      && (s !in w.schedules ==> w' == w)
      && (s in w.schedules ==>
          && w'.requests == w.requests[a := RequestRow(s, Undecided)]
          && w'.schedules == w.schedules[s := ScheduleRow(Pending, w.schedules[s].paused, w.schedules[s].active)])
  {
  }

  /** A decision changes an undecided request of an existing schedule, and that schedule with it. */
  lemma DecideMeans(w: World, a: string, grant: bool)
    ensures var w' := DecideWorld(w, a, grant);
      var open := a in w.requests && w.requests[a].status == Undecided && w.requests[a].scheduleId in w.schedules;
      && w'.runs == w.runs && w'.jobs == w.jobs
      && (!open ==> w' == w)
      && (open ==> var s := w.requests[a].scheduleId;
          && w'.requests.Keys == w.requests.Keys && w'.schedules.Keys == w.schedules.Keys
          && (forall b :: b in w.requests && b != a ==> w'.requests[b] == w.requests[b])
          && (forall t :: t in w.schedules && t != s ==> w'.schedules[t] == w.schedules[t])
          && w'.requests[a].scheduleId == s
          && (w'.requests[a].status == Granted <==> grant) && (w'.requests[a].status == Refused <==> !grant)
          && (w'.schedules[s].approval == Approved <==> grant) && (w'.schedules[s].approval == Rejected <==> !grant)
          && w'.schedules[s].paused == w.schedules[s].paused && w'.schedules[s].active == w.schedules[s].active)
    ensures var refused := DecideRefusal(w.schedules, w.requests, a);
      && (refused == Some(Conflict) <==> a in w.requests && w.requests[a].status != Undecided)
      && (refused == Some(NotFound) <==>
          a !in w.requests || (w.requests[a].status == Undecided && w.requests[a].scheduleId !in w.schedules))
      && refused != Some(OverQuota)
  {
  }

  /** Deleting a schedule: its runs and requests go with it exactly when the database cascades. */
  lemma DropMeans(w: World, s: string, cascade: bool)
    ensures var w' := DropWorld(w, s, cascade);
      && w'.jobs == w.jobs && w'.inFlight == w.inFlight
      && (forall t :: t in w'.schedules <==> t in w.schedules && t != s)
      && (forall t :: t in w'.schedules ==> w'.schedules[t] == w.schedules[t])
      && (forall r :: r in w'.runs <==> r in w.runs && !(cascade && w.runs[r].scheduleId == s))
      && (forall r :: r in w'.runs ==> w'.runs[r] == w.runs[r])
      && (forall a :: a in w'.requests <==> a in w.requests && !(cascade && w.requests[a].scheduleId == s))
      && (forall a :: a in w'.requests ==> w'.requests[a] == w.requests[a])
  {
  }

  lemma SetScheduleMeans(w: World, s: string, paused: bool, active: bool)
    ensures var w' := SetScheduleWorld(w, s, paused, active);
      && w'.runs == w.runs && w'.requests == w.requests && w'.jobs == w.jobs
      && w'.schedules == if s in w.schedules
                         then w.schedules[s := ScheduleRow(w.schedules[s].approval, paused, active)]
                         else w.schedules
  {
  }

  /** A run created without checks: only the schedule has to exist. */
  lemma TickRunMeans(w: World, s: string, r: string, queueUp: bool)
    ensures var w' := TickRunWorld(w, s, r, queueUp);
      && OnlyRunsChange(w, w')
      && w'.runs == (if s in w.schedules then w.runs[r := RunRow(s, Scheduled, None, None, 1, None)] else w.runs)
      && w'.jobs == (if s in w.schedules && queueUp then w.jobs + {r} else w.jobs)
  {
  }

  // ----- What the final status tells about the dispatch -----

  ghost predicate Happened(history: seq<Timed>, e: Event) {
    exists k :: 0 <= k < |history| && history[k].event == e
  }

  ghost predicate Began(history: seq<Timed>, r: string) {
    exists k :: 0 <= k < |history| && history[k].event.Begin? && history[k].event.r == r
  }

  lemma HappenedLonger(history: seq<Timed>, t: Timed, r: string)
    ensures forall e :: Happened(history + [t], e) <==> Happened(history, e) || e == t.event
    ensures Began(history + [t], r) <==> Began(history, r) || (t.event.Begin? && t.event.r == r)
  {
    var longer := history + [t];
    assert longer[|history|] == t;
    forall e ensures Happened(longer, e) <==> Happened(history, e) || e == t.event {
      if Happened(history, e) {
        var k :| 0 <= k < |history| && history[k].event == e;
        assert longer[k].event == e;
      }
    }
    if Began(history, r) {
      var k :| 0 <= k < |history| && history[k].event.Begin? && history[k].event.r == r;
      assert longer[k] == history[k];
    }
  }

  /** How a dispatch can have come to write `status` for run `r`. */
  ghost predicate Tells(history: seq<Timed>, r: string, status: RunStatus) {
    match status
    case Succeeded => Happened(history, Finish(r, AdapterSucceeded))
    case Cancelled => Happened(history, Finish(r, AdapterCancelled))
    case Failed => Happened(history, Finish(r, AdapterFailed)) || Began(history, r)
    case Blocked => Began(history, r)
    case _ => false
  }

  /** Whatever a dispatch writes last is recorded as its final status. */
  lemma EndIsRecorded(w: World, e: Event)
    requires Enabled(w, e) && (e.Begin? || e.Finish?) && e.r in w.runs
    ensures var w' := Effect(w, e);
      && (e.Finish? ==> e.r in w'.ended && w'.ended[e.r] == w'.runs[e.r].status)
      && (e.Begin? ==> (e.r in w'.inFlight <==> e.r in w.inFlight || w'.runs[e.r].status == Running))
      && (e.Begin? && w'.runs[e.r].status != Running ==> e.r in w'.ended && w'.ended[e.r] == w'.runs[e.r].status)
  {
  }

  lemma NewlyEnded(w: World, e: Event, r: string)
    requires Enabled(w, e) && r !in w.ended && r in Effect(w, e).ended
    ensures (e.Begin? && e.r == r && Effect(w, e).ended[r] in {Failed, Blocked}) ||
      (e.Finish? && e.r == r && Effect(w, e).ended[r] ==
        match e.outcome case AdapterSucceeded => Succeeded case AdapterFailed => Failed case AdapterCancelled => Cancelled)
  {
    if Stability.Elsewhere(e) {
      Stability.ElsewhereOnlyRemoves(w, e);
    } else if e.Begin? && e.r in w.runs {
      BeginRowFacts(w.schedules, w.runs[e.r], e.adapters, w.clock);
    }
  }

  lemma TellsLonger(history: seq<Timed>, t: Timed, r: string, status: RunStatus)
    requires Tells(history, r, status)
    ensures Tells(history + [t], r, status)
  {
    HappenedLonger(history, t, r);
  }

  lemma NewlyEndedTells(history: seq<Timed>, w: World, t: Timed, r: string)
    requires Enabled(w, t.event) && r !in w.ended && r in Effect(w, t.event).ended
    ensures Tells(history + [t], r, Effect(w, t.event).ended[r])
  {
    HappenedLonger(history, t, r);
    NewlyEnded(w, t.event, r);
  }

  /** A final status was reported by the run's own dispatch: success by its adapter, a block by its gate, and so on. */
  lemma {:induction false} EndedTells(start: int, history: seq<Timed>, w: World, r: string)
    requires After(start, history) == Some(w) && r in w.ended
    ensures Tells(history, r, w.ended[r])
  {
    if history != [] {
      var front, t := history[..|history| - 1], history[|history| - 1];
      var before := After(start, front).value;
      var now := before.(clock := t.now);
      assert history == front + [t];
      if r in before.ended {
        EndedTells(start, front, before, r);
        TellsLonger(front, t, r, before.ended[r]);
        Stability.DispatchIsFinal(start, front, before);
        assert Stability.DeliveredOnce(now);
        Stability.EndedIsKept(now, t.event, r);
      } else {
        NewlyEndedTells(front, now, t, r);
      }
    }
  }

  /** A run past its dispatch stays past it, and gets no new final status. */
  lemma StaysDispatched(w: World, e: Event, r: string)
    requires Enabled(w, e) && Stability.DeliveredOnce(w) && r in w.births && r !in w.jobs && r !in w.inFlight
    ensures var w' := Effect(w, e);
      && r in w'.births && r !in w'.jobs && r !in w'.inFlight
      && (r in w'.ended ==> r in w.ended && w'.ended[r] == w.ended[r])
  {
    if Stability.Elsewhere(e) {
      Stability.ElsewhereOnlyRemoves(w, e);
    } else {
      match e
      case TickRun(s, x, queueUp) => assert TickRunWorld(w, s, x, queueUp).ended == w.ended;
      case Trigger(s, x, quota, queueUp) => assert TriggerWorld(w, s, x, quota, queueUp).ended == w.ended;
      case Retry(x, fresh_, queueUp) => assert RetryWorld(w, x, fresh_, queueUp).ended == w.ended;
      case Cancel(x) => assert CancelWorld(w, x).ended == w.ended;
      case Begin(x, adapters) => assert x != r;
      case Finish(x, outcome) => assert x != r;
      case Crash(x) =>
    }
  }

  /** The run is past its dispatch, and what is kept of it is what the adapter reported. */
  ghost predicate Kept(w: World, r: string, outcome: AdapterOutcome) {
    && r in w.births && r !in w.jobs && r !in w.inFlight
    && (r in w.ended ==>
        && (outcome == AdapterSucceeded <==> w.ended[r] == Succeeded)
        && (outcome == AdapterCancelled <==> w.ended[r] == Cancelled)
        && (outcome == AdapterFailed <==> w.ended[r] == Failed))
  }

  lemma FinishIsKept(w: World, r: string, outcome: AdapterOutcome)
    requires r in w.inFlight && Stability.DeliveredOnce(w)
    ensures Kept(FinishWorld(w, r, outcome), r, outcome)
  {
  }

  lemma EffectKeepsReport(w: World, e: Event, r: string, outcome: AdapterOutcome)
    requires Enabled(w, e) && Stability.DeliveredOnce(w) && Kept(w, r, outcome)
    ensures Kept(Effect(w, e), r, outcome)
  {
    StaysDispatched(w, e, r);
  }

  /** And the other way round: what an adapter reported is what is kept of its run. */
  lemma {:induction false} ReportIsKept(start: int, history: seq<Timed>, w: World, r: string, outcome: AdapterOutcome)
    requires After(start, history) == Some(w) && Happened(history, Finish(r, outcome))
    ensures Kept(w, r, outcome)
  {
    var front, t := history[..|history| - 1], history[|history| - 1];
    var before := After(start, front).value;
    var now := before.(clock := t.now);
    assert history == front + [t];
    HappenedLonger(front, t, r);
    Stability.DispatchIsFinal(start, front, before);
    assert Stability.DeliveredOnce(now);
    if Happened(front, Finish(r, outcome)) {
      ReportIsKept(start, front, before, r, outcome);
      assert Kept(now, r, outcome);
      EffectKeepsReport(now, t.event, r, outcome);
    } else {
      FinishIsKept(now, r, outcome);
    }
  }
}
