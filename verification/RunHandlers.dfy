/**
 * The run, approval and dispatch handlers over the stored rows. Each call is one event of a history: a
 * valid store is one that some history leads to, so what holds in every history holds of the store.
 */
module RunHandlers {
  import opened Wrappers
  import opened RunLifecycle
  import opened RunHistory
  import Admission
  import ApprovalSafety
  import RetryForest
  import RunMeanings
  import RunStability

  class RunStore {
    var schedules: map<string, ScheduleRow>
    var runs: map<string, RunRow>
    var requests: map<string, RequestRow>
    var jobs: set<string>  // run identifiers whose job waits in the queue

    ghost const start: int
    ghost var history: seq<Timed>
    ghost var world: World

    ghost predicate Valid()
      reads this
    {
      && After(start, history) == Some(world)
      && world.schedules == schedules && world.runs == runs && world.requests == requests && world.jobs == jobs
    }

    constructor (now: int)
      ensures Valid() && history == [] && start == now
    {
      schedules, runs, requests, jobs := map[], map[], map[], {};
      start, history, world := now, [], START.(clock := now);
    }

    ghost method Record(e: Event, now: int)
      requires After(start, history) == Some(world) && Possible(world, Timed(e, now))
      modifies this`history, this`world
      ensures After(start, history) == Some(world)
      ensures history == old(history) + [Timed(e, now)] && world == Step(old(world), Timed(e, now))
    {
      AfterNext(start, history, Timed(e, now));
      world := Step(world, Timed(e, now));
      history := history + [Timed(e, now)];
    }

    /** A new run row, and its job if the queue takes it. */
    method AddRow(r: string, row: RunRow, queueUp: bool)
      modifies this`runs, this`jobs
      ensures runs == old(runs)[r := row]
      ensures jobs == if queueUp then old(jobs) + {r} else old(jobs)
    {
      runs := runs[r := row];
      if queueUp {
        jobs := jobs + {r};
      }
    }

    // ----- Schedules, as far as runs depend on them -----

    method AddSchedule(s: string, now: int)
      requires Valid() && Possible(world, Timed(Event.AddSchedule(s), now))
      modifies this
      ensures Valid() && history == old(history) + [Timed(Event.AddSchedule(s), now)]
    {
      Record(Event.AddSchedule(s), now);
      schedules := schedules[s := ScheduleRow(NotRequired, false, true)];
    }

    method SetSchedule(s: string, paused: bool, active: bool, now: int)
      requires Valid() && world.clock <= now
      modifies this
      ensures Valid() && history == old(history) + [Timed(Event.SetSchedule(s, paused, active), now)]
    {
      Record(Event.SetSchedule(s, paused, active), now);
      if s in schedules {
        schedules := schedules[s := schedules[s].(paused := paused, active := active)];
      }
    }

    method DropSchedule(s: string, cascade: bool, now: int)
      requires Valid() && world.clock <= now
      modifies this
      ensures Valid() && history == old(history) + [Timed(Event.DropSchedule(s, cascade), now)]
    {
      Record(Event.DropSchedule(s, cascade), now);
      if cascade {
        runs := map r | r in runs && runs[r].scheduleId != s :: runs[r];
        requests := map a | a in requests && requests[a].scheduleId != s :: requests[a];
      }
      schedules := schedules - {s};
    }

    // ----- Runs -----

    /** A run row without checks: the tick's, or run_now through A2A or MCP. */
    method TickRun(s: string, r: string, queueUp: bool, now: int)
      requires Valid() && Possible(world, Timed(Event.TickRun(s, r, queueUp), now))
      modifies this
      ensures Valid() && history == old(history) + [Timed(Event.TickRun(s, r, queueUp), now)]
    {
      Record(Event.TickRun(s, r, queueUp), now);
      if s in schedules {
        AddRow(r, NewRun(s, 1, None), queueUp);
      }
    }

    method TriggerRun(s: string, r: string, quota: int, queueUp: bool, now: int) returns (refused: Option<Refusal>)
      requires Valid() && Possible(world, Timed(Trigger(s, r, quota, queueUp), now))
      modifies this
      ensures Valid() && history == old(history) + [Timed(Trigger(s, r, quota, queueUp), now)]
      ensures refused == TriggerRefusal(old(schedules), old(runs), s, quota)
    {
      Record(Trigger(s, r, quota, queueUp), now);
      if s !in schedules {
        return Some(NotFound);
      }
      if schedules[s].paused || !schedules[s].active {
        return Some(Conflict);
      }
      var activeCount := |ActiveRuns(runs, s)|;
      if activeCount >= quota {
        return Some(OverQuota);
      }
      AddRow(r, RunRow(s, Scheduled, None, None, 1, None), queueUp);
      return None;
    }

    method CancelRun(r: string, now: int) returns (refused: Option<Refusal>)
      requires Valid() && world.clock <= now
      modifies this
      ensures Valid() && history == old(history) + [Timed(Cancel(r), now)]
      ensures refused == if r !in old(runs) then Some(NotFound)
                         else if Terminal(old(runs)[r].status) then Some(Conflict) else None
    {
      Record(Cancel(r), now);
      if r !in runs {
        return Some(NotFound);
      }
      var run := runs[r];
      if Terminal(run.status) {
        return Some(Conflict);
      }
      run := run.(status := Cancelled);
      run := run.(finishedAt := Some(now));
      runs := runs[r := run];
      return None;
    }

    /** The retry's checks and its new row. */
    method InsertRetry(r: string, fresh_: string, queueUp: bool) returns (refused: Option<Refusal>)
      modifies this`runs, this`jobs
      ensures var row := RetryRow(schedules, old(runs), r);
        && refused == (if row.Failure? then Some(row.error) else None)
        && runs == (if row.Success? then old(runs)[fresh_ := row.value] else old(runs))
        && jobs == (if row.Success? && queueUp then old(jobs) + {fresh_} else old(jobs))
    {
      if r !in runs {
        return Some(NotFound);
      }
      var orig := runs[r];
      if !Retriable(orig.status) {
        return Some(Conflict);
      }
      if orig.scheduleId !in schedules {
        return Some(NotFound);
      }
      if schedules[orig.scheduleId].paused || !schedules[orig.scheduleId].active {
        return Some(Conflict);
      }
      var attempt := if orig.attempt == 0 then 1 else orig.attempt;
      AddRow(fresh_, NewRun(orig.scheduleId, attempt + 1, Some(r)), queueUp);
      return None;
    }

    method RetryRun(r: string, fresh_: string, queueUp: bool, now: int) returns (refused: Option<Refusal>)
      requires Valid() && Possible(world, Timed(Retry(r, fresh_, queueUp), now))
      modifies this
      ensures Valid() && history == old(history) + [Timed(Retry(r, fresh_, queueUp), now)]
      ensures var row := RetryRow(old(schedules), old(runs), r);
        refused == if row.Failure? then Some(row.error) else None
    {
      Record(Retry(r, fresh_, queueUp), now);
      refused := InsertRetry(r, fresh_, queueUp);
    }

    method DeleteRun(r: string, now: int) returns (refused: Option<Refusal>)
      requires Valid() && world.clock <= now
      modifies this
      ensures Valid() && history == old(history) + [Timed(Delete(r), now)]
      ensures refused == DeleteRefusal(old(runs), r)
    {
      Record(Delete(r), now);
      if r !in runs {
        return Some(NotFound);
      }
      if !Retriable(runs[r].status) {
        return Some(Conflict);
      }
      runs := runs - {r};
      return None;
    }

    // ----- Dispatch -----

    /** dispatch_run for a delivered job, up to the adapter call; `invoked` says whether an adapter is called. */
    method BeginDispatch(r: string, adapters: Adapters, now: int) returns (invoked: bool)
      requires Valid() && Possible(world, Timed(Begin(r, adapters), now))
      modifies this
      ensures Valid() && history == old(history) + [Timed(Begin(r, adapters), now)]
      ensures invoked <==> r in old(runs) && r in runs && runs[r].status == Running
      ensures invoked <==> r in world.inFlight
    {
      RunStability.DispatchIsFinal(start, history, world);
      Record(Begin(r, adapters), now);
      jobs := jobs - {r};
      if r !in runs {
        return false;
      }
      var run := runs[r];
      if run.scheduleId !in schedules {
        runs := runs[r := run.(status := Failed, finishedAt := Some(now))];
        return false;
      }
      var approval := schedules[run.scheduleId].approval;
      if approval != NotRequired && approval != Approved {
        runs := runs[r := run.(status := Blocked, finishedAt := Some(now))];
        return false;
      }
      var realAdapter := adapters.useReal && adapters.hasReal;
      if adapters.useReal && !realAdapter && adapters.hasStub {
        runs := runs[r := run.(status := Failed, finishedAt := Some(now))];
        return false;
      }
      if !adapters.hasStub && !realAdapter {
        runs := runs[r := run.(status := Failed, finishedAt := Some(now))];
        return false;
      }
      runs := runs[r := run.(status := Running, startedAt := Some(now))];
      return true;
    }

    /** dispatch_run after the adapter call. */
    method FinishDispatch(r: string, outcome: AdapterOutcome, now: int)
      requires Valid() && Possible(world, Timed(Finish(r, outcome), now))
      modifies this
      ensures Valid() && history == old(history) + [Timed(Finish(r, outcome), now)]
      ensures r in old(runs) ==>
        && r in runs && runs[r].finishedAt == Some(now)
        && (runs[r].status == Succeeded <==> outcome == AdapterSucceeded)
        && (runs[r].status == Cancelled <==> outcome == AdapterCancelled)
        && (runs[r].status == Failed <==> outcome == AdapterFailed)
    {
      Record(Finish(r, outcome), now);
      RunMeanings.FinishMeans(old(world).(clock := now), r, outcome);
      if r in runs {
        var run := runs[r];
        run := run.(status := if outcome == AdapterSucceeded then Succeeded
                              else if outcome == AdapterCancelled then Cancelled else Failed);
        run := run.(finishedAt := Some(now));
        runs := runs[r := run];
      }
    }

    /** dispatch_run raising after the run is marked running: nothing more is written. */
    method FailDispatch(r: string, now: int)
      requires Valid() && Possible(world, Timed(Crash(r), now))
      modifies this
      ensures Valid() && history == old(history) + [Timed(Crash(r), now)]
    {
      Record(Crash(r), now);
    }

    // ----- Approvals -----

    method CreateApproval(s: string, a: string, now: int) returns (refused: Option<Refusal>)
      requires Valid() && Possible(world, Timed(RequestApproval(s, a), now))
      modifies this
      ensures Valid() && history == old(history) + [Timed(RequestApproval(s, a), now)]
      ensures refused == if s in old(schedules) then None else Some(NotFound)
    {
      Record(RequestApproval(s, a), now);
      if s !in schedules {
        return Some(NotFound);
      }
      requests := requests[a := RequestRow(s, Undecided)];
      schedules := schedules[s := schedules[s].(approval := Pending)];
      return None;
    }

    method Decide(a: string, grant: bool, now: int) returns (refused: Option<Refusal>)
      requires Valid() && world.clock <= now
      modifies this
      ensures Valid() && history == old(history) + [Timed(DecideApproval(a, grant), now)]
      ensures refused == DecideRefusal(old(schedules), old(requests), a)
    {
      Record(DecideApproval(a, grant), now);
      if a !in requests {
        return Some(NotFound);
      }
      if requests[a].status != Undecided {
        return Some(Conflict);
      }
      var s := requests[a].scheduleId;
      if s !in schedules {
        return Some(NotFound);
      }
      if grant {
        requests := requests[a := requests[a].(status := Granted)];
        schedules := schedules[s := schedules[s].(approval := Approved)];
      } else {
        requests := requests[a := requests[a].(status := Refused)];
        schedules := schedules[s := schedules[s].(approval := Rejected)];
      }
      return None;
    }
  }

  /** What every store that the handlers produced satisfies, whatever calls led to it. */
  lemma StoreKeepsPromises(store: RunStore, quota: nat)
    requires store.Valid()
    ensures forall r :: r in store.runs ==> RunStability.RowTimes(store.runs[r], store.world.clock)
    ensures forall s :: s in store.schedules ==>
      store.schedules[s].approval == ApprovalSafety.Fold(store.world.approvals, s)
    ensures RetryForest.Forest(store.world.births) && RetryForest.RowsMatch(store.world)
    ensures Admission.Guarded(store.start, store.history, quota) ==>
      forall s :: |ActiveRuns(store.runs, s)| <= quota
  {
    RunStability.DispatchIsFinal(store.start, store.history, store.world);
    ApprovalSafety.ApprovalsAreSafe(store.start, store.history, store.world);
    RetryForest.RetriesFormForest(store.start, store.history, store.world);
    if Admission.Guarded(store.start, store.history, quota) {
      forall s ensures |ActiveRuns(store.runs, s)| <= quota {
        Admission.ActiveRunsBounded(store.start, store.history, store.world, quota, s);
      }
    }
  }
}
