/**
 * Whole runs of the store: any interleaving of the handlers, the tick's run creation and dispatches cut
 * in two. The queue delivers each job at most once, and the clock does not go back.
 */
module RunHistory {
  import opened Wrappers
  import opened RunLifecycle

  /** How a run row came to be; kept when the row is deleted. */
  datatype Birth = Birth(retryOf: Option<string>, attempt: nat, serial: nat)

  datatype ApprovalAction = Requested | Grants | Rejects

  datatype ApprovalEvent = ApprovalEvent(scheduleId: string, action: ApprovalAction, requestId: string)

  /** An adapter call, with the number of approval events before it. */
  datatype Invocation = Invocation(runId: string, scheduleId: string, at: nat)

  datatype World = World(
    schedules: map<string, ScheduleRow>,
    runs: map<string, RunRow>,
    requests: map<string, RequestRow>,
    jobs: set<string>,                 // submitted, not yet delivered
    inFlight: set<string>,             // an adapter is running
    clock: int,
    // history
    knownSchedules: set<string>,
    knownRequests: set<string>,
    births: map<string, Birth>,
    ended: map<string, RunStatus>,     // what a dispatch wrote last
    crashed: set<string>,              // dispatches that raised after the run was marked running
    approvals: seq<ApprovalEvent>,
    invoked: seq<Invocation>)

  datatype Event =
    | AddSchedule(s: string)
    | SetSchedule(s: string, paused: bool, active: bool)
    | DropSchedule(s: string, cascade: bool)
    | TickRun(s: string, r: string, queueUp: bool)  // a run without checks: the tick's, or run_now by A2A or MCP
    | Trigger(s: string, r: string, quota: int, queueUp: bool)
    | Cancel(r: string)
    | Retry(r: string, fresh_: string, queueUp: bool)
    | Delete(r: string)
    | Begin(r: string, adapters: Adapters)
    | Finish(r: string, outcome: AdapterOutcome)
    | Crash(r: string)
    | RequestApproval(s: string, a: string)
    | DecideApproval(a: string, grant: bool)

  /** Identifiers are fresh; a dispatch begins with a delivered job and ends once. */
  predicate Enabled(w: World, e: Event) {
    match e
    case AddSchedule(s) => s !in w.knownSchedules
    case TickRun(_, r, _) => r !in w.births
    case Trigger(_, r, _, _) => r !in w.births
    case Retry(_, r, _) => r !in w.births
    case Begin(r, _) => r in w.jobs
    case Finish(r, _) => r in w.inFlight
    case Crash(r) => r in w.inFlight
    case RequestApproval(_, a) => a !in w.knownRequests
    case _ => true
  }

  function AddRun(w: World, r: string, row: RunRow, queueUp: bool): World {
    w.(runs := w.runs[r := row],
       births := w.births[r := Birth(row.retryOf, row.attempt, |w.births|)],
       jobs := if queueUp then w.jobs + {r} else w.jobs)
  }

  /** Dispatch marks the run running and calls an adapter. */
  function CallWorld(w: World, r: string, row: RunRow): World {
    w.(jobs := w.jobs - {r},
       runs := w.runs[r := row],
       inFlight := w.inFlight + {r},
       invoked := w.invoked + [Invocation(r, row.scheduleId, |w.approvals|)])
  }

  /** Dispatch ends without calling an adapter. */
  function EndWorld(w: World, r: string, row: RunRow): World {
    w.(jobs := w.jobs - {r}, runs := w.runs[r := row], ended := w.ended[r := row.status])
  }

  function BeginWorld(w: World, r: string, adapters: Adapters): World {
    if r !in w.runs then w.(jobs := w.jobs - {r})
    else
      var row := BeginRow(w.schedules, w.runs[r], adapters, w.clock);
      if row.status == Running then CallWorld(w, r, row) else EndWorld(w, r, row)
  }

  lemma BeginRowFacts(schedules: map<string, ScheduleRow>, run: RunRow, adapters: Adapters, now: int)
    ensures var row := BeginRow(schedules, run, adapters, now);
      && row == run.(status := row.status, startedAt := row.startedAt, finishedAt := row.finishedAt)
      && (row.status == Running || row.status == Failed || row.status == Blocked)
      && (row.status == Running <==>
          run.scheduleId in schedules && GateOpen(schedules[run.scheduleId].approval) && adapters.Usable())
  {
  }

  function DecideWorld(w: World, a: string, grant: bool): World {
    if DecideRefusal(w.schedules, w.requests, a).Some? then w
    else
      var s := w.requests[a].scheduleId;
      w.(requests := w.requests[a := RequestRow(s, if grant then Granted else Refused)],
         schedules := w.schedules[s := w.schedules[s].(approval := if grant then Approved else Rejected)],
         approvals := w.approvals + [ApprovalEvent(s, if grant then Grants else Rejects, a)])
  }

  /** The adapter is done: its result is written, if the row is still there. */
  function FinishWorld(w: World, r: string, outcome: AdapterOutcome): World {
    var w1 := w.(inFlight := w.inFlight - {r});
    if r !in w.runs then w1
    else
      w1.(runs := w.runs[r := FinishRow(w.runs[r], outcome, w.clock)],
          ended := w.ended[r := OutcomeStatus(outcome)])
  }

  function CancelWorld(w: World, r: string): World {
    if r !in w.runs || CancelRow(w.runs[r], w.clock).Failure? then w
    else w.(runs := w.runs[r := CancelRow(w.runs[r], w.clock).value])
  }

  function AddScheduleWorld(w: World, s: string): World {
    w.(schedules := w.schedules[s := ScheduleRow(NotRequired, false, true)], knownSchedules := w.knownSchedules + {s})
  }

  function SetScheduleWorld(w: World, s: string, paused: bool, active: bool): World {
    if s !in w.schedules then w
    else w.(schedules := w.schedules[s := w.schedules[s].(paused := paused, active := active)])
  }

  function RunsWithout(runs: map<string, RunRow>, s: string): map<string, RunRow> {
    map r | r in runs && runs[r].scheduleId != s :: runs[r]
  }

  function RequestsWithout(requests: map<string, RequestRow>, s: string): map<string, RequestRow> {
    map a | a in requests && requests[a].scheduleId != s :: requests[a]
  }

  /** Deleting a schedule removes its runs and requests when the database cascades. */
  function DropWorld(w: World, s: string, cascade: bool): World {
    w.(schedules := w.schedules - {s},
       runs := if cascade then RunsWithout(w.runs, s) else w.runs,
       requests := if cascade then RequestsWithout(w.requests, s) else w.requests)
  }

  function TickRunWorld(w: World, s: string, r: string, queueUp: bool): World {
    if s !in w.schedules then w else AddRun(w, r, NewRun(s, 1, None), queueUp)
  }

  function TriggerWorld(w: World, s: string, r: string, quota: int, queueUp: bool): World {
    if TriggerRefusal(w.schedules, w.runs, s, quota).Some? then w else AddRun(w, r, NewRun(s, 1, None), queueUp)
  }

  function RetryWorld(w: World, r: string, fresh_: string, queueUp: bool): World {
    var row := RetryRow(w.schedules, w.runs, r);
    if row.Failure? then w else AddRun(w, fresh_, row.value, queueUp)
  }

  function DeleteWorld(w: World, r: string): World {
    if DeleteRefusal(w.runs, r).Some? then w else w.(runs := w.runs - {r})
  }

  function CrashWorld(w: World, r: string): World {
    w.(inFlight := w.inFlight - {r}, crashed := w.crashed + {r})
  }

  function RequestWorld(w: World, s: string, a: string): World {
    if s !in w.schedules then w
    else
      w.(requests := w.requests[a := RequestRow(s, Undecided)],
         knownRequests := w.knownRequests + {a},
         schedules := w.schedules[s := w.schedules[s].(approval := Pending)],
         approvals := w.approvals + [ApprovalEvent(s, Requested, a)])
  }

  /** What an event does at the instant w.clock. */
  function Effect(w: World, e: Event): World
    requires Enabled(w, e)
  {
    match e
    case AddSchedule(s) => AddScheduleWorld(w, s)
    case SetSchedule(s, paused, active) => SetScheduleWorld(w, s, paused, active)
    case DropSchedule(s, cascade) => DropWorld(w, s, cascade)
    case TickRun(s, r, queueUp) => TickRunWorld(w, s, r, queueUp)
    case Trigger(s, r, quota, queueUp) => TriggerWorld(w, s, r, quota, queueUp)
    case Cancel(r) => CancelWorld(w, r)
    case Retry(r, fresh_, queueUp) => RetryWorld(w, r, fresh_, queueUp)
    case Delete(r) => DeleteWorld(w, r)
    case Begin(r, adapters) => BeginWorld(w, r, adapters)
    case Finish(r, outcome) => FinishWorld(w, r, outcome)
    case Crash(r) => CrashWorld(w, r)
    case RequestApproval(s, a) => RequestWorld(w, s, a)
    case DecideApproval(a, grant) => DecideWorld(w, a, grant)
  }

  /** One event at an instant. */
  datatype Timed = Timed(event: Event, now: int)

  predicate Possible(w: World, t: Timed) {
    w.clock <= t.now && Enabled(w, t.event)
  }

  function Step(w: World, t: Timed): World
    requires Possible(w, t)
  {
    Effect(w.(clock := t.now), t.event)
  }

  const START := World(map[], map[], map[], {}, {}, 0, {}, {}, map[], map[], {}, [], [])

  /** The world after a history; None when some event was not possible in its turn. */
  function After(start: int, history: seq<Timed>): Option<World> {
    if history == [] then Some(START.(clock := start))
    else
      var before := After(start, history[..|history| - 1]);
      var t := history[|history| - 1];
      if before.Some? && Possible(before.value, t) then Some(Step(before.value, t)) else None
  }

  lemma AfterNext(start: int, history: seq<Timed>, t: Timed)
    ensures After(start, history + [t]) ==
      var before := After(start, history);
      if before.Some? && Possible(before.value, t) then Some(Step(before.value, t)) else None
  {
    assert (history + [t])[..|history|] == history;
  }

  /** One more event without the clock moving. */
  lemma AfterEvent(start: int, history: seq<Timed>, w: World, e: Event)
    requires After(start, history) == Some(w) && Enabled(w, e)
    ensures After(start, history + [Timed(e, w.clock)]) == Some(Effect(w, e))
  {
    AfterNext(start, history, Timed(e, w.clock));
  }
}
