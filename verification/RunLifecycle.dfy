/**
 * Run rows and approval requests: what the run and approval handlers and the worker's dispatch do to
 * them. Dispatch is split at the point where the adapter runs, because other requests may act in between.
 */
module RunLifecycle {
  import opened Wrappers

  datatype RunStatus =
    | Scheduled | Claimed | Queued | Running | Succeeded | Failed | PartiallyFailed
    | Cancelled | Skipped | Misfired | Blocked

  predicate Terminal(s: RunStatus) {
    s.Succeeded? || s.Failed? || s.Cancelled? || s.Skipped? || s.Misfired?
  }

  predicate Active(s: RunStatus) {
    s.Scheduled? || s.Claimed? || s.Queued? || s.Running?
  }

  /** A run may be retried or deleted once it is finished or gate-blocked. */
  predicate Retriable(s: RunStatus) {
    Terminal(s) || s == Blocked
  }

  datatype ApprovalStatus = NotRequired | Pending | Approved | Rejected

  datatype ScheduleRow = ScheduleRow(approval: ApprovalStatus, paused: bool, active: bool)
  {
    predicate Runnable() {
      !paused && active
    }
  }

  datatype RunRow = RunRow(
    scheduleId: string,
    status: RunStatus,
    startedAt: Option<int>,
    finishedAt: Option<int>,
    attempt: nat,
    retryOf: Option<string>)

  datatype RequestStatus = Undecided | Granted | Refused

  datatype RequestRow = RequestRow(scheduleId: string, status: RequestStatus)

  /** HTTP 404, 409 and 429. */
  datatype Refusal = NotFound | Conflict | OverQuota

  // ----- The handlers, row by row -----

  function NewRun(scheduleId: string, attempt: nat, retryOf: Option<string>): RunRow {
    RunRow(scheduleId, Scheduled, None, None, attempt, retryOf)
  }

  function ActiveRuns(runs: map<string, RunRow>, scheduleId: string): set<string> {
    set r | r in runs && runs[r].scheduleId == scheduleId && Active(runs[r].status)
  }

  /** POST /runs: why it is refused. */
  function TriggerRefusal(schedules: map<string, ScheduleRow>, runs: map<string, RunRow>, s: string, quota: int)
    : Option<Refusal>
  {
    if s !in schedules then Some(NotFound)
    else if !schedules[s].Runnable() then Some(Conflict)
    else if |ActiveRuns(runs, s)| >= quota then Some(OverQuota)
    else None
  }

  function CancelRow(run: RunRow, now: int): Result<RunRow, Refusal> {
    if Terminal(run.status) then Failure(Conflict)
    else Success(run.(status := Cancelled, finishedAt := Some(now)))
  }

  /** POST /runs/{id}/retry: the new run's row. */
  function RetryRow(schedules: map<string, ScheduleRow>, runs: map<string, RunRow>, r: string)
    : Result<RunRow, Refusal>
  {
    if r !in runs then Failure(NotFound)
    else if !Retriable(runs[r].status) then Failure(Conflict)
    else if runs[r].scheduleId !in schedules then Failure(NotFound)
    else if !schedules[runs[r].scheduleId].Runnable() then Failure(Conflict)
    else
      var attempt := if runs[r].attempt == 0 then 1 else runs[r].attempt;
      Success(NewRun(runs[r].scheduleId, attempt + 1, Some(r)))
  }

  function DeleteRefusal(runs: map<string, RunRow>, r: string): Option<Refusal> {
    if r !in runs then Some(NotFound)
    else if !Retriable(runs[r].status) then Some(Conflict)
    else None
  }

  /** How the target type resolves: the real-adapter switch, and which adapters are registered. */
  datatype Adapters = Adapters(useReal: bool, hasReal: bool, hasStub: bool)
  {
    /** Some adapter is to be called: neither a stub in production nor an unknown target type. */
    predicate Usable() {
      if useReal then hasReal else hasStub
    }
  }

  predicate GateOpen(approval: ApprovalStatus) {
    approval == NotRequired || approval == Approved
  }

  /** Dispatch up to the adapter call. The row's current status is not looked at. */
  function BeginRow(schedules: map<string, ScheduleRow>, run: RunRow, adapters: Adapters, now: int): RunRow {
    if run.scheduleId !in schedules then run.(status := Failed, finishedAt := Some(now))
    else if !GateOpen(schedules[run.scheduleId].approval) then run.(status := Blocked, finishedAt := Some(now))
    else if !adapters.Usable() then run.(status := Failed, finishedAt := Some(now))
    else run.(status := Running, startedAt := Some(now))
  }

  /** The adapter's outcome; a timeout or an exception counts as AdapterFailed. */
  datatype AdapterOutcome = AdapterSucceeded | AdapterFailed | AdapterCancelled

  function OutcomeStatus(outcome: AdapterOutcome): RunStatus {
    match outcome
    case AdapterSucceeded => Succeeded
    case AdapterFailed => Failed
    case AdapterCancelled => Cancelled
  }

  /** Dispatch after the adapter call: the result is written whatever the row holds by now. */
  function FinishRow(run: RunRow, outcome: AdapterOutcome, now: int): RunRow {
    run.(status := OutcomeStatus(outcome), finishedAt := Some(now))
  }

  function DecideRefusal(schedules: map<string, ScheduleRow>, requests: map<string, RequestRow>, a: string)
    : Option<Refusal>
  {
    if a !in requests then Some(NotFound)
    else if requests[a].status != Undecided then Some(Conflict)
    else if requests[a].scheduleId !in schedules then Some(NotFound)
    else None
  }
}
