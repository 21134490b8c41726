/**
 * Schedule rows, the scheduler tick over them, and what REST create and PATCH do to the trigger fields.
 */
module Tick {
  import opened Wrappers
  import opened Trigger
  import JsonValues
  import Leader = LeaderLease

  datatype ScheduleStatus = Active | Paused | Disabled | Archived | Completed | Errored

  datatype TargetType =
    | RegisteredTool | ChainTarget | ExternalHttp | SandboxCommand | CodeRunner | ExternalMcp
    | UnknownTarget(name: string)

  /** The columns that say what is run; target_spec may be stored as JSON null (None). */
  datatype Details = Details(
    name: string,
    description: Option<string>,
    targetType: TargetType,
    targetRef: string,
    targetSpec: Option<JsonValues.Json>)

  /** trigger_spec may be stored as JSON null (None); every reader treats it as {}. */
  datatype Schedule = Schedule(
    kind: TriggerType,
    storedSpec: Option<TriggerSpec>,
    zone: string,
    enabled: bool,
    paused: bool,
    status: ScheduleStatus,
    nextFireAt: Option<int>,
    lastFireAt: Option<int>,
    details: Details)
  {
    function Spec(): TriggerSpec {
      if storedSpec.Some? then storedSpec.value else EMPTY_SPEC
    }

    /** The rows the tick's query selects. */
    predicate Scanned() {
      status == Active && enabled && !paused
    }

    predicate Due(now: int) {
      Scanned() && nextFireAt.Some? && nextFireAt.value <= now
    }

    /** The trigger fields are such that the next fire can be computed. */
    predicate Sound(cron: CronOracle) {
      WellFormed(cron, kind, Spec(), zone)
    }
  }

  /** A run row created by the tick. */
  datatype TickRun = TickRun(scheduleId: string, scheduledFor: int, createdAt: int)

  /** A due row after its run is created: advanced, or left in place when the advance raises. */
  function Advance(cron: CronOracle, s: Schedule, now: int): Schedule
    requires s.Due(now)
  {
    var next := ComputeNextFire(cron, s.kind, s.Spec(), s.zone, now, s.nextFireAt);
    if next.Failure? then s
    else
      s.(lastFireAt := s.nextFireAt,
         nextFireAt := next.value,
         status := if next.value.None? && s.kind == OneShot then Completed else s.status)
  }

  function Ticked(cron: CronOracle, s: Schedule, now: int): Schedule {
    if s.Due(now) then Advance(cron, s, now) else s
  }

  /** All rows after one tick. */
  function TickedAll(cron: CronOracle, schedules: map<string, Schedule>, now: int): map<string, Schedule> {
    map id | id in schedules :: Ticked(cron, schedules[id], now)
  }

  /** The run rows one tick creates, in the order in which the query returned the schedules. */
  function TickRuns(schedules: map<string, Schedule>, rows: seq<string>, now: int): seq<TickRun>
    requires forall id :: id in rows ==> id in schedules
  {
    if rows == [] then []
    else
      var id := rows[|rows| - 1];
      TickRuns(schedules, rows[..|rows| - 1], now) +
      (if schedules[id].Due(now) then [TickRun(id, schedules[id].nextFireAt.value, now)] else [])
  }

  /** `rows` is an answer to the tick's query: each scanned schedule once, in some order. */
  ghost predicate QueryAnswer(schedules: map<string, Schedule>, rows: seq<string>) {
    && (forall i, j :: 0 <= i < j < |rows| ==> rows[i] != rows[j])
    && forall id :: id in rows <==> id in schedules && schedules[id].Scanned()
  }

  // ----- PATCH and create -----

  /** A member of a PATCH body: not sent, sent as null, or sent with a value. */
  datatype PatchField<+T> = Unset | NullValue | Value(value: T)

  function Patched<T>(field: PatchField<T>, old_: T): T {
    if field.Value? then field.value else old_
  }

  /** The same for a column that takes null. */
  function PatchedOption<T>(field: PatchField<T>, old_: Option<T>): Option<T> {
    match field
    case Unset => old_
    case NullValue => None
    case Value(value) => Some(value)
  }

  datatype DetailsPatch = DetailsPatch(
    name: PatchField<string>,
    description: PatchField<string>,
    targetType: PatchField<TargetType>,
    targetRef: PatchField<string>,
    targetSpec: PatchField<JsonValues.Json>)
  {
    predicate ViolatesNotNull() {
      name.NullValue? || targetType.NullValue? || targetRef.NullValue?
    }

    function Apply(d: Details): Details {
      Details(Patched(name, d.name), PatchedOption(description, d.description), Patched(targetType, d.targetType),
              Patched(targetRef, d.targetRef), PatchedOption(targetSpec, d.targetSpec))
    }
  }

  datatype SchedulePatch = SchedulePatch(
    kind: PatchField<TriggerType>,
    spec: PatchField<TriggerSpec>,
    zone: PatchField<string>,
    enabled: PatchField<bool>,
    paused: PatchField<bool>,
    status: PatchField<ScheduleStatus>,
    details: DetailsPatch)
  {
    /** The trigger fields are written with a value, so the next fire is recomputed. */
    predicate Recomputes() {
      kind.Value? || spec.Value? || zone.Value?
    }

    /** A null for a NOT NULL column: the commit fails. */
    predicate ViolatesNotNull() {
      || kind.NullValue? || zone.NullValue? || enabled.NullValue? || paused.NullValue? || status.NullValue?
      || details.ViolatesNotNull()
    }
  }

  /** The row in memory, before the commit: a null type is no known type, and a null zone is UTC. */
  function ApplyFields(s: Schedule, p: SchedulePatch): Schedule {
    s.(kind := if p.kind.NullValue? then UnknownType else Patched(p.kind, s.kind),
       storedSpec := PatchedOption(p.spec, s.storedSpec),
       zone := if p.zone.NullValue? then [] else Patched(p.zone, s.zone),
       enabled := Patched(p.enabled, s.enabled),
       paused := Patched(p.paused, s.paused),
       status := Patched(p.status, s.status),
       details := p.details.Apply(s.details))
  }

  /** HTTP 404, 429, 422, 400 and an uncaught exception. */
  datatype ScheduleRefusal = NoSchedule | QuotaExceeded | InvalidTarget | InvalidTrigger | InternalError

  /** TriggerSpecError is answered with 400; the exception of int() is not caught. */
  function TriggerRefusal(error: TriggerError): ScheduleRefusal {
    match error
    case SpecError => InvalidTrigger
    case IntError => InternalError
  }

  /** patch_schedule on one row; a failure is rolled back. */
  function PatchRow(cron: CronOracle, s: Schedule, p: SchedulePatch, now: int): Result<Schedule, ScheduleRefusal> {
    var applied := ApplyFields(s, p);
    if p.details.targetType.Value? && p.details.targetType.value.UnknownTarget? then Failure(InvalidTarget)
    else if p.Recomputes() then
      var next := ComputeNextFire(cron, applied.kind, applied.Spec(), applied.zone, now, None);
      if next.Failure? then Failure(TriggerRefusal(next.error))
      else if p.ViolatesNotNull() then Failure(InternalError)
      else Success(applied.(nextFireAt := next.value))
    else if p.ViolatesNotNull() then Failure(InternalError)
    else Success(applied)
  }

  /** A POST /schedules body. */
  datatype ScheduleBody =
    ScheduleBody(kind: TriggerType, spec: TriggerSpec, zone: string, enabled: bool, details: Details)

  datatype Quotas = Quotas(maxSchedulesPerUser: int, minIntervalSeconds: int)

  /** check_min_interval: only interval triggers have a minimum, and int() may raise. */
  function IntervalRefusal(kind: TriggerType, spec: TriggerSpec, minimum: int): Option<ScheduleRefusal> {
    if kind != Interval then None
    else
      match spec.everySeconds
      case Falsy => if 0 < minimum then Some(QuotaExceeded) else None
      case NotNumber => Some(InternalError)
      case Seconds(every) => if every < minimum then Some(QuotaExceeded) else None
  }

  /** create_schedule for a caller who owns `owned` schedules. */
  function CreateRow(cron: CronOracle, body: ScheduleBody, quotas: Quotas, owned: int, now: int)
    : Result<Schedule, ScheduleRefusal>
  {
    var interval := IntervalRefusal(body.kind, body.spec, quotas.minIntervalSeconds);
    if owned >= quotas.maxSchedulesPerUser then Failure(QuotaExceeded)
    else if interval.Some? then Failure(interval.value)
    else if body.details.targetType.UnknownTarget? then Failure(InvalidTarget)
    else
      var next := ComputeNextFire(cron, body.kind, body.spec, body.zone, now, None);
      if next.Failure? then Failure(TriggerRefusal(next.error))
      else
        Success(Schedule(body.kind, Some(body.spec), body.zone, body.enabled, false, Active, next.value, None,
                         body.details))
  }

  // ----- The store -----

  datatype TickResult = TickResult(leaderHeld: bool, scanned: nat, enqueued: nat, advanced: nat)

  /** The advance of a due row does not raise. */
  predicate Advances(cron: CronOracle, s: Schedule, now: int) {
    ComputeNextFire(cron, s.kind, s.Spec(), s.zone, now, s.nextFireAt).Success?
  }

  /** How many of the rows were advanced. */
  function AdvancedCount(cron: CronOracle, schedules: map<string, Schedule>, rows: seq<string>, now: int): nat
    requires forall id :: id in rows ==> id in schedules
  {
    if rows == [] then 0
    else
      var s := schedules[rows[|rows| - 1]];
      AdvancedCount(cron, schedules, rows[..|rows| - 1], now) +
      (if s.Due(now) && Advances(cron, s, now) then 1 else 0)
  }

  /** The runs that the queue, or the audit log, accepts. */
  function Accepted(runs: seq<TickRun>, queueUp: set<string>): seq<TickRun> {
    if runs == [] then []
    else
      var last := runs[|runs| - 1];
      Accepted(runs[..|runs| - 1], queueUp) + (if last.scheduleId in queueUp then [last] else [])
  }

  lemma AcceptedAppend(runs: seq<TickRun>, run: TickRun, queueUp: set<string>)
    ensures Accepted(runs + [run], queueUp) == Accepted(runs, queueUp) + Accepted([run], queueUp)
  {
    assert (runs + [run])[..|runs|] == runs;
  }

  /** The rows when the loop has handled `done`. */
  ghost function TickedPrefix(cron: CronOracle, schedules: map<string, Schedule>, done: seq<string>, now: int)
    : map<string, Schedule>
  {
    map id | id in schedules :: if id in done then Ticked(cron, schedules[id], now) else schedules[id]
  }

  lemma TickedPrefixNext(cron: CronOracle, schedules: map<string, Schedule>, rows: seq<string>, i: nat, now: int)
    requires QueryAnswer(schedules, rows) && i < |rows|
    ensures var s := schedules[rows[i]];
      && TickedPrefix(cron, schedules, rows[..i], now)[rows[i]] == s
      && s.Scanned()
      && TickedPrefix(cron, schedules, rows[..i + 1], now) ==
         TickedPrefix(cron, schedules, rows[..i], now)[rows[i] := Ticked(cron, s, now)]
  {
    assert rows[..i + 1] == rows[..i] + [rows[i]];
    assert rows[i] !in rows[..i];
  }

  lemma TickRunsNext(schedules: map<string, Schedule>, rows: seq<string>, i: nat, now: int, queueUp: set<string>)
    requires QueryAnswer(schedules, rows) && i < |rows|
    ensures var s := schedules[rows[i]];
      var before, after := TickRuns(schedules, rows[..i], now), TickRuns(schedules, rows[..i + 1], now);
      if s.Due(now) then
        var run := TickRun(rows[i], s.nextFireAt.value, now);
        && after == before + [run]
        && Accepted(after, queueUp) == Accepted(before, queueUp) + Accepted([run], queueUp)
      else after == before
  {
    assert rows[..i + 1][..i] == rows[..i];
    var s := schedules[rows[i]];
    if s.Due(now) {
      AcceptedAppend(TickRuns(schedules, rows[..i], now), TickRun(rows[i], s.nextFireAt.value, now), queueUp);
    }
  }

  lemma AdvancedCountNext(cron: CronOracle, schedules: map<string, Schedule>, rows: seq<string>, i: nat, now: int)
    requires QueryAnswer(schedules, rows) && i < |rows|
    ensures var s := schedules[rows[i]];
      AdvancedCount(cron, schedules, rows[..i + 1], now) ==
      AdvancedCount(cron, schedules, rows[..i], now) + (if s.Due(now) && Advances(cron, s, now) then 1 else 0)
  {
    assert rows[..i + 1][..i] == rows[..i];
  }

  lemma Associates<T>(a: seq<T>, b: seq<T>, c: seq<T>)
    ensures (a + b) + c == a + (b + c)
  {
  }

  lemma TickedPrefixAll(cron: CronOracle, schedules: map<string, Schedule>, rows: seq<string>, now: int)
    requires QueryAnswer(schedules, rows)
    ensures TickedPrefix(cron, schedules, rows, now) == TickedAll(cron, schedules, now)
  {
  }

  // ----- What a tick creates, submits and audits, row by row -----

  /** The elements of `part` stand in `whole` in the same order. */
  ghost predicate InOrderOf<T>(part: seq<T>, whole: seq<T>) {
    forall i, j :: 0 <= i < j < |part| ==> Precedes(whole, part[i], part[j])
  }

  ghost predicate Precedes<T>(whole: seq<T>, x: T, y: T) {
    exists a, b :: 0 <= a < b < |whole| && whole[a] == x && whole[b] == y
  }

  ghost predicate DistinctIds(runs: seq<TickRun>) {
    forall i, j :: 0 <= i < j < |runs| ==> runs[i].scheduleId != runs[j].scheduleId
  }

  /**
   * `fired` is one run for each active, enabled and unpaused schedule whose pending instant has come, for
   * that instant, in the order of the query.
   */
  ghost predicate FiresDue(schedules: map<string, Schedule>, rows: seq<string>, now: int, fired: seq<TickRun>) {
    && (forall run :: run in fired <==>
         && run.scheduleId in rows && run.scheduleId in schedules && run.createdAt == now
         && var s := schedules[run.scheduleId];
            s.status == Active && s.enabled && !s.paused && s.nextFireAt == Some(run.scheduledFor) &&
            run.scheduledFor <= now)
    && DistinctIds(fired)
    && forall i, j :: 0 <= i < j < |fired| ==> Precedes(rows, fired[i].scheduleId, fired[j].scheduleId)
  }

  /** `taken` is what comes through of `offered` when it works for the schedules in `up`: once each, in order. */
  ghost predicate ComesThrough(offered: seq<TickRun>, up: set<string>, taken: seq<TickRun>) {
    && (forall run :: run in taken <==> run in offered && run.scheduleId in up)
    && DistinctIds(taken) && InOrderOf(taken, offered)
  }

  lemma PrecedesLonger<T>(whole: seq<T>, z: T, x: T, y: T)
    requires Precedes(whole, x, y)
    ensures Precedes(whole + [z], x, y)
  {
    var a, b :| 0 <= a < b < |whole| && whole[a] == x && whole[b] == y;
    assert (whole + [z])[a] == x && (whole + [z])[b] == y;
  }

  lemma PrecedesLast<T>(whole: seq<T>, z: T, x: T)
    requires x in whole
    ensures Precedes(whole + [z], x, z)
  {
    var a :| 0 <= a < |whole| && whole[a] == x;
    assert (whole + [z])[a] == x && (whole + [z])[|whole|] == z;
  }

  lemma {:induction false} AcceptedComesThrough(offered: seq<TickRun>, up: set<string>)
    requires DistinctIds(offered)
    ensures ComesThrough(offered, up, Accepted(offered, up))
  {
    if offered != [] {
      var n := |offered| - 1;
      var front, last := offered[..n], offered[n];
      var was, taken := Accepted(front, up), Accepted(offered, up);
      AcceptedComesThrough(front, up);
      assert offered == front + [last];
      forall i, j | 0 <= i < j < |taken| ensures Precedes(offered, taken[i], taken[j]) {
        assert taken[i] == was[i] && was[i] in was;
        if j < |was| {
          assert Precedes(front, was[i], was[j]);
          PrecedesLonger(front, last, was[i], was[j]);
        } else {
          PrecedesLast(front, last, was[i]);
        }
      }
      forall i | 0 <= i < |was| ensures was[i].scheduleId != last.scheduleId {
        assert was[i] in was;
      }
    }
  }

  lemma {:induction false} TickRunsFireDue(schedules: map<string, Schedule>, rows: seq<string>, now: int)
    requires forall id :: id in rows ==> id in schedules
    requires forall i, j :: 0 <= i < j < |rows| ==> rows[i] != rows[j]
    ensures FiresDue(schedules, rows, now, TickRuns(schedules, rows, now))
  {
    if rows != [] {
      var n := |rows| - 1;
      var front, last := rows[..n], rows[n];
      var was, fired := TickRuns(schedules, front, now), TickRuns(schedules, rows, now);
      TickRunsFireDue(schedules, front, now);
      assert rows == front + [last];
      forall i, j | 0 <= i < j < |fired| ensures Precedes(rows, fired[i].scheduleId, fired[j].scheduleId) {
        assert fired[i] == was[i] && was[i] in was;
        if j < |was| {
          PrecedesLonger(front, last, was[i].scheduleId, was[j].scheduleId);
        } else {
          PrecedesLast(front, last, was[i].scheduleId);
        }
      }
      forall i | 0 <= i < |was| ensures was[i].scheduleId in front {
        assert was[i] in was;
      }
    }
  }

  class ScheduleStore {
    var schedules: map<string, Schedule>
    var runs: seq<TickRun>
    var jobs: seq<TickRun>     // the runs whose job reached the queue
    var audited: seq<TickRun>  // the runs whose schedule_fired row reached the audit log

    constructor ()
      ensures schedules == map[] && runs == [] && jobs == [] && audited == []
    {
      schedules, runs, jobs, audited := map[], [], [], [];
    }

    /** The body of the tick's loop for one due row: create the run, submit its job, advance the row. */
    method FireRow(cron: CronOracle, id: string, queueUp: set<string>, now: int) returns (advanced: bool)
      requires id in schedules && schedules[id].Due(now)
      modifies this`schedules, this`runs, this`jobs
      ensures schedules == old(schedules)[id := Advance(cron, old(schedules)[id], now)]
      ensures runs == old(runs) + [TickRun(id, old(schedules)[id].nextFireAt.value, now)]
      ensures jobs == old(jobs) + Accepted([TickRun(id, old(schedules)[id].nextFireAt.value, now)], queueUp)
      ensures jobs == old(jobs) + if id in queueUp then [TickRun(id, old(schedules)[id].nextFireAt.value, now)] else []
      ensures advanced <==> Advances(cron, old(schedules)[id], now)
    {
      var s := schedules[id];
      var run := TickRun(id, s.nextFireAt.value, now);
      runs := runs + [run];
      if id in queueUp {
        jobs := jobs + [run];
      }
      var next := ComputeNextFire(cron, s.kind, s.Spec(), s.zone, now, s.nextFireAt);
      advanced := next.Success?;
      if advanced {
        s := s.(lastFireAt := s.nextFireAt, nextFireAt := next.value);
        if next.value.None? && s.kind == OneShot {
          s := s.(status := Completed);
        }
      }
      schedules := schedules[id := s];
      assert Accepted([run], queueUp) == if id in queueUp then [run] else [];
    }

    /** One turn of the tick's loop. */
    method HandleRow(cron: CronOracle, rows: seq<string>, i: nat, queueUp: set<string>, now: int,
                     ghost before: map<string, Schedule>, ghost runs0: seq<TickRun>, ghost jobs0: seq<TickRun>)
      returns (fired: Option<TickRun>, ok: bool)
      requires QueryAnswer(before, rows) && i < |rows|
      requires schedules == TickedPrefix(cron, before, rows[..i], now)
      requires runs == runs0 + TickRuns(before, rows[..i], now)
      requires jobs == jobs0 + Accepted(TickRuns(before, rows[..i], now), queueUp)
      modifies this`schedules, this`runs, this`jobs
      ensures schedules == TickedPrefix(cron, before, rows[..i + 1], now)
      ensures runs == runs0 + TickRuns(before, rows[..i + 1], now)
      ensures jobs == jobs0 + Accepted(TickRuns(before, rows[..i + 1], now), queueUp)
      ensures TickRuns(before, rows[..i + 1], now) ==
        TickRuns(before, rows[..i], now) + if fired.Some? then [fired.value] else []
      ensures AdvancedCount(cron, before, rows[..i + 1], now) ==
        AdvancedCount(cron, before, rows[..i], now) + if ok then 1 else 0
    {
      TickedPrefixNext(cron, before, rows, i, now);
      TickRunsNext(before, rows, i, now, queueUp);
      AdvancedCountNext(cron, before, rows, i, now);
      var nextFireAt := schedules[rows[i]].nextFireAt;
      fired, ok := None, false;
      if nextFireAt.Some? && nextFireAt.value <= now {
        var run := TickRun(rows[i], nextFireAt.value, now);
        fired := Some(run);
        Associates(runs0, TickRuns(before, rows[..i], now), [run]);
        Associates(jobs0, Accepted(TickRuns(before, rows[..i], now), queueUp), Accepted([run], queueUp));
        ok := FireRow(cron, rows[i], queueUp, now);
      }
    }

    /** The scan and the loop of tick_once, as leader; `fired` are the runs created. */
    method FireDue(cron: CronOracle, rows: seq<string>, queueUp: set<string>, now: int)
      returns (fired: seq<TickRun>, advanced: nat)
      requires QueryAnswer(schedules, rows)
      modifies this`schedules, this`runs, this`jobs
      ensures fired == TickRuns(old(schedules), rows, now)
      ensures schedules == TickedAll(cron, old(schedules), now)
      ensures runs == old(runs) + fired
      ensures jobs == old(jobs) + Accepted(fired, queueUp)
      ensures advanced == AdvancedCount(cron, old(schedules), rows, now)
      ensures FiresDue(old(schedules), rows, now, fired)
      ensures old(jobs) <= jobs && ComesThrough(fired, queueUp, jobs[|old(jobs)|..])
    {
      ghost var before := schedules;
      fired, advanced := [], 0;
      for i := 0 to |rows|
        invariant schedules == TickedPrefix(cron, before, rows[..i], now)
        invariant fired == TickRuns(before, rows[..i], now)
        invariant runs == old(runs) + fired
        invariant jobs == old(jobs) + Accepted(fired, queueUp)
        invariant advanced == AdvancedCount(cron, before, rows[..i], now)
      {
        var run, ok := HandleRow(cron, rows, i, queueUp, now, before, old(runs), old(jobs));
        if run.Some? {
          fired := fired + [run.value];
        }
        advanced := advanced + if ok then 1 else 0;
      }
      assert rows[..|rows|] == rows;
      TickedPrefixAll(cron, before, rows, now);
      TickRunsFireDue(before, rows, now);
      AcceptedComesThrough(fired, queueUp);
    }

    /** After the commit: one audit row for each run, as far as the audit log takes it. */
    method AuditFires(fired: seq<TickRun>, auditUp: set<string>)
      modifies this`audited
      ensures audited == old(audited) + Accepted(fired, auditUp)
      ensures DistinctIds(fired) ==> ComesThrough(fired, auditUp, audited[|old(audited)|..])
    {
      for i := 0 to |fired|
        invariant audited == old(audited) + Accepted(fired[..i], auditUp)
      {
        assert fired[..i + 1] == fired[..i] + [fired[i]];
        AcceptedAppend(fired[..i], fired[i], auditUp);
        if fired[i].scheduleId in auditUp {
          audited := audited + [fired[i]];
        }
      }
      assert fired[..|fired|] == fired;
      if DistinctIds(fired) {
        AcceptedComesThrough(fired, auditUp);
      }
    }

    /**
     * tick_once, on a cache that no one else uses meanwhile: acquire at `acquiredAt`, fire at `now`,
     * release at `releasedAt`. `queueUp` and `auditUp` say for which schedules submit and audit succeed.
     */
    method TickOnce(cron: CronOracle, cache: Leader.LeaderCache, token: Leader.Token, ttl: nat, rows: seq<string>,
                    queueUp: set<string>, auditUp: set<string>, acquiredAt: int, now: int, releasedAt: int)
      returns (result: TickResult)
      requires QueryAnswer(schedules, rows)
      modifies this, cache
      ensures var held := Leader.Get(old(cache.entry), acquiredAt).None? && ttl > 0;
        var fired := if held then TickRuns(old(schedules), rows, now) else [];
        var acquired := Leader.AcquireEntry(old(cache.entry), token, acquiredAt, ttl);
        && schedules == (if held then TickedAll(cron, old(schedules), now) else old(schedules))
        && runs == old(runs) + fired
        && jobs == old(jobs) + Accepted(fired, queueUp)
        && audited == old(audited) + Accepted(fired, auditUp)
        && result == (if held then TickResult(true, |rows|, |fired|, AdvancedCount(cron, old(schedules), rows, now))
                      else TickResult(false, 0, 0, 0))
        && cache.entry == (if held then Leader.ReleaseEntry(acquired, token, releasedAt) else acquired)
        && (held ==> Leader.Get(cache.entry, releasedAt).None?)
        && old(runs) <= runs && old(jobs) <= jobs && old(audited) <= audited
        && (held ==> FiresDue(old(schedules), rows, now, runs[|old(runs)|..]))
        && ComesThrough(runs[|old(runs)|..], queueUp, jobs[|old(jobs)|..])
        && ComesThrough(runs[|old(runs)|..], auditUp, audited[|old(audited)|..])
        && (!held ==> runs == old(runs))
    {
      var held := cache.Acquire(token, acquiredAt, ttl);
      if !held {
        return TickResult(false, 0, 0, 0);
      }
      var fired, advanced := FireDue(cron, rows, queueUp, now);
      AuditFires(fired, auditUp);
      cache.Release(token, releasedAt);
      return TickResult(true, |rows|, |fired|, advanced);
    }

    method PatchSchedule(cron: CronOracle, id: string, p: SchedulePatch, now: int)
      returns (refused: Option<ScheduleRefusal>)
      modifies this`schedules
      ensures id !in old(schedules) ==> refused == Some(NoSchedule)
      ensures id in old(schedules) ==> var row := PatchRow(cron, old(schedules)[id], p, now);
        refused == if row.Failure? then Some(row.error) else None
      ensures schedules ==
        if refused.None? then old(schedules)[id := PatchRow(cron, old(schedules)[id], p, now).value]
        else old(schedules)
    {
      if id !in schedules {
        return Some(NoSchedule);
      }
      if p.details.targetType.Value? && p.details.targetType.value.UnknownTarget? {
        return Some(InvalidTarget);
      }
      var row := ApplyFields(schedules[id], p);
      if p.Recomputes() {
        var next := ComputeNextFire(cron, row.kind, row.Spec(), row.zone, now, None);
        if next.Failure? {
          return Some(if next.error == SpecError then InvalidTrigger else InternalError);
        }
        row := row.(nextFireAt := next.value);
      }
      if p.ViolatesNotNull() {
        return Some(InternalError);
      }
      schedules := schedules[id := row];
      return None;
    }

    method CreateSchedule(cron: CronOracle, id: string, body: ScheduleBody, quotas: Quotas, owned: int, now: int)
      returns (refused: Option<ScheduleRefusal>)
      requires id !in schedules
      modifies this`schedules
      ensures var row := CreateRow(cron, body, quotas, owned, now);
        && refused == (if row.Failure? then Some(row.error) else None)
        && schedules == (if row.Success? then old(schedules)[id := row.value] else old(schedules))
    {
      if owned >= quotas.maxSchedulesPerUser {
        return Some(QuotaExceeded);
      }
      if body.kind == Interval {
        var every := if body.spec.everySeconds.Seconds? then body.spec.everySeconds.value else 0;
        if body.spec.everySeconds.NotNumber? {
          return Some(InternalError);
        }
        if every < quotas.minIntervalSeconds {
          return Some(QuotaExceeded);
        }
      }
      if body.details.targetType.UnknownTarget? {
        return Some(InvalidTarget);
      }
      var next := ComputeNextFire(cron, body.kind, body.spec, body.zone, now, None);
      if next.Failure? {
        return Some(if next.error == SpecError then InvalidTrigger else InternalError);
      }
      schedules := schedules[id := Schedule(body.kind, Some(body.spec), body.zone, body.enabled, false, Active,
                                            next.value, None, body.details)];
      return None;
    }
  }
}
