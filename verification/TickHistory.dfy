/**
 * Whole runs of the scheduler: any interleaving of create, PATCH, delete and serialised ticks under a
 * clock that never goes back.
 */
module TickHistory {
  import opened Wrappers
  import opened Trigger
  import opened Tick

  /** A run the tick created: `write` counts the schedule's trigger-field writes at that time. */
  datatype Fire = Fire(scheduleId: string, scheduledFor: int, at: int, write: nat, kind: TriggerType)

  datatype System = System(
    schedules: map<string, Schedule>,
    writes: map<string, nat>,  // every identifier ever used, with its number of trigger-field writes
    fires: seq<Fire>,
    clock: int)

  datatype Event =
    | Create(id: string, body: ScheduleBody, quotas: Quotas, owned: int, now: int)
    | Patch(id: string, patch: SchedulePatch, now: int)
    | Delete(id: string, now: int)
    | TickAt(rows: seq<string>, now: int)

  /** Identifiers are fresh UUIDs, the clock does not go back, and a tick sees the query's answer. */
  ghost predicate Enabled(st: System, e: Event) {
    && st.clock <= e.now
    && (e.Create? ==> e.id !in st.writes)
    && (e.TickAt? ==> QueryAnswer(st.schedules, e.rows))
  }

  function Fires(st: System, rows: seq<string>, now: int): seq<Fire>
    requires forall id :: id in rows ==> id in st.schedules && id in st.writes
  {
    if rows == [] then []
    else
      var id := rows[|rows| - 1];
      var s := st.schedules[id];
      Fires(st, rows[..|rows| - 1], now) +
      (if s.Due(now) then [Fire(id, s.nextFireAt.value, now, st.writes[id], s.kind)] else [])
  }

  /** The history records the very run rows that the tick creates. */
  lemma {:induction false} FiresAreTickRuns(st: System, rows: seq<string>, now: int)
    requires forall id :: id in rows ==> id in st.schedules && id in st.writes
    ensures var fires, runs := Fires(st, rows, now), TickRuns(st.schedules, rows, now);
      && |fires| == |runs|
      && forall k :: 0 <= k < |fires| ==> runs[k] == TickRun(fires[k].scheduleId, fires[k].scheduledFor, fires[k].at)
  {
    if rows != [] {
      FiresAreTickRuns(st, rows[..|rows| - 1], now);
    }
  }

  ghost predicate Known(st: System) {
    forall id :: id in st.schedules ==> id in st.writes
  }

  ghost function Step(cron: CronOracle, st: System, e: Event): System
    requires Enabled(st, e) && Known(st)
  {
    match e
    case Create(id, body, quotas, owned, now) =>
      var row := CreateRow(cron, body, quotas, owned, now);
      if row.Failure? then st.(clock := now)
      else st.(schedules := st.schedules[id := row.value], writes := st.writes[id := 1], clock := now)
    case Patch(id, p, now) =>
      if id !in st.schedules || PatchRow(cron, st.schedules[id], p, now).Failure? then st.(clock := now)
      else
        st.(schedules := st.schedules[id := PatchRow(cron, st.schedules[id], p, now).value],
            writes := if p.Recomputes() then st.writes[id := st.writes[id] + 1] else st.writes,
            clock := now)
    case Delete(id, now) =>
      st.(schedules := st.schedules - {id}, clock := now)
    case TickAt(rows, now) =>
      st.(schedules := TickedAll(cron, st.schedules, now), fires := st.fires + Fires(st, rows, now), clock := now)
  }

  const START := System(map[], map[], [], 0)

  /** The state after a list of events, each enabled in its turn; None when one is not. */
  ghost function After(cron: CronOracle, start: int, events: seq<Event>): (st: Option<System>)
    ensures st.Some? ==> Known(st.value)
  {
    if events == [] then Some(START.(clock := start))
    else
      var before := After(cron, start, events[..|events| - 1]);
      var e := events[|events| - 1];
      if before.Some? && Enabled(before.value, e) then Some(Step(cron, before.value, e)) else None
  }

  // ----- What a PATCH may break -----

  /** A PATCH that stores null as trigger_spec without writing a trigger field with a value. */
  predicate NullsSpec(p: SchedulePatch) {
    p.spec.NullValue? && !p.Recomputes()
  }

  /** An accepted PATCH keeps the trigger computable, unless it only nulls the spec of a schedule that needs one. */
  lemma PatchKeepsSoundIff(cron: CronOracle, s: Schedule, p: SchedulePatch, now: int)
    requires s.Sound(cron) && PatchRow(cron, s, p, now).Success?
    ensures PatchRow(cron, s, p, now).value.Sound(cron) <==> !(NullsSpec(p) && s.kind != Manual)
  {
    var applied := ApplyFields(s, p);
    RaisesIffIllFormed(cron, applied.kind, applied.Spec(), applied.zone, now, None);
  }

  ghost predicate Harmless(cron: CronOracle, st: System, e: Event) {
    e.Patch? && e.id in st.schedules && NullsSpec(e.patch) ==> st.schedules[e.id].kind == Manual
  }

  /** No PATCH of the run nulls the spec of a schedule that needs it. */
  ghost predicate AllHarmless(cron: CronOracle, start: int, events: seq<Event>) {
    forall k :: 0 <= k < |events| && After(cron, start, events[..k]).Some? ==>
      Harmless(cron, After(cron, start, events[..k]).value, events[k])
  }

  // ----- No instant is fired twice -----

  ghost predicate AllSound(cron: CronOracle, st: System) {
    forall id :: id in st.schedules ==> st.schedules[id].Sound(cron)
  }

  /** Fires lie in the past, and the next one lies after all of them. */
  ghost predicate NextIsLater(st: System) {
    && (forall k :: 0 <= k < |st.fires| ==>
         st.fires[k].scheduledFor <= st.fires[k].at <= st.clock && st.fires[k].scheduleId in st.writes)
    && (forall k, id :: 0 <= k < |st.fires| && id in st.schedules && st.fires[k].scheduleId == id ==>
         st.schedules[id].nextFireAt.Some? ==> st.fires[k].scheduledFor < st.schedules[id].nextFireAt.value)
  }

  /** Each schedule's fires have strictly increasing instants. */
  ghost predicate Increasing(fires: seq<Fire>) {
    forall i, j :: 0 <= i < j < |fires| && fires[i].scheduleId == fires[j].scheduleId ==>
      fires[i].scheduledFor < fires[j].scheduledFor
  }

  lemma {:induction false} FiresOf(st: System, rows: seq<string>, now: int)
    requires forall id :: id in rows ==> id in st.schedules && id in st.writes
    requires forall i, j :: 0 <= i < j < |rows| ==> rows[i] != rows[j]
    ensures forall f :: f in Fires(st, rows, now) ==>
      && f.scheduleId in rows
      && var s := st.schedules[f.scheduleId];
         s.Due(now) && f == Fire(f.scheduleId, s.nextFireAt.value, now, st.writes[f.scheduleId], s.kind)
    ensures forall id :: id in rows && st.schedules[id].Due(now) ==>
      Fire(id, st.schedules[id].nextFireAt.value, now, st.writes[id], st.schedules[id].kind) in Fires(st, rows, now)
    ensures forall i, j :: 0 <= i < j < |Fires(st, rows, now)| ==>
      Fires(st, rows, now)[i].scheduleId != Fires(st, rows, now)[j].scheduleId
  {
    if rows != [] {
      var n := |rows| - 1;
      FiresOf(st, rows[..n], now);
      assert rows == rows[..n] + [rows[n]];
      var front := Fires(st, rows[..n], now);
      forall k | 0 <= k < |front| ensures front[k].scheduleId != rows[n] {
        assert front[k] in front;
      }
    }
  }

  /** A due row moves strictly forward exactly when its trigger can be computed. */
  lemma AdvanceMovesIff(cron: CronOracle, s: Schedule, now: int)
    requires s.Due(now)
    ensures s.Sound(cron) <==> Advances(cron, s, now)
    ensures s.Sound(cron) ==> var t := Advance(cron, s, now);
      && t.lastFireAt == s.nextFireAt
      && (t.nextFireAt.Some? ==> t.nextFireAt.value > now)
      && t.Sound(cron)
    ensures !s.Sound(cron) ==> Advance(cron, s, now) == s
  {
    RaisesIffIllFormed(cron, s.kind, s.Spec(), s.zone, now, s.nextFireAt);
    StrictProgress(cron, s.kind, s.Spec(), s.zone, now, s.nextFireAt);
  }

  /** How many rows a tick advances: the due ones whose trigger can be computed. */
  lemma {:induction false} AdvancedAre(cron: CronOracle, schedules: map<string, Schedule>, rows: seq<string>, now: int)
    requires forall id :: id in rows ==> id in schedules
    requires forall i, j :: 0 <= i < j < |rows| ==> rows[i] != rows[j]
    ensures AdvancedCount(cron, schedules, rows, now) ==
      |set id | id in rows && schedules[id].Due(now) && schedules[id].Sound(cron)|
  {
    if rows != [] {
      var front, last := rows[..|rows| - 1], rows[|rows| - 1];
      AdvancedAre(cron, schedules, front, now);
      assert rows == front + [last];
      var was := set id | id in front && schedules[id].Due(now) && schedules[id].Sound(cron);
      var all := set id | id in rows && schedules[id].Due(now) && schedules[id].Sound(cron);
      if schedules[last].Due(now) {
        AdvanceMovesIff(cron, schedules[last], now);
      }
      assert last !in front && last !in was;
      if schedules[last].Due(now) && schedules[last].Sound(cron) {
        assert all == was + {last};
      } else {
        assert all == was;
      }
    }
  }

  /** A tick fires a schedule exactly when it is active, enabled, not paused and its pending instant has come. */
  lemma TickFiresIff(st: System, rows: seq<string>, now: int, id: string)
    requires Known(st) && Enabled(st, TickAt(rows, now))
    ensures (exists f :: f in Fires(st, rows, now) && f.scheduleId == id) <==>
      && id in st.schedules && st.schedules[id].status == Active && st.schedules[id].enabled
      && !st.schedules[id].paused
      && st.schedules[id].nextFireAt.Some? && st.schedules[id].nextFireAt.value <= now
  {
    FiresOf(st, rows, now);
    if id in st.schedules && st.schedules[id].Due(now) {
      assert Fire(id, st.schedules[id].nextFireAt.value, now, st.writes[id], st.schedules[id].kind) in
        Fires(st, rows, now);
    }
  }

  lemma TickKeepsNextLater(cron: CronOracle, st: System, e: Event)
    requires Known(st) && e.TickAt? && Enabled(st, e) && AllSound(cron, st) && NextIsLater(st)
    ensures AllSound(cron, Step(cron, st, e)) && NextIsLater(Step(cron, st, e))
  {
    var st' := Step(cron, st, e);
    FiresOf(st, e.rows, e.now);
    forall id | id in st.schedules
      ensures st'.schedules[id].Sound(cron)
      ensures st.schedules[id].Due(e.now) && st'.schedules[id].nextFireAt.Some? ==>
        st'.schedules[id].nextFireAt.value > e.now
    {
      if st.schedules[id].Due(e.now) { AdvanceMovesIff(cron, st.schedules[id], e.now); }
    }
    forall k | 0 <= k < |st'.fires|
      ensures st'.fires[k].scheduledFor <= st'.fires[k].at <= st'.clock && st'.fires[k].scheduleId in st'.writes
      ensures k >= |st.fires| ==> st.schedules[st'.fires[k].scheduleId].Due(e.now)
    {
      if k >= |st.fires| {
        assert st'.fires[k] in Fires(st, e.rows, e.now);
      } else {
        assert st'.fires[k] == st.fires[k];
      }
    }
  }

  lemma TickKeepsIncreasing(cron: CronOracle, st: System, e: Event)
    requires Known(st) && e.TickAt? && Enabled(st, e) && NextIsLater(st) && Increasing(st.fires)
    ensures Increasing(Step(cron, st, e).fires)
  {
    var added := Fires(st, e.rows, e.now);
    FiresOf(st, e.rows, e.now);
    forall i, j | 0 <= i < j < |st.fires + added| &&
      (st.fires + added)[i].scheduleId == (st.fires + added)[j].scheduleId
      ensures (st.fires + added)[i].scheduledFor < (st.fires + added)[j].scheduledFor
    {
      if j >= |st.fires| {
        assert added[j - |st.fires|] in added;
      }
    }
  }

  /** What an accepted PATCH does to one row: the fire is recomputed, or nothing it depends on changes. */
  lemma PatchedRow(cron: CronOracle, s: Schedule, p: SchedulePatch, now: int)
    requires s.Sound(cron) && PatchRow(cron, s, p, now).Success? && (NullsSpec(p) ==> s.kind == Manual)
    ensures var t := PatchRow(cron, s, p, now).value;
      && t.Sound(cron)
      && (p.Recomputes() && t.nextFireAt.Some? ==> t.nextFireAt.value > now)
      && (p.Recomputes() && t.nextFireAt.Some? && t.kind == OneShot ==> t.Spec().fireAt == At(t.nextFireAt.value))
      && (!p.Recomputes() ==> t.kind == s.kind && t.nextFireAt == s.nextFireAt)
      && (!p.Recomputes() && s.kind != Manual ==> t.Spec() == s.Spec())
  {
    PatchKeepsSoundIff(cron, s, p, now);
    var applied := ApplyFields(s, p);
    StrictProgress(cron, applied.kind, applied.Spec(), applied.zone, now, None);
  }

  lemma PatchKeepsNextLater(cron: CronOracle, st: System, e: Event)
    requires Known(st) && e.Patch? && Enabled(st, e) && Harmless(cron, st, e)
    requires AllSound(cron, st) && NextIsLater(st)
    ensures AllSound(cron, Step(cron, st, e)) && NextIsLater(Step(cron, st, e))
  {
    if e.id in st.schedules && PatchRow(cron, st.schedules[e.id], e.patch, e.now).Success? {
      PatchedRow(cron, st.schedules[e.id], e.patch, e.now);
    }
  }

  /** An accepted create stores a row whose trigger can be computed, with its first fire ahead. */
  lemma CreatedRow(cron: CronOracle, body: ScheduleBody, quotas: Quotas, owned: int, now: int)
    requires CreateRow(cron, body, quotas, owned, now).Success?
    ensures var row := CreateRow(cron, body, quotas, owned, now).value;
      && row.Sound(cron)
      && ComputeNextFire(cron, row.kind, row.Spec(), row.zone, now, None) == Success(row.nextFireAt)
      && (row.nextFireAt.Some? ==> row.nextFireAt.value > now)
  {
    RaisesIffIllFormed(cron, body.kind, body.spec, body.zone, now, None);
    StrictProgress(cron, body.kind, body.spec, body.zone, now, None);
  }

  lemma CreateKeepsNextLater(cron: CronOracle, st: System, e: Event)
    requires Known(st) && e.Create? && Enabled(st, e) && AllSound(cron, st) && NextIsLater(st)
    ensures AllSound(cron, Step(cron, st, e)) && NextIsLater(Step(cron, st, e))
  {
    if CreateRow(cron, e.body, e.quotas, e.owned, e.now).Success? {
      CreatedRow(cron, e.body, e.quotas, e.owned, e.now);
    }
  }

  lemma OtherKeepsNextLater(cron: CronOracle, st: System, e: Event)
    requires Known(st) && !e.TickAt? && Enabled(st, e) && Harmless(cron, st, e)
    requires AllSound(cron, st) && NextIsLater(st)
    ensures AllSound(cron, Step(cron, st, e)) && NextIsLater(Step(cron, st, e))
    ensures Step(cron, st, e).fires == st.fires
  {
    match e
    case Create(id, body, quotas, owned, now) =>
      CreateKeepsNextLater(cron, st, e);
    case Patch(id, p, now) =>
      PatchKeepsNextLater(cron, st, e);
    case Delete(id, now) =>
  }

  lemma HarmlessPrefix(cron: CronOracle, start: int, events: seq<Event>)
    requires events != [] && AllHarmless(cron, start, events)
    ensures AllHarmless(cron, start, events[..|events| - 1])
    ensures var front := After(cron, start, events[..|events| - 1]);
      front.Some? ==> Harmless(cron, front.value, events[|events| - 1])
  {
    var front := events[..|events| - 1];
    forall k | 0 <= k < |front| ensures front[..k] == events[..k] {
    }
  }

  /**
   * No fire instant is enqueued twice: in every run without a spec-nulling PATCH, each schedule's
   * tick-created instants strictly increase, and its next one lies after all of them.
   */
  lemma {:induction false} NoInstantFiresTwice(cron: CronOracle, start: int, events: seq<Event>)
    requires After(cron, start, events).Some? && AllHarmless(cron, start, events)
    ensures var st := After(cron, start, events).value;
      AllSound(cron, st) && NextIsLater(st) && Increasing(st.fires)
    decreases |events|
  {
    if events != [] {
      var front, e := events[..|events| - 1], events[|events| - 1];
      HarmlessPrefix(cron, start, events);
      NoInstantFiresTwice(cron, start, front);
      var st := After(cron, start, front).value;
      if e.TickAt? {
        TickKeepsNextLater(cron, st, e);
        TickKeepsIncreasing(cron, st, e);
      } else {
        OtherKeepsNextLater(cron, st, e);
      }
    }
  }

  /**
   * What happens otherwise: two ticks in a row fire a due schedule at the same instant exactly when
   * its trigger cannot be computed.
   */
  lemma RefiresIffUnsound(cron: CronOracle, s: Schedule, now: int, later: int)
    requires s.Due(now) && now <= later
    ensures var t := Ticked(cron, s, now);
      t.Due(later) && t.nextFireAt == s.nextFireAt <==> !s.Sound(cron)
  {
    AdvanceMovesIff(cron, s, now);
  }

  const NULL_SPEC :=
    SchedulePatch(Unset, NullValue, Unset, Unset, Unset, Unset, DetailsPatch(Unset, Unset, Unset, Unset, Unset))

  /** A tick that reaches a due row whose trigger cannot be computed fires it and leaves it in place. */
  lemma UnsoundTick(cron: CronOracle, st: System, id: string, rows: seq<string>, now: int) returns (k: nat)
    requires Known(st) && Enabled(st, TickAt(rows, now))
    requires id in st.schedules && st.schedules[id].Due(now) && !st.schedules[id].Sound(cron)
    ensures var st' := Step(cron, st, TickAt(rows, now));
      && id in st'.schedules && st'.schedules[id] == st.schedules[id] && st'.clock == now
      && st.fires <= st'.fires && |st.fires| <= k < |st'.fires|
      && st'.fires[k].scheduleId == id && st'.fires[k].scheduledFor == st.schedules[id].nextFireAt.value
  {
    AdvanceMovesIff(cron, st.schedules[id], now);
    FiresOf(st, rows, now);
    var added := Fires(st, rows, now);
    var i :| 0 <= i < |added| &&
      added[i] == Fire(id, st.schedules[id].nextFireAt.value, now, st.writes[id], st.schedules[id].kind);
    k := |st.fires| + i;
  }

  /** Two ticks that reach such a row create two runs for one instant. */
  lemma UnsoundRefires(cron: CronOracle, st: System, id: string, rows1: seq<string>, t1: int, rows2: seq<string>, t2: int)
    requires Known(st) && Enabled(st, TickAt(rows1, t1))
    requires Enabled(Step(cron, st, TickAt(rows1, t1)), TickAt(rows2, t2))
    requires id in st.schedules && st.schedules[id].Due(t1) && !st.schedules[id].Sound(cron)
    ensures !Increasing(Step(cron, Step(cron, st, TickAt(rows1, t1)), TickAt(rows2, t2)).fires)
  {
    var i := UnsoundTick(cron, st, id, rows1, t1);
    var st2 := Step(cron, st, TickAt(rows1, t1));
    var j := UnsoundTick(cron, st2, id, rows2, t2);
    var fires := Step(cron, st2, TickAt(rows2, t2)).fires;
    assert fires[i].scheduleId == fires[j].scheduleId && fires[i] == st2.fires[i];
  }

  /**
   * The whole failing family: nulling the spec of any scanned, non-manual schedule with a pending fire
   * is accepted, and the next two ticks that reach it create two runs for one instant.
   */
  lemma NulledSpecRefires(cron: CronOracle, st: System, id: string, now: int,
                          rows1: seq<string>, t1: int, rows2: seq<string>, t2: int)
    requires Known(st) && id in st.schedules && st.schedules[id].Scanned() && st.schedules[id].nextFireAt.Some?
    requires st.schedules[id].kind != Manual && st.clock <= now && st.schedules[id].nextFireAt.value <= t1
    requires var st1 := Step(cron, st, Patch(id, NULL_SPEC, now));
      Enabled(st1, TickAt(rows1, t1)) && Enabled(Step(cron, st1, TickAt(rows1, t1)), TickAt(rows2, t2))
    ensures var st1 := Step(cron, st, Patch(id, NULL_SPEC, now));
      !Increasing(Step(cron, Step(cron, st1, TickAt(rows1, t1)), TickAt(rows2, t2)).fires)
  {
    var st1 := Step(cron, st, Patch(id, NULL_SPEC, now));
    assert st1.schedules[id] == st.schedules[id].(storedSpec := None);
    UnsoundRefires(cron, st1, id, rows1, t1, rows2, t2);
  }

  lemma OneRowAnswer(st: System, id: string, now: int)
    requires st.schedules.Keys == {id} && st.schedules[id].Scanned() && st.clock <= now
    ensures Enabled(st, TickAt([id], now))
  {
  }

  /** Such a run exists: one interval schedule, one such PATCH, two ticks. */
  lemma NulledSpecFiresTwice(cron: CronOracle)
    ensures exists events :: After(cron, 0, events).Some? && !Increasing(After(cron, 0, events).value.fires)
  {
    var id, tick := ['s'], TickAt([['s']], SECOND);
    var before, st := NulledSchedule(cron);
    OneRowAnswer(st, id, SECOND);
    AfterNext(cron, 0, before, tick);
    var _ := UnsoundTick(cron, st, id, [id], SECOND);
    var next := Step(cron, st, tick);
    assert next.schedules.Keys == {id};
    OneRowAnswer(next, id, SECOND);
    AfterNext(cron, 0, before + [tick], tick);
    UnsoundRefires(cron, st, id, [id], SECOND, [id], SECOND);
    var events := before + [tick] + [tick];
    assert After(cron, 0, events).Some? && !Increasing(After(cron, 0, events).value.fires);
  }

  const PLAIN_DETAILS := Details([], None, CodeRunner, [], None)

  lemma NulledSchedule(cron: CronOracle) returns (events: seq<Event>, st: System)
    ensures After(cron, 0, events) == Some(st) && st.clock == 0
    ensures st.schedules ==
      map[['s'] := Schedule(Interval, None, [], true, false, Active, Some(SECOND), None, PLAIN_DETAILS)]
  {
    var id := ['s'];
    var spec := EMPTY_SPEC.(everySeconds := Seconds(1));
    var body := ScheduleBody(Interval, spec, [], true, PLAIN_DETAILS);
    var create, patch := Create(id, body, Quotas(1, 1), 0, 0), Patch(id, NULL_SPEC, 0);
    assert FirstAfter(0, SECOND, 0) == SECOND;
    AfterNext(cron, 0, [], create);
    AfterNext(cron, 0, [] + [create], patch);
    events := [] + [create] + [patch];
    st := After(cron, 0, events).value;
  }

  lemma AfterNext(cron: CronOracle, start: int, events: seq<Event>, e: Event)
    ensures After(cron, start, events + [e]) ==
      var before := After(cron, start, events);
      if before.Some? && Enabled(before.value, e) then Some(Step(cron, before.value, e)) else None
  {
    assert (events + [e])[..|events|] == events;
  }

  // ----- One-shot schedules -----

  /** `f` happened under the trigger fields that schedule `id` has now. */
  ghost predicate CurrentFire(st: System, f: Fire, id: string) {
    f.scheduleId == id && id in st.writes && f.write == st.writes[id]
  }

  /** A one-shot's pending instant is its fire_at; once it fired under the current write, none is pending. */
  ghost predicate OneShotState(st: System) {
    && (forall id :: id in st.schedules && st.schedules[id].kind == OneShot && st.schedules[id].nextFireAt.Some? ==>
         st.schedules[id].Spec().fireAt == At(st.schedules[id].nextFireAt.value))
    && (forall k :: 0 <= k < |st.fires| ==>
         st.fires[k].scheduleId in st.writes && st.fires[k].write <= st.writes[st.fires[k].scheduleId])
    && (forall k, id :: 0 <= k < |st.fires| && id in st.schedules && CurrentFire(st, st.fires[k], id) ==>
         && st.fires[k].kind == st.schedules[id].kind
         && (st.schedules[id].kind == OneShot ==> st.schedules[id].nextFireAt.None?))
  }

  /** At most one fire of a one-shot per write of its trigger fields. */
  ghost predicate OneShotOnce(fires: seq<Fire>) {
    forall i, j :: 0 <= i < j < |fires| && fires[i].kind == OneShot && fires[i].scheduleId == fires[j].scheduleId ==>
      fires[i].write != fires[j].write
  }

  /** The tick that fires a one-shot completes it. */
  lemma OneShotCompletes(cron: CronOracle, s: Schedule, now: int)
    requires s.kind == OneShot && s.Due(now) && s.Spec().fireAt == At(s.nextFireAt.value)
    ensures Advance(cron, s, now).status == Completed && Advance(cron, s, now).nextFireAt.None?
  {
  }

  /** What one tick does to the row of a one-shot, and to the row of any other schedule, as far as this is concerned. */
  lemma TickedOneShot(cron: CronOracle, s: Schedule, now: int)
    requires s.kind == OneShot && s.nextFireAt.Some? ==> s.Spec().fireAt == At(s.nextFireAt.value)
    ensures var t := Ticked(cron, s, now);
      && t.kind == s.kind && t.Spec() == s.Spec()
      && (s.kind == OneShot ==> t.nextFireAt == (if s.Due(now) then None else s.nextFireAt))
  {
    if s.kind == OneShot && s.Due(now) {
      OneShotCompletes(cron, s, now);
    }
  }

  lemma TickKeepsOneShot(cron: CronOracle, st: System, e: Event)
    requires Known(st) && e.TickAt? && Enabled(st, e) && AllSound(cron, st) && OneShotState(st)
    ensures OneShotState(Step(cron, st, e))
  {
    var st' := Step(cron, st, e);
    var added := Fires(st, e.rows, e.now);
    FiresOf(st, e.rows, e.now);
    forall id | id in st.schedules
      ensures var s, t := st.schedules[id], st'.schedules[id];
        && t.kind == s.kind && t.Spec() == s.Spec()
        && (s.kind == OneShot ==> t.nextFireAt == (if s.Due(e.now) then None else s.nextFireAt))
    {
      TickedOneShot(cron, st.schedules[id], e.now);
    }
    forall k | 0 <= k < |st'.fires|
      ensures st'.fires[k] in added || (k < |st.fires| && st'.fires[k] == st.fires[k])
    {
    }
  }

  lemma TickKeepsOneShotOnce(cron: CronOracle, st: System, e: Event)
    requires Known(st) && e.TickAt? && Enabled(st, e) && OneShotState(st) && OneShotOnce(st.fires)
    ensures OneShotOnce(Step(cron, st, e).fires)
  {
    var added := Fires(st, e.rows, e.now);
    FiresOf(st, e.rows, e.now);
    var all := st.fires + added;
    forall i, j | 0 <= i < j < |all| && all[i].kind == OneShot && all[i].scheduleId == all[j].scheduleId
      ensures all[i].write != all[j].write
    {
      if j >= |st.fires| {
        assert all[j] == added[j - |st.fires|] && all[j] in added;
      }
    }
  }

  lemma PatchKeepsOneShot(cron: CronOracle, st: System, e: Event)
    requires Known(st) && e.Patch? && Enabled(st, e) && Harmless(cron, st, e)
    requires AllSound(cron, st) && OneShotState(st)
    ensures OneShotState(Step(cron, st, e))
  {
    if e.id in st.schedules && PatchRow(cron, st.schedules[e.id], e.patch, e.now).Success? {
      PatchedRow(cron, st.schedules[e.id], e.patch, e.now);
    }
  }

  lemma OtherKeepsOneShot(cron: CronOracle, st: System, e: Event)
    requires Known(st) && !e.TickAt? && Enabled(st, e) && Harmless(cron, st, e)
    requires AllSound(cron, st) && OneShotState(st)
    ensures OneShotState(Step(cron, st, e))
  {
    if e.Patch? {
      PatchKeepsOneShot(cron, st, e);
    }
  }

  /**
   * One-shot at most once: in every run without a spec-nulling PATCH, a one-shot fires at most once per
   * write of its trigger fields, and a pending one is due at its fire_at.
   */
  lemma {:induction false} OneShotFiresOnce(cron: CronOracle, start: int, events: seq<Event>)
    requires After(cron, start, events).Some? && AllHarmless(cron, start, events)
    ensures var st := After(cron, start, events).value;
      OneShotState(st) && OneShotOnce(st.fires)
    decreases |events|
  {
    if events != [] {
      var front, e := events[..|events| - 1], events[|events| - 1];
      HarmlessPrefix(cron, start, events);
      NoInstantFiresTwice(cron, start, front);
      OneShotFiresOnce(cron, start, front);
      var st := After(cron, start, front).value;
      if e.TickAt? {
        TickKeepsOneShot(cron, st, e);
        TickKeepsOneShotOnce(cron, st, e);
      } else {
        OtherKeepsOneShot(cron, st, e);
      }
    }
  }

  /**
   * In every such run, each tick that fires a one-shot fires it for its fire_at and completes it: the row
   * is completed, with nothing pending.
   */
  lemma OneShotFireCompletes(cron: CronOracle, start: int, events: seq<Event>, st: System, rows: seq<string>, now: int)
    requires After(cron, start, events) == Some(st) && AllHarmless(cron, start, events)
    requires Enabled(st, TickAt(rows, now))
    ensures var st' := Step(cron, st, TickAt(rows, now));
      forall f :: f in Fires(st, rows, now) && f.kind == OneShot ==>
        && f.scheduleId in st'.schedules
        && st'.schedules[f.scheduleId].status == Completed && st'.schedules[f.scheduleId].nextFireAt.None?
        && st'.schedules[f.scheduleId].Spec().fireAt == At(f.scheduledFor)
  {
    OneShotFiresOnce(cron, start, events);
    FiresOf(st, rows, now);
    forall f | f in Fires(st, rows, now) && f.kind == OneShot
      ensures Advance(cron, st.schedules[f.scheduleId], now).status == Completed
      ensures Advance(cron, st.schedules[f.scheduleId], now).nextFireAt.None?
    {
      OneShotCompletes(cron, st.schedules[f.scheduleId], now);
    }
  }
}
