/**
 * The tick theorems carried to whole histories: what one schedule does among any others, for as long as
 * it is neither patched nor deleted itself.
 */
module TickTrace {
  import opened Wrappers
  import opened Trigger
  import opened Tick
  import opened TickGrid
  import opened TickHistory
  import Occurrences = TickOccurrences

  /** A run created for the instant `scheduledFor` by the tick at `at`. */
  datatype Firing = Firing(scheduledFor: int, at: int)

  /** What the history records for one schedule, in order. */
  function FiringsOf(fires: seq<Fire>, id: string): seq<Firing> {
    if fires == [] then []
    else
      var last := fires[|fires| - 1];
      FiringsOf(fires[..|fires| - 1], id) +
      (if last.scheduleId == id then [Firing(last.scheduledFor, last.at)] else [])
  }

  function TickTimes(events: seq<Event>): seq<int> {
    if events == [] then []
    else
      var last := events[|events| - 1];
      TickTimes(events[..|events| - 1]) + (if last.TickAt? then [last.now] else [])
  }

  /** What a row fires when it is ticked at `times`. */
  function RowFirings(cron: CronOracle, s: Schedule, times: seq<int>): seq<Firing> {
    if times == [] then []
    else
      var front, now := times[..|times| - 1], times[|times| - 1];
      var before := AfterTicks(cron, s, front);
      RowFirings(cron, s, front) + (if before.Due(now) then [Firing(before.nextFireAt.value, now)] else [])
  }

  predicate LeavesAlone(e: Event, id: string) {
    !(e.Patch? && e.id == id) && !(e.Delete? && e.id == id)
  }

  lemma {:induction false} FiringsAppend(a: seq<Fire>, b: seq<Fire>, id: string)
    ensures FiringsOf(a + b, id) == FiringsOf(a, id) + FiringsOf(b, id)
  {
    if b == [] {
      assert a + b == a;
    } else {
      var n := |b| - 1;
      FiringsAppend(a, b[..n], id);
      assert (a + b)[..|a + b| - 1] == a + b[..n];
    }
  }

  /** A tick fires a schedule once when it is due, and otherwise not. */
  lemma {:induction false} TickFirings(st: System, rows: seq<string>, now: int, id: string)
    requires forall x :: x in rows ==> x in st.schedules && x in st.writes
    requires forall i, j :: 0 <= i < j < |rows| ==> rows[i] != rows[j]
    ensures FiringsOf(Fires(st, rows, now), id) ==
      if id in rows && st.schedules[id].Due(now) then [Firing(st.schedules[id].nextFireAt.value, now)] else []
  {
    if rows != [] {
      var n := |rows| - 1;
      var front, x := rows[..n], rows[n];
      TickFirings(st, front, now, id);
      assert rows == front + [x];
      if st.schedules[x].Due(now) {
        var fire := Fire(x, st.schedules[x].nextFireAt.value, now, st.writes[x], st.schedules[x].kind);
        FiringsAppend(Fires(st, front, now), [fire], id);
        assert [fire][..0] == [];
      } else {
        assert Fires(st, rows, now) == Fires(st, front, now);
      }
      assert id == x ==> id !in front;
    }
  }

  /** One event, seen from a schedule that it leaves alone. */
  lemma StepTrace(cron: CronOracle, st: System, e: Event, id: string)
    requires Known(st) && Enabled(st, e) && id in st.schedules && LeavesAlone(e, id)
    ensures var st' := Step(cron, st, e);
      && id in st'.schedules && st'.clock == e.now
      && st'.schedules[id] == (if e.TickAt? then Ticked(cron, st.schedules[id], e.now) else st.schedules[id])
      && FiringsOf(st'.fires, id) == FiringsOf(st.fires, id) +
         (if e.TickAt? && st.schedules[id].Due(e.now) then [Firing(st.schedules[id].nextFireAt.value, e.now)] else [])
  {
    if e.TickAt? {
      TickFirings(st, e.rows, e.now, id);
      FiringsAppend(st.fires, Fires(st, e.rows, e.now), id);
    }
  }

  lemma TickTimesNext(events: seq<Event>, e: Event)
    ensures TickTimes(events + [e]) == TickTimes(events) + if e.TickAt? then [e.now] else []
  {
    assert (events + [e])[..|events|] == events;
  }

  lemma RowFiringsNext(cron: CronOracle, s: Schedule, times: seq<int>, now: int)
    ensures AfterTicks(cron, s, times + [now]) == Ticked(cron, AfterTicks(cron, s, times), now)
    ensures RowFirings(cron, s, times + [now]) == RowFirings(cron, s, times) +
      var before := AfterTicks(cron, s, times);
      if before.Due(now) then [Firing(before.nextFireAt.value, now)] else []
  {
    assert (times + [now])[..|times|] == times;
  }

  /** The instant of the last tick; `start` before the first. */
  function LastTick(start: int, events: seq<Event>): int {
    var times := TickTimes(events);
    if times == [] then start else times[|times| - 1]
  }

  /** Since `since`, schedule `id` has been the row `s` under the ticks at `times`, with `fired` before them. */
  ghost predicate Follows(cron: CronOracle, st: System, id: string, s: Schedule, since: int, fired: seq<Firing>,
                          times: seq<int>)
  {
    && id in st.schedules && st.schedules[id] == AfterTicks(cron, s, times)
    && FiringsOf(st.fires, id) == fired + RowFirings(cron, s, times)
    && Ascending(since, times) && since <= (if times == [] then since else times[|times| - 1]) <= st.clock
  }

  lemma FollowsTick(cron: CronOracle, st: System, st': System, id: string, s: Schedule, since: int,
                    fired: seq<Firing>, times: seq<int>, now: int)
    requires Follows(cron, st, id, s, since, fired, times) && id in st'.schedules && st.clock <= now == st'.clock
    requires st'.schedules[id] == Ticked(cron, st.schedules[id], now)
    requires FiringsOf(st'.fires, id) == FiringsOf(st.fires, id) +
      (if st.schedules[id].Due(now) then [Firing(st.schedules[id].nextFireAt.value, now)] else [])
    ensures Follows(cron, st', id, s, since, fired, times + [now])
  {
    RowFiringsNext(cron, s, times, now);
  }

  lemma FollowsNext(cron: CronOracle, st: System, e: Event, id: string, s: Schedule, since: int, fired: seq<Firing>,
                    times: seq<int>)
    requires Known(st) && Enabled(st, e) && LeavesAlone(e, id) && Follows(cron, st, id, s, since, fired, times)
    ensures Follows(cron, Step(cron, st, e), id, s, since, fired, times + if e.TickAt? then [e.now] else [])
  {
    StepTrace(cron, st, e, id);
    if e.TickAt? {
      FollowsTick(cron, st, Step(cron, st, e), id, s, since, fired, times, e.now);
    } else {
      assert times + [] == times;
    }
  }

  lemma {:induction false} HistoryFollows(cron: CronOracle, start: int, past: seq<Event>, rest: seq<Event>,
                                          early: System, late: System, id: string)
    requires After(cron, start, past) == Some(early) && After(cron, start, past + rest) == Some(late)
    requires id in early.schedules && forall e :: e in rest ==> LeavesAlone(e, id)
    ensures Follows(cron, late, id, early.schedules[id], early.clock, FiringsOf(early.fires, id), TickTimes(rest))
    decreases |rest|
  {
    if rest == [] {
      assert past + rest == past;
    } else {
      var n := |rest| - 1;
      var front, e := rest[..n], rest[n];
      assert past + rest == (past + front) + [e] && rest == front + [e];
      AfterNext(cron, start, past + front, e);
      var middle := After(cron, start, past + front).value;
      HistoryFollows(cron, start, past, front, early, middle, id);
      FollowsNext(cron, middle, e, id, early.schedules[id], early.clock, FiringsOf(early.fires, id), TickTimes(front));
      TickTimesNext(front, e);
    }
  }

  /**
   * Whatever else happens, a schedule that is left alone is its row under the history's ticks, and the
   * history records for it what that row fires.
   */
  lemma HistoryFollowsRow(cron: CronOracle, start: int, past: seq<Event>, rest: seq<Event>,
                          early: System, late: System, id: string)
    requires After(cron, start, past) == Some(early) && After(cron, start, past + rest) == Some(late)
    requires id in early.schedules && forall e :: e in rest ==> LeavesAlone(e, id)
    ensures id in late.schedules && early.clock <= LastTick(early.clock, rest) <= late.clock
    ensures var times := TickTimes(rest);
      && Ascending(early.clock, times)
      && late.schedules[id] == AfterTicks(cron, early.schedules[id], times)
      && FiringsOf(late.fires, id) == FiringsOf(early.fires, id) + RowFirings(cron, early.schedules[id], times)
  {
    HistoryFollows(cron, start, past, rest, early, late, id);
  }

  // ----- Periodic schedules -----

  /** The first grid point of each gap between ticks that holds one. */
  function GridFirings(anchor: int, every: int, start: int, times: seq<int>): seq<Firing>
    requires every > 0
  {
    if times == [] then []
    else
      var front, now := times[..|times| - 1], times[|times| - 1];
      var point := FirstAfter(anchor, every, if front == [] then start else front[|front| - 1]);
      GridFirings(anchor, every, start, front) + (if point <= now then [Firing(point, now)] else [])
  }

  /** `f` is the first grid point of the gap that tick j ends. */
  ghost predicate FirstInGap(anchor: int, every: int, start: int, times: seq<int>, j: nat, f: Firing)
    requires j < |times|
  {
    && f.at == times[j] && OnGrid(anchor, every, f.scheduledFor)
    && Previous(start, times, j) < f.scheduledFor <= times[j]
    && forall g :: OnGrid(anchor, every, g) && g > Previous(start, times, j) ==> f.scheduledFor <= g
  }

  lemma GapPoint(anchor: int, every: int, start: int, times: seq<int>, j: nat, f: Firing)
    requires every > 0 && j < |times|
    ensures FirstInGap(anchor, every, start, times, j, f) <==>
      var point := FirstAfter(anchor, every, Previous(start, times, j));
      point <= times[j] && f == Firing(point, times[j])
  {
    FirstAfterIsLeast(anchor, every, Previous(start, times, j));
  }

  /** These are exactly the first points of the gaps. */
  lemma {:induction false} GridFiringsAreFirst(anchor: int, every: int, start: int, times: seq<int>, f: Firing)
    requires every > 0
    ensures f in GridFirings(anchor, every, start, times) <==>
      exists j :: 0 <= j < |times| && FirstInGap(anchor, every, start, times, j, f)
  {
    if times != [] {
      var n := |times| - 1;
      GridFiringsAreFirst(anchor, every, start, times[..n], f);
      GapPoint(anchor, every, start, times, n, f);
      forall j | 0 <= j < n
        ensures FirstInGap(anchor, every, start, times[..n], j, f) <==> FirstInGap(anchor, every, start, times, j, f)
      {
        assert Previous(start, times[..n], j) == Previous(start, times, j);
      }
    }
  }

  lemma {:induction false} RowFiringsOnGrid(cron: CronOracle, s: Schedule, start: int, times: seq<int>)
    requires StartedAt(cron, s, start) && Ascending(start, times)
    ensures RowFirings(cron, s, times) == GridFirings(Anchor(s, start), Every(s), start, times)
    decreases |times|
  {
    if times != [] {
      RowFiringsOnGrid(cron, s, start, times[..|times| - 1]);
      NextIsOnGrid(cron, s, start, times[..|times| - 1]);
    }
  }

  /**
   * Tick refinement over histories: from any moment at which a periodic schedule has just been started,
   * and for as long as it is left alone, the history records for it exactly the first grid points of
   * the gaps between the ticks, whatever happens to other schedules.
   */
  lemma PeriodicInHistory(cron: CronOracle, start: int, past: seq<Event>, rest: seq<Event>,
                          early: System, late: System, id: string)
    requires After(cron, start, past) == Some(early) && After(cron, start, past + rest) == Some(late)
    requires id in early.schedules && StartedAt(cron, early.schedules[id], early.clock)
    requires forall e :: e in rest ==> LeavesAlone(e, id)
    ensures var s := early.schedules[id];
      FiringsOf(late.fires, id) == FiringsOf(early.fires, id) +
        GridFirings(Anchor(s, early.clock), Every(s), early.clock, TickTimes(rest))
  {
    HistoryFollowsRow(cron, start, past, rest, early, late, id);
    RowFiringsOnGrid(cron, early.schedules[id], early.clock, TickTimes(rest));
  }

  ghost predicate FiresKnown(st: System) {
    forall k :: 0 <= k < |st.fires| ==> st.fires[k].scheduleId in st.writes
  }

  lemma {:induction false} AlwaysFiresKnown(cron: CronOracle, start: int, events: seq<Event>, st: System)
    requires After(cron, start, events) == Some(st)
    ensures FiresKnown(st)
  {
    if events != [] {
      var front, e := events[..|events| - 1], events[|events| - 1];
      var before := After(cron, start, front).value;
      AlwaysFiresKnown(cron, start, front, before);
      if e.TickAt? {
        FiresOf(before, e.rows, e.now);
        forall k | |before.fires| <= k < |st.fires| ensures st.fires[k].scheduleId in st.writes {
          assert st.fires[k] in Fires(before, e.rows, e.now);
        }
      }
    }
  }

  lemma {:induction false} NoFiringsYet(fires: seq<Fire>, id: string)
    requires forall k :: 0 <= k < |fires| ==> fires[k].scheduleId != id
    ensures FiringsOf(fires, id) == []
  {
    if fires != [] {
      NoFiringsYet(fires[..|fires| - 1], id);
    }
  }

  /** An accepted create leaves its row at that instant, with nothing fired for it before. */
  lemma CreatedInHistory(cron: CronOracle, start: int, past: seq<Event>, create: Event, early: System)
    requires create.Create? && After(cron, start, past + [create]) == Some(early)
    requires CreateRow(cron, create.body, create.quotas, create.owned, create.now).Success?
    ensures create.id in early.schedules && early.clock == create.now && FiringsOf(early.fires, create.id) == []
    ensures early.schedules[create.id] ==
      CreateRow(cron, create.body, create.quotas, create.owned, create.now).value
  {
    AfterNext(cron, start, past, create);
    var before := After(cron, start, past).value;
    AlwaysFiresKnown(cron, start, past, before);
    NoFiringsYet(before.fires, create.id);
  }

  /** The same from creation: all that an enabled periodic schedule ever fires while it is left alone. */
  lemma CreatedPeriodicFires(cron: CronOracle, start: int, past: seq<Event>, create: Event, rest: seq<Event>,
                             late: System)
    requires create.Create? && After(cron, start, past + [create] + rest) == Some(late)
    requires After(cron, start, past + [create]).Some?
    requires CreateRow(cron, create.body, create.quotas, create.owned, create.now).Success?
    requires Periodic(create.body.kind) && create.body.enabled
    requires forall e :: e in rest ==> LeavesAlone(e, create.id)
    ensures var s := CreateRow(cron, create.body, create.quotas, create.owned, create.now).value;
      && Periodic(s.kind) && Period(s.kind, s.Spec()).Seconds? && Every(s) > 0
      && FiringsOf(late.fires, create.id) ==
         GridFirings(Anchor(s, create.now), Every(s), create.now, TickTimes(rest))
  {
    var early := After(cron, start, past + [create]).value;
    CreatedInHistory(cron, start, past, create, early);
    CreateStarts(cron, create.body, create.quotas, create.owned, create.now);
    PeriodicInHistory(cron, start, past + [create], rest, early, late, create.id);
  }

  /** A PATCH that recomputes an active periodic schedule starts it anew at that instant. */
  lemma PatchStarts(cron: CronOracle, s: Schedule, p: SchedulePatch, now: int)
    requires PatchRow(cron, s, p, now).Success? && p.Recomputes()
    ensures var t := PatchRow(cron, s, p, now).value;
      t.Scanned() && Periodic(t.kind) ==> StartedAt(cron, t, now)
  {
    var applied := ApplyFields(s, p);
    RaisesIffIllFormed(cron, applied.kind, applied.Spec(), applied.zone, now, None);
  }

  // ----- One-shot schedules -----

  /** In histories too: a one-shot that is created and left alone fires once, at the first tick past its fire_at. */
  lemma CreatedOneShotFires(cron: CronOracle, start: int, past: seq<Event>, create: Event, rest: seq<Event>,
                            late: System)
    requires create.Create? && After(cron, start, past + [create] + rest) == Some(late)
    requires After(cron, start, past + [create]).Some?
    requires CreateRow(cron, create.body, create.quotas, create.owned, create.now).Success?
    requires create.body.kind == OneShot && create.body.enabled && create.body.spec.fireAt.At?
    requires forall e :: e in rest ==> LeavesAlone(e, create.id)
    ensures create.id in late.schedules
    ensures var fireAt, reached := create.body.spec.fireAt.instant, LastTick(create.now, rest);
      && (late.schedules[create.id].status == Completed <==> create.now < fireAt <= reached)
      && FiredOnceIf(FiringsOf(late.fires, create.id), create.now < fireAt <= reached, fireAt)
  {
    var early := After(cron, start, past + [create]).value;
    CreatedInHistory(cron, start, past, create, early);
    HistoryFollowsRow(cron, start, past + [create], rest, early, late, create.id);
    CreatedRow(cron, create.body, create.quotas, create.owned, create.now);
    Occurrences.OneShotAfter(cron, early.schedules[create.id], create.now, TickTimes(rest));
    OneShotRowFirings(cron, early.schedules[create.id], create.now, TickTimes(rest));
  }

  /** One more tick fires a one-shot when it is the first to reach fire_at. */
  lemma OneShotNext(cron: CronOracle, s: Schedule, start: int, front: seq<int>, now: int)
    requires s.kind == OneShot && Occurrences.FreshAt(cron, s, start) && Ascending(start, front)
    requires Occurrences.LastOf(start, front) <= now && start <= Occurrences.LastOf(start, front)
    ensures var fireAt := s.Spec().fireAt.instant;
      RowFirings(cron, s, front + [now]) == RowFirings(cron, s, front) +
        if Occurrences.LastOf(start, front) < fireAt <= now then [Firing(fireAt, now)] else []
  {
    Occurrences.OneShotAfter(cron, s, start, front);
    RowFiringsNext(cron, s, front, now);
  }

  /** Nothing is fired, or just one run for `fireAt`, not before it. */
  predicate FiredOnceIf(firings: seq<Firing>, fired: bool, fireAt: int) {
    if fired then |firings| == 1 && firings[0].scheduledFor == fireAt <= firings[0].at else firings == []
  }

  lemma FiredOnceNext(fired: seq<Firing>, start: int, last: int, now: int, fireAt: int)
    requires FiredOnceIf(fired, start < fireAt <= last, fireAt) && start <= last <= now
    ensures var more := if last < fireAt <= now then [Firing(fireAt, now)] else [];
      FiredOnceIf(fired + more, start < fireAt <= now, fireAt)
  {
  }

  lemma AscendingFront(start: int, times: seq<int>)
    requires Ascending(start, times) && times != []
    ensures var front := times[..|times| - 1];
      Ascending(start, front) && start <= Occurrences.LastOf(start, front) <= times[|times| - 1]
  {
  }

  lemma {:induction false} OneShotRowFirings(cron: CronOracle, s: Schedule, start: int, times: seq<int>)
    requires s.kind == OneShot && Occurrences.FreshAt(cron, s, start) && Ascending(start, times)
    ensures var fireAt := s.Spec().fireAt.instant;
      FiredOnceIf(RowFirings(cron, s, times), start < fireAt <= Occurrences.LastOf(start, times), fireAt)
    decreases |times|
  {
    if times != [] {
      var front, now := times[..|times| - 1], times[|times| - 1];
      assert times == front + [now];
      AscendingFront(start, times);
      OneShotRowFirings(cron, s, start, front);
      OneShotNext(cron, s, start, front, now);
      FiredOnceNext(RowFirings(cron, s, front), start, Occurrences.LastOf(start, front), now, s.Spec().fireAt.instant);
    }
  }

  // ----- Manual schedules -----

  lemma {:induction false} ManualRowFirings(cron: CronOracle, s: Schedule, times: seq<int>)
    requires s.nextFireAt.None?
    ensures AfterTicks(cron, s, times) == s && RowFirings(cron, s, times) == []
  {
    if times != [] {
      ManualRowFirings(cron, s, times[..|times| - 1]);
    }
  }

  /** No tick ever fires a manual schedule. */
  lemma CreatedManualNeverFires(cron: CronOracle, start: int, past: seq<Event>, create: Event, rest: seq<Event>,
                                late: System)
    requires create.Create? && After(cron, start, past + [create] + rest) == Some(late)
    requires After(cron, start, past + [create]).Some?
    requires CreateRow(cron, create.body, create.quotas, create.owned, create.now).Success?
    requires create.body.kind == Manual && forall e :: e in rest ==> LeavesAlone(e, create.id)
    ensures FiringsOf(late.fires, create.id) == []
  {
    var early := After(cron, start, past + [create]).value;
    CreatedInHistory(cron, start, past, create, early);
    HistoryFollowsRow(cron, start, past + [create], rest, early, late, create.id);
    ManualRowFirings(cron, early.schedules[create.id], TickTimes(rest));
  }
}
