/** The active-run quota: which events raise the count, and the bound over whole histories. */
module Admission {
  import opened Wrappers
  import opened RunLifecycle
  import opened RunHistory
  import Stability = RunStability

  /** The event makes one more run of schedule `s` active. */
  predicate Admits(w: World, e: Event, s: string)
    requires Enabled(w, e)
  {
    match e
    case TickRun(x, _, _) => x == s && s in w.schedules
    case Trigger(x, _, quota, _) => x == s && TriggerRefusal(w.schedules, w.runs, s, quota).None?
    case Retry(r, _, _) => RetryRow(w.schedules, w.runs, r).Success? && w.runs[r].scheduleId == s
    case Begin(r, adapters) => Revives(w, r, adapters) && w.runs[r].scheduleId == s
    case _ => false
  }

  /** Dispatch marks a run running whose row was no longer active: a run cancelled while queued. */
  predicate Revives(w: World, r: string, adapters: Adapters) {
    && r in w.runs && !Active(w.runs[r].status)
    && BeginRow(w.schedules, w.runs[r], adapters, w.clock).status == Running
  }

  predicate ActiveFor(run: RunRow, s: string) {
    run.scheduleId == s && Active(run.status)
  }

  predicate ActiveAt(runs: map<string, RunRow>, s: string, r: string) {
    r in runs && ActiveFor(runs[r], s)
  }

  lemma UpdateMember(runs: map<string, RunRow>, r: string, row: RunRow, s: string, q: string)
    ensures q in ActiveRuns(runs[r := row], s) <==> if q == r then ActiveFor(row, s) else ActiveAt(runs, s, q)
    ensures q in ActiveRuns(runs, s) <==> ActiveAt(runs, s, q)
  {
  }

  lemma UpdateCount(runs: map<string, RunRow>, r: string, row: RunRow, s: string)
    ensures |ActiveRuns(runs[r := row], s)| == |ActiveRuns(runs, s)|
      + (if ActiveFor(row, s) then 1 else 0) - (if ActiveAt(runs, s, r) then 1 else 0)
  {
    var a, b := ActiveRuns(runs, s), ActiveRuns(runs[r := row], s);
    forall q ensures q != r ==> (q in a <==> q in b) {
      UpdateMember(runs, r, row, s, q);
    }
    UpdateMember(runs, r, row, s, r);
    SetsApart(a, b, r);
  }

  lemma SetsApart(a: set<string>, b: set<string>, r: string)
    requires forall q :: q != r ==> (q in a <==> q in b)
    ensures |b| == |a| + (if r in b then 1 else 0) - (if r in a then 1 else 0)
  {
    assert a - {r} == b - {r};
    WithoutOne(a, r);
    WithoutOne(b, r);
  }

  lemma WithoutOne(a: set<string>, r: string)
    ensures |a - {r}| == |a| - if r in a then 1 else 0
  {
    if r !in a { assert a - {r} == a; }
  }

  lemma CountShrinks(runs: map<string, RunRow>, runs': map<string, RunRow>, s: string)
    requires forall r :: r in runs' ==> r in runs && runs[r] == runs'[r]
    ensures |ActiveRuns(runs', s)| <= |ActiveRuns(runs, s)|
  {
    var a, b := ActiveRuns(runs, s), ActiveRuns(runs', s);
    assert a == b + (a - b);
  }

  ghost predicate BirthsCoverRuns(w: World) {
    forall r :: r in w.runs ==> r in w.births
  }

  lemma AddCount(w: World, r: string, row: RunRow, queueUp: bool, s: string)
    requires r !in w.runs && row.status == Scheduled
    ensures |ActiveRuns(AddRun(w, r, row, queueUp).runs, s)| ==
      |ActiveRuns(w.runs, s)| + if row.scheduleId == s then 1 else 0
  {
    UpdateCount(w.runs, r, row, s);
  }

  lemma BeginCount(w: World, r: string, adapters: Adapters, s: string)
    requires r in w.jobs
    ensures var before, after := |ActiveRuns(w.runs, s)|, |ActiveRuns(BeginWorld(w, r, adapters).runs, s)|;
      if Admits(w, Begin(r, adapters), s) then after == before + 1 else after <= before
  {
    if r in w.runs {
      var row := BeginRow(w.schedules, w.runs[r], adapters, w.clock);
      UpdateCount(w.runs, r, row, s);
      assert BeginWorld(w, r, adapters).runs == w.runs[r := row];
      assert row.scheduleId == w.runs[r].scheduleId && (Active(row.status) <==> row.status == Running);
    }
  }

  lemma FinishCount(w: World, r: string, outcome: AdapterOutcome, s: string)
    ensures |ActiveRuns(FinishWorld(w, r, outcome).runs, s)| <= |ActiveRuns(w.runs, s)|
  {
    if r in w.runs {
      UpdateCount(w.runs, r, FinishRow(w.runs[r], outcome, w.clock), s);
    }
  }

  lemma CancelCount(w: World, r: string, s: string)
    ensures |ActiveRuns(CancelWorld(w, r).runs, s)| <= |ActiveRuns(w.runs, s)|
  {
    if r in w.runs && CancelRow(w.runs[r], w.clock).Success? {
      UpdateCount(w.runs, r, CancelRow(w.runs[r], w.clock).value, s);
    }
  }

  lemma OtherCount(w: World, e: Event, s: string)
    requires Enabled(w, e)
    requires !e.TickRun? && !e.Trigger? && !e.Retry? && !e.Begin? && !e.Finish? && !e.Cancel?
    ensures |ActiveRuns(Effect(w, e).runs, s)| <= |ActiveRuns(w.runs, s)|
  {
    CountShrinks(w.runs, Effect(w, e).runs, s);
  }

  /** The exact growth rule: an event raises a schedule's active count by one when it admits a run, and never otherwise. */
  lemma GrowthIff(w: World, e: Event, s: string)
    requires Enabled(w, e) && BirthsCoverRuns(w)
    ensures var before, after := |ActiveRuns(w.runs, s)|, |ActiveRuns(Effect(w, e).runs, s)|;
      if Admits(w, e, s) then after == before + 1 else after <= before
  {
    match e
    case TickRun(x, r, queueUp) => AddCount(w, r, NewRun(x, 1, None), queueUp, s);
    case Trigger(x, r, quota, queueUp) => AddCount(w, r, NewRun(x, 1, None), queueUp, s);
    case Retry(r, fresh_, queueUp) =>
      var row := RetryRow(w.schedules, w.runs, r);
      if row.Success? {
        AddCount(w, fresh_, row.value, queueUp, s);
      }
    case Begin(r, adapters) => BeginCount(w, r, adapters, s);
    case Finish(r, outcome) => FinishCount(w, r, outcome, s);
    case Cancel(r) => CancelCount(w, r, s);
    case _ => OtherCount(w, e, s);
  }

  /** The ways past the quota check: tick, retry, and dispatching a run cancelled while queued. */
  predicate Bypasses(w: World, e: Event)
    requires Enabled(w, e)
  {
    match e
    case TickRun(s, _, _) => s in w.schedules
    case Retry(r, _, _) => RetryRow(w.schedules, w.runs, r).Success?
    case Begin(r, adapters) => Revives(w, r, adapters)
    case _ => false
  }

  /** No event of the history bypasses the check, and POST /runs always checks the same quota. */
  ghost predicate Guarded(start: int, history: seq<Timed>, quota: int) {
    forall k :: 0 <= k < |history| ==> GuardedAt(start, history, quota, k)
  }

  ghost predicate GuardedAt(start: int, history: seq<Timed>, quota: int, k: nat)
    requires k < |history|
  {
    var before := After(start, history[..k]);
    var t := history[k];
    before.Some? && Possible(before.value, t) ==>
      && !Bypasses(before.value.(clock := t.now), t.event)
      && (t.event.Trigger? ==> t.event.quota == quota)
  }

  lemma GuardedPrefix(start: int, history: seq<Timed>, quota: int)
    requires history != [] && Guarded(start, history, quota)
    ensures Guarded(start, history[..|history| - 1], quota)
    ensures GuardedAt(start, history, quota, |history| - 1)
  {
    var front := history[..|history| - 1];
    forall k | 0 <= k < |front| ensures GuardedAt(start, front, quota, k) {
      assert front[..k] == history[..k];
      assert GuardedAt(start, history, quota, k);
    }
  }

  lemma AdmittedWithinQuota(w: World, e: Event, s: string, quota: nat)
    requires Enabled(w, e) && BirthsCoverRuns(w) && !Bypasses(w, e) && (e.Trigger? ==> e.quota == quota)
    requires |ActiveRuns(w.runs, s)| <= quota
    ensures |ActiveRuns(Effect(w, e).runs, s)| <= quota
  {
    GrowthIff(w, e, s);
  }

  lemma EffectKeepsBirths(w: World, e: Event)
    requires Enabled(w, e) && BirthsCoverRuns(w)
    ensures BirthsCoverRuns(Effect(w, e))
  {
    if Stability.Elsewhere(e) {
      Stability.ElsewhereOnlyRemoves(w, e);
    } else {
      match e
      case TickRun(s, r, queueUp) => AddKeepsBirths(w, r, NewRun(s, 1, None), queueUp);
      case Trigger(s, r, quota, queueUp) => AddKeepsBirths(w, r, NewRun(s, 1, None), queueUp);
      case Retry(r, fresh_, queueUp) =>
        var row := RetryRow(w.schedules, w.runs, r);
        if row.Success? {
          AddKeepsBirths(w, fresh_, row.value, queueUp);
        }
      case Cancel(r) => assert BirthsCoverRuns(CancelWorld(w, r));
      case Begin(r, adapters) => assert BirthsCoverRuns(BeginWorld(w, r, adapters));
      case Finish(r, outcome) => assert BirthsCoverRuns(FinishWorld(w, r, outcome));
      case Crash(r) =>
    }
  }

  lemma AddKeepsBirths(w: World, r: string, row: RunRow, queueUp: bool)
    requires BirthsCoverRuns(w)
    ensures BirthsCoverRuns(AddRun(w, r, row, queueUp))
  {
  }

  lemma {:induction false} AlwaysCovered(start: int, history: seq<Timed>, w: World)
    requires After(start, history) == Some(w)
    ensures BirthsCoverRuns(w)
  {
    if history != [] {
      var front, t := history[..|history| - 1], history[|history| - 1];
      AlwaysCovered(start, front, After(start, front).value);
      EffectKeepsBirths(After(start, front).value.(clock := t.now), t.event);
    }
  }

  /**
   * Admission bound: in every history in which nothing bypasses the check, no schedule ever has more
   * active runs than the quota.
   */
  lemma {:induction false} ActiveRunsBounded(start: int, history: seq<Timed>, w: World, quota: nat, s: string)
    requires After(start, history) == Some(w) && Guarded(start, history, quota)
    ensures |ActiveRuns(w.runs, s)| <= quota
  {
    if history == [] {
      assert ActiveRuns(w.runs, s) == {};
    } else {
      var front, t := history[..|history| - 1], history[|history| - 1];
      var before := After(start, front).value;
      GuardedPrefix(start, history, quota);
      ActiveRunsBounded(start, front, before, quota, s);
      AlwaysCovered(start, front, before);
      AdmittedWithinQuota(before.(clock := t.now), t.event, s, quota);
    }
  }

  // ----- POST /runs, dispatch and DELETE /runs alone never bypass the check -----

  predicate Ordinary(e: Event) {
    !e.TickRun? && !e.Retry? && !e.Cancel?
  }

  ghost predicate WaitingAreActive(w: World) {
    forall r :: r in w.jobs && r in w.runs ==> Active(w.runs[r].status)
  }

  lemma OrdinaryKeepsWaiting(w: World, e: Event)
    requires Enabled(w, e) && Ordinary(e) && WaitingAreActive(w) && Stability.DeliveredOnce(w)
    ensures WaitingAreActive(Effect(w, e))
  {
    if Stability.Elsewhere(e) {
      Stability.ElsewhereOnlyRemoves(w, e);
    } else {
      match e
      case Trigger(s, r, quota, queueUp) =>
      case Begin(r, adapters) => assert BeginWorld(w, r, adapters).jobs == w.jobs - {r};
      case Finish(r, outcome) => assert FinishWorld(w, r, outcome).jobs == w.jobs;
      case Crash(r) =>
    }
  }

  ghost predicate OrdinaryHistory(history: seq<Timed>, quota: int) {
    forall k :: 0 <= k < |history| ==>
      Ordinary(history[k].event) && (history[k].event.Trigger? ==> history[k].event.quota == quota)
  }

  lemma {:induction false} OrdinaryWaiting(start: int, history: seq<Timed>, w: World, quota: int)
    requires After(start, history) == Some(w) && OrdinaryHistory(history, quota)
    ensures WaitingAreActive(w)
  {
    if history != [] {
      var front, t := history[..|history| - 1], history[|history| - 1];
      var before := After(start, front).value;
      OrdinaryWaiting(start, front, before, quota);
      Stability.DispatchIsFinal(start, front, before);
      assert Stability.DeliveredOnce(before.(clock := t.now));
      OrdinaryKeepsWaiting(before.(clock := t.now), t.event);
    }
  }

  /** The bound needs no further condition when runs are only posted, dispatched and deleted. */
  lemma OrdinaryRunsBounded(start: int, history: seq<Timed>, w: World, quota: nat, s: string)
    requires After(start, history) == Some(w) && OrdinaryHistory(history, quota)
    ensures |ActiveRuns(w.runs, s)| <= quota
  {
    forall k | 0 <= k < |history| ensures GuardedAt(start, history, quota, k) {
      var before := After(start, history[..k]);
      if before.Some? {
        OrdinaryWaiting(start, history[..k], before.value, quota);
      }
      assert Ordinary(history[k].event);
    }
    ActiveRunsBounded(start, history, w, quota, s);
  }

  // ----- How a cancelled run gets past the quota -----

  /** The whole failing family: at the quota, dispatching a run that was cancelled while queued exceeds it. */
  lemma RevivalExceedsQuota(w: World, r: string, adapters: Adapters, quota: nat)
    requires r in w.jobs && r in w.runs && w.runs[r].status == Cancelled && adapters.Usable()
    requires w.runs[r].scheduleId in w.schedules && GateOpen(w.schedules[w.runs[r].scheduleId].approval)
    requires |ActiveRuns(w.runs, w.runs[r].scheduleId)| == quota
    ensures |ActiveRuns(Effect(w, Begin(r, adapters)).runs, w.runs[r].scheduleId)| == quota + 1
  {
    BeginCount(w, r, adapters, w.runs[r].scheduleId);
  }

  lemma TriggerFacts(w: World, s: string, r: string)
    requires s in w.schedules && w.schedules[s].Runnable() && r !in w.births && r !in w.runs
    requires |ActiveRuns(w.runs, s)| == 0
    ensures var w' := Effect(w, Trigger(s, r, 1, true));
      && w'.schedules == w.schedules && w'.jobs == w.jobs + {r}
      && w'.runs == w.runs[r := NewRun(s, 1, None)]
      && (forall q :: q in w'.births <==> q in w.births || q == r)
      && |ActiveRuns(w'.runs, s)| == 1
  {
    AddCount(w, r, NewRun(s, 1, None), true, s);
  }

  lemma CancelFacts(w: World, s: string, r: string)
    requires r in w.runs && w.runs[r] == NewRun(s, 1, None) && |ActiveRuns(w.runs, s)| == 1
    ensures var w' := Effect(w, Cancel(r));
      && w'.schedules == w.schedules && w'.jobs == w.jobs && w'.births == w.births
      && w'.runs == w.runs[r := CancelRow(w.runs[r], w.clock).value]
      && |ActiveRuns(w'.runs, s)| == 0
  {
    UpdateCount(w.runs, r, CancelRow(w.runs[r], w.clock).value, s);
  }

  /** Under a quota of one: post r, cancel it, post q, dispatch r: two active runs. */
  lemma RevivedRunExceedsQuota(w: World, s: string, r: string, q: string)
    requires s in w.schedules && w.schedules[s] == ScheduleRow(NotRequired, false, true)
    requires r != q && r !in w.births && q !in w.births && BirthsCoverRuns(w) && |ActiveRuns(w.runs, s)| == 0
    ensures var w2 := Effect(Effect(w, Trigger(s, r, 1, true)), Cancel(r));
      && Enabled(w2, Trigger(s, q, 1, true))
      && var w3 := Effect(w2, Trigger(s, q, 1, true));
         && Enabled(w3, Begin(r, Adapters(false, false, true)))
         && |ActiveRuns(Effect(w3, Begin(r, Adapters(false, false, true))).runs, s)| == 2
  {
    TriggerFacts(w, s, r);
    var w1 := Effect(w, Trigger(s, r, 1, true));
    CancelFacts(w1, s, r);
    var w2 := Effect(w1, Cancel(r));
    TriggerFacts(w2, s, q);
    var w3 := Effect(w2, Trigger(s, q, 1, true));
    RevivalExceedsQuota(w3, r, Adapters(false, false, true), 1);
  }
}
