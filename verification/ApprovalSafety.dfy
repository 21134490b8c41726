/** The approval gate over whole histories. */
module ApprovalSafety {
  import opened Wrappers
  import opened RunLifecycle
  import opened RunHistory
  import Stability = RunStability

  /** The status that the approval events of one schedule add up to: its latest event decides. */
  function Fold(log: seq<ApprovalEvent>, s: string): ApprovalStatus {
    if log == [] then NotRequired
    else
      var last := log[|log| - 1];
      if last.scheduleId != s then Fold(log[..|log| - 1], s)
      else
        match last.action
        case Requested => Pending
        case Grants => Approved
        case Rejects => Rejected
  }

  ghost predicate StatusIsFold(w: World) {
    && (forall s :: s in w.schedules ==> s in w.knownSchedules && w.schedules[s].approval == Fold(w.approvals, s))
    && (forall k :: 0 <= k < |w.approvals| ==> w.approvals[k].scheduleId in w.knownSchedules)
  }

  /** Each request is decided at most once, and its row says so. */
  ghost predicate DecidedOnce(w: World) {
    && (forall a :: a in w.requests ==> a in w.knownRequests)
    && (forall k :: 0 <= k < |w.approvals| ==> w.approvals[k].requestId in w.knownRequests)
    && (forall k :: 0 <= k < |w.approvals| && w.approvals[k].action != Requested ==>
         w.approvals[k].requestId in w.requests ==> w.requests[w.approvals[k].requestId].status != Undecided)
    && (forall j, k :: 0 <= j < k < |w.approvals| && w.approvals[k].action != Requested ==>
         w.approvals[j].action == Requested || w.approvals[j].requestId != w.approvals[k].requestId)
  }

  /** Every adapter call happened with the gate open: no approval event, or a grant as the latest. */
  ghost predicate CallsApproved(w: World) {
    forall k :: 0 <= k < |w.invoked| ==>
      w.invoked[k].at <= |w.approvals| && GateOpen(Fold(w.approvals[..w.invoked[k].at], w.invoked[k].scheduleId))
  }

  ghost predicate Safe(w: World) {
    StatusIsFold(w) && DecidedOnce(w) && CallsApproved(w)
  }

  lemma FoldAppend(log: seq<ApprovalEvent>, e: ApprovalEvent, s: string)
    ensures Fold(log + [e], s) ==
      if e.scheduleId != s then Fold(log, s)
      else match e.action case Requested => Pending case Grants => Approved case Rejects => Rejected
  {
    assert (log + [e])[..|log|] == log;
  }

  lemma {:induction false} FoldUnknown(log: seq<ApprovalEvent>, s: string)
    requires forall k :: 0 <= k < |log| ==> log[k].scheduleId != s
    ensures Fold(log, s) == NotRequired
  {
    if log != [] {
      FoldUnknown(log[..|log| - 1], s);
    }
  }

  lemma CallsStayApproved(w: World, e: ApprovalEvent)
    requires CallsApproved(w)
    ensures CallsApproved(w.(approvals := w.approvals + [e]))
  {
    forall k | 0 <= k < |w.invoked|
      ensures (w.approvals + [e])[..w.invoked[k].at] == w.approvals[..w.invoked[k].at]
    {
    }
  }

  /** Events that leave the approval state alone, up to removing rows. */
  ghost predicate SameApprovals(w: World, w': World) {
    && w'.approvals == w.approvals && w'.invoked == w.invoked
    && w'.knownSchedules == w.knownSchedules && w'.knownRequests == w.knownRequests
    && (forall s :: s in w'.schedules ==> s in w.schedules && w'.schedules[s].approval == w.schedules[s].approval)
    && (forall a :: a in w'.requests ==> a in w.requests && w'.requests[a] == w.requests[a])
  }

  lemma SameKeepsSafe(w: World, w': World)
    requires Safe(w) && SameApprovals(w, w')
    ensures Safe(w')
  {
  }

  lemma AddScheduleKeepsSafe(w: World, s: string)
    requires Safe(w) && Enabled(w, AddSchedule(s))
    ensures Safe(Effect(w, AddSchedule(s)))
  {
    FoldUnknown(w.approvals, s);
  }

  /** One more event, and the schedule's status set to match it. */
  lemma EventKeepsFold(w: World, w': World, e: ApprovalEvent)
    requires StatusIsFold(w) && e.scheduleId in w.schedules
    requires w'.approvals == w.approvals + [e] && w'.knownSchedules == w.knownSchedules
    requires w'.schedules == w.schedules[e.scheduleId := w.schedules[e.scheduleId].(approval :=
      match e.action case Requested => Pending case Grants => Approved case Rejects => Rejected)]
    ensures StatusIsFold(w')
  {
    forall x | x in w'.schedules ensures w'.schedules[x].approval == Fold(w'.approvals, x) {
      FoldAppend(w.approvals, e, x);
    }
  }

  lemma RequestKeepsSafe(w: World, s: string, a: string)
    requires Safe(w) && Enabled(w, RequestApproval(s, a))
    ensures Safe(Effect(w, RequestApproval(s, a)))
  {
    if s in w.schedules {
      var e := ApprovalEvent(s, Requested, a);
      EventKeepsFold(w, Effect(w, RequestApproval(s, a)), e);
      CallsStayApproved(w, e);
    }
  }

  lemma DecideKeepsDecided(w: World, a: string, grant: bool)
    requires DecidedOnce(w) && DecideRefusal(w.schedules, w.requests, a).None?
    ensures DecidedOnce(DecideWorld(w, a, grant))
  {
  }

  lemma DecideKeepsSafe(w: World, a: string, grant: bool)
    requires Safe(w)
    ensures Safe(DecideWorld(w, a, grant))
  {
    if DecideRefusal(w.schedules, w.requests, a).None? {
      var e := ApprovalEvent(w.requests[a].scheduleId, if grant then Grants else Rejects, a);
      DecideKeepsDecided(w, a, grant);
      EventKeepsFold(w, DecideWorld(w, a, grant), e);
      CallsStayApproved(w, e);
    }
  }

  /** Dispatch calls an adapter only after finding the gate open. */
  lemma BeginCallsOnlyWhenOpen(w: World, r: string, adapters: Adapters)
    ensures var w' := BeginWorld(w, r, adapters);
      && SameApprovals(w, w'.(invoked := w.invoked))
      && (w'.invoked == w.invoked ||
          (r in w.runs && w.runs[r].scheduleId in w.schedules &&
           GateOpen(w.schedules[w.runs[r].scheduleId].approval) &&
           w'.invoked == w.invoked + [Invocation(r, w.runs[r].scheduleId, |w.approvals|)]))
    ensures r in w.runs && w.runs[r].scheduleId in w.schedules && adapters.Usable() ==>
      var approval := w.schedules[w.runs[r].scheduleId].approval;
      approval == NotRequired || approval == Approved ==>
        BeginWorld(w, r, adapters).invoked == w.invoked + [Invocation(r, w.runs[r].scheduleId, |w.approvals|)]
  {
    if r in w.runs {
      BeginRowFacts(w.schedules, w.runs[r], adapters, w.clock);
    }
  }

  lemma CallKeepsApproved(w: World, call: Invocation)
    requires CallsApproved(w) && call.at == |w.approvals| && GateOpen(Fold(w.approvals, call.scheduleId))
    ensures CallsApproved(w.(invoked := w.invoked + [call]))
  {
    assert w.approvals[..|w.approvals|] == w.approvals;
  }

  lemma BeginKeepsSafe(w: World, r: string, adapters: Adapters)
    requires Safe(w)
    ensures Safe(BeginWorld(w, r, adapters))
  {
    var w' := BeginWorld(w, r, adapters);
    BeginCallsOnlyWhenOpen(w, r, adapters);
    SameKeepsSafe(w, w'.(invoked := w.invoked));
    if w'.invoked != w.invoked {
      CallKeepsApproved(w, Invocation(r, w.runs[r].scheduleId, |w.approvals|));
    }
  }

  predicate Elsewhere(e: Event) {
    !e.AddSchedule? && !e.RequestApproval? && !e.DecideApproval? && !e.Begin?
  }

  lemma SchedulesSameApprovals(w: World, e: Event)
    requires Enabled(w, e) && (e.SetSchedule? || e.DropSchedule?)
    ensures SameApprovals(w, Effect(w, e))
  {
    var w' := Effect(w, e);
    assert w'.approvals == w.approvals && w'.invoked == w.invoked;
    assert w'.knownSchedules == w.knownSchedules && w'.knownRequests == w.knownRequests;
  }

  lemma AddSameApprovals(w: World, r: string, row: RunRow, queueUp: bool)
    ensures SameApprovals(w, AddRun(w, r, row, queueUp))
  {
  }

  predicate Creates(e: Event) {
    e.TickRun? || e.Trigger? || e.Retry?
  }

  lemma CreationSameApprovals(w: World, e: Event)
    requires Enabled(w, e) && Creates(e)
    ensures SameApprovals(w, Effect(w, e))
  {
    match e
    case TickRun(s, r, queueUp) => AddSameApprovals(w, r, NewRun(s, 1, None), queueUp);
    case Trigger(s, r, quota, queueUp) => AddSameApprovals(w, r, NewRun(s, 1, None), queueUp);
    case Retry(r, fresh_, queueUp) =>
      var row := RetryRow(w.schedules, w.runs, r);
      if row.Success? {
        AddSameApprovals(w, fresh_, row.value, queueUp);
      }
  }

  lemma RunsSameApprovals(w: World, e: Event)
    requires Enabled(w, e) && (e.Cancel? || e.Delete? || e.Finish? || e.Crash?)
    ensures SameApprovals(w, Effect(w, e))
  {
    match e
    case Cancel(r) => assert SameApprovals(w, CancelWorld(w, r));
    case Delete(r) => assert SameApprovals(w, DeleteWorld(w, r));
    case Finish(r, outcome) => assert SameApprovals(w, FinishWorld(w, r, outcome));
    case Crash(r) => assert SameApprovals(w, CrashWorld(w, r));
  }

  lemma ElsewhereSameApprovals(w: World, e: Event)
    requires Enabled(w, e) && Elsewhere(e)
    ensures SameApprovals(w, Effect(w, e))
  {
    if e.SetSchedule? || e.DropSchedule? {
      SchedulesSameApprovals(w, e);
    } else if Creates(e) {
      CreationSameApprovals(w, e);
    } else {
      RunsSameApprovals(w, e);
    }
  }

  lemma EffectKeepsSafe(w: World, e: Event)
    requires Enabled(w, e) && Safe(w)
    ensures Safe(Effect(w, e))
  {
    if Elsewhere(e) {
      ElsewhereSameApprovals(w, e);
      SameKeepsSafe(w, Effect(w, e));
    } else {
      match e
      case AddSchedule(s) => AddScheduleKeepsSafe(w, s);
      case RequestApproval(s, a) => RequestKeepsSafe(w, s, a);
      case DecideApproval(a, grant) => DecideKeepsSafe(w, a, grant);
      case Begin(r, adapters) => BeginKeepsSafe(w, r, adapters);
    }
  }

  /**
   * Approval safety: in every history, a schedule's approval status is the fold of its approval events,
   * each request is decided at most once, and every adapter call found no approval event or a grant as
   * the latest.
   */
  lemma {:induction false} ApprovalsAreSafe(start: int, history: seq<Timed>, w: World)
    requires After(start, history) == Some(w)
    ensures StatusIsFold(w) && DecidedOnce(w) && CallsApproved(w)
  {
    if history != [] {
      var front, t := history[..|history| - 1], history[|history| - 1];
      var before := After(start, front).value;
      ApprovalsAreSafe(start, front, before);
      SameKeepsSafe(before, before.(clock := t.now));
      EffectKeepsSafe(before.(clock := t.now), t.event);
    }
  }

  /**
   * The gate follows the latest event, not the latest request: after a second request, granting the
   * first opens the gate while the second is still undecided.
   */
  lemma OlderGrantOpensGate(w: World, s: string, a: string, b: string)
    requires s in w.schedules && a != b && a !in w.knownRequests && b !in w.knownRequests
    ensures var w1 := Effect(w, RequestApproval(s, a));
      && Enabled(w1, RequestApproval(s, b))
      && var w3 := Effect(Effect(w1, RequestApproval(s, b)), DecideApproval(a, true));
         && s in w3.schedules && b in w3.requests
         && GateOpen(w3.schedules[s].approval) && w3.requests[b].status == Undecided
  {
  }

  // ----- When an open gate means that nothing is left to decide -----

  predicate AwaitsDecision(requests: map<string, RequestRow>, s: string, a: string) {
    a in requests && requests[a].scheduleId == s && requests[a].status == Undecided
  }

  ghost predicate OtherAwaits(requests: map<string, RequestRow>, s: string, a: string) {
    exists b :: b != a && AwaitsDecision(requests, s, b)
  }

  /** The grant leaves another request of the same schedule undecided. */
  ghost predicate GrantsPast(w: World, e: Event) {
    && e.DecideApproval? && e.grant && DecideRefusal(w.schedules, w.requests, e.a).None?
    && OtherAwaits(w.requests, w.requests[e.a].scheduleId, e.a)
  }

  /** An accepted grant opens the gate over an undecided request exactly when another one was undecided before. */
  lemma GrantOpensOverPending(w: World, a: string)
    requires DecideRefusal(w.schedules, w.requests, a).None?
    ensures var s, w' := w.requests[a].scheduleId, DecideWorld(w, a, true);
      && s in w'.schedules
      && (GateOpen(w'.schedules[s].approval) && (exists b :: AwaitsDecision(w'.requests, s, b)) <==>
          exists b :: b != a && AwaitsDecision(w.requests, s, b))
  {
    var s, w' := w.requests[a].scheduleId, DecideWorld(w, a, true);
    assert forall b :: AwaitsDecision(w'.requests, s, b) <==> b != a && AwaitsDecision(w.requests, s, b);
  }

  /** Behind an open gate, every request is decided. */
  ghost predicate OpenMeansDecided(w: World) {
    forall a :: a in w.requests && w.requests[a].status == Undecided && w.requests[a].scheduleId in w.schedules ==>
      !GateOpen(w.schedules[w.requests[a].scheduleId].approval)
  }

  ghost predicate RequestsKnown(w: World) {
    && (forall s :: s in w.schedules ==> s in w.knownSchedules)
    && (forall a :: a in w.requests ==> w.requests[a].scheduleId in w.knownSchedules)
  }

  lemma EffectKeepsRequestsKnown(w: World, e: Event)
    requires Enabled(w, e) && RequestsKnown(w)
    ensures RequestsKnown(Effect(w, e))
  {
    if Elsewhere(e) {
      ElsewhereSameApprovals(w, e);
    } else {
      match e
      case AddSchedule(s) => assert RequestsKnown(AddScheduleWorld(w, s));
      case RequestApproval(s, a) => assert RequestsKnown(RequestWorld(w, s, a));
      case DecideApproval(a, grant) => assert RequestsKnown(DecideWorld(w, a, grant));
      case Begin(r, adapters) => BeginCallsOnlyWhenOpen(w, r, adapters);
    }
  }

  lemma DecideKeepsOpenDecided(w: World, a: string, grant: bool)
    requires OpenMeansDecided(w) && DecideRefusal(w.schedules, w.requests, a).None?
    ensures OpenMeansDecided(DecideWorld(w, a, grant)) <==> !GrantsPast(w, DecideApproval(a, grant))
  {
    var s, w' := w.requests[a].scheduleId, DecideWorld(w, a, grant);
    assert forall b :: b in w.requests && b != a ==> b in w'.requests && w'.requests[b] == w.requests[b];
    if OpenMeansDecided(w') {
      assert forall b :: b != a && AwaitsDecision(w.requests, s, b) ==> b in w'.requests;
    } else {
      var b :| b in w'.requests && w'.requests[b].status == Undecided && w'.requests[b].scheduleId in w'.schedules &&
        GateOpen(w'.schedules[w'.requests[b].scheduleId].approval);
      assert AwaitsDecision(w.requests, s, b);
    }
  }

  /** An event keeps open gates free of undecided requests exactly when it does not grant past one. */
  lemma EffectKeepsOpenDecided(w: World, e: Event)
    requires Enabled(w, e) && RequestsKnown(w) && OpenMeansDecided(w)
    ensures OpenMeansDecided(Effect(w, e)) <==> !GrantsPast(w, e)
  {
    if Elsewhere(e) {
      ElsewhereSameApprovals(w, e);
    } else {
      match e
      case AddSchedule(s) => assert OpenMeansDecided(AddScheduleWorld(w, s));
      case RequestApproval(s, a) => assert OpenMeansDecided(RequestWorld(w, s, a));
      case DecideApproval(a, grant) =>
        if DecideRefusal(w.schedules, w.requests, a).None? {
          DecideKeepsOpenDecided(w, a, grant);
        }
      case Begin(r, adapters) => BeginCallsOnlyWhenOpen(w, r, adapters);
    }
  }

  /** At event k of the history, a grant leaves another request of its schedule undecided. */
  ghost predicate GrantsPastAt(start: int, history: seq<Timed>, k: nat)
    requires k < |history|
  {
    var before := After(start, history[..k]);
    before.Some? && GrantsPast(before.value, history[k].event)
  }

  ghost predicate OpenMeansDecidedAt(start: int, history: seq<Timed>, k: nat)
    requires k <= |history|
  {
    var w := After(start, history[..k]);
    w.Some? ==> OpenMeansDecided(w.value)
  }

  /** As long as no grant passed another request, open gates have nothing undecided behind them. */
  lemma {:induction false} OpenDecidedUpTo(start: int, history: seq<Timed>, w: World)
    requires After(start, history) == Some(w)
    requires forall k :: 0 <= k < |history| ==> !GrantsPastAt(start, history, k)
    ensures OpenMeansDecided(w) && RequestsKnown(w)
  {
    if history != [] {
      var n := |history| - 1;
      var front, t := history[..n], history[n];
      var before := After(start, front).value;
      forall k | 0 <= k < n ensures !GrantsPastAt(start, front, k) {
        assert front[..k] == history[..k];
        assert !GrantsPastAt(start, history, k);
      }
      OpenDecidedUpTo(start, front, before);
      assert !GrantsPastAt(start, history, n);
      NextKeepsOpenDecided(before, t);
    }
  }

  lemma NextKeepsOpenDecided(w: World, t: Timed)
    requires Possible(w, t) && OpenMeansDecided(w) && RequestsKnown(w)
    ensures OpenMeansDecided(Step(w, t)) <==> !GrantsPast(w, t.event)
    ensures RequestsKnown(Step(w, t))
  {
    var now := w.(clock := t.now);
    assert OpenMeansDecided(now) && RequestsKnown(now) && (GrantsPast(now, t.event) <==> GrantsPast(w, t.event));
    EffectKeepsOpenDecided(now, t.event);
    EffectKeepsRequestsKnown(now, t.event);
  }

  /** A grant past another request leaves a gate open over it. */
  lemma GrantPastShows(w: World, e: Event)
    requires Enabled(w, e) && GrantsPast(w, e)
    ensures !OpenMeansDecided(Effect(w, e))
  {
    var s, w' := w.requests[e.a].scheduleId, DecideWorld(w, e.a, true);
    var b :| b != e.a && AwaitsDecision(w.requests, s, b);
    assert w'.requests[b] == w.requests[b] && GateOpen(w'.schedules[s].approval);
  }

  lemma GrantPastShowsAt(start: int, history: seq<Timed>, k: nat)
    requires k < |history| && After(start, history[..k + 1]).Some? && GrantsPastAt(start, history, k)
    ensures !OpenMeansDecidedAt(start, history, k + 1)
  {
    assert history[..k + 1][..k] == history[..k];
    GrantPastShows(After(start, history[..k]).value.(clock := history[k].now), history[k].event);
  }

  /**
   * The exact condition, over histories: at every moment an open gate means that no request of its
   * schedule is undecided, if and only if no grant of the history left another request undecided.
   */
  lemma OpenGateIsDecidedIff(start: int, history: seq<Timed>)
    requires After(start, history).Some?
    ensures (forall k :: 0 <= k <= |history| ==> OpenMeansDecidedAt(start, history, k)) <==>
      forall k :: 0 <= k < |history| ==> !GrantsPastAt(start, history, k)
  {
    if k: nat :| k < |history| && GrantsPastAt(start, history, k) {
      Stability.AfterDefined(start, history, k + 1);
      GrantPastShowsAt(start, history, k);
    } else {
      forall k | 0 <= k <= |history| ensures OpenMeansDecidedAt(start, history, k) {
        var front := history[..k];
        forall j | 0 <= j < k ensures !GrantsPastAt(start, front, j) {
          assert front[..j] == history[..j];
          assert !GrantsPastAt(start, history, j);
        }
        if After(start, front).Some? {
          OpenDecidedUpTo(start, front, After(start, front).value);
        }
      }
    }
  }
}
