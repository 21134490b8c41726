/**
 * Tick refinement: what the ticks make of one active, unpatched periodic schedule. Each gap between
 * two ticks yields one run for the first grid point in it, and none when it holds no grid point.
 */
module TickGrid {
  import opened Wrappers
  import opened Trigger
  import opened Tick

  /** Tick instants: the clock does not go back, but two ticks may share an instant. */
  ghost predicate Ascending(start: int, times: seq<int>) {
    && (times != [] ==> start <= times[0])
    && forall i, j :: 0 <= i < j < |times| ==> times[i] <= times[j]
  }

  /** The instant of the tick before tick j; `start` before the first. */
  function Previous(start: int, times: seq<int>, j: nat): int
    requires j < |times|
  {
    if j == 0 then start else times[j - 1]
  }

  /** The row after the ticks at `times`. */
  function AfterTicks(cron: CronOracle, s: Schedule, times: seq<int>): Schedule {
    if times == [] then s
    else Ticked(cron, AfterTicks(cron, s, times[..|times| - 1]), times[|times| - 1])
  }

  /** The instant for which tick j creates a run, if it creates one. */
  function FiredAt(cron: CronOracle, s: Schedule, times: seq<int>, j: nat): Option<int>
    requires j < |times|
  {
    var before := AfterTicks(cron, s, times[..j]);
    if before.Due(times[j]) then before.nextFireAt else None
  }

  function Anchor(s: Schedule, start: int): int {
    if s.Spec().startAt.At? then s.Spec().startAt.instant else start
  }

  function Every(s: Schedule): int
    requires Periodic(s.kind) && Period(s.kind, s.Spec()).Seconds?
  {
    Period(s.kind, s.Spec()).value * SECOND
  }

  /** A scanned periodic row as create_schedule or a recomputing PATCH leaves it at `start`. */
  ghost predicate StartedAt(cron: CronOracle, s: Schedule, start: int) {
    && Periodic(s.kind) && s.Sound(cron) && s.Scanned()
    && ComputeNextFire(cron, s.kind, s.Spec(), s.zone, start, None) == Success(s.nextFireAt)
  }

  /** Creating an enabled periodic schedule, when it is accepted, leaves such a row. */
  lemma CreateStarts(cron: CronOracle, body: ScheduleBody, quotas: Quotas, owned: int, now: int)
    requires Periodic(body.kind) && body.enabled && CreateRow(cron, body, quotas, owned, now).Success?
    ensures StartedAt(cron, CreateRow(cron, body, quotas, owned, now).value, now)
  {
    RaisesIffIllFormed(cron, body.kind, body.spec, body.zone, now, None);
  }

  lemma FirstAfterUnique(anchor: int, every: int, base: int, g: int)
    requires every > 0 && OnGrid(anchor, every, g) && g > base
    requires forall h :: OnGrid(anchor, every, h) && h > base ==> g <= h
    ensures g == FirstAfter(anchor, every, base)
  {
    FirstAfterIsLeast(anchor, every, base);
  }

  /** A tick that is not late enough to pass the pending instant leaves it the next one. */
  lemma StillNext(anchor: int, every: int, base: int, now: int)
    requires every > 0 && base <= now < FirstAfter(anchor, every, base)
    ensures FirstAfter(anchor, every, now) == FirstAfter(anchor, every, base)
  {
    FirstAfterIsLeast(anchor, every, base);
    FirstAfterUnique(anchor, every, now, FirstAfter(anchor, every, base));
  }

  /** Re-anchoring at a grid point does not shift the grid, however late the tick is. */
  lemma Reanchor(anchor: int, every: int, fired: int, now: int)
    requires every > 0 && OnGrid(anchor, every, fired) && fired <= now
    ensures FirstAfter(fired, every, now) == FirstAfter(anchor, every, now)
  {
    var g := FirstAfter(fired, every, now);
    FirstAfterIsLeast(fired, every, now);
    GridTransitive(anchor, every, fired, g);
    forall h | OnGrid(anchor, every, h) && h > now ensures g <= h {
      GridDifference(anchor, every, fired, h);
    }
    FirstAfterUnique(anchor, every, now, g);
  }

  /** After any ticks, the row still waits for the first grid point after the last of them. */
  lemma {:induction false} NextIsOnGrid(cron: CronOracle, s: Schedule, start: int, times: seq<int>)
    requires StartedAt(cron, s, start) && Ascending(start, times)
    ensures var t := AfterTicks(cron, s, times);
      var last := if times == [] then start else times[|times| - 1];
      && t == s.(nextFireAt := t.nextFireAt, lastFireAt := t.lastFireAt)
      && t.nextFireAt == Some(FirstAfter(Anchor(s, start), Every(s), last))
    decreases |times|
  {
    if times != [] {
      var front, now := times[..|times| - 1], times[|times| - 1];
      NextIsOnGrid(cron, s, start, front);
      var base := if front == [] then start else front[|front| - 1];
      var before := AfterTicks(cron, s, front);
      var anchor, every := Anchor(s, start), Every(s);
      var fired := FirstAfter(anchor, every, base);
      FirstAfterIsLeast(anchor, every, base);
      if before.Due(now) {
        Reanchor(anchor, every, fired, now);
      } else {
        StillNext(anchor, every, base, now);
      }
    }
  }

  /**
   * Tick refinement: tick j creates a run exactly when a grid point lies after the previous tick and
   * not after this one, and then for the first such point.
   */
  lemma TickRefinement(cron: CronOracle, s: Schedule, start: int, times: seq<int>, j: nat)
    requires StartedAt(cron, s, start) && Ascending(start, times) && j < |times|
    ensures var anchor, every, previous := Anchor(s, start), Every(s), Previous(start, times, j);
      var fired := FiredAt(cron, s, times, j);
      && (fired.Some? <==> exists g :: OnGrid(anchor, every, g) && previous < g <= times[j])
      && (fired.Some? ==>
          && OnGrid(anchor, every, fired.value) && previous < fired.value <= times[j]
          && forall g :: OnGrid(anchor, every, g) && previous < g <= times[j] ==> fired.value <= g)
  {
    NextIsOnGrid(cron, s, start, times[..j]);
    FirstAfterIsLeast(Anchor(s, start), Every(s), Previous(start, times, j));
  }

  lemma GridSpacing(anchor: int, every: int, g: int, h: int)
    requires every > 0 && OnGrid(anchor, every, g) && OnGrid(anchor, every, h) && g < h
    ensures g + every <= h
  {
    var m: nat :| GridPoint(anchor, every, m) == g;
    var n: nat :| GridPoint(anchor, every, n) == h;
    if n <= m {
      MultipleOrder(n, m, every);
    } else {
      MultipleOrder(m + 1, n, every);
      assert (m + 1) * every == m * every + every;
    }
  }

  lemma {:induction false} GapOf(start: int, times: seq<int>, g: int) returns (j: nat)
    requires Ascending(start, times) && times != [] && start < g <= times[|times| - 1]
    ensures j < |times| && Previous(start, times, j) < g <= times[j]
    decreases |times|
  {
    var last := |times| - 1;
    if Previous(start, times, last) < g {
      j := last;
    } else {
      j := GapOf(start, times[..last], g);
    }
  }

  /** Ticks at most one period apart skip no grid point. */
  lemma NoPointSkipped(cron: CronOracle, s: Schedule, start: int, times: seq<int>, g: int) returns (j: nat)
    requires StartedAt(cron, s, start) && Ascending(start, times) && times != []
    requires forall i :: 0 <= i < |times| ==> times[i] - Previous(start, times, i) <= Every(s)
    requires OnGrid(Anchor(s, start), Every(s), g) && start < g <= times[|times| - 1]
    ensures j < |times| && FiredAt(cron, s, times, j) == Some(g)
  {
    j := GapOf(start, times, g);
    TickRefinement(cron, s, start, times, j);
    var fired := FiredAt(cron, s, times, j).value;
    if fired < g {
      GridSpacing(Anchor(s, start), Every(s), fired, g);
    }
  }

  /** A gap that holds a second grid point skips it: it is never fired, neither then nor later. */
  lemma SecondPointSkipped(cron: CronOracle, s: Schedule, start: int, times: seq<int>, g: int, h: int, j: nat)
    requires StartedAt(cron, s, start) && Ascending(start, times) && j < |times|
    requires OnGrid(Anchor(s, start), Every(s), g) && OnGrid(Anchor(s, start), Every(s), h)
    requires Previous(start, times, j) < g < h <= times[j]
    ensures forall i :: 0 <= i < |times| ==> FiredAt(cron, s, times, i) != Some(h)
  {
    forall i | 0 <= i < |times| ensures FiredAt(cron, s, times, i) != Some(h) {
      TickRefinement(cron, s, start, times, i);
      assert i < j ==> times[i] <= Previous(start, times, j);
      assert j < i ==> times[j] <= Previous(start, times, i);
    }
  }
}
