/**
 * Tick refinement for the other scheduled triggers: cron, whose instants are the occurrences of an
 * expression, and one_shot, whose only instant is its fire_at.
 */
module TickOccurrences {
  import opened Wrappers
  import opened Trigger
  import opened Tick
  import opened TickGrid

  /** A scanned row as create_schedule or a recomputing PATCH leaves it at `start`. */
  ghost predicate FreshAt(cron: CronOracle, s: Schedule, start: int) {
    && s.Sound(cron) && s.Scanned()
    && ComputeNextFire(cron, s.kind, s.Spec(), s.zone, start, None) == Success(s.nextFireAt)
  }

  function LastOf(start: int, times: seq<int>): int {
    if times == [] then start else times[|times| - 1]
  }

  /** Instant by instant, the oracle steps through one list of occurrences. */
  ghost predicate StepsThrough(cron: CronOracle, expr: string, zone: string) {
    forall b, c :: cron(expr, zone, b).Some? && b <= c < cron(expr, zone, b).value ==>
      cron(expr, zone, c) == cron(expr, zone, b)
  }

  predicate Occurs(cron: CronOracle, expr: string, zone: string, o: int) {
    cron(expr, zone, o - 1) == Some(o)
  }

  /** Such an oracle answers with the least occurrence after its base. */
  lemma CronIsLeast(cron: CronOracle, expr: string, zone: string, base: int)
    requires StepsThrough(cron, expr, zone) && cron(expr, zone, base).Some?
    ensures var next := cron(expr, zone, base).value;
      && next > base && Occurs(cron, expr, zone, next)
      && forall o :: Occurs(cron, expr, zone, o) && o > base ==> next <= o
  {
    var next := cron(expr, zone, base).value;
    assert cron(expr, zone, next - 1) == Some(next);
    forall o | Occurs(cron, expr, zone, o) && o > base ensures next <= o {
      assert o - 1 < next ==> cron(expr, zone, o - 1) == Some(next);
    }
  }

  /** After any ticks, a cron schedule waits for the first occurrence after the last of them. */
  lemma {:induction false} NextIsOccurrence(cron: CronOracle, s: Schedule, start: int, times: seq<int>)
    requires s.kind == Cron && FreshAt(cron, s, start) && StepsThrough(cron, s.Spec().cron, s.zone)
    requires Ascending(start, times)
    ensures var t := AfterTicks(cron, s, times);
      && t == s.(nextFireAt := t.nextFireAt, lastFireAt := t.lastFireAt)
      && t.nextFireAt == cron(s.Spec().cron, s.zone, LastOf(start, times))
      && t.nextFireAt.Some?
    decreases |times|
  {
    if times != [] {
      var front, now := times[..|times| - 1], times[|times| - 1];
      NextIsOccurrence(cron, s, start, front);
      RaisesIffIllFormed(cron, s.kind, s.Spec(), s.zone, now, AfterTicks(cron, s, front).nextFireAt);
    }
  }

  /**
   * Cron refinement: tick j creates a run exactly when the expression occurs after the previous tick
   * and not after this one, and then for the first such occurrence.
   */
  lemma CronRefinement(cron: CronOracle, s: Schedule, start: int, times: seq<int>, j: nat)
    requires s.kind == Cron && FreshAt(cron, s, start) && StepsThrough(cron, s.Spec().cron, s.zone)
    requires Ascending(start, times) && j < |times|
    ensures var previous, fired := Previous(start, times, j), FiredAt(cron, s, times, j);
      && (fired.Some? <==> exists o :: Occurs(cron, s.Spec().cron, s.zone, o) && previous < o <= times[j])
      && (fired.Some? ==>
          && Occurs(cron, s.Spec().cron, s.zone, fired.value) && previous < fired.value <= times[j]
          && forall o :: Occurs(cron, s.Spec().cron, s.zone, o) && previous < o <= times[j] ==> fired.value <= o)
  {
    NextIsOccurrence(cron, s, start, times[..j]);
    CronIsLeast(cron, s.Spec().cron, s.zone, Previous(start, times, j));
  }

  /** The row of a one-shot after ticks: untouched until its fire_at is reached, completed from then on. */
  lemma {:induction false} OneShotAfter(cron: CronOracle, s: Schedule, start: int, times: seq<int>)
    requires s.kind == OneShot && FreshAt(cron, s, start) && Ascending(start, times)
    ensures var fireAt := s.Spec().fireAt.instant;
      AfterTicks(cron, s, times) ==
        if start < fireAt <= LastOf(start, times) then
          s.(nextFireAt := None, lastFireAt := Some(fireAt), status := Completed)
        else s
    decreases |times|
  {
    if times != [] {
      OneShotAfter(cron, s, start, times[..|times| - 1]);
    }
  }

  /**
   * One-shot refinement: the first tick at or after fire_at creates the run for it, no other tick creates
   * one, and a fire_at that is already past when the row is written never fires.
   */
  lemma OneShotRefinement(cron: CronOracle, s: Schedule, start: int, times: seq<int>, j: nat)
    requires s.kind == OneShot && FreshAt(cron, s, start) && Ascending(start, times) && j < |times|
    ensures var fireAt := s.Spec().fireAt.instant;
      && FiredAt(cron, s, times, j) ==
         (if Previous(start, times, j) < fireAt <= times[j] then Some(fireAt) else None)
      && (AfterTicks(cron, s, times).status == Completed <==> start < fireAt <= LastOf(start, times))
  {
    OneShotAfter(cron, s, start, times[..j]);
    OneShotAfter(cron, s, start, times);
    assert start <= Previous(start, times, j);
  }
}
