/**
 * Trigger arithmetic: the next fire instant of a schedule. Instants are microseconds since an epoch,
 * already parsed; cron evaluation is a parameter.
 */
module Trigger {
  import opened Wrappers

  const SECOND := 1_000_000

  datatype TriggerType = Cron | Interval | OneShot | ConditionWatch | Manual | UnknownType

  /** An ISO-8601 member of trigger_spec: absent or falsy, unparsable, or an instant. */
  datatype IsoField = Missing | Malformed | At(instant: int)

  /** A numeric member of trigger_spec: absent or falsy, something int() refuses, or its int() value. */
  datatype SecondsField = Falsy | NotNumber | Seconds(value: int)

  datatype TriggerSpec = TriggerSpec(
    cron: string,
    everySeconds: SecondsField,
    pollSeconds: SecondsField,
    intervalSeconds: SecondsField,
    startAt: IsoField,
    fireAt: IsoField)

  /** trigger_spec = {} */
  const EMPTY_SPEC := TriggerSpec([], Falsy, Falsy, Falsy, Missing, Missing)

  /** TriggerSpecError, or the exception that int() raises on a non-number. */
  datatype TriggerError = SpecError | IntError

  function NoCron(expr: string, zone: string, base: int): Option<int> { None }

  /**
   * croniter in a time zone. None stands for an invalid expression or zone, which does not depend
   * on the base; a result lies strictly after the base.
   */
  type CronOracle = f: (string, string, int) -> Option<int> |
    && (forall e, z, b :: f(e, z, b).Some? ==> f(e, z, b).value > b)
    && (forall e, z, b, c :: f(e, z, b).Some? ==> f(e, z, c).Some?)
    witness NoCron

  // ----- Grids -----

  function GridPoint(anchor: int, every: int, k: nat): int {
    anchor + k * every
  }

  /** `anchor` plus a whole number of periods. */
  ghost predicate OnGrid(anchor: int, every: int, g: int) {
    exists k: nat :: GridPoint(anchor, every, k) == g
  }

  /** The grid arithmetic of compute_next_fire. */
  function FirstAfter(anchor: int, every: int, base: int): int
    requires every > 0
  {
    if anchor > base then anchor
    else
      var k := (base - anchor) / every + 1;
      anchor + k * every
  }

  lemma MultipleOrder(a: int, b: int, every: int)
    requires every > 0 && a <= b
    ensures a * every <= b * every
  {
    assert (b - a) * every >= 0;
    assert (b - a) * every == b * every - a * every;
  }

  lemma FewerMultiples(a: int, b: int, every: int)
    requires every > 0 && a * every <= b * every
    ensures a <= b
  {
    if a > b {
      MultipleOrder(1, a - b, every);
    }
  }

  /** FirstAfter is the least grid point strictly after the base. */
  lemma FirstAfterIsLeast(anchor: int, every: int, base: int)
    requires every > 0
    ensures FirstAfter(anchor, every, base) > base
    ensures OnGrid(anchor, every, FirstAfter(anchor, every, base))
    ensures forall g :: OnGrid(anchor, every, g) && g > base ==> FirstAfter(anchor, every, base) <= g
  {
    if anchor > base {
      assert GridPoint(anchor, every, 0) == anchor;
      forall g | OnGrid(anchor, every, g) && g > base ensures anchor <= g {
        var m: nat :| GridPoint(anchor, every, m) == g;
        MultipleOrder(0, m, every);
      }
    } else {
      var k := (base - anchor) / every + 1;
      assert (k - 1) * every <= base - anchor < k * every;
      assert GridPoint(anchor, every, k) == FirstAfter(anchor, every, base);
      forall g | OnGrid(anchor, every, g) && g > base ensures anchor + k * every <= g {
        var m: nat :| GridPoint(anchor, every, m) == g;
        if m < k {
          MultipleOrder(m, k - 1, every);
        } else {
          MultipleOrder(k, m, every);
        }
      }
    }
  }

  lemma GridTransitive(a: int, every: int, b: int, c: int)
    requires OnGrid(a, every, b) && OnGrid(b, every, c)
    ensures OnGrid(a, every, c)
  {
    var m: nat :| GridPoint(a, every, m) == b;
    var n: nat :| GridPoint(b, every, n) == c;
    assert (m + n) * every == m * every + n * every;
    assert GridPoint(a, every, m + n) == c;
  }

  lemma GridDifference(a: int, every: int, b: int, c: int)
    requires every > 0 && OnGrid(a, every, b) && OnGrid(a, every, c) && b <= c
    ensures OnGrid(b, every, c)
  {
    var m: nat :| GridPoint(a, every, m) == b;
    var n: nat :| GridPoint(a, every, n) == c;
    FewerMultiples(m, n, every);
    assert (n - m) * every == n * every - m * every;
    assert GridPoint(b, every, n - m) == c;
  }

  // ----- compute_next_fire -----

  function FirstTruthy(a: SecondsField, b: SecondsField, c: SecondsField): SecondsField {
    if !a.Falsy? then a else if !b.Falsy? then b else c
  }

  function NextOnGrid(every: SecondsField, startAt: IsoField, from: int, last: Option<int>)
    : Result<Option<int>, TriggerError>
  {
    if every.Falsy? then Failure(SpecError)
    else if every.NotNumber? then Failure(IntError)
    else if every.value <= 0 then Failure(SpecError)
    else if startAt.Malformed? then Failure(SpecError)
    else
      var anchor := if startAt.At? then startAt.instant else if last.Some? then last.value else from;
      Success(Some(FirstAfter(anchor, every.value * SECOND, from)))
  }

  function ComputeNextFire(cron: CronOracle, kind: TriggerType, spec: TriggerSpec, zone: string,
                           from: int, last: Option<int>): Result<Option<int>, TriggerError>
  {
    match kind
    case Cron =>
      if spec.cron == [] then Failure(SpecError)
      else
        var next := cron(spec.cron, zone, from);
        if next.None? then Failure(SpecError) else Success(next)
    case Interval =>
      NextOnGrid(spec.everySeconds, spec.startAt, from, last)
    case OneShot =>
      if !spec.fireAt.At? then Failure(SpecError)
      else if last.Some? && last.value >= spec.fireAt.instant then Success(None)
      else if spec.fireAt.instant > from then Success(Some(spec.fireAt.instant))
      else Success(None)
    case ConditionWatch =>
      NextOnGrid(FirstTruthy(spec.everySeconds, spec.pollSeconds, spec.intervalSeconds), spec.startAt, from, last)
    case Manual => Success(None)
    case UnknownType => Failure(SpecError)
  }

  /** The period of an interval or condition_watch trigger. */
  function Period(kind: TriggerType, spec: TriggerSpec): SecondsField {
    if kind == Interval then spec.everySeconds
    else FirstTruthy(spec.everySeconds, spec.pollSeconds, spec.intervalSeconds)
  }

  predicate Periodic(kind: TriggerType) {
    kind == Interval || kind == ConditionWatch
  }

  /** What a trigger needs so that its next fire can be computed. */
  predicate WellFormed(cron: CronOracle, kind: TriggerType, spec: TriggerSpec, zone: string) {
    match kind
    case Cron => spec.cron != [] && cron(spec.cron, zone, 0).Some?
    case Interval => spec.everySeconds.Seconds? && spec.everySeconds.value > 0 && !spec.startAt.Malformed?
    case OneShot => spec.fireAt.At?
    case ConditionWatch =>
      var every := Period(kind, spec);
      every.Seconds? && every.value > 0 && !spec.startAt.Malformed?
    case Manual => true
    case UnknownType => false
  }

  /**
   * `d` is the member that decides the period: every_seconds; for condition_watch, where that is falsy,
   * poll_seconds, and where both are falsy, interval_seconds.
   */
  predicate Decides(kind: TriggerType, spec: TriggerSpec, d: SecondsField) {
    && !d.Falsy?
    && (|| spec.everySeconds == d
        || (&& kind == ConditionWatch && spec.everySeconds.Falsy?
            && (spec.pollSeconds == d || (spec.pollSeconds.Falsy? && spec.intervalSeconds == d))))
  }

  /** Whether the call raises depends on the trigger alone, never on the clock or the last fire. */
  lemma RaisesIffIllFormed(cron: CronOracle, kind: TriggerType, spec: TriggerSpec, zone: string,
                           from: int, last: Option<int>)
    ensures ComputeNextFire(cron, kind, spec, zone, from, last).Success? <==> WellFormed(cron, kind, spec, zone)
    ensures Periodic(kind) ==>
      (WellFormed(cron, kind, spec, zone) <==>
        !spec.startAt.Malformed? && exists n :: n > 0 && Decides(kind, spec, Seconds(n)))
  {
    var d := Period(kind, spec);
    if Periodic(kind) && d.Seconds? {
      assert Decides(kind, spec, Seconds(d.value));
    }
    if kind.Cron? {
      assert cron(spec.cron, zone, 0).Some? ==> cron(spec.cron, zone, from).Some?;
      assert cron(spec.cron, zone, from).Some? ==> cron(spec.cron, zone, 0).Some?;
    }
  }

  /** A computed fire instant is strictly after the instant it is computed from. */
  lemma StrictProgress(cron: CronOracle, kind: TriggerType, spec: TriggerSpec, zone: string,
                       from: int, last: Option<int>)
    ensures var r := ComputeNextFire(cron, kind, spec, zone, from, last);
      r.Success? && r.value.Some? ==> r.value.value > from
  {
    if Periodic(kind) && WellFormed(cron, kind, spec, zone) {
      var anchor := if spec.startAt.At? then spec.startAt.instant else if last.Some? then last.value else from;
      FirstAfterIsLeast(anchor, Period(kind, spec).value * SECOND, from);
    }
  }

  /** A periodic trigger fires next at the least point of its grid after the base. */
  lemma LeastGridPoint(cron: CronOracle, kind: TriggerType, spec: TriggerSpec, zone: string,
                       from: int, last: Option<int>)
    requires Periodic(kind) && WellFormed(cron, kind, spec, zone)
    ensures var r := ComputeNextFire(cron, kind, spec, zone, from, last);
      var anchor := if spec.startAt.At? then spec.startAt.instant else if last.Some? then last.value else from;
      var every := Period(kind, spec).value * SECOND;
      && Decides(kind, spec, Period(kind, spec))
      && r.Success? && r.value.Some?
      && OnGrid(anchor, every, r.value.value) && r.value.value > from
      && forall g :: OnGrid(anchor, every, g) && g > from ==> r.value.value <= g
  {
    var anchor := if spec.startAt.At? then spec.startAt.instant else if last.Some? then last.value else from;
    FirstAfterIsLeast(anchor, Period(kind, spec).value * SECOND, from);
  }

  // ----- What each trigger type answers -----

  /** `t` is the least point after `base` of the grid through `anchor` with period `every`. */
  ghost predicate LeastAfter(anchor: int, every: int, base: int, t: int) {
    && OnGrid(anchor, every, t) && t > base
    && forall g :: OnGrid(anchor, every, g) && g > base ==> t <= g
  }

  /** A periodic trigger whose deciding member is a positive number fires on the grid of that many seconds. */
  lemma DecidedPeriod(cron: CronOracle, kind: TriggerType, spec: TriggerSpec, zone: string,
                      from: int, last: Option<int>, n: int)
    requires Periodic(kind) && Decides(kind, spec, Seconds(n)) && n > 0 && !spec.startAt.Malformed?
    ensures var r := ComputeNextFire(cron, kind, spec, zone, from, last);
      && r.Success? && r.value.Some?
      && (spec.startAt.At? ==> LeastAfter(spec.startAt.instant, n * 1_000_000, from, r.value.value))
      && (spec.startAt.Missing? && last.Some? ==> LeastAfter(last.value, n * 1_000_000, from, r.value.value))
      && (spec.startAt.Missing? && last.None? ==> LeastAfter(from, n * 1_000_000, from, r.value.value))
  {
    LeastGridPoint(cron, kind, spec, zone, from, last);
  }

  /** And every other periodic trigger is refused: by int() for a non-number, else as a bad spec. */
  lemma UndecidedPeriod(cron: CronOracle, kind: TriggerType, spec: TriggerSpec, zone: string,
                        from: int, last: Option<int>)
    requires Periodic(kind)
    requires forall n :: Decides(kind, spec, Seconds(n)) ==> n <= 0 || spec.startAt.Malformed?
    ensures ComputeNextFire(cron, kind, spec, zone, from, last) ==
      Failure(if Decides(kind, spec, NotNumber) then IntError else SpecError)
  {
    var d := Period(kind, spec);
    assert d.Seconds? ==> Decides(kind, spec, Seconds(d.value));
  }

  /** A one_shot is due at its fire_at, exactly as long as that is ahead and no fire has reached it. */
  lemma OneShotAnswer(cron: CronOracle, spec: TriggerSpec, zone: string, from: int, last: Option<int>, t: int)
    ensures ComputeNextFire(cron, OneShot, spec, zone, from, last) == Success(Some(t)) <==>
      spec.fireAt == At(t) && from < t && (last.Some? ==> last.value < t)
  {
  }

  /** evaluate(): the next fire, and whether it is at or before `now`. */
  datatype TriggerEvaluation = TriggerEvaluation(nextFireAt: Option<int>, isDue: bool)

  function Evaluate(cron: CronOracle, kind: TriggerType, spec: TriggerSpec, zone: string,
                    now: int, last: Option<int>): Result<TriggerEvaluation, TriggerError>
  {
    var next := ComputeNextFire(cron, kind, spec, zone, now, last);
    if next.Failure? then Failure(next.error)
    else Success(TriggerEvaluation(next.value, next.value.Some? && next.value.value <= now))
  }

  /** evaluate() answers with the computed next fire, and never reports a schedule as due. */
  lemma NeverDue(cron: CronOracle, kind: TriggerType, spec: TriggerSpec, zone: string, now: int, last: Option<int>)
    ensures var r := Evaluate(cron, kind, spec, zone, now, last);
      && (r.Success? ==> !r.value.isDue)
      && forall t :: r == Success(TriggerEvaluation(t, false)) <==>
           ComputeNextFire(cron, kind, spec, zone, now, last) == Success(t)
  {
    StrictProgress(cron, kind, spec, zone, now, last);
  }
}
