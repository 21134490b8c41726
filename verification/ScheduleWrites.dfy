/** What an accepted create or PATCH writes, field by field, and when each is refused. */
module ScheduleWrites {
  import opened Wrappers
  import opened Trigger
  import opened Tick

  /** A NOT NULL column after a PATCH: the value sent, or the old one; null is not accepted. */
  predicate Writes<T(==)>(field: PatchField<T>, old_: T, new_: T) {
    match field
    case Unset => new_ == old_
    case NullValue => false
    case Value(value) => new_ == value
  }

  /** The same for a column that takes null. */
  predicate WritesOption<T(==)>(field: PatchField<T>, old_: Option<T>, new_: Option<T>) {
    match field
    case Unset => new_ == old_
    case NullValue => new_ == None
    case Value(value) => new_ == Some(value)
  }

  predicate DetailsWritten(p: DetailsPatch, d: Details, e: Details) {
    && Writes(p.name, d.name, e.name) && WritesOption(p.description, d.description, e.description)
    && Writes(p.targetType, d.targetType, e.targetType) && Writes(p.targetRef, d.targetRef, e.targetRef)
    && WritesOption(p.targetSpec, d.targetSpec, e.targetSpec)
  }

  /** Every column that a PATCH may name is written as sent; the last fire is kept. */
  predicate FieldsWritten(p: SchedulePatch, s: Schedule, t: Schedule) {
    && Writes(p.kind, s.kind, t.kind) && WritesOption(p.spec, s.storedSpec, t.storedSpec)
    && Writes(p.zone, s.zone, t.zone) && Writes(p.enabled, s.enabled, t.enabled)
    && Writes(p.paused, s.paused, t.paused) && Writes(p.status, s.status, t.status)
    && DetailsWritten(p.details, s.details, t.details) && t.lastFireAt == s.lastFireAt
  }

  /** Null is sent for some column that does not take it. */
  predicate SendsBadNull(p: SchedulePatch) {
    || p.kind == NullValue || p.zone == NullValue || p.enabled == NullValue || p.paused == NullValue
    || p.status == NullValue || p.details.name == NullValue || p.details.targetType == NullValue
    || p.details.targetRef == NullValue
  }

  /** Type, spec or time zone are sent with a value. */
  predicate SendsTrigger(p: SchedulePatch) {
    p.kind.Value? || p.spec.Value? || p.zone.Value?
  }

  /**
   * An accepted PATCH writes exactly the fields sent, and recomputes the next fire from the new trigger if
   * and only if a trigger field is sent with a value.
   */
  lemma PatchWrites(cron: CronOracle, s: Schedule, p: SchedulePatch, now: int)
    requires PatchRow(cron, s, p, now).Success?
    ensures var t := PatchRow(cron, s, p, now).value;
      && FieldsWritten(p, s, t)
      && (if SendsTrigger(p)
          then ComputeNextFire(cron, t.kind, t.Spec(), t.zone, now, None) == Success(t.nextFireAt)
          else t.nextFireAt == s.nextFireAt)
  {
  }

  /** The stored spec that a PATCH leaves; null reads as {}. */
  function SpecAfter(p: SchedulePatch, s: Schedule): TriggerSpec {
    match p.spec
    case Unset => s.Spec()
    case NullValue => EMPTY_SPEC
    case Value(spec) => spec
  }

  function ValueOr<T>(field: PatchField<T>, old_: T, null_: T): T {
    match field
    case Unset => old_
    case NullValue => null_
    case Value(value) => value
  }

  /** A PATCH is refused for an unknown target type, a trigger that cannot be computed, or a null that is not taken. */
  lemma PatchRefusedIff(cron: CronOracle, s: Schedule, p: SchedulePatch, now: int)
    ensures var r := PatchRow(cron, s, p, now);
      var badTarget := p.details.targetType.Value? && p.details.targetType.value.UnknownTarget?;
      var kind, spec, zone := ValueOr(p.kind, s.kind, UnknownType), SpecAfter(p, s), ValueOr(p.zone, s.zone, []);
      var badTrigger := SendsTrigger(p) && !WellFormed(cron, kind, spec, zone);
      && (r.Failure? <==> badTarget || badTrigger || SendsBadNull(p))
      && (r == Failure(InvalidTarget) <==> badTarget)
      && (r == Failure(InvalidTrigger) <==>
          && !badTarget && SendsTrigger(p)
          && ComputeNextFire(cron, kind, spec, zone, now, None) == Failure(SpecError))
      && r != Failure(NoSchedule) && r != Failure(QuotaExceeded)
  {
    var applied := ApplyFields(s, p);
    RaisesIffIllFormed(cron, applied.kind, applied.Spec(), applied.zone, now, None);
  }

  /** The seconds that check_min_interval compares, where int() takes them. */
  predicate TooShort(body: ScheduleBody, minimum: int) {
    && body.kind == Interval
    && (|| (body.spec.everySeconds == Falsy && 0 < minimum)
        || (body.spec.everySeconds.Seconds? && body.spec.everySeconds.value < minimum))
  }

  /**
   * A create is accepted if and only if the owner has room, an interval is not below the minimum, the
   * target type is known and the trigger can be computed; it then stores what was sent, active and not
   * paused, with the first fire from now.
   */
  lemma CreateAcceptedIff(cron: CronOracle, body: ScheduleBody, quotas: Quotas, owned: int, now: int)
    ensures var r := CreateRow(cron, body, quotas, owned, now);
      && (r.Success? <==>
          && owned < quotas.maxSchedulesPerUser && !TooShort(body, quotas.minIntervalSeconds)
          && !body.details.targetType.UnknownTarget? && WellFormed(cron, body.kind, body.spec, body.zone))
      && (r.Success? ==> var s := r.value;
          && s.kind == body.kind && s.Spec() == body.spec && s.zone == body.zone && s.enabled == body.enabled
          && !s.paused && s.status == Active && s.lastFireAt == None && s.details == body.details
          && ComputeNextFire(cron, body.kind, body.spec, body.zone, now, None) == Success(s.nextFireAt))
  {
    RaisesIffIllFormed(cron, body.kind, body.spec, body.zone, now, None);
  }

  /** Which refusal a create is answered with: the quotas first, then the target type, then the trigger. */
  lemma CreateRefusal(cron: CronOracle, body: ScheduleBody, quotas: Quotas, owned: int, now: int)
    ensures var r := CreateRow(cron, body, quotas, owned, now);
      var full := owned >= quotas.maxSchedulesPerUser;
      var notNumber := body.kind == Interval && body.spec.everySeconds == NotNumber;
      && (r == Failure(QuotaExceeded) <==> full || TooShort(body, quotas.minIntervalSeconds))
      && (r == Failure(InvalidTarget) <==>
          && !full && !TooShort(body, quotas.minIntervalSeconds) && !notNumber
          && body.details.targetType.UnknownTarget?)
      && (notNumber && !full ==> r == Failure(InternalError))
      && r != Failure(NoSchedule)
  {
  }
}
