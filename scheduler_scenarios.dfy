/**
 * Scheduler behaviour over several ticks and in the concrete situations the scheduler's
 * tests describe: repeated ticks, registered jobs with open bounds, and an every-minute
 * schedule whose date range has or has not closed.
 */
module SchedulerScenarios {
  import opened Wrappers
  import opened Errors
  import opened DateTimes
  import opened Platform
  import opened Jobs
  import opened Storage
  import opened ScheduleInstants
  import opened Scheduler
  import opened SchedulerProperties
  import opened Manager
  import opened ManagerProperties
  import HashKeys

  const TicksPerHour: int := 60 * TicksPerMinute

  /** Without date bounds the range check always passes: the job behaves as a plain cron job. */
  lemma UnboundedAlwaysWithin(instant: ScheduleInstant, zone: TimeZoneInfo)
    ensures WithinDateRange(instant, None, None, zone)
  {
  }

  /** The fields a tick writes leave alone everything the next tick loads and the zone it resolves. */
  lemma TickKeepsInputs(env: Environment, format: CronStringFormat, record: Hash, fields: Hash)
    requires fields.Keys <= {HashKeys.LastExecution, HashKeys.LastJobId, HashKeys.CreatedAt, HashKeys.NextExecution}
    ensures LoadJob(env, format, record + fields) == LoadJob(env, format, record)
    ensures ResolveZone(env, record + fields) == ResolveZone(env, record)
  {
    var updated := record + fields;
    forall k | k in {HashKeys.Job, HashKeys.Cron, HashKeys.StartDate, HashKeys.EndDate, HashKeys.TimeZoneId}
      ensures Read(updated, k) == Read(record, k)
    {
      assert k !in fields;
    }
  }

  /**
   * After a tick that triggered, a later tick on the updated record triggers only for an
   * occurrence strictly after the first tick's local NowInstant and before its own
   * NowInstant + 1s, given an enumerator that keeps to its window. Both ticks load the same
   * job and run in the same zone.
   */
  lemma RetriggerNeedsNewOccurrence(env: Environment, format: CronStringFormat, assign: Assign,
                                    id: string, record: Hash, now: DateTime, fields: Hash, request: CreateRequest,
                                    now2: DateTime, fields2: Hash, request2: CreateRequest,
                                    loaded: LoadedJob, zone: TimeZoneInfo)
    requires DatesRoundTrip(env)
    requires ScheduledWith(env, format, assign, id, record, now, fields, Some(request))
    requires ScheduledWith(env, format, assign, id, record + fields, now2, fields2, Some(request2))
    requires LoadJob(env, format, record + fields) == Success(loaded) && ResolveZone(env, record + fields) == Success(zone)
    requires EnumeratesBetween(loaded.schedule)
    ensures LoadJob(env, format, record) == Success(loaded) && ResolveZone(env, record) == Success(zone)
    ensures var upper := AddSeconds(StripSeconds(now2), 1);
      && upper.Success?
      && exists x :: x in loaded.schedule.getNextOccurrences(ToZone(zone, StripSeconds(now)), ToZone(zone, upper.value)) &&
           ToZone(zone, StripSeconds(now)) < x < ToZone(zone, upper.value) &&
           IsTriggerable(zone, ToZone(zone, loaded.endDate.GetOr(MaxValue)), x)
  {
    var updated := record + fields;
    ScheduledFields(env, format, assign, id, record, now, fields, Some(request));
    TickKeepsInputs(env, format, record, fields);
    ScheduledFields(env, format, assign, id, updated, now2, fields2, Some(request2));
    var d := Decide(env, loaded, id, updated, now2);
    assert d.Success? && d.value.request.Some?;
    DueExactly(env, loaded, id, updated, now2, zone);
    var instant := Constructed(now2, zone, Some(loaded.schedule), None).value;
    ResumesFromLastRun(env, format, assign, id, record, now, fields, request, instant);
  }

  /** The schedule yields no occurrence in (lo, hi], whatever window it is asked for. */
  ghost predicate SilentBetween(schedule: CrontabSchedule, lo: int, hi: int) {
    forall from: Ticks, to: Ticks, x: Ticks {:trigger x in schedule.getNextOccurrences(from, to)} ::
      x in schedule.getNextOccurrences(from, to) ==> !(lo < x <= hi)
  }

  /**
   * No occurrence triggers twice when the schedule has none in the second after the first
   * tick's local NowInstant, the stretch both ticks' windows share: the occurrence that
   * lets the later tick trigger then lies beyond the whole of the first tick's window.
   */
  lemma NoDoubleTrigger(env: Environment, format: CronStringFormat, assign: Assign,
                        id: string, record: Hash, now: DateTime, fields: Hash, request: CreateRequest,
                        now2: DateTime, fields2: Hash, request2: CreateRequest,
                        loaded: LoadedJob, zone: TimeZoneInfo)
    requires DatesRoundTrip(env)
    requires ScheduledWith(env, format, assign, id, record, now, fields, Some(request))
    requires ScheduledWith(env, format, assign, id, record + fields, now2, fields2, Some(request2))
    requires LoadJob(env, format, record + fields) == Success(loaded) && ResolveZone(env, record + fields) == Success(zone)
    requires EnumeratesBetween(loaded.schedule)
    requires AddSeconds(StripSeconds(now), 1).Success?
    requires SilentBetween(loaded.schedule, ToZone(zone, StripSeconds(now)), ToZone(zone, AddSeconds(StripSeconds(now), 1).value))
    ensures var firstUpper := AddSeconds(StripSeconds(now), 1).value;
      var upper := AddSeconds(StripSeconds(now2), 1);
      && upper.Success?
      && exists x :: x in loaded.schedule.getNextOccurrences(ToZone(zone, StripSeconds(now)), ToZone(zone, upper.value)) &&
           ToZone(zone, firstUpper) < x < ToZone(zone, upper.value) &&
           IsTriggerable(zone, ToZone(zone, loaded.endDate.GetOr(MaxValue)), x)
  {
    RetriggerNeedsNewOccurrence(env, format, assign, id, record, now, fields, request, now2, fields2, request2, loaded, zone);
  }

  /** The schedule yields whole minutes only, as a five-field cron expression does. */
  ghost predicate WholeMinutes(schedule: CrontabSchedule) {
    forall from: Ticks, to: Ticks, x: Ticks {:trigger x in schedule.getNextOccurrences(from, to)} ::
      x in schedule.getNextOccurrences(from, to) ==> x % TicksPerMinute == 0
  }

  /** A whole minute after an instant at second 0 is more than a second after it; it only serves WholeMinutesLeaveGap. */
  lemma NextWholeMinute(n: DateTime, x: int)
    requires Second(n) == 0
    requires x % TicksPerMinute == 0 && n.ticks < x
    ensures n.ticks + TicksPerSecond < x
  {
    var q := n.ticks / TicksPerSecond;
    var k := q / 60;
    var r := n.ticks % TicksPerSecond;
    assert q == 60 * k;
    assert n.ticks == k * TicksPerMinute + r;
    var j := x / TicksPerMinute;
    assert x == j * TicksPerMinute;
    assert (j - k) * TicksPerMinute > 0;
    assert j - k >= 1;
  }

  /**
   * For a whole-minute schedule in UTC the condition of NoDoubleTrigger always holds: no
   * whole minute lies in the second after NowInstant, whose seconds are zero.
   */
  lemma WholeMinutesLeaveGap(schedule: CrontabSchedule, now: DateTime)
    requires WholeMinutes(schedule)
    requires AddSeconds(StripSeconds(now), 1).Success?
    ensures SilentBetween(schedule, ToZone(UtcZone, StripSeconds(now)), ToZone(UtcZone, AddSeconds(StripSeconds(now), 1).value))
  {
    var n := StripSeconds(now);
    forall from: Ticks, to: Ticks, x: Ticks | x in schedule.getNextOccurrences(from, to)
      ensures !(n.ticks < x <= n.ticks + TicksPerSecond)
    {
      if n.ticks < x {
        NextWholeMinute(n, x);
      }
    }
  }

  /**
   * A job registered through the manager, whose missing dates were stored as MinValue and
   * MaxValue, is decided without an exception on its first tick: the extreme bounds are
   * converted, compared and enumerated safely whenever now is UTC and not within a second
   * of the largest representable instant.
   */
  lemma RegisteredJobDecides(env: Environment, format: CronStringFormat, id: string, job: Job, cronExpression: string,
                             schedule: CrontabSchedule, options: RecurringJobOptions, registeredAt: DateTime, now: DateTime)
    requires DatesRoundTrip(env) && JobsRoundTrip(env)
    requires env.parseCron(Some(cronExpression), format) == Success(schedule)
    requires options.timeZone.id in env.systemZones && env.systemZones[options.timeZone.id] == options.timeZone
    requires registeredAt.kind == Utc && now.kind == Utc
    requires now.ticks + TicksPerSecond <= MaxTicks
    ensures var record := RegisteredRecord(env, job, cronExpression, None, None, options, Some(registeredAt));
      var loaded := LoadedJob(job, schedule, Some(MinValue), Some(MaxValue));
      && LoadJob(env, format, record) == Success(loaded)
      && Decide(env, loaded, id, record, now).Success?
  {
    var record := RegisteredRecord(env, job, cronExpression, None, None, options, Some(registeredAt));
    var instant := Constructed(now, options.timeZone, Some(schedule), None).value;
    assert record == map[] + record;
    RegisteredRecordReadsBack(env, format, map[], job, cronExpression, schedule, None, None, options, Some(registeredAt), instant);
    ConstructedInstant(now, options.timeZone, schedule, None);
  }

  /** The schedule of "* * * * *": every whole minute strictly inside the window, and nothing else. */
  ghost predicate EveryMinute(schedule: CrontabSchedule) {
    forall from: Ticks, to: Ticks, x: Ticks {:trigger x in schedule.getNextOccurrences(from, to)} ::
      x in schedule.getNextOccurrences(from, to) <==> from < x < to && x % TicksPerMinute == 0
  }

  /** A record naming no zone whose job ran under the legacy fields only: NextExecution but no LastExecution or CreatedAt. */
  ghost predicate LegacyUtcRecord(env: Environment, record: Hash, nextExecution: DateTime) {
    && HashKeys.TimeZoneId !in record
    && HashKeys.LastExecution !in record && HashKeys.CreatedAt !in record
    && HashKeys.NextExecution in record && record[HashKeys.NextExecution] == Some(env.serializeDateTime(nextExecution))
  }

  /** The whole minute at or below a tick count. */
  function MinuteAtOrBelow(n: Ticks): (m: Ticks)
    ensures n - TicksPerMinute < m <= n && m % TicksPerMinute == 0
  {
    (n / TicksPerMinute) * TicksPerMinute
  }

  /**
   * The date-range test that triggers (Execute_DateRange_DoesTriggerWhenInBounds), run in
   * UTC rather than the machine's zone: every minute, last scheduled for ten hours ago,
   * started twenty hours ago and ending in ten hours. With a factory that does not throw,
   * the tick triggers and records NowInstant and the factory's id.
   */
  lemma OpenRangeTriggers(env: Environment, format: CronStringFormat, assign: Assign,
                          id: string, record: Hash, now: DateTime, job: Job, schedule: CrontabSchedule)
    requires DatesRoundTrip(env)
    requires forall request :: assign(request).Success?
    requires now.kind == Utc && 20 * TicksPerHour <= now.ticks && now.ticks + 10 * TicksPerHour <= MaxTicks
    requires EveryMinute(schedule)
    requires LegacyUtcRecord(env, record, DateTime(now.ticks - 10 * TicksPerHour, Utc))
    requires LoadJob(env, format, record) ==
      Success(LoadedJob(job, schedule, Some(DateTime(now.ticks - 20 * TicksPerHour, Utc)), Some(DateTime(now.ticks + 10 * TicksPerHour, Utc))))
    ensures var r := ScheduleJob(env, format, assign, id, record, now);
      && r.Success? && r.value.Scheduled? && r.value.request.Some?
      && r.value.fields[HashKeys.LastExecution] == Some(env.serializeDateTime(StripSeconds(now)))
      && r.value.fields[HashKeys.LastJobId] == Some(assign(r.value.request.value).value.GetOr(""))
  {
    var loaded := LoadJob(env, format, record).value;
    var next := DateTime(now.ticks - 10 * TicksPerHour, Utc);
    assert env.deserializeDateTime(Some(env.serializeDateTime(next))) == Success(next);
    ConstructedInstant(now, UtcZone, schedule, None);
    var instant := Constructed(now, UtcZone, Some(schedule), None).value;
    var n := instant.nowInstant.ticks;
    var last := GetLastInstant(env, record, instant);
    assert last == AddSeconds(next, -1);
    var window := Window(instant, last.value);
    assert window == Success((last.value.ticks, n + TicksPerSecond));
    var m := MinuteAtOrBelow(n);
    assert m in schedule.getNextOccurrences(window.value.0, window.value.1);
    assert IsTriggerable(UtcZone, ToZone(UtcZone, loaded.endDate.GetOr(MaxValue)), m);
    DueExactly(env, loaded, id, record, now, UtcZone);
    var d := Decide(env, loaded, id, record, now);
    assert d.Success? && d.value.request.Some?;
    var r := ScheduleJob(env, format, assign, id, record, now);
    ScheduledFields(env, format, assign, id, record, now, r.value.fields, r.value.request);
  }

  /**
   * The upper-bound test that does not trigger (Execute_UpperDateRange_DoesNotTriggerWhenOutOfBounds),
   * in UTC: last scheduled for ten hours ago, no start date, and an end twenty hours ago.
   * The tick runs, triggers nothing, and LastExecution stays absent.
   */
  lemma ClosedRangeIdles(env: Environment, format: CronStringFormat, assign: Assign,
                         id: string, record: Hash, now: DateTime, job: Job, schedule: CrontabSchedule)
    requires DatesRoundTrip(env)
    requires now.kind == Utc && 20 * TicksPerHour <= now.ticks
    requires LegacyUtcRecord(env, record, DateTime(now.ticks - 10 * TicksPerHour, Utc))
    requires LoadJob(env, format, record) == Success(LoadedJob(job, schedule, None, Some(DateTime(now.ticks - 20 * TicksPerHour, Utc))))
    ensures var r := ScheduleJob(env, format, assign, id, record, now);
      && r.Success? && r.value.Scheduled? && r.value.request.None?
      && HashKeys.LastExecution !in record + r.value.fields
  {
    var loaded := LoadJob(env, format, record).value;
    var next := DateTime(now.ticks - 10 * TicksPerHour, Utc);
    assert env.deserializeDateTime(Some(env.serializeDateTime(next))) == Success(next);
    NeverDueOutsideRange(env, loaded, id, record, now, UtcZone);
    var d := Decide(env, loaded, id, record, now);
    assert d.Success?;
    var r := ScheduleJob(env, format, assign, id, record, now);
    ScheduledFields(env, format, assign, id, record, now, r.value.fields, r.value.request);
  }
}
