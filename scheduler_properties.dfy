/**
 * What one scheduler tick means: when a job is due, what it writes back, what the next tick
 * reads from that, and what a whole pass over the registry does to the store.
 */
module SchedulerProperties {
  import opened Wrappers
  import opened Errors
  import opened DateTimes
  import opened Platform
  import opened Jobs
  import opened Storage
  import opened ScheduleInstants
  import opened Scheduler
  import HashKeys

  // ---------------------------------------------------------------------------------------
  // The date range

  /** A zone conversion that keeps order strictly. */
  ghost predicate StrictlyMonotone(zone: TimeZoneInfo) {
    forall a: Ticks, b: Ticks {:trigger zone.fromUtc(a), zone.fromUtc(b)} :: a < b ==> zone.fromUtc(a) < zone.fromUtc(b)
  }

  /**
   * In a zone whose offset never folds the clock back, comparing local times is comparing
   * instants: the job runs from the start instant up to, and not including, the end instant.
   */
  lemma WithinDateRangeInstants(instant: ScheduleInstant, startDate: Option<DateTime>, endDate: Option<DateTime>, zone: TimeZoneInfo)
    requires StrictlyMonotone(zone)
    ensures WithinDateRange(instant, startDate, endDate, zone) <==>
      (startDate.None? || startDate.value.ticks <= instant.nowInstant.ticks) &&
      (endDate.None? || instant.nowInstant.ticks < endDate.value.ticks)
  {
    var now := instant.nowInstant.ticks;
    if startDate.Some? {
      var s := startDate.value.ticks;
      if now < s { assert zone.fromUtc(now) < zone.fromUtc(s); }
      if s < now { assert zone.fromUtc(s) < zone.fromUtc(now); }
    }
    if endDate.Some? {
      var e := endDate.value.ticks;
      if now < e { assert zone.fromUtc(now) < zone.fromUtc(e); }
      if e < now { assert zone.fromUtc(e) < zone.fromUtc(now); }
    }
  }

  lemma UtcIsStrictlyMonotone()
    ensures StrictlyMonotone(UtcZone)
  {
  }

  // ---------------------------------------------------------------------------------------
  // Where the search for due occurrences starts

  /**
   * With a round-tripping serialiser, GetLastInstant returns the stored LastExecution;
   * without one the stored CreatedAt; without either one second before the stored
   * NextExecution; and for a record with none of the three one second before NowInstant.
   */
  lemma LastInstantSources(env: Environment, record: Hash, instant: ScheduleInstant, t: DateTime)
    requires DatesRoundTrip(env)
    ensures record.Keys * {HashKeys.LastExecution} == {} && record.Keys * {HashKeys.CreatedAt} == {} &&
            record.Keys * {HashKeys.NextExecution} == {} ==>
              GetLastInstant(env, record, instant) == AddSeconds(instant.nowInstant, -1)
    ensures var stored := Some(env.serializeDateTime(t));
      && (HashKeys.LastExecution in record && record[HashKeys.LastExecution] == stored ==>
            GetLastInstant(env, record, instant) == Success(t))
      && (HashKeys.LastExecution !in record && HashKeys.CreatedAt in record && record[HashKeys.CreatedAt] == stored ==>
            GetLastInstant(env, record, instant) == Success(t))
      && (HashKeys.LastExecution !in record && HashKeys.CreatedAt !in record &&
          HashKeys.NextExecution in record && record[HashKeys.NextExecution] == stored ==>
            GetLastInstant(env, record, instant) == AddSeconds(t, -1))
  {
    assert env.deserializeDateTime(Some(env.serializeDateTime(t))) == Success(t);
    if HashKeys.LastExecution !in record && HashKeys.CreatedAt !in record && HashKeys.NextExecution !in record {
      assert record.Keys * {HashKeys.LastExecution} == {};
    } else if HashKeys.LastExecution in record {
      assert HashKeys.LastExecution in record.Keys * {HashKeys.LastExecution};
    } else if HashKeys.CreatedAt in record {
      assert HashKeys.CreatedAt in record.Keys * {HashKeys.CreatedAt};
    } else {
      assert HashKeys.NextExecution in record.Keys * {HashKeys.NextExecution};
    }
  }

  // ---------------------------------------------------------------------------------------
  // When a job is due

  /**
   * The decision for a loaded record in an existing zone, with `now` marked UTC: the instant
   * is now minus its whole seconds (second 0, sub-second ticks kept), and the job is due exactly when local NowInstant is within
   * the date range and some occurrence between local lastInstant and local NowInstant + 1s
   * is before the local end date and a real local time. A due job is asked for with the
   * record's job, its queue, the scheduler's reason and its id.
   */
  lemma DueExactly(env: Environment, loaded: LoadedJob, id: string, record: Hash, now: DateTime, zone: TimeZoneInfo)
    requires ResolveZone(env, record) == Success(zone)
    requires now.kind == Utc
    ensures var d := Decide(env, loaded, id, record, now);
      var instant := Constructed(now, zone, Some(loaded.schedule), None).value;
      var last := GetLastInstant(env, record, instant);
      && instant.nowInstant == StripSeconds(now)
      && (last.Failure? ==> d == Failure(last.error))
      && (last.Success? && last.value.kind != Utc && WithinDateRange(instant, loaded.startDate, loaded.endDate, zone) ==>
            d == Failure(Argument("lastInstant")))
      && (d.Success? ==>
            var window := Window(instant, last.value);
            var localEnd := ToZone(zone, loaded.endDate.GetOr(MaxValue));
            && d.value.instant == instant
            && (d.value.request.Some? <==>
                  && WithinDateRange(instant, loaded.startDate, loaded.endDate, zone)
                  && window.Success?
                  && exists x :: x in loaded.schedule.getNextOccurrences(window.value.0, window.value.1) &&
                                 IsTriggerable(zone, localEnd, x))
            && (d.value.request.Some? ==>
                  d.value.request.value == CreateRequest(loaded.job, EnqueueQueue(record), SchedulerReason, id)))
  {
    var d := Decide(env, loaded, id, record, now);
    var instant := Constructed(now, zone, Some(loaded.schedule), None).value;
    var last := GetLastInstant(env, record, instant);
    if d.Success? && WithinDateRange(instant, loaded.startDate, loaded.endDate, zone) {
      var window := Window(instant, last.value);
      var localEnd := ToZone(zone, loaded.endDate.GetOr(MaxValue));
      var r := GetNextInstants(instant, last.value, loaded.endDate);
      assert r.Success?;
      if d.value.request.Some? {
        var y := r.value[0];
        GetNextInstantsContents(instant, last.value, loaded.endDate, y);
      } else {
        assert |r.value| == 0;
        forall x | x in loaded.schedule.getNextOccurrences(window.value.0, window.value.1)
          ensures !IsTriggerable(zone, localEnd, x)
        {
          GetNextInstantsContents(instant, last.value, loaded.endDate, FromZone(zone, x));
        }
      }
    }
  }

  /** Before the local start date, or at or after the local end date, a job is never due. */
  lemma NeverDueOutsideRange(env: Environment, loaded: LoadedJob, id: string, record: Hash, now: DateTime, zone: TimeZoneInfo)
    requires ResolveZone(env, record) == Success(zone)
    requires var local := ToZone(zone, StripSeconds(now));
      (loaded.startDate.Some? && local < ToZone(zone, loaded.startDate.value)) ||
      (loaded.endDate.Some? && ToZone(zone, loaded.endDate.value) <= local)
    ensures var d := Decide(env, loaded, id, record, now);
      d.Success? ==> d.value.request.None?
  {
  }

  /** A record without a TimeZoneId is scheduled in UTC; one naming an unknown zone is skipped untouched. */
  lemma ZoneResolution(env: Environment, format: CronStringFormat, assign: Assign,
                       id: string, record: Hash, now: DateTime)
    ensures HashKeys.TimeZoneId !in record ==> ResolveZone(env, record) == Success(UtcZone)
    ensures LoadJob(env, format, record).Success? && HashKeys.TimeZoneId in record &&
            record[HashKeys.TimeZoneId].Some? && record[HashKeys.TimeZoneId].value !in env.systemZones ==>
              ScheduleJob(env, format, assign, id, record, now) == Success(Swallowed)
    ensures LoadJob(env, format, record).Success? && HashKeys.TimeZoneId in record && record[HashKeys.TimeZoneId].None? ==>
              ScheduleJob(env, format, assign, id, record, now) == Failure(ArgumentNull("id"))
  {
  }

  /** A failed read of the job, the cron expression or the date bounds escapes TryScheduleJob. */
  lemma LoadFailuresEscape(env: Environment, format: CronStringFormat, assign: Assign,
                           id: string, record: Hash, now: DateTime)
    ensures LoadJob(env, format, record).Failure? ==>
      ScheduleJob(env, format, assign, id, record, now) == Failure(LoadJob(env, format, record).error)
    ensures HashKeys.Job !in record ==> LoadJob(env, format, record) == Failure(KeyNotFound(HashKeys.Job))
  {
  }

  /**
   * Every failure of the decision (a null zone id, a stored date the deserialiser rejects,
   * a lastInstant not marked UTC, a window past MaxValue) goes through the catch: a
   * TimeZoneNotFoundException is swallowed with nothing written; any other is rethrown.
   */
  lemma DecideFailureEscapes(env: Environment, format: CronStringFormat, assign: Assign,
                             id: string, record: Hash, now: DateTime, loaded: LoadedJob, e: Error)
    requires LoadJob(env, format, record) == Success(loaded)
    requires Decide(env, loaded, id, record, now) == Failure(e)
    ensures ScheduleJob(env, format, assign, id, record, now) == if e.TimeZoneNotFound? then Success(Swallowed) else Failure(e)
  {
  }

  /**
   * An exception from the job factory is handled by the same catch: a TimeZoneNotFoundException
   * is logged and nothing is written; any other exception escapes TryScheduleJob.
   */
  lemma FactoryFailureEscapes(env: Environment, format: CronStringFormat, assign: Assign,
                              id: string, record: Hash, now: DateTime, loaded: LoadedJob, d: Decision, e: Error)
    requires LoadJob(env, format, record) == Success(loaded)
    requires Decide(env, loaded, id, record, now) == Success(d) && d.request.Some?
    requires assign(d.request.value) == Failure(e)
    ensures ScheduleJob(env, format, assign, id, record, now) == if e.TimeZoneNotFound? then Success(Swallowed) else Failure(e)
  {
  }

  // ---------------------------------------------------------------------------------------
  // What a tick writes back

  ghost predicate ScheduledWith(env: Environment, format: CronStringFormat, assign: Assign,
                                id: string, record: Hash, now: DateTime, fields: Hash, request: Option<CreateRequest>) {
    ScheduleJob(env, format, assign, id, record, now) == Success(Scheduled(fields, request))
  }

  /**
   * The changed fields of a tick that ran: LastExecution (NowInstant) and LastJobId (the
   * factory's id, or "" when it gave none) exactly when a job was asked for; CreatedAt
   * (NowInstant) exactly when the record had none; and always NextExecution, the next
   * occurrence or null.
   */
  lemma ScheduledFields(env: Environment, format: CronStringFormat, assign: Assign,
                        id: string, record: Hash, now: DateTime, fields: Hash, request: Option<CreateRequest>)
    requires ScheduledWith(env, format, assign, id, record, now, fields, request)
    ensures now.kind == Utc
    ensures var stamp := Some(env.serializeDateTime(StripSeconds(now)));
      && (HashKeys.LastExecution in fields <==> request.Some?)
      && (HashKeys.LastJobId in fields <==> request.Some?)
      && (HashKeys.CreatedAt in fields <==> HashKeys.CreatedAt !in record)
      && HashKeys.NextExecution in fields
      && fields.Keys <= {HashKeys.LastExecution, HashKeys.LastJobId, HashKeys.CreatedAt, HashKeys.NextExecution}
      && (request.Some? ==> assign(request.value).Success? && fields[HashKeys.LastExecution] == stamp &&
                            fields[HashKeys.LastJobId] == Some(assign(request.value).value.GetOr("")))
      && (HashKeys.CreatedAt !in record ==> fields[HashKeys.CreatedAt] == stamp)
  {
    var loaded := LoadJob(env, format, record).value;
    var d := Decide(env, loaded, id, record, now);
    assert d.Success?;
    var zone := ResolveZone(env, record).value;
    assert now.kind == Utc;
    assert d.value.instant == Constructed(now, zone, Some(loaded.schedule), None).value;
  }

  /**
   * NextExecution is the UTC form of the first occurrence after local NowInstant that is a
   * real local time, or null when there is none.
   */
  lemma ScheduledNextExecution(env: Environment, format: CronStringFormat, assign: Assign,
                               id: string, record: Hash, now: DateTime, fields: Hash, request: Option<CreateRequest>)
    requires ScheduledWith(env, format, assign, id, record, now, fields, request)
    ensures var loaded := LoadJob(env, format, record).value;
      var zone := ResolveZone(env, record).value;
      var occurrences := loaded.schedule.getNextOccurrences(ToZone(zone, StripSeconds(now)), MaxTicks);
      && (fields[HashKeys.NextExecution].None? <==>
            forall x :: x in occurrences ==> !IsNextCandidate(zone, MaxTicks, x))
      && (fields[HashKeys.NextExecution].Some? ==>
            exists i :: 0 <= i < |occurrences| && IsNextCandidate(zone, MaxTicks, occurrences[i]) &&
              fields[HashKeys.NextExecution] == Some(env.serializeDateTime(FromZone(zone, occurrences[i]))) &&
              forall j :: 0 <= j < i ==> !IsNextCandidate(zone, MaxTicks, occurrences[j]))
  {
    var loaded := LoadJob(env, format, record).value;
    var zone := ResolveZone(env, record).value;
    var d := Decide(env, loaded, id, record, now);
    assert d.Success?;
    assert now.kind == Utc;
    ConstructedInstant(now, zone, loaded.schedule, None);
    var occurrences := loaded.schedule.getNextOccurrences(ToZone(zone, StripSeconds(now)), MaxTicks);
    if fields[HashKeys.NextExecution].None? {
      forall x | x in occurrences ensures !IsNextCandidate(zone, MaxTicks, x) {
        var i :| 0 <= i < |occurrences| && occurrences[i] == x;
      }
    }
  }

  /**
   * The next tick resumes where a triggering tick stopped: with a round-tripping serialiser,
   * GetLastInstant on the updated record is this tick's NowInstant, whatever the next
   * instant is.
   */
  lemma ResumesFromLastRun(env: Environment, format: CronStringFormat, assign: Assign,
                           id: string, record: Hash, now: DateTime, fields: Hash, request: CreateRequest,
                           later: ScheduleInstant)
    requires DatesRoundTrip(env)
    requires ScheduledWith(env, format, assign, id, record, now, fields, Some(request))
    ensures GetLastInstant(env, record + fields, later) == Success(StripSeconds(now))
  {
    ScheduledFields(env, format, assign, id, record, now, fields, Some(request));
    assert env.deserializeDateTime(Some(env.serializeDateTime(StripSeconds(now)))) == Success(StripSeconds(now));
  }

  /**
   * CreatedAt is written at most once: after any tick the record has it, its value is the
   * old one when there was one, and no later tick writes it again.
   */
  lemma CreatedAtWrittenOnce(env: Environment, format: CronStringFormat, assign: Assign,
                             id: string, record: Hash, now: DateTime, fields: Hash, request: Option<CreateRequest>,
                             now2: DateTime, fields2: Hash, request2: Option<CreateRequest>)
    requires ScheduledWith(env, format, assign, id, record, now, fields, request)
    requires ScheduledWith(env, format, assign, id, record + fields, now2, fields2, request2)
    ensures HashKeys.CreatedAt in record + fields
    ensures (record + fields)[HashKeys.CreatedAt] ==
      if HashKeys.CreatedAt in record then record[HashKeys.CreatedAt] else Some(env.serializeDateTime(StripSeconds(now)))
    ensures HashKeys.CreatedAt !in fields2
  {
    ScheduledFields(env, format, assign, id, record, now, fields, request);
    ScheduledFields(env, format, assign, id, record + fields, now2, fields2, request2);
  }

  /** A tick that triggers nothing leaves LastExecution and LastJobId as they were. */
  lemma IdleTickKeepsLastRun(env: Environment, format: CronStringFormat, assign: Assign,
                             id: string, record: Hash, now: DateTime, fields: Hash)
    requires ScheduledWith(env, format, assign, id, record, now, fields, None)
    ensures forall k :: k in {HashKeys.LastExecution, HashKeys.LastJobId} ==>
      (k in record + fields <==> k in record) && (k in record ==> (record + fields)[k] == record[k])
  {
    ScheduledFields(env, format, assign, id, record, now, fields, None);
  }

  // ---------------------------------------------------------------------------------------
  // A whole tick

  /** The record a job ends the tick with, from the record it started with. */
  ghost function RecordAfter(env: Environment, format: CronStringFormat, assign: Assign,
                             now: DateTime, id: string, record: Hash): Hash {
    match ScheduleJob(env, format, assign, id, record, now)
    case Success(Scheduled(fields, _)) => record + fields
    case _ => record
  }

  /** One visit rewrites only the visited record, to what TryScheduleJob makes of it. */
  lemma VisitJobEffect(env: Environment, format: CronStringFormat, assign: Assign,
                       now: DateTime, st: TickState, id: string)
    requires VisitJob(env, format, assign, now, st, id).error.None?
    ensures var r := VisitJob(env, format, assign, now, st, id);
      && r.hashes.Keys == st.hashes.Keys
      && (id in st.hashes ==> r.hashes[id] == RecordAfter(env, format, assign, now, id, st.hashes[id]))
      && forall k :: k in st.hashes && k != id ==> r.hashes[k] == st.hashes[k]
  {
    if id in st.hashes {
      var outcome := ScheduleJob(env, format, assign, id, st.hashes[id], now);
      if outcome.Success? && outcome.value.Scheduled? {
        var merged := MergeFields(st.hashes, id, outcome.value.fields);
        assert merged[id] == st.hashes[id] + outcome.value.fields;
      }
    }
  }

  /** Once an exception has ended the tick, the ids after it are never visited. */
  lemma {:induction false} RunTickStopsAtError(env: Environment, format: CronStringFormat, assign: Assign,
                                               now: DateTime, init: TickState, ids: seq<string>, more: seq<string>)
    requires RunTick(env, format, assign, now, init, ids).error.Some?
    ensures RunTick(env, format, assign, now, init, ids + more) == RunTick(env, format, assign, now, init, ids)
    decreases |more|
  {
    if more == [] {
      assert ids + more == ids;
    } else {
      var prefix := more[..|more| - 1];
      RunTickStopsAtError(env, format, assign, now, init, ids, prefix);
      assert (ids + more)[..|ids + more| - 1] == ids + prefix;
    }
  }

  /** A tick never adds or drops a record: it only merges fields into existing ones. */
  lemma {:induction false} RunTickKeepsKeys(env: Environment, format: CronStringFormat, assign: Assign,
                                            now: DateTime, init: TickState, ids: seq<string>)
    ensures RunTick(env, format, assign, now, init, ids).hashes.Keys == init.hashes.Keys
    ensures init.created <= RunTick(env, format, assign, now, init, ids).created
    decreases |ids|
  {
    if ids != [] {
      RunTickKeepsKeys(env, format, assign, now, init, ids[..|ids| - 1]);
    }
  }

  /** A record whose id the tick does not visit is left as it was. */
  lemma {:induction false} RunTickLeavesOthers(env: Environment, format: CronStringFormat, assign: Assign,
                                               now: DateTime, init: TickState, ids: seq<string>, key: string)
    requires key !in ids
    ensures var r := RunTick(env, format, assign, now, init, ids);
      (key in r.hashes <==> key in init.hashes) && (key in init.hashes ==> r.hashes[key] == init.hashes[key])
    decreases |ids|
  {
    if ids != [] {
      assert key !in ids[..|ids| - 1];
      RunTickLeavesOthers(env, format, assign, now, init, ids[..|ids| - 1], key);
      assert key != ids[|ids| - 1];
    }
  }

  /**
   * A tick that ends without an exception, over distinct ids, leaves every visited record
   * exactly as one TryScheduleJob on its starting contents would: each job sees its own
   * record as it was before the tick.
   */
  lemma {:induction false} RunTickSchedulesEach(env: Environment, format: CronStringFormat, assign: Assign,
                                                now: DateTime, init: TickState, ids: seq<string>, key: string)
    requires Distinct(ids)
    requires RunTick(env, format, assign, now, init, ids).error.None?
    requires key in ids && key in init.hashes
    ensures key in RunTick(env, format, assign, now, init, ids).hashes
    ensures RunTick(env, format, assign, now, init, ids).hashes[key] == RecordAfter(env, format, assign, now, key, init.hashes[key])
    decreases |ids|
  {
    var prefix := ids[..|ids| - 1];
    var last := ids[|ids| - 1];
    var prev := RunTick(env, format, assign, now, init, prefix);
    RunTickKeepsKeys(env, format, assign, now, init, prefix);
    assert prev.error.None?;
    VisitJobEffect(env, format, assign, now, prev, last);
    if key == last {
      assert key !in prefix;
      RunTickLeavesOthers(env, format, assign, now, init, prefix, key);
    } else {
      assert key in prefix by {
        var i :| 0 <= i < |ids| && ids[i] == key;
        assert prefix[i] == key;
      }
      assert Distinct(prefix) by {
        forall i, j | 0 <= i < j < |prefix| ensures prefix[i] != prefix[j] {
          assert prefix[i] == ids[i] && prefix[j] == ids[j];
        }
      }
      RunTickSchedulesEach(env, format, assign, now, init, prefix, key);
    }
  }

  /**
   * Only an escaping exception stops a tick: when every record either schedules or fails
   * to load its job, the tick visits every id.
   */
  lemma {:induction false} RunTickCompletes(env: Environment, format: CronStringFormat, assign: Assign,
                                            now: DateTime, init: TickState, ids: seq<string>)
    requires init.error.None?
    requires Distinct(ids)
    requires forall k :: k in ids && k in init.hashes ==>
      var outcome := ScheduleJob(env, format, assign, k, init.hashes[k], now);
      outcome.Success? || outcome.error == JobLoad
    ensures RunTick(env, format, assign, now, init, ids).error.None?
    decreases |ids|
  {
    if ids != [] {
      var prefix := ids[..|ids| - 1];
      var last := ids[|ids| - 1];
      assert Distinct(prefix) by {
        forall i, j | 0 <= i < j < |prefix| ensures prefix[i] != prefix[j] {
          assert prefix[i] == ids[i] && prefix[j] == ids[j];
        }
      }
      assert forall k :: k in prefix ==> k in ids;
      RunTickCompletes(env, format, assign, now, init, prefix);
      assert last !in prefix;
      RunTickLeavesOthers(env, format, assign, now, init, prefix, last);
    }
  }

  /** A tick keeps the registry equal to the set of stored records. */
  lemma RunTickKeepsConsistent(env: Environment, format: CronStringFormat, assign: Assign,
                               now: DateTime, init: TickState, ids: seq<string>, registry: set<string>)
    requires Consistent(StoreState(init.hashes, registry))
    ensures Consistent(StoreState(RunTick(env, format, assign, now, init, ids).hashes, registry))
  {
    RunTickKeepsKeys(env, format, assign, now, init, ids);
  }
}
