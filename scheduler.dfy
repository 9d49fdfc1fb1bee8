/**
 * RecurringDateRangeJobScheduler: once per tick it walks the registry and, for every
 * recurring job, decides whether the job is due, creates it if so, and writes back the
 * handful of fields that changed.
 */
module Scheduler {
  import opened Wrappers
  import opened Errors
  import opened DateTimes
  import opened Platform
  import opened Jobs
  import opened Storage
  import opened ScheduleInstants
  import HashKeys

  // ---------------------------------------------------------------------------------------
  // Reading a record

  /** The dictionary indexer `recurringJob[key]`: a missing key throws. */
  function Read(record: Hash, key: string): Result<Option<string>, Error> {
    if key in record then Success(record[key]) else Failure(KeyNotFound(key))
  }

  /** The job, schedule and date bounds TryScheduleJob reads before its try block. */
  datatype LoadedJob = LoadedJob(job: Job, schedule: CrontabSchedule, startDate: Option<DateTime>, endDate: Option<DateTime>)

  /** The reads in front of the try block, each of which may throw past it. */
  function LoadJob(env: Environment, format: CronStringFormat, record: Hash): Result<LoadedJob, Error> {
    var jobText :- Read(record, HashKeys.Job);
    var job :- env.deserializeJob(jobText);
    var cron :- Read(record, HashKeys.Cron);
    var schedule :- env.parseCron(cron, format);
    var startText :- Read(record, HashKeys.StartDate);
    var startDate :- DeserializeNullableDateTime(env, startText);
    var endText :- Read(record, HashKeys.EndDate);
    var endDate :- DeserializeNullableDateTime(env, endText);
    Success(LoadedJob(job, schedule, startDate, endDate))
  }

  /** The record's zone; a record without a TimeZoneId runs in UTC. */
  function ResolveZone(env: Environment, record: Hash): Result<TimeZoneInfo, Error> {
    if HashKeys.TimeZoneId in record then FindSystemTimeZoneById(env, record[HashKeys.TimeZoneId]) else Success(UtcZone)
  }

  // ---------------------------------------------------------------------------------------
  // The decision

  /** Local NowInstant lies in [local start, local end); an absent bound does not constrain. */
  function WithinDateRange(instant: ScheduleInstant, startDate: Option<DateTime>, endDate: Option<DateTime>, zone: TimeZoneInfo): bool {
    var now := ToZone(zone, instant.nowInstant);
    (startDate.None? || ToZone(zone, startDate.value) <= now) && (endDate.None? || ToZone(zone, endDate.value) > now)
  }

  /** Where the search for due occurrences starts: the last run, else creation, else just before the next run, else just before now. */
  function GetLastInstant(env: Environment, record: Hash, instant: ScheduleInstant): Result<DateTime, Error> {
    if HashKeys.LastExecution in record then env.deserializeDateTime(record[HashKeys.LastExecution])
    else if HashKeys.CreatedAt in record then env.deserializeDateTime(record[HashKeys.CreatedAt])
    else if HashKeys.NextExecution in record then
      var next :- env.deserializeDateTime(record[HashKeys.NextExecution]);
      AddSeconds(next, -1)
    else AddSeconds(instant.nowInstant, -1)
  }

  /** The queue a triggered job is enqueued to: the record's, when it names a non-empty one. */
  function EnqueueQueue(record: Hash): Option<string> {
    if HashKeys.Queue in record && record[HashKeys.Queue].Some? && record[HashKeys.Queue].value != ""
    then record[HashKeys.Queue] else Some(DefaultQueue)
  }

  const SchedulerReason: string := "Triggered by recurring job scheduler"

  /** The try block's verdict: the instant it computed and the job it asks for, if due. */
  datatype Decision = Decision(instant: ScheduleInstant, request: Option<CreateRequest>)

  /** The try block up to the factory call; every failure happens before any side effect. */
  function Decide(env: Environment, loaded: LoadedJob, id: string, record: Hash, now: DateTime): Result<Decision, Error> {
    var zone :- ResolveZone(env, record);
    var instant :- Constructed(now, zone, Some(loaded.schedule), None);
    var lastInstant :- GetLastInstant(env, record, instant);
    var due :- if WithinDateRange(instant, loaded.startDate, loaded.endDate, zone) then
                 var instants :- GetNextInstants(instant, lastInstant, loaded.endDate);
                 Success(|instants| > 0)
               else Success(false);
    Success(Decision(instant,
      if due then Some(CreateRequest(loaded.job, EnqueueQueue(record), SchedulerReason, id)) else None))
  }

  /** The changed-field map: the run's fields when due, the CreatedAt backfill, and always NextExecution. */
  function ChangedFields(env: Environment, record: Hash, instant: ScheduleInstant, due: bool, jobId: Option<string>): Hash {
    var now := Some(env.serializeDateTime(instant.nowInstant));
    var fired: Hash := if due then map[HashKeys.LastExecution := now, HashKeys.LastJobId := Some(jobId.GetOr(""))] else map[];
    var backfill: Hash := if HashKeys.CreatedAt in record then map[] else map[HashKeys.CreatedAt := now];
    var next := if instant.nextInstant.Some? then Some(env.serializeDateTime(instant.nextInstant.value)) else None;
    fired + backfill + map[HashKeys.NextExecution := next]
  }

  /**
   * What TryScheduleJob does to one record when it returns normally: it wrote the changed
   * fields (having created the requested job, if any), or it caught and logged a
   * TimeZoneNotFoundException before writing anything.
   */
  datatype JobOutcome =
    | Scheduled(fields: Hash, request: Option<CreateRequest>)
    | Swallowed

  /** TryScheduleJob's catch: a missing time zone is logged and swallowed; anything else is rethrown. */
  function Caught<T>(e: Error, swallowed: T): Result<T, Error> {
    if e.TimeZoneNotFound? then Success(swallowed) else Failure(e)
  }

  /** TryScheduleJob as a function of the record; `assign` is the factory's outcome for a request. */
  function ScheduleJob(env: Environment, format: CronStringFormat, assign: Assign,
                       id: string, record: Hash, now: DateTime): Result<JobOutcome, Error> {
    var loaded :- LoadJob(env, format, record);
    match Decide(env, loaded, id, record, now)
    case Failure(e) => Caught(e, Swallowed)
    case Success(d) =>
      if d.request.None? then Success(Scheduled(ChangedFields(env, record, d.instant, false, None), None))
      else
        match assign(d.request.value)
        case Failure(e) => Caught(e, Swallowed)
        case Success(jobId) => Success(Scheduled(ChangedFields(env, record, d.instant, true, jobId), d.request))
  }

  function RequestList(request: Option<CreateRequest>): seq<CreateRequest> {
    if request.Some? then [request.value] else []
  }

  // ---------------------------------------------------------------------------------------
  // The tick

  /** The store's hashes and the factory's log during a tick, and the exception that ended it. */
  datatype TickState = TickState(hashes: map<string, Hash>, created: seq<CreateRequest>, error: Option<Error>)

  /** One iteration of Execute's loop: a missing hash and a JobLoadException are skipped. */
  function VisitJob(env: Environment, format: CronStringFormat, assign: Assign,
                    now: DateTime, st: TickState, id: string): TickState {
    if id !in st.hashes then st
    else
      match ScheduleJob(env, format, assign, id, st.hashes[id], now)
      case Failure(e) => if e == JobLoad then st else st.(error := Some(e))
      case Success(Swallowed) => st
      case Success(Scheduled(fields, request)) =>
        TickState(MergeFields(st.hashes, id, fields), st.created + RequestList(request), None)
  }

  /** The tick over the ids in the order visited; after an exception nothing further happens. */
  function RunTick(env: Environment, format: CronStringFormat, assign: Assign,
                   now: DateTime, init: TickState, ids: seq<string>): TickState
    decreases |ids|
  {
    if ids == [] then init
    else
      var prev := RunTick(env, format, assign, now, init, ids[..|ids| - 1]);
      if prev.error.Some? then prev else VisitJob(env, format, assign, now, prev, ids[|ids| - 1])
  }

  ghost predicate Distinct(ids: seq<string>) {
    forall i, j :: 0 <= i < j < |ids| ==> ids[i] != ids[j]
  }

  /** BackgroundProcessContext, reduced to the storage it hands out. */
  class BackgroundProcessContext {
    const storage: JobStorage

    constructor (storage: JobStorage)
      ensures this.storage == storage
    {
      this.storage := storage;
    }
  }

  /** IThrottler and the instant factory: the only ones modelled are the defaults, and the throttler waits for nothing. */
  datatype Throttler = EveryMinuteThrottler
  datatype InstantFactory = ScheduleInstantFactory

  class RecurringDateRangeJobScheduler {
    const factory: BackgroundJobFactory
    const cronStringFormat: CronStringFormat

    constructor (factory: BackgroundJobFactory, cronStringFormat: CronStringFormat)
      ensures this.factory == factory && this.cronStringFormat == cronStringFormat
    {
      this.factory := factory;
      this.cronStringFormat := cronStringFormat;
    }

    /** The internal constructor: it rejects null arguments in parameter order. */
    static method New(factory: BackgroundJobFactory?, instantFactory: Option<InstantFactory>, throttler: Option<Throttler>)
      returns (r: Result<RecurringDateRangeJobScheduler, Error>)
      ensures factory == null ==> r == Failure(ArgumentNull("factory"))
      ensures factory != null && instantFactory.None? ==> r == Failure(ArgumentNull("instantFactory"))
      ensures factory != null && instantFactory.Some? && throttler.None? ==> r == Failure(ArgumentNull("throttler"))
      ensures r.Success? <==> factory != null && instantFactory.Some? && throttler.Some?
      ensures r.Success? ==> r.value.factory == factory && r.value.cronStringFormat == Default
    {
      if factory == null { return Failure(ArgumentNull("factory")); }
      if instantFactory.None? { return Failure(ArgumentNull("instantFactory")); }
      if throttler.None? { return Failure(ArgumentNull("throttler")); }
      var scheduler := new RecurringDateRangeJobScheduler(factory, Default);
      r := Success(scheduler);
    }

    /** The try block of TryScheduleJob up to the factory call, run step by step. */
    method DecideJob(env: Environment, loaded: LoadedJob, id: string, record: Hash, now: DateTime)
      returns (r: Result<Decision, Error>)
      ensures r == Decide(env, loaded, id, record, now)
    {
      var zone := ResolveZone(env, record);
      if zone.Failure? {
        return Failure(zone.error);
      }
      var instant := NewScheduleInstant(now, zone.value, Some(loaded.schedule), None);
      if instant.Failure? {
        return Failure(instant.error);
      }
      var lastInstant := GetLastInstant(env, record, instant.value);
      if lastInstant.Failure? {
        return Failure(lastInstant.error);
      }
      var due := false;
      if WithinDateRange(instant.value, loaded.startDate, loaded.endDate, zone.value) {
        var instants := GetNextInstants(instant.value, lastInstant.value, loaded.endDate);
        if instants.Failure? {
          return Failure(instants.error);
        }
        due := |instants.value| > 0;
      }
      var request := if due then Some(CreateRequest(loaded.job, EnqueueQueue(record), SchedulerReason, id)) else None;
      r := Success(Decision(instant.value, request));
    }

    /**
     * TryScheduleJob: it decides, creates the job when due, builds the changed fields one
     * at a time and writes them with a single SetRangeInHash. When it throws, nothing has
     * been written and no job has been created.
     */
    method TryScheduleJob(storage: JobStorage, env: Environment, id: string, record: Hash, now: DateTime)
      returns (r: Result<(), Error>)
      modifies storage, factory
      ensures var outcome := ScheduleJob(env, cronStringFormat, factory.assign, id, record, now);
        && (outcome.Failure? ==> r == Failure(outcome.error))
        && (outcome.Success? ==> r == Success(()))
        && (outcome.Success? && outcome.value.Scheduled? ==>
              && storage.State() == ApplyOp(old(storage.State()), WriteOp.SetRangeInHash(id, outcome.value.fields))
              && factory.created == old(factory.created) + RequestList(outcome.value.request))
        && (outcome.Failure? || outcome.value.Swallowed? ==>
              storage.State() == old(storage.State()) && factory.created == old(factory.created))
    {
      var loaded := LoadJob(env, cronStringFormat, record);
      if loaded.Failure? {
        return Failure(loaded.error);
      }
      var decision := DecideJob(env, loaded.value, id, record, now);
      if decision.Failure? {
        return Caught(decision.error, ());
      }
      var instant, due := decision.value.instant, decision.value.request.Some?;
      var changedFields: Hash := map[];
      var jobId: Option<string> := None;
      if due {
        var created := factory.Create(decision.value.request.value);
        if created.Failure? {
          return Caught(created.error, ());
        }
        jobId := created.value;
        changedFields := changedFields[HashKeys.LastExecution := Some(env.serializeDateTime(instant.nowInstant))];
        changedFields := changedFields[HashKeys.LastJobId := Some(jobId.GetOr(""))];
      }
      // Fixing old recurring jobs that lack the CreatedAt field.
      if HashKeys.CreatedAt !in record {
        changedFields := changedFields[HashKeys.CreatedAt := Some(env.serializeDateTime(instant.nowInstant))];
      }
      changedFields := changedFields[HashKeys.NextExecution :=
        if instant.nextInstant.Some? then Some(env.serializeDateTime(instant.nextInstant.value)) else None];
      assert changedFields == ChangedFields(env, record, instant, due, jobId);
      storage.SetRangeInHash(id, changedFields);
      r := Success(());
    }

    /**
     * Execute: one pass over a snapshot of the registry, in the order the set yields its ids.
     * The throttler's waits before and after the pass are no-ops here. It returns the ids it
     * visited; the store and the factory end as the tick function says, and the registry is
     * untouched.
     */
    method Execute(context: BackgroundProcessContext?, env: Environment, now: DateTime)
      returns (visited: seq<string>, r: Result<(), Error>)
      modifies if context == null then {} else {context.storage}, factory
      ensures context == null ==> r == Failure(ArgumentNull("context")) && visited == [] && factory.created == old(factory.created)
      ensures context != null ==>
        && context.storage.registry == old(context.storage.registry)
        && Distinct(visited)
        && (forall id :: id in visited ==> id in old(context.storage.registry))
        && (r.Success? ==> forall id :: id in old(context.storage.registry) ==> id in visited)
        && TickState(context.storage.hashes, factory.created, if r.Failure? then Some(r.error) else None)
           == RunTick(env, cronStringFormat, factory.assign, now,
                      TickState(old(context.storage.hashes), old(factory.created), None), visited)
    {
      visited := [];
      if context == null {
        return [], Failure(ArgumentNull("context"));
      }
      var storage := context.storage;
      ghost var init := TickState(storage.hashes, factory.created, None);
      var recurringJobIds := storage.GetAllItemsFromSet();
      var remaining := recurringJobIds;
      while remaining != {}
        invariant storage.registry == recurringJobIds == old(storage.registry)
        invariant remaining <= recurringJobIds
        invariant forall id :: id in visited <==> id in recurringJobIds && id !in remaining
        invariant Distinct(visited)
        invariant TickState(storage.hashes, factory.created, None) == RunTick(env, cronStringFormat, factory.assign, now, init, visited)
        decreases remaining
      {
        var id :| id in remaining;
        remaining := remaining - {id};
        ghost var before := visited;
        visited := visited + [id];
        assert visited[..|visited| - 1] == before;
        var recurringJob := storage.GetAllEntriesFromHash(id);
        if recurringJob.None? {
          continue;
        }
        var outcome := TryScheduleJob(storage, env, id, recurringJob.value, now);
        if outcome.Failure? && outcome.error != JobLoad {
          return visited, outcome;
        }
      }
      r := Success(());
    }
  }
}
