# Hangfire.RecurringDateRange in Dafny

Hangfire.RecurringDateRange adds recurring jobs that run only within a date range to the
Hangfire background-job framework. A recurring date-range job is stored as one record (a
hash of string fields) per job id, and its id is kept in a registry set. The record holds:

- the serialised job and the cron expression;
- the time-zone id and the queue;
- the start and end dates;
- the scheduler's own bookkeeping: `CreatedAt`, `LastExecution`, `NextExecution` and `LastJobId`.

This project models the parts that decide when such a job runs and what gets stored.

- **`ScheduleInstant`** (`schedule_instant.dfy`).
  - The constructor takes "now" minus its whole seconds (second 0, sub-second ticks kept). It then walks the cron
    occurrences after local now to find the next instant, skipping the end bound and invalid
    local times.
  - `GetNextInstants` lists the occurrences that have come due since an earlier instant.
    These are the ones before the local end bound that are real local times, converted to UTC.
- **`RecurringDateRangeJobScheduler`** (`scheduler.dfy`, properties in
  `scheduler_properties.dfy`, multi-tick and concrete scenarios in `scheduler_scenarios.dfy`).
  - `Execute` visits every registered id once per tick.
  - For each record, `TryScheduleJob` does the following:
    - it loads the job, the schedule and the date bounds;
    - it resolves the zone, where a record without a zone runs in UTC and an unknown zone is
      logged and skipped;
    - it finds where the last run left off (`GetLastInstant`);
    - it creates the job when local now is inside `[start, end)` and an occurrence has come due;
    - it writes back the changed fields in one merge.
  - A job that cannot be loaded (`JobLoadException`) is skipped. Any other exception ends the tick.
- **`RecurringDateRangeJobManager`** (`manager.dfy`, properties in `manager_properties.dfy`).
  - `AddOrUpdate` null-checks its arguments and validates the cron expression. It then
    commits the record and the registry entry in one transaction, adding `CreatedAt` only for
    a new job.
  - `Trigger` creates one job now.
  - `RemoveIfExists` deletes the record and the registry entry.
- **The `AddOrUpdate` extension overloads** (`manager_extensions.dfy`) fill in UTC and the
  default queue, and pack their arguments.
- **`RecurringDateRangeJobOptions`** (`options.dfy`) and its `Validate`.

Supporting modules:

- `datetimes.dfy`: .NET `DateTime` as a tick count with a kind, with `AddSeconds`' range check.
- `platform.dfy`: the environment the code calls into but does not define, passed in as values:
  - time zones;
  - cron parsing and enumeration;
  - date and job serialisation.
- `jobs.dfy`: the background-job factory.
- `storage.dfy`: the record store and its transactions.
- `hash_keys.dfy`: the record's field names.
- `wrappers.dfy` and `errors.dfy`: `Option`, `Result` and the exceptions.

## How the source is represented

- A C# null is `None`, a thrown exception is a `Failure`, and a stored null field is a
  present key with value `None`.
- Storage records are keyed by the job id itself. The source adds a fixed prefix to every
  key, which only renames them one-to-one.
- The clock is a parameter `now`. The instant factory is the production one, which passes no
  end date to the `ScheduleInstant` constructor.
- `ScheduleInstant`'s constructor and `TryScheduleJob` are methods whose results are tied to
  the functions `Constructed` and `ScheduleJob`.
- `Execute` is a method over the registry set. It visits the ids in whatever order the set
  yields them, and its final store and factory log are tied to the tick function `RunTick`
  over the ids it visited.
- The job factory's outcome for a request is a function `assign` that yields the new id, null,
  or the exception the factory throws. The factory's log holds the requests it returned from.
- Time-zone conversion is a pair of total functions on ticks with an invalid-time predicate.
  The cron enumerator is a function from a local window to a sequence of local ticks. The
  serialisers are functions that may fail. Properties that need more assume it only through
  named predicates:
  - `DatesRoundTrip` and `JobsRoundTrip`: the serialisers read back what they write;
  - `EnumeratesBetween`: occurrences lie strictly inside the window, as NCrontab excludes both ends;
  - `StrictlyMonotone` and `MonotoneToUtc`: the zone conversion keeps order.
- Two details follow the code exactly:
  - `NowInstant` keeps the sub-second ticks of "now", because `AddSeconds(-Second)` only removes whole seconds;
  - `AddOrUpdate` stores the start and end dates as given, without converting them to UTC.

## Model

| member | source | states |
|---|---|---|
| DateTimes.AddSeconds | src/Hangfire.RecurringDateRange/Server/ScheduleInstant.cs:45 | succeeds exactly when the shifted tick count stays within MinValue..MaxValue, and then moves by the given seconds and keeps the kind; otherwise ArgumentOutOfRange |
| DateTimes.StripSeconds | src/Hangfire.RecurringDateRange/Server/ScheduleInstant.cs:45 | `now.AddSeconds(-now.Second)` never fails; the result is within the minute at or before now, has second 0, keeps the sub-second ticks and the kind |
| Platform.DeserializeNullableDateTime | src/Hangfire.RecurringDateRange/Server/RecurringDateRangeJobScheduler.cs:137-138 | null or empty text is no date; any other text gives exactly the deserialiser's date, or its exception |
| Platform.FindSystemTimeZoneById | src/Hangfire.RecurringDateRange/Server/RecurringDateRangeJobScheduler.cs:143 | a null id throws ArgumentNull("id"); a known id gives its zone; an unknown id throws TimeZoneNotFound for that id |
| Platform.StoredDateReadsBack | src/Hangfire.RecurringDateRange/Server/RecurringDateRangeJobManager.cs:71-72 | with a round-tripping serialiser a stored date reads back as that same date |
| Jobs.BackgroundJobFactory.Create | src/Hangfire.RecurringDateRange/Server/RecurringDateRangeJobScheduler.cs:162-163 | the result is the factory's outcome for the request: the new id (possibly null) or the exception it throws; a request is logged exactly when the factory returns |
| Storage.MergeFields | src/Hangfire.RecurringDateRange/Server/RecurringDateRangeJobScheduler.cs:182-184 | SetRangeInHash creates a missing hash, gives supplied fields their values, keeps every unsupplied field and every other hash |
| Storage.ApplyTwo | src/Hangfire.RecurringDateRange/Server/RecurringDateRangeJobManager.cs:80-89 | a two-write transaction has the effect of its first write followed by its second |
| Storage.JobStorage.GetAllEntriesFromHash | src/Hangfire.RecurringDateRange/Server/RecurringDateRangeJobScheduler.cs:94-100 | returns the record exactly when one is stored for the key, and null otherwise |
| Storage.JobStorage.GetAllItemsFromSet | src/Hangfire.RecurringDateRange/Server/RecurringDateRangeJobScheduler.cs:90 | the registry snapshot Execute iterates over |
| Storage.JobStorage.SetRangeInHash | src/Hangfire.RecurringDateRange/Server/RecurringDateRangeJobScheduler.cs:182-184 | the store's new state is the merge of the fields into that one hash |
| Storage.JobStorage.Commit | src/Hangfire.RecurringDateRange/Server/RecurringDateRangeJobManager.cs:80-89 | all queued writes take effect together, in order |
| ScheduleInstants.NewScheduleInstant | src/Hangfire.RecurringDateRange/Server/ScheduleInstant.cs:34-59 | the loop with `continue`/`break` yields exactly the instant `Constructed` describes (errors included) |
| ScheduleInstants.Constructed | src/Hangfire.RecurringDateRange/Server/ScheduleInstant.cs:34-58 | the constructor as a function; its meaning is the contract of ConstructorRejects and ConstructedInstant |
| ScheduleInstants.ConstructorRejects | src/Hangfire.RecurringDateRange/Server/ScheduleInstant.cs:36-40 | construction fails exactly for a null schedule (ArgumentNull "schedule", checked first) or a now not marked UTC (Argument "nowInstant") |
| ScheduleInstants.ConstructedInstant | src/Hangfire.RecurringDateRange/Server/ScheduleInstant.cs:42-58 | NowInstant is UTC, at or before now by less than a minute, with second 0; NextInstant exists iff some occurrence after local now is neither the end bound nor invalid, and is then the UTC form of the first such occurrence |
| ScheduleInstants.FirstCandidateIsEarliest | src/Hangfire.RecurringDateRange/Server/ScheduleInstant.cs:49-58 | the first-candidate search finds something iff a candidate exists, and then returns the earliest one |
| ScheduleInstants.NextInstantIsAhead | src/Hangfire.RecurringDateRange/Server/ScheduleInstant.cs:49-50 | for an enumerator that keeps to its window, NextInstant comes from a local time strictly after local now and strictly before the end bound |
| ScheduleInstants.TriggerableMembers | src/Hangfire.RecurringDateRange/Server/ScheduleInstant.cs:79-80 | an instant is kept iff it is the UTC form of an occurrence before the local end that is a real local time |
| ScheduleInstants.TriggerableKeepsOrder | src/Hangfire.RecurringDateRange/Server/ScheduleInstant.cs:75-81 | the filter-then-map result is the in-order image of a sub-sequence of the occurrences and is never longer |
| ScheduleInstants.TriggerableSorted | src/Hangfire.RecurringDateRange/Server/ScheduleInstant.cs:79-80 | for ascending occurrences and an order-keeping zone conversion the result is in non-decreasing order |
| ScheduleInstants.GetNextInstantsContents | src/Hangfire.RecurringDateRange/Server/ScheduleInstant.cs:64-81 | a lastInstant not marked UTC throws Argument "lastInstant"; otherwise the result holds exactly the UTC forms of the occurrences between local lastInstant and local NowInstant + 1s that are before the local end (`?? MaxValue`) and are real local times |
| ScheduleInstants.GetNextInstantsKeepsOrder | src/Hangfire.RecurringDateRange/Server/ScheduleInstant.cs:75-81 | the result preserves enumeration order and has at most as many elements as the enumeration |
| ScheduleInstants.GetNextInstants | src/Hangfire.RecurringDateRange/Server/ScheduleInstant.cs:64-81 | characterised by GetNextInstantsContents and GetNextInstantsKeepsOrder |
| Scheduler.RecurringDateRangeJobScheduler.New | src/Hangfire.RecurringDateRange/Server/RecurringDateRangeJobScheduler.cs:66-78 | rejects a null factory, instant factory or throttler, in that order, and otherwise keeps the factory with the default cron format |
| Scheduler.LoadJob | src/Hangfire.RecurringDateRange/Server/RecurringDateRangeJobScheduler.cs:132-138 | the reads in front of the try block; characterised by LoadFailuresEscape and RegisteredRecordReadsBack |
| Scheduler.WithinDateRange | src/Hangfire.RecurringDateRange/Server/RecurringDateRangeJobScheduler.cs:203-210 | characterised by WithinDateRangeInstants, NeverDueOutsideRange and UnboundedAlwaysWithin |
| Scheduler.GetLastInstant | src/Hangfire.RecurringDateRange/Server/RecurringDateRangeJobScheduler.cs:212-235 | characterised by LastInstantSources and ResumesFromLastRun |
| Scheduler.Decide | src/Hangfire.RecurringDateRange/Server/RecurringDateRangeJobScheduler.cs:142-160 | the try block up to the factory call; characterised by DueExactly, ZoneResolution and DecideFailureEscapes, and computed step by step by DecideJob |
| Scheduler.ScheduleJob | src/Hangfire.RecurringDateRange/Server/RecurringDateRangeJobScheduler.cs:126-201 | TryScheduleJob as a function; characterised by ScheduledFields, ScheduledNextExecution, ZoneResolution, LoadFailuresEscape, DecideFailureEscapes and FactoryFailureEscapes |
| Scheduler.RunTick | src/Hangfire.RecurringDateRange/Server/RecurringDateRangeJobScheduler.cs:88-112 | the tick as a function of the ids visited; characterised by the RunTick lemmas and the contract of Execute |
| Scheduler.RecurringDateRangeJobScheduler.DecideJob | src/Hangfire.RecurringDateRange/Server/RecurringDateRangeJobScheduler.cs:142-157 | zone resolution, instant construction, last-instant lookup and the due test, step by step, agree with the decision function |
| Scheduler.RecurringDateRangeJobScheduler.TryScheduleJob | src/Hangfire.RecurringDateRange/Server/RecurringDateRangeJobScheduler.cs:126-201 | an escaping exception, or a TimeZoneNotFoundException that is caught (from the zone lookup or the factory), writes nothing and logs no new job; otherwise exactly the changed fields are merged into the job's hash and at most the one requested job is created |
| Scheduler.RecurringDateRangeJobScheduler.Execute | src/Hangfire.RecurringDateRange/Server/RecurringDateRangeJobScheduler.cs:81-118 | a null context throws ArgumentNull "context"; otherwise it visits distinct registered ids (all of them unless an exception escapes), leaves the registry alone, and ends with the store and factory log the tick function gives for the ids in the order visited |
| SchedulerProperties.WithinDateRangeInstants | src/Hangfire.RecurringDateRange/Server/RecurringDateRangeJobScheduler.cs:203-210 | in a zone whose conversion keeps order, the local range check is start <= NowInstant < end on instants, absent bounds not constraining |
| SchedulerProperties.UtcIsStrictlyMonotone | src/Hangfire.RecurringDateRange/Server/RecurringDateRangeJobScheduler.cs:144 | the UTC fallback zone keeps order, so for zone-less records the range check is on instants; a supporting lemma |
| SchedulerProperties.LastInstantSources | src/Hangfire.RecurringDateRange/Server/RecurringDateRangeJobScheduler.cs:212-235 | with a round-tripping serialiser the search starts at the stored LastExecution, else the stored CreatedAt, else one second before the stored NextExecution, else one second before NowInstant |
| SchedulerProperties.DueExactly | src/Hangfire.RecurringDateRange/Server/RecurringDateRangeJobScheduler.cs:146-160 | NowInstant is now minus its whole seconds (second 0, sub-second ticks kept); a job is due iff local NowInstant is in range and some occurrence between local lastInstant and local NowInstant + 1s is before the local end and a real local time; a due job is requested with the record's job, the record's non-empty queue or the default, the scheduler's reason and the job id |
| SchedulerProperties.NeverDueOutsideRange | src/Hangfire.RecurringDateRange/Server/RecurringDateRangeJobScheduler.cs:203-210 | before the local start, or at or after the local end, no job is requested |
| SchedulerProperties.ZoneResolution | src/Hangfire.RecurringDateRange/Server/RecurringDateRangeJobScheduler.cs:142-199 | a record without TimeZoneId runs in UTC; an unknown zone id is caught and the record left untouched; a null zone id throws ArgumentNull past the catch |
| SchedulerProperties.LoadFailuresEscape | src/Hangfire.RecurringDateRange/Server/RecurringDateRangeJobScheduler.cs:132-138 | failures reading the job, cron or date bounds happen outside the try and escape; a record without a Job field throws KeyNotFound |
| SchedulerProperties.DecideFailureEscapes | src/Hangfire.RecurringDateRange/Server/RecurringDateRangeJobScheduler.cs:142-197 | any failure of the decision (zone lookup, stored dates, the last instant's Kind, the window's range) is swallowed when it is a TimeZoneNotFoundException, with nothing written, and otherwise rethrown |
| SchedulerProperties.FactoryFailureEscapes | src/Hangfire.RecurringDateRange/Server/RecurringDateRangeJobScheduler.cs:162-197 | an exception from the job factory goes through the same catch: a TimeZoneNotFoundException is swallowed with nothing written; any other escapes TryScheduleJob |
| SchedulerProperties.ScheduledFields | src/Hangfire.RecurringDateRange/Server/RecurringDateRangeJobScheduler.cs:170-180 | LastExecution (NowInstant) and LastJobId (the new id or "") are written iff a job was requested, CreatedAt (NowInstant) iff the record had none, NextExecution always, and nothing else |
| SchedulerProperties.ScheduledNextExecution | src/Hangfire.RecurringDateRange/Server/RecurringDateRangeJobScheduler.cs:180 | NextExecution is null iff no occurrence after local NowInstant is a real local time other than MaxValue, and is otherwise the serialised UTC form of the first one |
| SchedulerProperties.ResumesFromLastRun | src/Hangfire.RecurringDateRange/Server/RecurringDateRangeJobScheduler.cs:216-219 | after a triggering tick the next tick's search starts at this tick's NowInstant |
| SchedulerProperties.CreatedAtWrittenOnce | src/Hangfire.RecurringDateRange/Server/RecurringDateRangeJobScheduler.cs:174-178 | after any tick the record has CreatedAt, an existing one is kept, and no later tick writes it again |
| SchedulerProperties.IdleTickKeepsLastRun | src/Hangfire.RecurringDateRange/Server/RecurringDateRangeJobScheduler.cs:151-172 | a tick that triggers nothing leaves LastExecution and LastJobId as they were |
| SchedulerProperties.VisitJobEffect | src/Hangfire.RecurringDateRange/Server/RecurringDateRangeJobScheduler.cs:94-111 | one loop iteration rewrites only the visited record, to what TryScheduleJob makes of it |
| SchedulerProperties.RunTickKeepsKeys | src/Hangfire.RecurringDateRange/Server/RecurringDateRangeJobScheduler.cs:92-112 | a tick neither adds nor drops records and only appends to the factory's log |
| SchedulerProperties.RunTickLeavesOthers | src/Hangfire.RecurringDateRange/Server/RecurringDateRangeJobScheduler.cs:92-112 | a record whose id is not visited is unchanged |
| SchedulerProperties.RunTickSchedulesEach | src/Hangfire.RecurringDateRange/Server/RecurringDateRangeJobScheduler.cs:92-112 | in a tick without an escaping exception, every visited record ends as TryScheduleJob makes of its contents before the tick |
| SchedulerProperties.RunTickCompletes | src/Hangfire.RecurringDateRange/Server/RecurringDateRangeJobScheduler.cs:102-111 | when every record either schedules or fails to load its job, no exception ends the tick |
| SchedulerProperties.RunTickStopsAtError | src/Hangfire.RecurringDateRange/Server/RecurringDateRangeJobScheduler.cs:88-112 | once an exception has ended the tick, the ids after it are never visited |
| SchedulerProperties.RunTickKeepsConsistent | src/Hangfire.RecurringDateRange/Server/RecurringDateRangeJobScheduler.cs:92-112 | a tick keeps the registry equal to the set of stored records |
| SchedulerScenarios.UnboundedAlwaysWithin | src/Hangfire.RecurringDateRange/Server/RecurringDateRangeJobScheduler.cs:203-210 | without a start or end date the range check always passes; a supporting lemma |
| SchedulerScenarios.RetriggerNeedsNewOccurrence | src/Hangfire.RecurringDateRange/Server/RecurringDateRangeJobScheduler.cs:151-180 | after a triggering tick, both ticks load the same job in the same zone, and a later tick on the updated record triggers only for an occurrence strictly after the earlier local NowInstant and before its own local NowInstant + 1s |
| SchedulerScenarios.TickKeepsInputs | src/Hangfire.RecurringDateRange/Server/RecurringDateRangeJobScheduler.cs:170-184 | the fields a tick writes change neither the job, cron and date bounds the next tick loads nor the zone it resolves |
| SchedulerScenarios.NoDoubleTrigger | src/Hangfire.RecurringDateRange/Server/ScheduleInstant.cs:64-81 | when the schedule has no occurrence in the second after the first tick's local NowInstant, the occurrence that lets a later tick trigger lies beyond the whole of the first tick's window, so no occurrence triggers twice |
| SchedulerScenarios.WholeMinutesLeaveGap | src/Hangfire.RecurringDateRange/Server/ScheduleInstant.cs:45-77 | for a schedule of whole minutes in UTC, the hypothesis of NoDoubleTrigger always holds |
| SchedulerScenarios.RegisteredJobDecides | src/Hangfire.RecurringDateRange/Server/RecurringDateRangeJobScheduler.cs:142-160 | a job registered without dates (stored as MinValue and MaxValue) loads back and is decided without an exception whenever now is UTC and at least a second below MaxValue |
| SchedulerScenarios.OpenRangeTriggers | src/Hangfire.RecurringDateRange/Server/RecurringDateRangeJobScheduler.cs:142-180 | the tests' in-range case in UTC: every minute, last scheduled 10 hours ago, started 20 hours ago, ending in 10 hours; with a factory that does not throw, the tick triggers and records NowInstant and the new job id |
| SchedulerScenarios.ClosedRangeIdles | src/Hangfire.RecurringDateRange/Server/RecurringDateRangeJobScheduler.cs:142-180 | the tests' out-of-range case in UTC: last scheduled 10 hours ago, no start, end 20 hours ago; the tick runs without error, triggers nothing and leaves LastExecution absent |
| Options.FromMethodCall | src/Hangfire.RecurringDateRange/RecurringDateRangeJobOptions.cs:24-31 | a null method call throws ArgumentNull "methodCall"; otherwise only Job is set |
| Options.Validate | src/Hangfire.RecurringDateRange/RecurringDateRangeJobOptions.cs:33-54 | characterised by ValidateReportsFirstMissing and ValidateIgnoresDates |
| Options.ValidateReportsFirstMissing | src/Hangfire.RecurringDateRange/RecurringDateRangeJobOptions.cs:33-54 | Validate passes iff RecurringJobId, Job, CronExpression and RecurringJobOptions are all set; otherwise it throws NullReference naming the first missing one in that order |
| Options.ValidateIgnoresDates | src/Hangfire.RecurringDateRange/RecurringDateRangeJobOptions.cs:14-16 | Validate never looks at the start date, the end date or UseEndDateTimeComponent |
| Options.FreshOptionsLackId | src/Hangfire.RecurringDateRange/RecurringDateRangeJobOptions.cs:24-38 | options built from a method call have null dates and flag, and fail Validate with "RecurringJobId cannot be null" |
| Manager.RecurringDateRangeJobManager.New | src/Hangfire.RecurringDateRange/Server/RecurringDateRangeJobManager.cs:43-50 | rejects a null storage, then a null factory, and otherwise keeps both |
| Manager.ValidateCronExpression | src/Hangfire.RecurringDateRange/Server/RecurringDateRangeJobManager.cs:133-144 | an invalid expression, by the environment's cron parser, throws Argument "cronExpression"; characterised by AddOrUpdateRejects |
| Manager.RecurringDateRangeJobManager.AddOrUpdate | src/Hangfire.RecurringDateRange/Server/RecurringDateRangeJobManager.cs:52-91 | a rejected call changes nothing; an accepted one commits the record merge and the registry add, with CreatedAt exactly when no record existed |
| Manager.RecurringDateRangeJobManager.Trigger | src/Hangfire.RecurringDateRange/Server/RecurringDateRangeJobManager.cs:93-117 | a null id throws ArgumentNull; no record means no job and no error; otherwise the request carries the record's job, its queue when the Queue key is present (else the default), and the manager's reason, and the factory's exception, if any, escapes; the request is logged exactly when the factory returns |
| Manager.RecurringDateRangeJobManager.RemoveIfExists | src/Hangfire.RecurringDateRange/Server/RecurringDateRangeJobManager.cs:119-131 | a null id throws ArgumentNull and changes nothing; otherwise record removal and registry removal are committed together |
| ManagerProperties.AddOrUpdateRejects | src/Hangfire.RecurringDateRange/Server/RecurringDateRangeJobManager.cs:54-59 | the call is accepted iff id, job, cron and options are given and the cron is valid; the first null argument in parameter order is named, and an invalid cron throws Argument "cronExpression" only after that |
| ManagerProperties.RegistrationEffect | src/Hangfire.RecurringDateRange/Server/RecurringDateRangeJobManager.cs:80-89 | afterwards the id is registered and its hash holds the written fields over the old ones; other hashes are untouched and registry and records stay in step |
| ManagerProperties.RecordKeys | src/Hangfire.RecurringDateRange/Server/RecurringDateRangeJobManager.cs:63-78 | the written record has exactly Job, Cron, TimeZoneId, Queue, StartDate and EndDate, plus CreatedAt for a new job, and none of the scheduler's fields otherwise |
| ManagerProperties.UpdateKeepsRunHistory | src/Hangfire.RecurringDateRange/Server/RecurringDateRangeJobManager.cs:74-84 | updating an existing job leaves CreatedAt, LastExecution, NextExecution and LastJobId as they were; a new job gets CreatedAt set to the registration time |
| ManagerProperties.RegisteredRecordReadsBack | src/Hangfire.RecurringDateRange/Server/RecurringDateRangeJobManager.cs:66-77 | the scheduler reads back the registered job, the parsed schedule, the dates with MinValue/MaxValue for missing ones, the registered zone and queue; a new job's first search starts at its registration time |
| ManagerProperties.RemovalEffect | src/Hangfire.RecurringDateRange/Server/RecurringDateRangeJobManager.cs:121-130 | afterwards there is no record and no registry entry for the id and nothing else changed; removing twice equals removing once, and removing an unknown id changes nothing |
| ManagerProperties.TriggerAgreesWithScheduler | src/Hangfire.RecurringDateRange/Server/RecurringDateRangeJobManager.cs:105-111 | Trigger enqueues the job the scheduler would load; both use the default queue without a Queue field and the stored queue when non-empty; a stored empty or null queue is replaced by the default in the scheduler and, in the model, copied by Trigger (the source's Trigger throws there, in the unmodelled queue-name check) |
| ManagerProperties.RegisteredJobTriggers | src/Hangfire.RecurringDateRange/Server/RecurringDateRangeJobManager.cs:99-115 | a registered job is triggered with its own job on its registered queue |
| ManagerExtensions.AddOrUpdateToQueue | src/Hangfire.RecurringDateRange/Server/RecurringDateRangeJobManagerExtensions.cs:48-69 | a null manager, zone or queue is rejected in that order; otherwise the call is forwarded with options holding exactly that zone and queue and the other arguments unchanged |
| ManagerExtensions.AddOrUpdateInZone | src/Hangfire.RecurringDateRange/Server/RecurringDateRangeJobManagerExtensions.cs:36-46 | forwards with the default queue |
| ManagerExtensions.AddOrUpdateInUtc | src/Hangfire.RecurringDateRange/Server/RecurringDateRangeJobManagerExtensions.cs:25-34 | forwards with the UTC zone and the default queue; only a null manager is rejected |
| ManagerExtensions.AddOrUpdateWithOptions | src/Hangfire.RecurringDateRange/Server/RecurringDateRangeJobManagerExtensions.cs:71-95 | characterised by PackedOptionsValidate |
| ManagerExtensions.PackedOptionsValidate | src/Hangfire.RecurringDateRange/Server/RecurringDateRangeJobManagerExtensions.cs:71-95 | the null checks match the manager's own, in the same order; the packed options copy id, job, cron, dates and options one-to-one, leave the end-time flag unset and always pass Validate |
| ManagerExtensions.ZoneOverloadStoresZone | src/Hangfire.RecurringDateRange/Server/RecurringDateRangeJobManagerExtensions.cs:36-46 | a job registered through the zone overload is stored with that zone's id and queue "default" |
| ManagerExtensions.UtcOverloadStoresDefaults | src/Hangfire.RecurringDateRange/Server/RecurringDateRangeJobManagerExtensions.cs:33 | a job registered through the zone-free overload is stored with zone id "UTC" and queue "default" |

## Left out

- `EveryMinuteThrottler`: `Throttle` and `Delay` in `Execute` only wait on the wall clock and a cancellation token. They are no-ops in the model.
- The distributed lock, connections and their disposal: the model keeps only the observable effect of reads, the merge write and the atomic commit.
- NCrontab: parsing, and enumeration of occurrences beyond the window contract, are functions supplied by the environment. `ValidateCronExpression` is the validity predicate of that environment.
- `TimeZoneInfo` data: conversions, DST gaps and the zone table are supplied by the environment. `ConvertTime`'s checks on the `Kind` of its argument are not modelled.
- JSON, `InvocationData` and `DateTime` serialisation are functions supplied by the environment. Round-tripping is an explicit hypothesis where a lemma needs it.
- Clocks: `DateTime.UtcNow` is a parameter. The model reads it once per tick; the source reads it once per job through the instant factory. The manager's `CreatedAt` stamp is also a parameter.
- The instant factory is fixed to the production one. Tests substitute instants made by a mock through the internal constructor; the model's `New` only checks that a factory is present.
- The public scheduler constructors build a default `BackgroundJobFactory`; the model takes the factory as given. The class constructor takes any `CronStringFormat`.
- Logging calls, including the debug message for a vetoed job creation.
- Storage.JobStorage.SetRangeInHash: writes to storage, and the manager's transaction commit, are assumed never to throw. In the source an exception from `connection.SetRangeInHash` inside the `try` is rethrown like any other and ends the tick; the model's tick ends only on exceptions from the reads, the decision and the job factory.
- `EnqueuedState`'s validation of queue names: `Trigger` and the scheduler both send the stored queue name unchecked. In the source an invalid stored name (upper case, whitespace only) throws inside the scheduler's `try`, is rethrown, and ends the tick, so the model's tick goes on where the source's ends.
- Manager.RecurringDateRangeJobManager.Trigger: a present Queue field is copied as it is, even when it is empty or null. In the source the `EnqueuedState.Queue` setter rejects such a name, so `Trigger` throws where the model creates a job on that queue.
- Options.FromMethodCall: `Job.FromExpression` is not modelled, so the method call arrives already as a `Job`; an expression it rejects, and the exception it throws, are outside the model.
- The fixed `PluginConstants` prefix of storage keys.
- The options-taking manager overload that the fourth extension forwards to is not in the modelled manager. `ManagerExtensions.AddOrUpdateWithOptions` therefore returns the packed options rather than a storage effect.
- Options-driven behaviour the tests use but the modelled scheduler source does not contain: the constructor argument that ignores the time components of the dates, `UseEndDateTimeComponent`, end-of-day widening and last-instant clamping.
- Scheduler.RecurringDateRangeJobScheduler.Execute: its contract fixes the store and log only up to the order in which the registry set yields ids, which the source leaves to the storage implementation.
