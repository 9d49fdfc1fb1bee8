/**
 * What the manager's writes mean for the store and for the scheduler that later reads
 * them back.
 */
module ManagerProperties {
  import opened Wrappers
  import opened Errors
  import opened DateTimes
  import opened Platform
  import opened Jobs
  import opened Storage
  import opened ScheduleInstants
  import opened Scheduler
  import opened Manager
  import HashKeys

  /**
   * AddOrUpdate accepts a call exactly when the id, job, cron expression and options are all
   * given and the cron expression is valid; it reports the first null argument in parameter
   * order, and an invalid cron expression only after all four are present.
   */
  lemma AddOrUpdateRejects(env: Environment, recurringJobId: Option<string>, job: Option<Job>,
                           cronExpression: Option<string>, options: Option<RecurringJobOptions>)
    ensures var r := CheckAddOrUpdate(env, recurringJobId, job, cronExpression, options);
      && (r.Success? <==> recurringJobId.Some? && job.Some? && cronExpression.Some? && options.Some? &&
                          env.cronIsValid(cronExpression.value))
      && (recurringJobId.None? ==> r == Failure(ArgumentNull("recurringJobId")))
      && (recurringJobId.Some? && job.None? ==> r == Failure(ArgumentNull("job")))
      && (recurringJobId.Some? && job.Some? && cronExpression.None? ==> r == Failure(ArgumentNull("cronExpression")))
      && (recurringJobId.Some? && job.Some? && cronExpression.Some? && options.None? ==> r == Failure(ArgumentNull("options")))
      && (r.Failure? && r.error.Argument? ==> r.error == Argument("cronExpression") && !env.cronIsValid(cronExpression.value))
  {
  }

  /**
   * A registration adds the id to the registry and merges the record into the id's hash,
   * creating it if needed; every other hash is untouched, and registry and records stay in
   * step.
   */
  lemma RegistrationEffect(s: StoreState, recurringJobId: string, record: Hash)
    ensures var t := ApplyAll(s, Registration(recurringJobId, record));
      && t.registry == s.registry + {recurringJobId}
      && t.hashes.Keys == s.hashes.Keys + {recurringJobId}
      && (forall k :: k in s.hashes && k != recurringJobId ==> t.hashes[k] == s.hashes[k])
      && t.hashes[recurringJobId] == (if recurringJobId in s.hashes then s.hashes[recurringJobId] else map[]) + record
      && (Consistent(s) ==> Consistent(t))
  {
    ApplyTwo(s, WriteOp.SetRangeInHash(recurringJobId, record), WriteOp.AddToSet(recurringJobId));
  }

  /** The fields the scheduler keeps for its own book-keeping. */
  const RunFields: set<string> := {HashKeys.CreatedAt, HashKeys.LastExecution, HashKeys.NextExecution, HashKeys.LastJobId}

  /**
   * Updating a registered job leaves CreatedAt, LastExecution, NextExecution and LastJobId
   * exactly as they were; registering a new one stamps CreatedAt with the registration time.
   */
  lemma UpdateKeepsRunHistory(env: Environment, s: StoreState, recurringJobId: string, job: Job, cronExpression: string,
                              startDate: Option<DateTime>, endDate: Option<DateTime>, options: RecurringJobOptions, now: DateTime)
    ensures var createdAt := if recurringJobId in s.hashes then None else Some(now);
      var record := RegisteredRecord(env, job, cronExpression, startDate, endDate, options, createdAt);
      var t := ApplyAll(s, Registration(recurringJobId, record));
      && recurringJobId in t.hashes
      && (recurringJobId in s.hashes ==>
            forall f :: f in RunFields ==>
              (f in t.hashes[recurringJobId] <==> f in s.hashes[recurringJobId]) &&
              (f in s.hashes[recurringJobId] ==> t.hashes[recurringJobId][f] == s.hashes[recurringJobId][f]))
      && (recurringJobId !in s.hashes ==>
            t.hashes[recurringJobId].Keys == {HashKeys.Job, HashKeys.Cron, HashKeys.TimeZoneId, HashKeys.Queue,
                                              HashKeys.StartDate, HashKeys.EndDate, HashKeys.CreatedAt} &&
            t.hashes[recurringJobId][HashKeys.CreatedAt] == Some(env.serializeDateTime(now)))
  {
    var createdAt := if recurringJobId in s.hashes then None else Some(now);
    var record := RegisteredRecord(env, job, cronExpression, startDate, endDate, options, createdAt);
    RegistrationEffect(s, recurringJobId, record);
    RecordKeys(env, job, cronExpression, startDate, endDate, options, createdAt);
  }

  /** The fields a registration writes: the six settings, and CreatedAt for a new job. */
  lemma RecordKeys(env: Environment, job: Job, cronExpression: string, startDate: Option<DateTime>,
                   endDate: Option<DateTime>, options: RecurringJobOptions, createdAt: Option<DateTime>)
    ensures var record := RegisteredRecord(env, job, cronExpression, startDate, endDate, options, createdAt);
      && record.Keys == {HashKeys.Job, HashKeys.Cron, HashKeys.TimeZoneId, HashKeys.Queue, HashKeys.StartDate, HashKeys.EndDate} +
                        (if createdAt.Some? then {HashKeys.CreatedAt} else {})
      && (createdAt.None? ==> forall f :: f in RunFields ==> f !in record)
  {
  }

  /**
   * The scheduler reads back what the manager wrote, whatever the record held before: the
   * same job, the schedule the cron text parses to, the given dates with MinValue and
   * MaxValue standing in for missing ones, the registered zone and queue (the default for
   * an empty queue name); and a new job's first search starts at its registration time.
   */
  lemma RegisteredRecordReadsBack(env: Environment, format: CronStringFormat, prior: Hash, job: Job, cronExpression: string,
                                  schedule: CrontabSchedule, startDate: Option<DateTime>, endDate: Option<DateTime>,
                                  options: RecurringJobOptions, createdAt: Option<DateTime>, instant: ScheduleInstant)
    requires DatesRoundTrip(env) && JobsRoundTrip(env)
    requires env.parseCron(Some(cronExpression), format) == Success(schedule)
    ensures var record := prior + RegisteredRecord(env, job, cronExpression, startDate, endDate, options, createdAt);
      && LoadJob(env, format, record) ==
           Success(LoadedJob(job, schedule, Some(startDate.GetOr(MinValue)), Some(endDate.GetOr(MaxValue))))
      && (options.timeZone.id in env.systemZones && env.systemZones[options.timeZone.id] == options.timeZone ==>
            ResolveZone(env, record) == Success(options.timeZone))
      && EnqueueQueue(record) == Some(if options.queueName == "" then DefaultQueue else options.queueName)
      && (createdAt.Some? && HashKeys.LastExecution !in prior ==> GetLastInstant(env, record, instant) == Success(createdAt.value))
  {
    var record := prior + RegisteredRecord(env, job, cronExpression, startDate, endDate, options, createdAt);
    assert env.deserializeJob(Some(env.serializeJob(job))) == Success(job);
    StoredDateReadsBack(env, startDate.GetOr(MinValue));
    StoredDateReadsBack(env, endDate.GetOr(MaxValue));
    if createdAt.Some? {
      assert env.deserializeDateTime(Some(env.serializeDateTime(createdAt.value))) == Success(createdAt.value);
    }
  }

  /**
   * A removal leaves no record and no registry entry for the id and touches nothing else;
   * removing twice is removing once, and removing an unknown id changes nothing.
   */
  lemma RemovalEffect(s: StoreState, recurringJobId: string)
    ensures var t := ApplyAll(s, Removal(recurringJobId));
      && t.hashes == s.hashes - {recurringJobId}
      && t.registry == s.registry - {recurringJobId}
      && (Consistent(s) ==> Consistent(t))
      && ApplyAll(t, Removal(recurringJobId)) == t
      && (recurringJobId !in s.hashes && recurringJobId !in s.registry ==> t == s)
  {
    ApplyTwo(s, WriteOp.RemoveHash(recurringJobId), WriteOp.RemoveFromSet(recurringJobId));
    var t := ApplyAll(s, Removal(recurringJobId));
    ApplyTwo(t, WriteOp.RemoveHash(recurringJobId), WriteOp.RemoveFromSet(recurringJobId));
  }

  /**
   * Trigger enqueues the job the scheduler would load from the same record. Both use the
   * default queue when the record has no Queue field and the stored queue when it names a
   * non-empty one. For a stored empty or null queue the scheduler falls back to the default,
   * while the model's Trigger copies it; the source's Trigger throws there instead, in the
   * queue-name check of EnqueuedState, which is not modelled.
   */
  lemma TriggerAgreesWithScheduler(env: Environment, format: CronStringFormat, recurringJobId: string, hash: Hash)
    ensures LoadJob(env, format, hash).Success? ==>
      TriggerRequest(env, recurringJobId, hash).Success? &&
      TriggerRequest(env, recurringJobId, hash).value.job == LoadJob(env, format, hash).value.job
    ensures var r := TriggerRequest(env, recurringJobId, hash);
      r.Success? ==>
        && r.value.reason == ManagerReason && r.value.recurringJobId == recurringJobId
        && (HashKeys.Queue !in hash ==> r.value.queue == EnqueueQueue(hash) == Some(DefaultQueue))
        && (HashKeys.Queue in hash && hash[HashKeys.Queue].Some? && hash[HashKeys.Queue].value != "" ==>
              r.value.queue == EnqueueQueue(hash) == hash[HashKeys.Queue])
        && (HashKeys.Queue in hash && (hash[HashKeys.Queue].None? || hash[HashKeys.Queue] == Some("")) ==>
              r.value.queue == hash[HashKeys.Queue] && EnqueueQueue(hash) == Some(DefaultQueue))
  {
  }

  /** A registered job is triggered on its registered queue, whatever the record held before. */
  lemma RegisteredJobTriggers(env: Environment, prior: Hash, recurringJobId: string, job: Job, cronExpression: string,
                              startDate: Option<DateTime>, endDate: Option<DateTime>, options: RecurringJobOptions,
                              createdAt: Option<DateTime>)
    requires JobsRoundTrip(env)
    ensures var record := prior + RegisteredRecord(env, job, cronExpression, startDate, endDate, options, createdAt);
      TriggerRequest(env, recurringJobId, record) ==
        Success(CreateRequest(job, Some(options.queueName), ManagerReason, recurringJobId))
  {
    assert env.deserializeJob(Some(env.serializeJob(job))) == Success(job);
  }
}
