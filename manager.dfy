/**
 * RecurringDateRangeJobManager: registers, updates, triggers and removes recurring
 * date-range jobs in the store.
 */
module Manager {
  import opened Wrappers
  import opened Errors
  import opened DateTimes
  import opened Platform
  import opened Jobs
  import opened Storage
  import HashKeys

  const ManagerReason: string := "Triggered using recurring job manager"

  /** ValidateCronExpression: parsing or one GetNextOccurrence failing becomes an ArgumentException. */
  function ValidateCronExpression(env: Environment, cronExpression: string): Result<(), Error> {
    if env.cronIsValid(cronExpression) then Success(()) else Failure(Argument("cronExpression"))
  }

  /** The checks AddOrUpdate makes before it opens a connection. */
  function CheckAddOrUpdate(env: Environment, recurringJobId: Option<string>, job: Option<Job>,
                            cronExpression: Option<string>, options: Option<RecurringJobOptions>): Result<(), Error> {
    if recurringJobId.None? then Failure(ArgumentNull("recurringJobId"))
    else if job.None? then Failure(ArgumentNull("job"))
    else if cronExpression.None? then Failure(ArgumentNull("cronExpression"))
    else if options.None? then Failure(ArgumentNull("options"))
    else ValidateCronExpression(env, cronExpression.value)
  }

  /**
   * The record AddOrUpdate writes: the serialised job, the cron text, the zone id, the
   * queue, the start and end dates with MinValue and MaxValue for a missing bound, and
   * CreatedAt when the job is new.
   */
  function RegisteredRecord(env: Environment, job: Job, cronExpression: string, startDate: Option<DateTime>,
                            endDate: Option<DateTime>, options: RecurringJobOptions, createdAt: Option<DateTime>): Hash {
    var base: Hash := map[
      HashKeys.Job := Some(env.serializeJob(job)),
      HashKeys.Cron := Some(cronExpression),
      HashKeys.TimeZoneId := Some(options.timeZone.id),
      HashKeys.Queue := Some(options.queueName),
      HashKeys.StartDate := Some(env.serializeDateTime(startDate.GetOr(MinValue))),
      HashKeys.EndDate := Some(env.serializeDateTime(endDate.GetOr(MaxValue)))];
    if createdAt.Some? then base[HashKeys.CreatedAt := Some(env.serializeDateTime(createdAt.value))] else base
  }

  /** The transaction AddOrUpdate commits. */
  function Registration(recurringJobId: string, record: Hash): seq<WriteOp> {
    [WriteOp.SetRangeInHash(recurringJobId, record), WriteOp.AddToSet(recurringJobId)]
  }

  /** The transaction RemoveIfExists commits. */
  function Removal(recurringJobId: string): seq<WriteOp> {
    [WriteOp.RemoveHash(recurringJobId), WriteOp.RemoveFromSet(recurringJobId)]
  }

  /** What Trigger asks the factory for, from a stored record; the job is read as the scheduler reads it. */
  function TriggerRequest(env: Environment, recurringJobId: string, hash: Hash): Result<CreateRequest, Error> {
    if HashKeys.Job !in hash then Failure(KeyNotFound(HashKeys.Job))
    else
      var job :- env.deserializeJob(hash[HashKeys.Job]);
      var queue := if HashKeys.Queue in hash then hash[HashKeys.Queue] else Some(DefaultQueue);
      Success(CreateRequest(job, queue, ManagerReason, recurringJobId))
  }

  class RecurringDateRangeJobManager {
    const storage: JobStorage
    const factory: BackgroundJobFactory

    constructor (storage: JobStorage, factory: BackgroundJobFactory)
      ensures this.storage == storage && this.factory == factory
    {
      this.storage := storage;
      this.factory := factory;
    }

    /** The constructor's null checks: storage first, then factory. */
    static method New(storage: JobStorage?, factory: BackgroundJobFactory?) returns (r: Result<RecurringDateRangeJobManager, Error>)
      ensures storage == null ==> r == Failure(ArgumentNull("storage"))
      ensures storage != null && factory == null ==> r == Failure(ArgumentNull("factory"))
      ensures r.Success? <==> storage != null && factory != null
      ensures r.Success? ==> r.value.storage == storage && r.value.factory == factory
    {
      if storage == null { return Failure(ArgumentNull("storage")); }
      if factory == null { return Failure(ArgumentNull("factory")); }
      var manager := new RecurringDateRangeJobManager(storage, factory);
      r := Success(manager);
    }

    /**
     * AddOrUpdate. `now` stands for the clock reading taken for CreatedAt. A rejected call
     * leaves the store as it was; an accepted one commits the record merge and the registry
     * add in one transaction, with CreatedAt exactly when no record existed.
     */
    method AddOrUpdate(recurringJobId: Option<string>, job: Option<Job>, cronExpression: Option<string>,
                       startDate: Option<DateTime>, endDate: Option<DateTime>, options: Option<RecurringJobOptions>,
                       env: Environment, now: DateTime)
      returns (r: Result<(), Error>)
      modifies storage
      ensures r == CheckAddOrUpdate(env, recurringJobId, job, cronExpression, options)
      ensures r.Failure? ==> storage.State() == old(storage.State())
      ensures r.Success? ==>
        var createdAt := if recurringJobId.value in old(storage.hashes) then None else Some(now);
        storage.State() == ApplyAll(old(storage.State()), Registration(recurringJobId.value,
          RegisteredRecord(env, job.value, cronExpression.value, startDate, endDate, options.value, createdAt)))
    {
      r := CheckAddOrUpdate(env, recurringJobId, job, cronExpression, options);
      if r.Failure? {
        return;
      }
      var id, opts := recurringJobId.value, options.value;
      var recurringJob: Hash := map[];
      recurringJob := recurringJob[HashKeys.Job := Some(env.serializeJob(job.value))];
      recurringJob := recurringJob[HashKeys.Cron := cronExpression];
      recurringJob := recurringJob[HashKeys.TimeZoneId := Some(opts.timeZone.id)];
      recurringJob := recurringJob[HashKeys.Queue := Some(opts.queueName)];
      recurringJob := recurringJob[HashKeys.StartDate := Some(env.serializeDateTime(startDate.GetOr(MinValue)))];
      recurringJob := recurringJob[HashKeys.EndDate := Some(env.serializeDateTime(endDate.GetOr(MaxValue)))];
      var existingJob := storage.GetAllEntriesFromHash(id);
      if existingJob.None? {
        recurringJob := recurringJob[HashKeys.CreatedAt := Some(env.serializeDateTime(now))];
      }
      assert recurringJob == RegisteredRecord(env, job.value, cronExpression.value, startDate, endDate, opts,
                                              if existingJob.None? then Some(now) else None);
      storage.Commit(Registration(id, recurringJob));
    }

    /**
     * Trigger: a null id is rejected, a missing record is ignored, and otherwise exactly one
     * job is created, on the record's queue when it has a Queue field.
     */
    method Trigger(recurringJobId: Option<string>, env: Environment) returns (r: Result<(), Error>)
      modifies factory
      ensures recurringJobId.None? ==> r == Failure(ArgumentNull("recurringJobId"))
      ensures recurringJobId.Some? && recurringJobId.value !in storage.hashes ==> r == Success(())
      ensures recurringJobId.Some? && recurringJobId.value in storage.hashes ==>
        var request := TriggerRequest(env, recurringJobId.value, storage.hashes[recurringJobId.value]);
        && (request.Failure? ==> r == Failure(request.error))
        && (request.Success? ==>
              var outcome := factory.assign(request.value);
              && (outcome.Success? ==> r == Success(()) && factory.created == old(factory.created) + [request.value])
              && (outcome.Failure? ==> r == Failure(outcome.error)))
      ensures r.Failure? || (recurringJobId.Some? && recurringJobId.value !in storage.hashes) ==>
        factory.created == old(factory.created)
    {
      if recurringJobId.None? {
        return Failure(ArgumentNull("recurringJobId"));
      }
      var hash := storage.GetAllEntriesFromHash(recurringJobId.value);
      if hash.None? {
        return Success(());
      }
      var request := TriggerRequest(env, recurringJobId.value, hash.value);
      if request.Failure? {
        return Failure(request.error);
      }
      var created := factory.Create(request.value);
      if created.Failure? {
        return Failure(created.error);
      }
      r := Success(());
    }

    /** RemoveIfExists: a null id is rejected; otherwise the record and the registry entry go in one transaction. */
    method RemoveIfExists(recurringJobId: Option<string>) returns (r: Result<(), Error>)
      modifies storage
      ensures recurringJobId.None? <==> r == Failure(ArgumentNull("recurringJobId"))
      ensures r.Failure? ==> storage.State() == old(storage.State())
      ensures r.Success? ==> storage.State() == ApplyAll(old(storage.State()), Removal(recurringJobId.value))
    {
      if recurringJobId.None? {
        return Failure(ArgumentNull("recurringJobId"));
      }
      storage.Commit(Removal(recurringJobId.value));
      r := Success(());
    }
  }
}
