/**
 * The AddOrUpdate extension overloads: each fills in a default or packs its arguments and
 * hands the call on. A call is modelled by the call it forwards, or the exception it throws
 * first.
 */
module ManagerExtensions {
  import opened Wrappers
  import opened Errors
  import opened DateTimes
  import opened Platform
  import opened Options
  import opened Manager
  import HashKeys

  /** The manager's six-argument AddOrUpdate with the arguments an overload passes it. */
  datatype ManagerCall = ManagerCall(
    recurringJobId: Option<string>,
    job: Option<Job>,
    cronExpression: Option<string>,
    startDate: Option<DateTime>,
    endDate: Option<DateTime>,
    options: Option<RecurringJobOptions>)

  /** The overload with a zone and a queue: null checks on manager, zone and queue, then the options are packed. */
  function AddOrUpdateToQueue(manager: RecurringDateRangeJobManager?, recurringJobId: Option<string>, job: Option<Job>,
                              cronExpression: Option<string>, timeZone: Option<TimeZoneInfo>, queue: Option<string>,
                              startDateTime: Option<DateTime>, endDateTime: Option<DateTime>): (r: Result<ManagerCall, Error>)
    ensures manager == null ==> r == Failure(ArgumentNull("manager"))
    ensures manager != null && timeZone.None? ==> r == Failure(ArgumentNull("timeZone"))
    ensures manager != null && timeZone.Some? && queue.None? ==> r == Failure(ArgumentNull("queue"))
    ensures r.Success? <==> manager != null && timeZone.Some? && queue.Some?
    ensures r.Success? ==>
      && r.value.options == Some(RecurringJobOptions(timeZone.value, queue.value))
      && r.value.recurringJobId == recurringJobId && r.value.job == job && r.value.cronExpression == cronExpression
      && r.value.startDate == startDateTime && r.value.endDate == endDateTime
  {
    if manager == null then Failure(ArgumentNull("manager"))
    else if timeZone.None? then Failure(ArgumentNull("timeZone"))
    else if queue.None? then Failure(ArgumentNull("queue"))
    else Success(ManagerCall(recurringJobId, job, cronExpression, startDateTime, endDateTime,
                             Some(RecurringJobOptions(timeZone.value, queue.value))))
  }

  /** The overload with a zone: the default queue. */
  function AddOrUpdateInZone(manager: RecurringDateRangeJobManager?, recurringJobId: Option<string>, job: Option<Job>,
                             cronExpression: Option<string>, timeZone: Option<TimeZoneInfo>,
                             startDateTime: Option<DateTime>, endDateTime: Option<DateTime>): (r: Result<ManagerCall, Error>)
    ensures manager != null && timeZone.Some? ==>
      r == Success(ManagerCall(recurringJobId, job, cronExpression, startDateTime, endDateTime,
                               Some(RecurringJobOptions(timeZone.value, DefaultQueue))))
    ensures manager == null ==> r == Failure(ArgumentNull("manager"))
    ensures manager != null && timeZone.None? ==> r == Failure(ArgumentNull("timeZone"))
  {
    AddOrUpdateToQueue(manager, recurringJobId, job, cronExpression, timeZone, Some(DefaultQueue), startDateTime, endDateTime)
  }

  /** The overload without a zone: UTC and the default queue. */
  function AddOrUpdateInUtc(manager: RecurringDateRangeJobManager?, recurringJobId: Option<string>, job: Option<Job>,
                            cronExpression: Option<string>, startDateTime: Option<DateTime>, endDateTime: Option<DateTime>)
    : (r: Result<ManagerCall, Error>)
    ensures manager == null <==> r == Failure(ArgumentNull("manager"))
    ensures manager != null ==>
      r == Success(ManagerCall(recurringJobId, job, cronExpression, startDateTime, endDateTime,
                               Some(RecurringJobOptions(UtcZone, DefaultQueue))))
  {
    AddOrUpdateInZone(manager, recurringJobId, job, cronExpression, Some(UtcZone), startDateTime, endDateTime)
  }

  /**
   * The overload taking RecurringJobOptions: it rejects a null id, job, cron expression or
   * options in that order and packs them into a RecurringDateRangeJobOptions for the
   * manager's options-taking AddOrUpdate; a null manager fails on that call.
   */
  function AddOrUpdateWithOptions(manager: RecurringDateRangeJobManager?, recurringJobId: Option<string>, job: Option<Job>,
                                  cronExpression: Option<string>, startDate: Option<DateTime>, endDate: Option<DateTime>,
                                  options: Option<RecurringJobOptions>): Result<RecurringDateRangeJobOptions, Error>
  {
    if recurringJobId.None? then Failure(ArgumentNull("recurringJobId"))
    else if job.None? then Failure(ArgumentNull("job"))
    else if cronExpression.None? then Failure(ArgumentNull("cronExpression"))
    else if options.None? then Failure(ArgumentNull("options"))
    else if manager == null then Failure(NullDereference)
    else Success(RecurringDateRangeJobOptions(recurringJobId, job, cronExpression, startDate, endDate, None, options))
  }

  /**
   * The packed options name exactly the caller's arguments, leave the end-time flag unset
   * and always pass Validate; the null checks are the ones, in the same order, the manager's
   * own AddOrUpdate makes.
   */
  lemma PackedOptionsValidate(manager: RecurringDateRangeJobManager?, recurringJobId: Option<string>, job: Option<Job>,
                              cronExpression: Option<string>, startDate: Option<DateTime>, endDate: Option<DateTime>,
                              options: Option<RecurringJobOptions>, env: Environment)
    ensures var r := AddOrUpdateWithOptions(manager, recurringJobId, job, cronExpression, startDate, endDate, options);
      var check := CheckAddOrUpdate(env, recurringJobId, job, cronExpression, options);
      && (check.Failure? && check.error.ArgumentNull? ==> r == Failure(check.error))
      && (r.Success? <==> manager != null && recurringJobId.Some? && job.Some? && cronExpression.Some? && options.Some?)
      && (r.Success? ==>
            && Validate(r.value) == Success(())
            && r.value.recurringJobId == recurringJobId && r.value.job == job && r.value.cronExpression == cronExpression
            && r.value.startDateTime == startDate && r.value.endDateTime == endDate
            && r.value.recurringJobOptions == options && r.value.useEndDateTimeComponent.None?)
  {
  }

  /** Registering through the zone overload stores that zone's id and the default queue. */
  lemma ZoneOverloadStoresZone(manager: RecurringDateRangeJobManager, recurringJobId: string, job: Job, cronExpression: string,
                               timeZone: TimeZoneInfo, startDateTime: Option<DateTime>, endDateTime: Option<DateTime>,
                               env: Environment, createdAt: Option<DateTime>)
    ensures var call := AddOrUpdateInZone(manager, Some(recurringJobId), Some(job), Some(cronExpression), Some(timeZone),
                                          startDateTime, endDateTime).value;
      var record := RegisteredRecord(env, job, cronExpression, call.startDate, call.endDate, call.options.value, createdAt);
      record[HashKeys.TimeZoneId] == Some(timeZone.id) && record[HashKeys.Queue] == Some("default")
  {
  }

  /** Registering through the zone-free overload stores the UTC zone id and the default queue. */
  lemma UtcOverloadStoresDefaults(manager: RecurringDateRangeJobManager, recurringJobId: string, job: Job, cronExpression: string,
                                  startDateTime: Option<DateTime>, endDateTime: Option<DateTime>,
                                  env: Environment, createdAt: Option<DateTime>)
    ensures var call := AddOrUpdateInUtc(manager, Some(recurringJobId), Some(job), Some(cronExpression), startDateTime, endDateTime).value;
      var record := RegisteredRecord(env, job, cronExpression, call.startDate, call.endDate, call.options.value, createdAt);
      record[HashKeys.TimeZoneId] == Some("UTC") && record[HashKeys.Queue] == Some("default")
  {
  }
}
