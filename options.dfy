/**
 * RecurringDateRangeJobOptions: the bundle of settings one recurring date-range job is
 * registered with, and the null checks it must pass.
 */
module Options {
  import opened Wrappers
  import opened Errors
  import opened DateTimes
  import opened Platform

  /** Every reference-typed property may be null, so each is an Option. */
  datatype RecurringDateRangeJobOptions = RecurringDateRangeJobOptions(
    recurringJobId: Option<string>,
    job: Option<Job>,
    cronExpression: Option<string>,
    startDateTime: Option<DateTime>,
    endDateTime: Option<DateTime>,
    useEndDateTimeComponent: Option<bool>,
    recurringJobOptions: Option<RecurringJobOptions>)

  /** The parameterless constructor: everything null. */
  const Empty := RecurringDateRangeJobOptions(None, None, None, None, None, None, None)

  /**
   * The constructor from a method call: a null call is rejected, otherwise only Job is set.
   * `Job.FromExpression` is outside the model, so the call arrives already as a Job.
   */
  function FromMethodCall(methodCall: Option<Job>): (r: Result<RecurringDateRangeJobOptions, Error>)
    ensures methodCall.None? <==> r == Failure(ArgumentNull("methodCall"))
    ensures r.Success? ==> r.value == Empty.(job := methodCall)
  {
    if methodCall.None? then Failure(ArgumentNull("methodCall"))
    else Success(Empty.(job := methodCall))
  }

  /** The message Validate throws for a null property. */
  function NullMessage(name: string): string {
    name + " cannot be null"
  }

  /** Validate: the first null among RecurringJobId, Job, CronExpression and RecurringJobOptions is reported. */
  function Validate(o: RecurringDateRangeJobOptions): Result<(), Error> {
    if o.recurringJobId.None? then Failure(NullReference(NullMessage("RecurringJobId")))
    else if o.job.None? then Failure(NullReference(NullMessage("Job")))
    else if o.cronExpression.None? then Failure(NullReference(NullMessage("CronExpression")))
    else if o.recurringJobOptions.None? then Failure(NullReference(NullMessage("RecurringJobOptions")))
    else Success(())
  }

  /** The four properties Validate demands, in the order it checks them, with null flags. */
  function Required(o: RecurringDateRangeJobOptions): seq<(string, bool)> {
    [("RecurringJobId", o.recurringJobId.Some?), ("Job", o.job.Some?),
     ("CronExpression", o.cronExpression.Some?), ("RecurringJobOptions", o.recurringJobOptions.Some?)]
  }

  /**
   * Validate passes exactly when all four required properties are set; otherwise it names
   * the first missing one in checking order, and only that one.
   */
  lemma ValidateReportsFirstMissing(o: RecurringDateRangeJobOptions)
    ensures Validate(o).Success? <==> forall i :: 0 <= i < 4 ==> Required(o)[i].1
    ensures Validate(o).Failure? ==>
      exists i :: 0 <= i < 4 && !Required(o)[i].1 && (forall j :: 0 <= j < i ==> Required(o)[j].1) &&
        Validate(o) == Failure(NullReference(NullMessage(Required(o)[i].0)))
  {
    var req := Required(o);
    if !req[0].1 {
      assert !req[0].1 && Validate(o) == Failure(NullReference(NullMessage(req[0].0)));
    } else if !req[1].1 {
      assert forall j :: 0 <= j < 1 ==> req[j].1;
    } else if !req[2].1 {
      assert forall j :: 0 <= j < 2 ==> req[j].1;
    } else if !req[3].1 {
      assert forall j :: 0 <= j < 3 ==> req[j].1;
    } else {
      assert forall i :: 0 <= i < 4 ==> req[i].1;
    }
  }

  /** Validate never looks at the start date, end date or end-time flag. */
  lemma ValidateIgnoresDates(o: RecurringDateRangeJobOptions, start: Option<DateTime>, end: Option<DateTime>, useEnd: Option<bool>)
    ensures Validate(o.(startDateTime := start, endDateTime := end, useEndDateTimeComponent := useEnd)) == Validate(o)
  {
  }

  /** Options freshly built from a method call leave the dates and the flag null, and fail Validate on the id. */
  lemma FreshOptionsLackId(methodCall: Job)
    ensures var r := FromMethodCall(Some(methodCall));
      && r.Success?
      && r.value.startDateTime.None? && r.value.endDateTime.None? && r.value.useEndDateTimeComponent.None?
      && Validate(r.value) == Failure(NullReference("RecurringJobId cannot be null"))
  {
    assert NullMessage("RecurringJobId") == "RecurringJobId cannot be null";
  }
}
