/**
 * The platform services the modelled code calls and that are not part of this model:
 * time-zone data, cron parsing and enumeration, and Hangfire's serialisers. Each is a
 * function value inside a datatype, so every property proved holds for any of them.
 */
module Platform {
  import opened Wrappers
  import opened Errors
  import opened DateTimes

  /**
   * TimeZoneInfo: its id and its adjustment rules. `fromUtc` is
   * `TimeZoneInfo.ConvertTime(t, TimeZoneInfo.Utc, zone)`, `toUtc` the conversion back, and
   * `isInvalidTime` tells a local time that a forward transition skips.
   */
  datatype TimeZoneInfo = TimeZoneInfo(
    id: string,
    fromUtc: Ticks -> Ticks,
    toUtc: Ticks -> Ticks,
    isInvalidTime: Ticks -> bool)

  /** TimeZoneInfo.Utc. */
  const UtcZone: TimeZoneInfo := TimeZoneInfo("UTC", t => t, t => t, t => false)

  /** ConvertTime(d, TimeZoneInfo.Utc, zone): the local ticks of a UTC instant. */
  function ToZone(zone: TimeZoneInfo, d: DateTime): Ticks {
    zone.fromUtc(d.ticks)
  }

  /** ConvertTime(local, zone, TimeZoneInfo.Utc): a UTC-marked DateTime. */
  function FromZone(zone: TimeZoneInfo, local: Ticks): (r: DateTime)
    ensures r.kind == Utc
  {
    DateTime(zone.toUtc(local), Utc)
  }

  /** NCrontab.Advanced's CronStringFormat. */
  datatype CronStringFormat = Default | WithYears | WithSeconds | WithSecondsAndYears

  /**
   * A parsed CrontabSchedule, reduced to GetNextOccurrences(from, to): the occurrences,
   * in local ticks, that the library enumerates between the two local bounds.
   */
  datatype CrontabSchedule = CrontabSchedule(getNextOccurrences: (Ticks, Ticks) -> seq<Ticks>)

  /** Hangfire's Job: the method to invoke and its serialised arguments. */
  datatype Job = Job(typeName: string, methodName: string, arguments: seq<string>)

  /** Hangfire's RecurringJobOptions, whose setters refuse null. */
  datatype RecurringJobOptions = RecurringJobOptions(timeZone: TimeZoneInfo, queueName: string)

  /** EnqueuedState.DefaultQueue. */
  const DefaultQueue: string := "default"

  /**
   * What the code reaches through static calls. Stored values are nullable strings, so the
   * readers take an Option<string>.
   *  - serializeDateTime / deserializeDateTime: JobHelper.SerializeDateTime / DeserializeDateTime;
   *  - serializeJob: JobHelper.ToJson(InvocationData.Serialize(job));
   *  - deserializeJob: JobHelper.FromJson<InvocationData>(s).Deserialize(), which may raise JobLoad;
   *  - parseCron: CrontabSchedule.Parse(text, format);
   *  - cronIsValid: CrontabSchedule.Parse(text) and GetNextOccurrence both return normally;
   *  - systemZones: the zones TimeZoneInfo.FindSystemTimeZoneById knows, by id.
   */
  datatype Environment = Environment(
    serializeDateTime: DateTime -> string,
    deserializeDateTime: Option<string> -> Result<DateTime, Error>,
    serializeJob: Job -> string,
    deserializeJob: Option<string> -> Result<Job, Error>,
    parseCron: (Option<string>, CronStringFormat) -> Result<CrontabSchedule, Error>,
    cronIsValid: string -> bool,
    systemZones: map<string, TimeZoneInfo>)

  /** The date serialiser reads back every value it writes, and never writes an empty string. */
  ghost predicate DatesRoundTrip(env: Environment) {
    forall d: DateTime {:trigger env.serializeDateTime(d)} ::
      env.serializeDateTime(d) != "" && env.deserializeDateTime(Some(env.serializeDateTime(d))) == Success(d)
  }

  /** The job serialiser reads back every job it writes. */
  ghost predicate JobsRoundTrip(env: Environment) {
    forall j: Job {:trigger env.serializeJob(j)} :: env.deserializeJob(Some(env.serializeJob(j))) == Success(j)
  }

  /**
   * JobHelper.DeserializeNullableDateTime: null or empty text is no date at all; any other
   * text is the deserialiser's date, or its exception.
   */
  function DeserializeNullableDateTime(env: Environment, text: Option<string>): (r: Result<Option<DateTime>, Error>)
    ensures (text == None || text == Some("")) ==> r == Success(None)
    ensures text.Some? && text.value != "" ==>
      && (r.Success? <==> env.deserializeDateTime(text).Success?)
      && (r.Success? ==> r.value == Some(env.deserializeDateTime(text).value))
      && (r.Failure? ==> r.error == env.deserializeDateTime(text).error)
  {
    if text.None? || text.value == "" then Success(None)
    else
      match env.deserializeDateTime(text)
      case Success(d) => Success(Some(d))
      case Failure(e) => Failure(e)
  }

  /** TimeZoneInfo.FindSystemTimeZoneById. */
  function FindSystemTimeZoneById(env: Environment, id: Option<string>): (r: Result<TimeZoneInfo, Error>)
    ensures id.None? ==> r == Failure(ArgumentNull("id"))
    ensures id.Some? ==> (r.Success? <==> id.value in env.systemZones)
    ensures id.Some? && r.Failure? ==> r.error == TimeZoneNotFound(id.value)
    ensures r.Success? ==> r.value == env.systemZones[id.value]
  {
    match id
    case None => Failure(ArgumentNull("id"))
    case Some(s) => if s in env.systemZones then Success(env.systemZones[s]) else Failure(TimeZoneNotFound(s))
  }

  /** A round-tripping date serialiser reads a stored date back as that date. */
  lemma StoredDateReadsBack(env: Environment, d: DateTime)
    requires DatesRoundTrip(env)
    ensures DeserializeNullableDateTime(env, Some(env.serializeDateTime(d))) == Success(Some(d))
  {
    assert env.serializeDateTime(d) != "";
  }
}
