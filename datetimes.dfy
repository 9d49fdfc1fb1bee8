/**
 * System.DateTime as the modelled code uses it: a count of 100-nanosecond ticks
 * between DateTime.MinValue and DateTime.MaxValue, and a Kind.
 */
module DateTimes {
  import opened Wrappers
  import opened Errors

  const TicksPerSecond: int := 10_000_000
  const TicksPerMinute: int := 60 * TicksPerSecond
  /** DateTime.MaxValue.Ticks, the last tick of 31 December 9999. */
  const MaxTicks: int := 3_155_378_975_999_999_999

  type Ticks = t: int | 0 <= t <= MaxTicks

  datatype DateTimeKind = Unspecified | Utc | Local

  /** Comparisons between DateTime values look at the ticks only, never at the kind. */
  datatype DateTime = DateTime(ticks: Ticks, kind: DateTimeKind)

  const MinValue: DateTime := DateTime(0, Unspecified)
  const MaxValue: DateTime := DateTime(MaxTicks, Unspecified)

  /** DateTime.Second: the seconds-of-minute component. */
  function Second(d: DateTime): (s: int)
    ensures 0 <= s < 60
  {
    (d.ticks / TicksPerSecond) % 60
  }

  /** DateTime.AddSeconds for whole seconds: it throws when the result leaves the DateTime range. */
  function AddSeconds(d: DateTime, seconds: int): (r: Result<DateTime, Error>)
    ensures r.Success? <==> 0 <= d.ticks + seconds * TicksPerSecond <= MaxTicks
    ensures r.Success? ==> r.value.kind == d.kind && r.value.ticks - d.ticks == seconds * TicksPerSecond
    ensures r.Failure? ==> r.error == ArgumentOutOfRange
  {
    var t := d.ticks + seconds * TicksPerSecond;
    if 0 <= t <= MaxTicks then Success(DateTime(t, d.kind)) else Failure(ArgumentOutOfRange)
  }

  /**
   * `d.AddSeconds(-d.Second)`: d minus its whole seconds. It never leaves the range, lands
   * on second 0, and keeps the ticks finer than a second.
   */
  function StripSeconds(d: DateTime): (r: DateTime)
    ensures AddSeconds(d, -Second(d)) == Success(r)
    ensures r.kind == d.kind
    ensures r.ticks <= d.ticks < r.ticks + TicksPerMinute
    ensures Second(r) == 0
    ensures r.ticks % TicksPerSecond == d.ticks % TicksPerSecond
  {
    var q := d.ticks / TicksPerSecond;
    var rest := d.ticks % TicksPerSecond;
    assert d.ticks == q * TicksPerSecond + rest;
    var t := d.ticks - Second(d) * TicksPerSecond;
    assert t == (q - q % 60) * TicksPerSecond + rest;
    assert t / TicksPerSecond == q - q % 60;
    DateTime(t, d.kind)
  }
}
