/**
 * ScheduleInstant: "now" minus its whole seconds, the next cron occurrence, and the occurrences
 * that have come due since some earlier instant, all for one schedule in one time zone.
 */
module ScheduleInstants {
  import opened Wrappers
  import opened Errors
  import opened DateTimes
  import opened Platform

  datatype ScheduleInstant = ScheduleInstant(
    timeZone: TimeZoneInfo,
    schedule: CrontabSchedule,
    nowInstant: DateTime,
    nextInstant: Option<DateTime>)

  /**
   * What the enumerator is expected to do: every occurrence it yields for (from, to) lies
   * strictly between them, as NCrontab's GetNextOccurrences excludes both ends. Only the
   * lemmas that say so assume it.
   */
  ghost predicate EnumeratesBetween(schedule: CrontabSchedule) {
    forall from: Ticks, to: Ticks, x: Ticks {:trigger x in schedule.getNextOccurrences(from, to)} ::
      x in schedule.getNextOccurrences(from, to) ==> from < x < to
  }

  // ---------------------------------------------------------------------------------------
  // The constructor

  /**
   * The end bound the constructor enumerates to: `endDate ?? DateTime.MaxValue`. The source
   * hands this UTC value to the enumerator as a local bound, without converting it.
   */
  function OccurrenceEnd(endDate: Option<DateTime>): Ticks {
    endDate.GetOr(MaxValue).ticks
  }

  /** An occurrence the constructor may settle on: not the end bound, and a real local time. */
  predicate IsNextCandidate(zone: TimeZoneInfo, end: Ticks, x: Ticks) {
    x != end && !zone.isInvalidTime(x)
  }

  /** The UTC form of the first candidate among the occurrences, if there is one. */
  function FirstCandidate(zone: TimeZoneInfo, end: Ticks, occurrences: seq<Ticks>): Option<DateTime>
    decreases |occurrences|
  {
    if occurrences == [] then None
    else if IsNextCandidate(zone, end, occurrences[0]) then Some(FromZone(zone, occurrences[0]))
    else FirstCandidate(zone, end, occurrences[1..])
  }

  /** The ScheduleInstant the constructor builds, or the exception it throws. */
  function Constructed(now: DateTime, zone: TimeZoneInfo, schedule: Option<CrontabSchedule>, endDate: Option<DateTime>)
    : Result<ScheduleInstant, Error>
  {
    if schedule.None? then Failure(ArgumentNull("schedule"))
    else if now.kind != Utc then Failure(Argument("nowInstant"))
    else
      var nowInstant := StripSeconds(now);
      var end := OccurrenceEnd(endDate);
      var occurrences := schedule.value.getNextOccurrences(ToZone(zone, nowInstant), end);
      Success(ScheduleInstant(zone, schedule.value, nowInstant, FirstCandidate(zone, end, occurrences)))
  }

  /**
   * The constructor: it takes now minus its whole seconds, then walks the occurrences after local
   * now, skipping the end bound and invalid local times, and keeps the first one left.
   */
  method NewScheduleInstant(now: DateTime, zone: TimeZoneInfo, schedule: Option<CrontabSchedule>, endDate: Option<DateTime>)
    returns (r: Result<ScheduleInstant, Error>)
    ensures r == Constructed(now, zone, schedule, endDate)
  {
    if schedule.None? {
      return Failure(ArgumentNull("schedule"));
    }
    if now.kind != Utc {
      return Failure(Argument("nowInstant"));
    }
    var nowInstant := StripSeconds(now);
    var end := OccurrenceEnd(endDate);
    var occurrences := schedule.value.getNextOccurrences(ToZone(zone, nowInstant), end);
    var next: Option<DateTime> := None;
    var i := 0;
    while i < |occurrences|
      invariant 0 <= i <= |occurrences|
      invariant next.None?
      invariant FirstCandidate(zone, end, occurrences[i..]) == FirstCandidate(zone, end, occurrences)
    {
      var x := occurrences[i];
      if x == end || zone.isInvalidTime(x) {
        assert occurrences[i..][1..] == occurrences[i + 1..];
        i := i + 1;
        continue;
      }
      next := Some(FromZone(zone, x));
      break;
    }
    r := Success(ScheduleInstant(zone, schedule.value, nowInstant, next));
  }

  /** FirstCandidate picks the earliest candidate, and finds one whenever there is one. */
  lemma {:induction false} FirstCandidateIsEarliest(zone: TimeZoneInfo, end: Ticks, occurrences: seq<Ticks>)
    ensures FirstCandidate(zone, end, occurrences).Some? <==>
              exists i :: 0 <= i < |occurrences| && IsNextCandidate(zone, end, occurrences[i])
    ensures FirstCandidate(zone, end, occurrences).Some? ==>
              exists i :: 0 <= i < |occurrences| && IsNextCandidate(zone, end, occurrences[i]) &&
                FirstCandidate(zone, end, occurrences).value == FromZone(zone, occurrences[i]) &&
                forall j :: 0 <= j < i ==> !IsNextCandidate(zone, end, occurrences[j])
    decreases |occurrences|
  {
    if occurrences != [] && !IsNextCandidate(zone, end, occurrences[0]) {
      var rest := occurrences[1..];
      FirstCandidateIsEarliest(zone, end, rest);
      if FirstCandidate(zone, end, rest).Some? {
        var k :| 0 <= k < |rest| && IsNextCandidate(zone, end, rest[k]) &&
                 FirstCandidate(zone, end, rest).value == FromZone(zone, rest[k]) &&
                 forall j :: 0 <= j < k ==> !IsNextCandidate(zone, end, rest[j]);
        assert occurrences[k + 1] == rest[k];
        assert forall j :: 0 <= j < k + 1 ==> !IsNextCandidate(zone, end, occurrences[j]) by {
          forall j | 0 <= j < k + 1 ensures !IsNextCandidate(zone, end, occurrences[j]) {
            if j > 0 { assert occurrences[j] == rest[j - 1]; }
          }
        }
      } else {
        forall i | 0 <= i < |occurrences| ensures !IsNextCandidate(zone, end, occurrences[i]) {
          if i > 0 { assert occurrences[i] == rest[i - 1]; }
        }
      }
    }
  }

  /**
   * What a constructed instant holds: NowInstant is now minus its whole
   * seconds (second 0, sub-second ticks kept), and NextInstant, when present, is the UTC form of the
   * first occurrence after local NowInstant that is neither the end bound nor an invalid
   * local time; it is absent exactly when no occurrence qualifies.
   */
  lemma ConstructedInstant(now: DateTime, zone: TimeZoneInfo, schedule: CrontabSchedule, endDate: Option<DateTime>)
    requires now.kind == Utc
    ensures var r := Constructed(now, zone, Some(schedule), endDate);
      var occurrences := schedule.getNextOccurrences(ToZone(zone, r.value.nowInstant), OccurrenceEnd(endDate));
      && r.Success?
      && r.value.timeZone == zone && r.value.schedule == schedule
      && r.value.nowInstant.kind == Utc
      && r.value.nowInstant.ticks <= now.ticks < r.value.nowInstant.ticks + TicksPerMinute
      && Second(r.value.nowInstant) == 0
      && (r.value.nextInstant.Some? <==>
            exists i :: 0 <= i < |occurrences| && IsNextCandidate(zone, OccurrenceEnd(endDate), occurrences[i]))
      && (r.value.nextInstant.Some? ==>
            exists i :: 0 <= i < |occurrences| && IsNextCandidate(zone, OccurrenceEnd(endDate), occurrences[i]) &&
              r.value.nextInstant.value == FromZone(zone, occurrences[i]) &&
              forall j :: 0 <= j < i ==> !IsNextCandidate(zone, OccurrenceEnd(endDate), occurrences[j]))
  {
    var r := Constructed(now, zone, Some(schedule), endDate);
    FirstCandidateIsEarliest(zone, OccurrenceEnd(endDate),
      schedule.getNextOccurrences(ToZone(zone, r.value.nowInstant), OccurrenceEnd(endDate)));
  }

  /** The constructor rejects a null schedule first, then a `now` not marked UTC. */
  lemma ConstructorRejects(now: DateTime, zone: TimeZoneInfo, schedule: Option<CrontabSchedule>, endDate: Option<DateTime>)
    ensures Constructed(now, zone, schedule, endDate).Failure? <==> schedule.None? || now.kind != Utc
    ensures schedule.None? ==> Constructed(now, zone, schedule, endDate) == Failure(ArgumentNull("schedule"))
    ensures schedule.Some? && now.kind != Utc ==> Constructed(now, zone, schedule, endDate) == Failure(Argument("nowInstant"))
  {
  }

  /**
   * With an enumerator that keeps to its bounds, NextInstant comes from a local occurrence
   * strictly after local NowInstant and strictly before the end bound.
   */
  lemma NextInstantIsAhead(now: DateTime, zone: TimeZoneInfo, schedule: CrontabSchedule, endDate: Option<DateTime>)
    requires now.kind == Utc
    requires EnumeratesBetween(schedule)
    ensures var r := Constructed(now, zone, Some(schedule), endDate);
      r.Success? && (r.value.nextInstant.Some? ==>
        exists x :: ToZone(zone, r.value.nowInstant) < x < OccurrenceEnd(endDate) && r.value.nextInstant.value == FromZone(zone, x))
  {
    var r := Constructed(now, zone, Some(schedule), endDate);
    var end := OccurrenceEnd(endDate);
    var occurrences := schedule.getNextOccurrences(ToZone(zone, r.value.nowInstant), end);
    ConstructedInstant(now, zone, schedule, endDate);
    if r.value.nextInstant.Some? {
      var i :| 0 <= i < |occurrences| && IsNextCandidate(zone, end, occurrences[i]) &&
               r.value.nextInstant.value == FromZone(zone, occurrences[i]);
      assert occurrences[i] in schedule.getNextOccurrences(ToZone(zone, r.value.nowInstant), end);
    }
  }

  // ---------------------------------------------------------------------------------------
  // GetNextInstants

  /** An occurrence GetNextInstants keeps: before the local end bound, and a real local time. */
  predicate IsTriggerable(zone: TimeZoneInfo, localEnd: Ticks, x: Ticks) {
    x < localEnd && !zone.isInvalidTime(x)
  }

  /** `.Where(IsTriggerable).Select(to UTC)` over the enumerated occurrences. */
  function Triggerable(zone: TimeZoneInfo, localEnd: Ticks, occurrences: seq<Ticks>): seq<DateTime>
    decreases |occurrences|
  {
    if occurrences == [] then []
    else
      var rest := Triggerable(zone, localEnd, occurrences[1..]);
      if IsTriggerable(zone, localEnd, occurrences[0]) then [FromZone(zone, occurrences[0])] + rest else rest
  }

  /** The local window GetNextInstants enumerates: from local lastInstant to local NowInstant + 1s. */
  function Window(instant: ScheduleInstant, lastInstant: DateTime): Result<(Ticks, Ticks), Error> {
    var upper :- AddSeconds(instant.nowInstant, 1);
    Success((ToZone(instant.timeZone, lastInstant), ToZone(instant.timeZone, upper)))
  }

  /**
   * GetNextInstants(lastInstant, endDateTime): the occurrences in the window that are
   * before the local end bound (`endDateTime ?? DateTime.MaxValue`) and are real local
   * times, converted to UTC, in enumeration order.
   */
  function GetNextInstants(instant: ScheduleInstant, lastInstant: DateTime, endDateTime: Option<DateTime>)
    : Result<seq<DateTime>, Error>
  {
    var end := endDateTime.GetOr(MaxValue);
    if lastInstant.kind != Utc then Failure(Argument("lastInstant"))
    else
      var localEnd := ToZone(instant.timeZone, end);
      var window :- Window(instant, lastInstant);
      Success(Triggerable(instant.timeZone, localEnd, instant.schedule.getNextOccurrences(window.0, window.1)))
  }

  /** Exactly the UTC forms of the triggerable occurrences are in the result. */
  lemma {:induction false} TriggerableMembers(zone: TimeZoneInfo, localEnd: Ticks, occurrences: seq<Ticks>, y: DateTime)
    ensures y in Triggerable(zone, localEnd, occurrences) <==>
              exists x :: x in occurrences && IsTriggerable(zone, localEnd, x) && y == FromZone(zone, x)
    decreases |occurrences|
  {
    if occurrences != [] {
      var rest := occurrences[1..];
      TriggerableMembers(zone, localEnd, rest, y);
      assert forall x :: x in occurrences <==> x == occurrences[0] || x in rest;
    }
  }

  /** `r` is the image, in order, of a subsequence of the occurrences under conversion to UTC. */
  ghost predicate ImageOfSubsequence(zone: TimeZoneInfo, r: seq<DateTime>, occurrences: seq<Ticks>)
    decreases |occurrences|
  {
    if r == [] then true
    else if occurrences == [] then false
    else (r[0] == FromZone(zone, occurrences[0]) && ImageOfSubsequence(zone, r[1..], occurrences[1..]))
         || ImageOfSubsequence(zone, r, occurrences[1..])
  }

  /** Filtering and converting keeps enumeration order and never adds elements. */
  lemma {:induction false} TriggerableKeepsOrder(zone: TimeZoneInfo, localEnd: Ticks, occurrences: seq<Ticks>)
    ensures ImageOfSubsequence(zone, Triggerable(zone, localEnd, occurrences), occurrences)
    ensures |Triggerable(zone, localEnd, occurrences)| <= |occurrences|
    decreases |occurrences|
  {
    if occurrences != [] {
      TriggerableKeepsOrder(zone, localEnd, occurrences[1..]);
      var r := Triggerable(zone, localEnd, occurrences);
      if IsTriggerable(zone, localEnd, occurrences[0]) {
        assert r[1..] == Triggerable(zone, localEnd, occurrences[1..]);
      }
    }
  }

  ghost predicate Ascending(s: seq<Ticks>) {
    forall i, j :: 0 <= i < j < |s| ==> s[i] < s[j]
  }

  ghost predicate NonDecreasing(s: seq<DateTime>) {
    forall i, j :: 0 <= i < j < |s| ==> s[i].ticks <= s[j].ticks
  }

  /** A conversion to UTC that never runs backwards. */
  ghost predicate MonotoneToUtc(zone: TimeZoneInfo) {
    forall a: Ticks, b: Ticks {:trigger zone.toUtc(a), zone.toUtc(b)} :: a <= b ==> zone.toUtc(a) <= zone.toUtc(b)
  }

  /** Sorted occurrences in a zone whose conversion to UTC is monotone give sorted UTC instants. */
  lemma {:induction false} TriggerableSorted(zone: TimeZoneInfo, localEnd: Ticks, occurrences: seq<Ticks>)
    requires Ascending(occurrences)
    requires MonotoneToUtc(zone)
    ensures NonDecreasing(Triggerable(zone, localEnd, occurrences))
    decreases |occurrences|
  {
    if occurrences != [] {
      var rest := occurrences[1..];
      assert Ascending(rest) by {
        forall i, j | 0 <= i < j < |rest| ensures rest[i] < rest[j] {
          assert rest[i] == occurrences[i + 1] && rest[j] == occurrences[j + 1];
        }
      }
      TriggerableSorted(zone, localEnd, rest);
      var tail := Triggerable(zone, localEnd, rest);
      if IsTriggerable(zone, localEnd, occurrences[0]) {
        var r := Triggerable(zone, localEnd, occurrences);
        assert r == [FromZone(zone, occurrences[0])] + tail;
        forall k | 0 <= k < |tail| ensures FromZone(zone, occurrences[0]).ticks <= tail[k].ticks {
          assert tail[k] in tail;
          TriggerableMembers(zone, localEnd, rest, tail[k]);
          var x :| x in rest && IsTriggerable(zone, localEnd, x) && tail[k] == FromZone(zone, x);
          var m :| 0 <= m < |rest| && rest[m] == x;
          assert occurrences[0] < occurrences[m + 1];
        }
        forall i, j | 0 <= i < j < |r| ensures r[i].ticks <= r[j].ticks {
          if i == 0 { assert r[j] == tail[j - 1]; } else { assert r[i] == tail[i - 1] && r[j] == tail[j - 1]; }
        }
      }
    }
  }

  /**
   * GetNextInstants rejects a lastInstant not marked UTC; otherwise it fails only when
   * NowInstant + 1s leaves the DateTime range, and its result holds exactly the UTC forms of
   * the enumerated occurrences that are before the local end bound and are real local times.
   */
  lemma GetNextInstantsContents(instant: ScheduleInstant, lastInstant: DateTime, endDateTime: Option<DateTime>, y: DateTime)
    ensures var r := GetNextInstants(instant, lastInstant, endDateTime);
      && (lastInstant.kind != Utc ==> r == Failure(Argument("lastInstant")))
      && (lastInstant.kind == Utc ==> (r.Success? <==> instant.nowInstant.ticks + TicksPerSecond <= MaxTicks))
      && (r.Success? ==>
            var zone := instant.timeZone;
            var window := Window(instant, lastInstant).value;
            var localEnd := ToZone(zone, endDateTime.GetOr(MaxValue));
            (y in r.value <==>
               exists x :: x in instant.schedule.getNextOccurrences(window.0, window.1) &&
                 IsTriggerable(zone, localEnd, x) && y == FromZone(zone, x)))
  {
    var r := GetNextInstants(instant, lastInstant, endDateTime);
    if r.Success? {
      var window := Window(instant, lastInstant).value;
      TriggerableMembers(instant.timeZone, ToZone(instant.timeZone, endDateTime.GetOr(MaxValue)),
        instant.schedule.getNextOccurrences(window.0, window.1), y);
    }
  }

  /** The result is the in-order image of a sub-sequence of the enumeration, never longer. */
  lemma GetNextInstantsKeepsOrder(instant: ScheduleInstant, lastInstant: DateTime, endDateTime: Option<DateTime>)
    ensures var r := GetNextInstants(instant, lastInstant, endDateTime);
      r.Success? ==>
        var window := Window(instant, lastInstant).value;
        var occurrences := instant.schedule.getNextOccurrences(window.0, window.1);
        ImageOfSubsequence(instant.timeZone, r.value, occurrences) && |r.value| <= |occurrences|
  {
    var r := GetNextInstants(instant, lastInstant, endDateTime);
    if r.Success? {
      var window := Window(instant, lastInstant).value;
      TriggerableKeepsOrder(instant.timeZone, ToZone(instant.timeZone, endDateTime.GetOr(MaxValue)),
        instant.schedule.getNextOccurrences(window.0, window.1));
    }
  }
}
