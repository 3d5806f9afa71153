/**
 * The Reminder entity and the next-occurrence rule that decides what happens
 * to a reminder after it fires.
 */
module Reminders {
  import opened Wrappers
  import opened GoStrings
  import opened UnixTime

  /** "once" */
  const ScheduleOnce: Bytes := [0x6F, 0x6E, 0x63, 0x65]
  /** "hourly" */
  const ScheduleHourly: Bytes := [0x68, 0x6F, 0x75, 0x72, 0x6C, 0x79]
  /** "daily" */
  const ScheduleDaily: Bytes := [0x64, 0x61, 0x69, 0x6C, 0x79]

  /** sql.NullString: a string and whether it is present. */
  datatype NullString = NullString(s: Bytes, valid: bool)

  /** The zero sql.NullString. */
  const Null: NullString := NullString([], false)

  /**
   * A reminder. `atTime` holds an RFC 3339 time for `once` and "HH:MM" for
   * `daily`; the three times are Unix seconds.
   */
  datatype Reminder = Reminder(
    id: int,
    userId: Bytes,
    channelId: Bytes,
    guildId: NullString,
    message: Bytes,
    schedule: Bytes,
    atTime: NullString,
    nextRun: int,
    createdAt: int,
    updatedAt: int)

  /** The three errors NextAfter reports. */
  datatype ScheduleError = MissingAtTime | BadAtTimeFormat | UnknownSchedule

  /** NextAfter's result triple `(next, repeat, err)`. */
  datatype Occurrence = Occurrence(next: int, repeat: bool, err: Option<ScheduleError>)

  /** The shape check on a daily time: five bytes with ':' in the middle. */
  predicate IsHHMMShape(at: Bytes) {
    |at| == 5 && at[2] == Colon
  }

  /** The hour field of "HH:MM", decoded without a range check. */
  function HourField(at: Bytes): int
    requires IsHHMMShape(at)
  {
    TwoDigits(at[0], at[1])
  }

  /** The minute field of "HH:MM", decoded without a range check. */
  function MinuteField(at: Bytes): int
    requires IsHHMMShape(at)
  {
    TwoDigits(at[3], at[4])
  }

  /** Seconds after midnight that "HH:MM" denotes; `time.Date` normalises "99:99" to 99h + 99min. */
  function DayOffset(at: Bytes): (d: int)
    requires IsHHMMShape(at)
    ensures 0 <= d
    ensures HourField(at) <= 23 && MinuteField(at) <= 59 ==> d < Day
  {
    HourField(at) * Hour + MinuteField(at) * Minute
  }

  function Failed(e: ScheduleError): Occurrence {
    Occurrence(ZeroTime, false, Some(e))
  }

  /**
   * What happens after reminder r fires at `from`: `once` is retired, `hourly`
   * repeats an hour later, `daily` repeats at its "HH:MM" on the first day
   * where that is strictly after `from`. Any error comes with the zero time and
   * no repeat, and a repeat is always strictly in the future.
   */
  function NextAfter(r: Reminder, from: int): (o: Occurrence)
    ensures o.err.Some? ==> o.next == ZeroTime && !o.repeat
    ensures o.repeat ==> o.err.None? && o.next > from
  {
    if r.schedule == ScheduleOnce then Occurrence(ZeroTime, false, None)
    else if r.schedule == ScheduleHourly then Occurrence(from + Hour, true, None)
    else if r.schedule == ScheduleDaily then
      if !r.atTime.valid then Failed(MissingAtTime)
      else if !IsHHMMShape(r.atTime.s) then Failed(BadAtTimeFormat)
      else Occurrence(SameOrNext(from, Day, DayOffset(r.atTime.s)), true, None)
    else Failed(UnknownSchedule)
  }

  /** A `once` reminder is retired without error, whatever the time. */
  lemma NextAfterOnce(r: Reminder, from: int)
    requires r.schedule == ScheduleOnce
    ensures NextAfter(r, from) == Occurrence(ZeroTime, false, None)
  {
  }

  /** An `hourly` reminder repeats exactly one hour after it fired. */
  lemma NextAfterHourly(r: Reminder, from: int)
    requires r.schedule == ScheduleHourly
    ensures NextAfter(r, from) == Occurrence(from + Hour, true, None)
  {
  }

  /** A daily reminder fails exactly when its time is missing or not shaped "HH:MM". */
  lemma NextAfterDailyErrors(r: Reminder, from: int)
    requires r.schedule == ScheduleDaily
    ensures NextAfter(r, from).err == Some(MissingAtTime) <==> !r.atTime.valid
    ensures NextAfter(r, from).err == Some(BadAtTimeFormat) <==> r.atTime.valid && !IsHHMMShape(r.atTime.s)
    ensures NextAfter(r, from).err.None? <==> r.atTime.valid && IsHHMMShape(r.atTime.s)
  {
  }

  /** Any schedule other than once, hourly and daily is an error. */
  lemma NextAfterUnknown(r: Reminder, from: int)
    requires r.schedule != ScheduleOnce && r.schedule != ScheduleHourly && r.schedule != ScheduleDaily
    ensures NextAfter(r, from) == Occurrence(ZeroTime, false, Some(UnknownSchedule))
  {
  }

  /**
   * A well-formed daily reminder repeats strictly after `from` at its
   * wall-clock time of day, within one day when the time is a real clock time,
   * and exactly one day after the same-day instant when that has passed.
   */
  lemma NextAfterDaily(r: Reminder, from: int)
    requires r.schedule == ScheduleDaily && r.atTime.valid && IsHHMMShape(r.atTime.s)
    ensures var o := NextAfter(r, from);
      && o.err.None? && o.repeat
      && o.next > from
      && o.next % Day == DayOffset(r.atTime.s) % Day
      && (HourField(r.atTime.s) <= 23 && MinuteField(r.atTime.s) <= 59 ==> o.next <= from + Day)
      && var sameDay := Truncate(from, Day) + DayOffset(r.atTime.s);
         o.next == if sameDay > from then sameDay else sameDay + Day
  {
  }

  /** "11:00" */
  const Eleven: Bytes := [0x31, 0x31, 0x3A, 0x30, 0x30]

  /**
   * Daily at "11:00": from 2025-01-01T10:30:00Z (1735727400) the next run is
   * 2025-01-01T11:00:00Z (1735729200); from 12:00 (1735732800) it is
   * 2025-01-02T11:00:00Z (1735815600).
   */
  lemma NextAfterDailyExample(r: Reminder)
    requires r.schedule == ScheduleDaily && r.atTime == NullString(Eleven, true)
    ensures NextAfter(r, 1735727400) == Occurrence(1735729200, true, None)
    ensures NextAfter(r, 1735732800) == Occurrence(1735815600, true, None)
  {
  }
}
