/** Parsing of the hour/minute forms users type for an hourly reminder. */
module ParseTime {
  import opened Wrappers
  import opened GoStrings
  import opened UnixTime
  import opened Reminders

  datatype TimeError = BadMinutes | BadHHMM | BadFormat

  /** The ":MM" shape: three bytes starting with ':'. */
  predicate IsMinuteShape(t: Bytes) {
    |t| == 3 && t[0] == Colon
  }

  /**
   * parseHourMinuteUTC: after trimming white space, ":MM" is the first instant
   * strictly after `now` at minute MM of an hour (within the next hour), and
   * "HH:MM" the first instant strictly after `now` at that time of day
   * (within the next day). Digits decode with uint8 wrap-around: a byte
   * below '0' gives a field of 208 or more, which the range checks reject,
   * but the bytes ':' to 'k' decode to 10 to 59, so a field such as "0A"
   * (17) can pass them (see ParseAcceptsLetterDigit).
   */
  function ParseHourMinuteUTC(now: int, s: Bytes): (r: Result<int, TimeError>)
    ensures var t := TrimSpace(s);
      && (r == Err(BadFormat) <==> !IsMinuteShape(t) && !IsHHMMShape(t))
      && (IsMinuteShape(t) ==> (r.Err? <==> TwoDigits(t[1], t[2]) > 59))
      && (IsMinuteShape(t) && r.Err? ==> r.error == BadMinutes)
      && (IsMinuteShape(t) && r.Ok? ==>
            now < r.value <= now + Hour && r.value % Hour == TwoDigits(t[1], t[2]) * Minute)
      && (IsHHMMShape(t) ==> (r.Err? <==> HourField(t) > 23 || MinuteField(t) > 59))
      && (IsHHMMShape(t) && r.Err? ==> r.error == BadHHMM)
      && (IsHHMMShape(t) && r.Ok? ==>
            now < r.value <= now + Day && r.value % Day == DayOffset(t))
  {
    var t := TrimSpace(s);
    if IsMinuteShape(t) then
      var min := TwoDigits(t[1], t[2]);
      if min < 0 || min > 59 then Err(BadMinutes)
      else
        SmallMod(min * Minute, Hour);
        Ok(SameOrNext(now, Hour, min * Minute))
    else if IsHHMMShape(t) then
      var hour := HourField(t);
      var min := MinuteField(t);
      if hour < 0 || hour > 23 || min < 0 || min > 59 then Err(BadHHMM)
      else
        SmallMod(DayOffset(t), Day);
        Ok(SameOrNext(now, Day, DayOffset(t)))
    else Err(BadFormat)
  }

  /** ":0A" is accepted as minute 17: 'A' - '0' is 17, which the range check lets through. */
  lemma ParseAcceptsLetterDigit(now: int)
    ensures var r := ParseHourMinuteUTC(now, [Colon, 0x30, 0x41]);
      r.Ok? && now < r.value <= now + Hour && r.value % Hour == 17 * Minute
  {
    var s: Bytes := [Colon, 0x30, 0x41];
    assert LeadingSpace(s) == 0 && TrailingSpace(s) == 0;
    assert TwoDigits(s[1], s[2]) == 17;
  }

  /** ASCII white space around the input does not change the result. */
  lemma ParseIgnoresSurroundingSpace(now: int, w1: Bytes, s: Bytes, w2: Bytes)
    requires AsciiSpaces(w1) && AsciiSpaces(w2)
    ensures ParseHourMinuteUTC(now, w1 + s + w2) == ParseHourMinuteUTC(now, s)
  {
    TrimSpaceIgnoresSpaces(w1, s, w2);
  }
}
