/**
 * The decisions of the `/remind add` and `/remind delete` commands: how a
 * request becomes a reminder's next run, schedule parameter and guild, and
 * how a delete request is guarded before and after the store call. Option
 * values arrive already looked up (empty when absent); replies are their kinds.
 */
module Bot {
  import opened Wrappers
  import opened GoStrings
  import opened UnixTime
  import opened Reminders
  import opened ReminderStore
  import opened ParseTime

  /** What an accepted add request stores besides the user, channel and message. */
  datatype AddPlan = AddPlan(schedule: Bytes, nextRun: int, atTime: NullString, guildId: NullString)

  /** Why an add request is refused before the store is called. */
  datatype AddRejection = InvalidSchedule | InvalidTime | InvalidHHMM

  /** The next whole minute after now: `now.Truncate(time.Minute).Add(time.Minute)`. */
  function NextMinute(now: int): (t: int)
    ensures now < t <= now + Minute && t % Minute == 0
  {
    Truncate(now, Minute) + Minute
  }

  /** The hour and minute of t's time of day are clock values, and give back the time of day to the minute. */
  lemma ClockFields(t: int)
    ensures var sinceMidnight := t % Day;
      && 0 <= sinceMidnight / Hour <= 23 && 0 <= sinceMidnight % Hour / Minute <= 59
      && (sinceMidnight / Hour) * Hour + (sinceMidnight % Hour / Minute) * Minute == t % Day - t % Minute
  {
    var sinceMidnight := t % Day;
    var days := t / Day;
    var h := sinceMidnight / Hour;
    var rest := sinceMidnight % Hour;
    var m := rest / Minute;
    var sec := rest % Minute;
    assert t == days * 86400 + sinceMidnight && 0 <= sinceMidnight < 86400;
    assert sinceMidnight == h * 3600 + rest && 0 <= rest < 3600;
    assert rest == m * 60 + sec && 0 <= sec < 60;
    MinuteDivMod(t, days * 1440 + h * 60 + m, sec);
  }

  /** `fmt.Sprintf("%02d:%02d", t.Hour(), t.Minute())` for the UTC time t. */
  function ClockText(t: int): (hhmm: Bytes)
    ensures IsHHMMShape(hhmm) && HourField(hhmm) <= 23 && MinuteField(hhmm) <= 59
    ensures forall i :: 0 <= i < 5 && i != 2 ==> 0x30 <= hhmm[i] <= 0x39
    ensures DayOffset(hhmm) == t % Day - t % Minute
  {
    var sinceMidnight := t % Day;
    ClockFields(t);
    var hh := Pad2(sinceMidnight / Hour);
    var mm := Pad2(sinceMidnight % Hour / Minute);
    var text := hh + [Colon] + mm;
    assert text[0] == hh[0] && text[1] == hh[1] && text[3] == mm[0] && text[4] == mm[1];
    text
  }

  /** The next whole minute is the first instant after now at its own time of day. */
  lemma NextMinuteOfDay(now: int)
    ensures SameOrNext(now, Day, NextMinute(now) % Day) == NextMinute(now)
  {
    var nm := NextMinute(now);
    var days := now / Day;
    var sinceMidnight := now % Day;
    var a := sinceMidnight / Minute;
    var sec := sinceMidnight % Minute;
    assert now == days * Day + sinceMidnight;
    assert sinceMidnight == a * Minute + sec;
    MinuteDivMod(now, days * 1440 + a, sec);
    assert nm == days * Day + a * Minute + Minute;
    assert Truncate(now, Day) == days * Day;
    if a * Minute + Minute < Day {
      DayDivMod(nm, days, a * Minute + Minute);
    } else {
      assert a * Minute + Minute == Day;
      DayDivMod(nm, days + 1, 0);
    }
  }

  /** "ONCE" lower-cases to the schedule `once`. */
  lemma UpperCaseOnce()
    ensures ToLower([0x4F, 0x4E, 0x43, 0x45]) == ScheduleOnce
  {
  }

  /** "DAİLY", with U+0130 (bytes C4 B0), lower-cases to the schedule `daily`, as in Go. */
  lemma DottedCapitalIDaily()
    ensures ToLower([0x44, 0x41, 0xC4, 0xB0, 0x4C, 0x59]) == ScheduleDaily
  {
  }

  /**
   * The schedule, next run, schedule parameter and guild an add request
   * yields at `now`, or why it is refused. `parseFlexible` stands for
   * parseFlexibleTimeUTC and `formatRFC3339` for RFC 3339 formatting. Every
   * accepted request runs strictly after `now`, and the guild is present
   * exactly when one was given.
   */
  function PlanAdd(scheduleStr: Bytes, at: Bytes, guildId: Bytes, now: int,
                   parseFlexible: Bytes -> Option<int>, formatRFC3339: int -> Bytes): (r: Result<AddPlan, AddRejection>)
    ensures var schedule := ToLower(scheduleStr);
      && (r == Err(InvalidSchedule) <==>
            schedule != ScheduleOnce && schedule != ScheduleHourly && schedule != ScheduleDaily)
      && (r.Ok? ==> r.value.schedule == schedule)
    ensures r.Ok? ==> r.value.nextRun > now
    ensures r.Ok? ==> (r.value.guildId.valid <==> guildId != []) && r.value.guildId.s == guildId
  {
    var schedule := ToLower(scheduleStr);
    if schedule != ScheduleOnce && schedule != ScheduleHourly && schedule != ScheduleDaily then
      Err(InvalidSchedule)
    else
      var guild := NullString(guildId, guildId != []);
      if schedule == ScheduleOnce then
        if at == [] then
          var next := now + 5 * Minute;
          Ok(AddPlan(schedule, next, NullString(formatRFC3339(next), true), guild))
        else
          match parseFlexible(at)
          case None => Err(InvalidTime)
          case Some(parsed) =>
            if parsed <= now then Err(InvalidTime)
            else Ok(AddPlan(schedule, parsed, NullString(formatRFC3339(parsed), true), guild))
      else if schedule == ScheduleHourly then
        var next :=
          if at == [] then NextMinute(now)
          else match ParseHourMinuteUTC(now, at)
            case Ok(parsed) => if parsed > now then parsed else now + Hour
            case Err(_) => now + Hour;
        Ok(AddPlan(schedule, next, Null, guild))
      else
        var hhmm := if at == [] then ClockText(NextMinute(now)) else at;
        if !IsHHMMShape(hhmm) then Err(InvalidHHMM)
        else Ok(AddPlan(schedule, SameOrNext(now, Day, DayOffset(hhmm)), NullString(hhmm, true), guild))
  }

  /**
   * `once`: without a time it runs five minutes from now; with one it is
   * accepted only when the time parses and is strictly after now, and then
   * runs at that time. The schedule parameter is the formatted run time.
   */
  lemma PlanAddOnce(scheduleStr: Bytes, at: Bytes, guildId: Bytes, now: int,
                    parseFlexible: Bytes -> Option<int>, formatRFC3339: int -> Bytes)
    requires ToLower(scheduleStr) == ScheduleOnce
    ensures var r := PlanAdd(scheduleStr, at, guildId, now, parseFlexible, formatRFC3339);
      && (at == [] ==> r.Ok? && r.value.nextRun == now + 300)
      && (at != [] ==> (r.Ok? <==> parseFlexible(at).Some? && parseFlexible(at).value > now))
      && (at != [] && r.Ok? ==> r.value.nextRun == parseFlexible(at).value)
      && (r.Err? ==> r.error == InvalidTime)
      && (r.Ok? ==> r.value.atTime == NullString(formatRFC3339(r.value.nextRun), true))
  {
  }

  /**
   * `hourly` is never refused and has no schedule parameter: without a time
   * it runs at the next whole minute; a time that does not parse falls back
   * to one hour from now.
   */
  lemma PlanAddHourly(scheduleStr: Bytes, at: Bytes, guildId: Bytes, now: int,
                      parseFlexible: Bytes -> Option<int>, formatRFC3339: int -> Bytes)
    requires ToLower(scheduleStr) == ScheduleHourly
    ensures var r := PlanAdd(scheduleStr, at, guildId, now, parseFlexible, formatRFC3339);
      && r.Ok? && r.value.atTime == Null
      && (at == [] ==> r.value.nextRun == NextMinute(now))
      && (at != [] && ParseHourMinuteUTC(now, at).Err? ==> r.value.nextRun == now + Hour)
      && (at != [] && ParseHourMinuteUTC(now, at).Ok? ==> r.value.nextRun == ParseHourMinuteUTC(now, at).value)
  {
  }

  /**
   * `daily` stores its "HH:MM" and runs exactly when NextAfter would
   * reschedule a daily reminder with that time from `now`. Only a time of the
   * wrong shape is refused.
   */
  lemma PlanAddDailyAgrees(scheduleStr: Bytes, at: Bytes, guildId: Bytes, now: int,
                           parseFlexible: Bytes -> Option<int>, formatRFC3339: int -> Bytes, rem: Reminder)
    requires ToLower(scheduleStr) == ScheduleDaily
    ensures var r := PlanAdd(scheduleStr, at, guildId, now, parseFlexible, formatRFC3339);
      && (r.Err? <==> at != [] && !IsHHMMShape(at))
      && (r.Err? ==> r.error == InvalidHHMM)
      && (at != [] && r.Ok? ==>
            r.value.atTime == NullString(at, true) && r.value.nextRun == SameOrNext(now, Day, DayOffset(at)))
      && (r.Ok? && rem.schedule == ScheduleDaily && rem.atTime == r.value.atTime ==>
            r.value.atTime.valid && NextAfter(rem, now) == Occurrence(r.value.nextRun, true, None))
  {
  }

  /**
   * `daily` without a time takes the "HH:MM" of the next whole minute, which
   * always has the right shape and is a real clock time, and then runs at
   * exactly that next whole minute, across midnight too.
   */
  lemma PlanAddDailyDefault(scheduleStr: Bytes, guildId: Bytes, now: int,
                            parseFlexible: Bytes -> Option<int>, formatRFC3339: int -> Bytes)
    requires ToLower(scheduleStr) == ScheduleDaily
    ensures var r := PlanAdd(scheduleStr, [], guildId, now, parseFlexible, formatRFC3339);
      && r.Ok?
      && r.value.atTime == NullString(ClockText(NextMinute(now)), true)
      && r.value.nextRun == NextMinute(now)
  {
    var nm := NextMinute(now);
    var hhmm := ClockText(nm);
    assert DayOffset(hhmm) == nm % Day;
    NextMinuteOfDay(now);
  }

  /** The replies of an add request. */
  datatype AddReply = Rejected(reason: AddRejection) | CreateFailed | Created(id: int, nextRun: int)

  /**
   * handleAdd after the option lookup: a refused request never reaches the
   * store; an accepted one is created with the planned fields, `createdAt`
   * being the store's own clock reading.
   */
  method HandleAdd(store: Store, userId: Bytes, channelId: Bytes, guildId: Bytes, message: Bytes,
                   scheduleStr: Bytes, at: Bytes, now: int, createdAt: int, fault: bool,
                   parseFlexible: Bytes -> Option<int>, formatRFC3339: int -> Bytes)
    returns (reply: AddReply)
    requires store.Valid()
    modifies store
    ensures store.Valid()
    ensures var plan := PlanAdd(scheduleStr, at, guildId, now, parseFlexible, formatRFC3339);
      && (plan.Err? ==> reply == Rejected(plan.error)
                        && store.rows == old(store.rows) && store.lastId == old(store.lastId))
      && (plan.Ok? && fault ==> reply == CreateFailed
                                && store.rows == old(store.rows) && store.lastId == old(store.lastId))
      && (plan.Ok? && !fault ==>
            var p := plan.value;
            var stored := Reminder(store.lastId, userId, channelId, p.guildId, message, p.schedule,
                                   p.atTime, p.nextRun, createdAt, createdAt);
            && store.lastId == old(store.lastId) + 1
            && reply == Created(store.lastId, p.nextRun)
            && store.rows == old(store.rows)[store.lastId := Inserted(ParamsOf(stored), store.lastId)])
  {
    var plan := PlanAdd(scheduleStr, at, guildId, now, parseFlexible, formatRFC3339);
    if plan.Err? {
      return Rejected(plan.error);
    }
    var p := plan.value;
    var r := Reminder(0, userId, channelId, p.guildId, message, p.schedule, p.atTime, p.nextRun, 0, 0);
    var stamped, err := store.Create(r, createdAt, fault);
    if err.Some? {
      return CreateFailed;
    }
    reply := Created(stamped.id, stamped.nextRun);
  }

  /** The replies of a delete request. */
  datatype DeleteReply = InvalidId | DeleteFailed | NotFound | Deleted

  /**
   * handleDelete after the option lookup: an id that is not positive is
   * refused without calling the store; otherwise the owner-checked delete
   * decides between deleted and not found.
   */
  method HandleDelete(store: Store, id: int, userId: Bytes, fault: bool) returns (reply: DeleteReply)
    requires store.Valid()
    modifies store
    ensures store.Valid() && store.lastId == old(store.lastId)
    ensures id <= 0 ==> reply == InvalidId && store.rows == old(store.rows)
    ensures id > 0 && fault ==> reply == DeleteFailed && store.rows == old(store.rows)
    ensures id > 0 && !fault ==>
      && (reply == Deleted <==> id in old(store.rows) && old(store.rows)[id].userId == userId)
      && (reply != Deleted ==> reply == NotFound && store.rows == old(store.rows))
      && (reply == Deleted ==> store.rows == old(store.rows) - {id})
  {
    if id <= 0 {
      return InvalidId;
    }
    var res := store.Delete(id, userId, fault);
    if res.Err? {
      return DeleteFailed;
    }
    if !res.value {
      return NotFound;
    }
    reply := Deleted;
  }
}
