# mizubot-go reminder core, modelled in Dafny

MizuBot is a chat bot that lets users schedule reminders: `once`, `hourly` or
`daily`. They are posted to a channel when they fall due. This project models
the core of its Go implementation and proves properties about it:

- **Next-occurrence rule** (`NextAfter`): what happens to a reminder after it
  fires. A `once` reminder is retired. An `hourly` one moves one hour on. A
  `daily` one moves to its `HH:MM` on the first day where that time is strictly
  later.
- **Reminder store** (`Store`): create, list by owner, owner-checked delete,
  the due query capped at a limit, rescheduling and unconditional delete. The
  reminders table is an abstract map from id to row plus SQLite's
  AUTOINCREMENT counter. `convertModel` translates between rows and reminders.
- **One scheduler tick** (`Scheduler.RunOnce`): takes one `now` for the tick
  and fetches one batch. Each reminder is sent through the injected sender,
  then deleted or rescheduled. Every send and write failure is ignored; a failed fetch ends the tick.
- **Hour/minute parser** (`ParseHourMinuteUTC`) for `":MM"` and `"HH:MM"`.
- **`/remind add` and `/remind delete` decisions**: `PlanAdd` picks the next
  run, the schedule parameter and the guild. `HandleAdd` and `HandleDelete`
  tie those decisions to the store.
- **Configuration precedence** (`Fallback`, `FromValues`).

## Representation

- Time is whole Unix seconds in UTC. The start of a day or hour is
  `t - t % 86400` or `t - t % 3600`, using Dafny's Euclidean `%`, so it also
  holds before 1970.
- Durations (tick interval) are nanoseconds, like Go's `time.Duration`.
- Go's zero `time.Time` is the constant `ZeroTime` (-62135596800).
- Go strings in the reminder and bot code are byte sequences.
- `int(c - '0')` wraps modulo 256, as uint8 arithmetic does. So `':'` decodes
  to 10 and `'A'` to 17.
  A byte below `'0'` gives a field of 208 or more, which the range checks
  reject. The bytes `':'` to `'k'` decode to 10 to 59, so `parseHourMinuteUTC`
  accepts `":0A"` as minute 17 (`ParseAcceptsLetterDigit`).
- `NextAfter` and `handleAdd` check a daily time only for its length and its
  colon. There is no range check, so `"99:99"` means midnight + 99 h + 99 min.
  Any five bytes with `':'` in the middle are accepted for `daily`, and
  decode to a wrapped offset. This is modelled as written.
- `parseHourMinuteUTC` has three distinct errors: bad minutes, bad `HH:MM`
  fields and bad format. Each is its own `TimeError`.
- `strings.TrimSpace` is modelled on bytes. It covers the ASCII white space and
  the multi-byte runes that `unicode.IsSpace` accepts.
- Configuration values are Dafny strings, because only equality and emptiness
  matter there.

## Environment as parameters

- A storage failure is a `fault` parameter of each store operation.
- The wall clock that `Create` and `SetNextRun` read is a parameter.
- In `RunOnce`, the due query's failure is one parameter. Item `i`'s write
  failure and clock reading are `writeFaults(i)` and `clock(i)`.
- The sender is a `Sender` object. Whether its k-th call fails is an oracle
  `fails(k)`. A ghost `log` records every `(channel, message)` it was handed.
- Three library routines are function parameters: `parseFlexibleTimeUTC`,
  RFC 3339 formatting and `time.ParseDuration`.

## Model

| member | source | states |
|---|---|---|
| `UnixTime.Truncate` | internal/bot/discord.go:196 | the result is the largest multiple of the unit not after t |
| `UnixTime.SameOrNext` | internal/reminders/store.go:131-134 | the same-day (same-hour) instant at the offset, else one period later: strictly after `from`, congruent to the offset, at most one period ahead for an in-range offset |
| `GoStrings.DigitValue` | internal/reminders/store.go:129-130 | `int(c-'0')` is in 0..255 and adding '0' back modulo 256 gives c; ASCII digits decode to their value |
| `GoStrings.TwoDigits` | internal/bot/parse_time.go:39-40 | a two-byte field is at most 2805 and below 100 for ASCII digits |
| `GoStrings.Pad2` | internal/bot/discord.go:212 | `%02d` gives two ASCII digits that decode back to n |
| `GoStrings.TrimLeft` | internal/bot/parse_time.go:25 | the result is no longer than the input and starts with no white-space rune |
| `GoStrings.TrimLeftRemovesSpace` | internal/bot/parse_time.go:25 | the input is a run of whole white-space runes followed by the left trim's result: only leading white space is removed |
| `GoStrings.TrimRight` | internal/bot/parse_time.go:25 | the result is a prefix of the input with no trailing white-space rune |
| `GoStrings.TrimRightRemovesSpace` | internal/bot/parse_time.go:25 | the input is the right trim's result followed by a run of whole white-space runes: only trailing white space is removed |
| `GoStrings.TrimSpace` | internal/bot/parse_time.go:25 | the result starts and ends with no white-space rune; a string without any at either end is unchanged |
| `GoStrings.TrimSpaceRemovesSpace` | internal/bot/parse_time.go:25 | the input is a white-space run, then the result, then a white-space run: TrimSpace keeps a contiguous part and removes only white space |
| `GoStrings.TrimSpaceIgnoresSpaces` | internal/bot/parse_time.go:25 | ASCII white space added on either side does not change the trimmed result |
| `GoStrings.ToLower` | internal/bot/discord.go:167 | the result holds no ASCII capital and is no longer than the input |
| `GoStrings.ToLowerAscii` | internal/bot/discord.go:167 | for ASCII input the result has the input's length and each byte is the input byte, lower-cased if it is a capital |
| `Reminders.DayOffset` | internal/reminders/store.go:129-131 | an `HH:MM` offset is non-negative and below one day when hour <= 23 and minute <= 59 |
| `Reminders.NextAfter` | internal/reminders/store.go:114-139 | every error comes with the zero time and no repeat; a repeat has no error and is strictly after `from` |
| `Reminders.NextAfterOnce` | internal/reminders/store.go:116-117 | `once` gives (zero time, no repeat, no error) for every `from` |
| `Reminders.NextAfterHourly` | internal/reminders/store.go:118-119 | `hourly` gives exactly `from + 3600`, repeat, no error |
| `Reminders.NextAfterDailyErrors` | internal/reminders/store.go:120-128 | `daily` fails with missing-time iff the time is null, with bad-format iff its length is not 5 or byte 2 is not ':' |
| `Reminders.NextAfterUnknown` | internal/reminders/store.go:136-137 | any other schedule is the unknown-schedule error |
| `Reminders.NextAfterDaily` | internal/reminders/store.go:129-135 | a well-formed daily reminder repeats strictly after `from`, congruent to hour*3600+min*60 modulo a day, within a day for in-range fields, and one day after the same-day instant when that has passed |
| `Reminders.NextAfterDailyExample` | internal/reminders/store_test.go:68-72 | "11:00" from 10:30 gives 11:00 the same day; from 12:00 it gives 11:00 the next day |
| `ReminderStore.NullToPtr` | internal/reminders/store.go:46-55 | the pointer is non-nil iff the null string is valid, and then points to its string |
| `ReminderStore.PtrToNull` | internal/reminders/store.go:142-149 | inverse of NullToPtr; nil becomes the zero null string |
| `ReminderStore.ConvertModel` | internal/reminders/store.go:141-161 | keeps the id, and converting back to insert parameters reproduces the row exactly |
| `ReminderStore.ConvertRoundTrip` | internal/reminders/store.go:46-66 | a reminder stored and read back equals the input with the assigned id, null guild/time normalised |
| `ReminderStore.Limit` | internal/reminders/store.go:95 | SQL LIMIT: a prefix of length min(limit, size), and the whole sequence for a negative limit |
| `ReminderStore.Converted` | internal/reminders/store.go:99-103 | one converted reminder per fetched row, in order |
| `ReminderStore.SelectedSound` | internal/reminders/store.go:94-103 | a query returns only table rows under their own ids that match it, in strictly increasing id order |
| `ReminderStore.SelectedComplete` | internal/reminders/store.go:74-83 | a query returns every matching row |
| `ReminderStore.DueBatch` | internal/reminders/store.go:94-104 | the due batch has at most `limit` reminders, each present and with next run <= now, no duplicates, and holds every due row when it is short of the limit |
| `ReminderStore.CreatedIsListed` | internal/reminders/store_test.go:40-53 | after Create, the owner's listing is the old listing plus the new reminder |
| `ReminderStore.Store.constructor` | internal/reminders/store.go:38-40 | the store wraps the table the database already holds, with its AUTOINCREMENT position; a fresh file is the empty table at 0 |
| `ReminderStore.Store.Create` | internal/reminders/store.go:42-71 | stamps created = updated = now (also on failure); on success adds exactly one row under a fresh non-zero id and returns that id; on failure the table and id are unchanged |
| `ReminderStore.Store.Scan` | internal/reminders/store.go:75 | a SELECT returns the selection of the current table |
| `ReminderStore.Store.ConvertEach` | internal/reminders/store.go:79-83 | the append loop converts every row in order |
| `ReminderStore.Store.ListByUser` | internal/reminders/store.go:74-84 | the user's reminders, or the storage error; changes nothing |
| `ReminderStore.Store.Delete` | internal/reminders/store.go:86-92 | returns true iff a row with that id and owner existed and removes only it; a wrong owner leaves the table unchanged |
| `ReminderStore.Store.Due` | internal/reminders/store.go:94-104 | the limited due selection, converted, or the storage error; changes nothing |
| `ReminderStore.Store.SetNextRun` | internal/reminders/store.go:106-108 | changes only that row's next run (to t) and updated time |
| `ReminderStore.Store.DeleteID` | internal/reminders/store.go:110-112 | removes the row whoever owns it, unless the storage fails |
| `Scheduler.Sender.Send` | internal/scheduler/scheduler.go:53-55 | logs exactly one delivery of (channel, content) and reports the oracle's failure |
| `Scheduler.Deliveries` | internal/scheduler/scheduler.go:51-55 | one delivery per batch reminder, with its channel and message, in batch order |
| `Scheduler.AfterItem` | internal/scheduler/scheduler.go:56-68 | only the item's row can change; a failed write changes nothing; otherwise the row is deleted when NextAfter gives no repeat, and a present row is kept with NextAfter's next run and the update stamp when it does, so it is gone or after now |
| `Scheduler.ItemOutcome` | internal/scheduler/scheduler.go:51-69 | when its own write succeeds, whatever the other writes did, the reminder at any position of the batch whose id no other item carries ends as AfterItem would leave it on its own: gone without a repeat, kept with NextAfter's next run and its own clock stamp with one |
| `Scheduler.BatchApplies` | internal/scheduler/scheduler.go:51-69 | a failed write skips only its own item: in a batch of distinct ids, every reminder whose own write succeeded is gone when it has no repeat, and kept with its next run at NextAfter's instant when it repeats and its row was there |
| `Scheduler.TickScenarios` | internal/scheduler/scheduler.go:57-68 | with no failed write, a due hourly reminder stays with next run now + 3600, and a once reminder is gone |
| `Scheduler.AfterBatch` | internal/scheduler/scheduler.go:51-69 | rows of reminders outside the batch are untouched |
| `Scheduler.BatchLeavesNothingDue` | internal/scheduler/scheduler.go:57-68 | in a batch of distinct ids, every reminder whose own write succeeded is gone or rescheduled after now, whatever the other writes did |
| `Scheduler.TickOutcome` | internal/scheduler/scheduler.go:43-70 | with a store that never fails, the fetched batch was due, is no longer due after the tick, and every other row is unchanged |
| `Scheduler.Scheduler.constructor` | internal/scheduler/scheduler.go:21-26 | a non-positive interval becomes 10s; the batch size is 50 |
| `Scheduler.Scheduler.Deliver` | internal/scheduler/scheduler.go:52-68 | one loop item: exactly one delivery of the reminder's channel and message is logged, and the table ends as AfterItem says |
| `Scheduler.Scheduler.DeliverAll` | internal/scheduler/scheduler.go:51-69 | the loop over a fetched batch: the log grows by the batch's deliveries in order, and the table ends as AfterBatch says |
| `Scheduler.Scheduler.RunOnce` | internal/scheduler/scheduler.go:43-70 | a failed fetch sends nothing and changes no row; otherwise the send log grows by exactly the fetched batch in fetch order, and the table ends as AfterBatch of that batch at the one captured `now`, independent of send failures |
| `ParseTime.ParseHourMinuteUTC` | internal/bot/parse_time.go:24-51 | after trimming, bad shape iff neither ":MM" nor "HH:MM"; error iff a field is out of range, the minutes error for ":MM" and the HH:MM error for "HH:MM"; ":MM" gives t in (now, now+3600] with t mod 3600 = MM*60; "HH:MM" gives t in (now, now+86400] with t mod 86400 = HH*3600+MM*60 |
| `ParseTime.ParseAcceptsLetterDigit` | internal/bot/parse_time.go:26-29 | the non-digit byte 'A' decodes to 17, so ":0A" is accepted as minute 17: the first instant after now at minute 17 of an hour |
| `ParseTime.ParseIgnoresSurroundingSpace` | internal/bot/parse_time.go:25 | ASCII white space of any length before and after the input does not change the result |
| `Bot.NextMinute` | internal/bot/discord.go:196 | the next whole minute lies in (now, now+60] |
| `Bot.ClockText` | internal/bot/discord.go:211-212 | the default "HH:MM" always has the right shape, four ASCII digits, a real hour and minute, and denotes the time of day to the minute |
| `Bot.UpperCaseOnce` | internal/bot/discord.go:167-171 | "ONCE" is accepted as `once` |
| `Bot.DottedCapitalIDaily` | internal/bot/discord.go:167 | "DAİLY" lower-cases to `daily` |
| `Bot.PlanAdd` | internal/bot/discord.go:167-235 | refused as invalid schedule iff the lower-cased schedule is not once/hourly/daily; every accepted plan runs strictly after now and has a guild iff one was given |
| `Bot.PlanAddOnce` | internal/bot/discord.go:178-192 | no time: now+300; a given time is accepted iff it parses and is after now, and is then the run time; the schedule parameter is the formatted run time |
| `Bot.PlanAddHourly` | internal/bot/discord.go:193-206 | never refused, no schedule parameter; no time: next whole minute; unparsable time: now+3600; otherwise the parsed time |
| `Bot.PlanAddDailyAgrees` | internal/bot/discord.go:207-225 | refused iff a given time has the wrong shape; an accepted plan with a given time stores exactly that "HH:MM" and runs at the first instant after now at that time of day; its next run is exactly NextAfter's for a daily reminder with that time |
| `Bot.PlanAddDailyDefault` | internal/bot/discord.go:209-217 | with no time, the default passes the shape check and the plan runs at the next whole minute |
| `Bot.HandleAdd` | internal/bot/discord.go:227-246 | a refused request never touches the store; an accepted one creates exactly the planned reminder or reports the failure |
| `Bot.HandleDelete` | internal/bot/discord.go:268-290 | id <= 0 is refused without a store call; otherwise deleted iff the owned delete removed the row, else not found or failed, with the table changed only on delete |
| `Config.Fallback` | internal/config/config.go:117-124 | empty iff every value is empty; otherwise the first non-empty value |
| `Config.FromValues` | internal/config/config.go:78-115 | the missing-token error occurs iff no token source applies; an accepted configuration has a token |
| `Config.SettingsPrecedence` | internal/config/config.go:79-105 | env is BOT_ENV, else the file's, else "prod"; the database path defaults to "./reminders.db"; the test guild is env, else file |
| `Config.TokenPrecedence` | internal/config/config.go:81-90 | the token is DISCORD_TOKEN, else DISCORD_TOKEN_TEST in env "test", else the file's; empty is an error |
| `Config.TickInterval` | internal/config/config.go:94-98 | the parsed chosen text (default "10s"); exactly 10s when it does not parse |
| `Config.DryRunOnlyTurnsOn` | internal/config/config.go:100-103 | dry run is on iff the file says so or DRY_RUN is "1", "true" or "TRUE" |
| `Config.FromValuesExample` | internal/config/config_test.go:14-47 | the configuration test's file and overrides resolve to token "Bot B", "./db.sqlite", env "test", guild "G", dry run on, and a 2 s tick when "2s" parses as two seconds |

## Left out

- `Scheduler.Start` (internal/scheduler/scheduler.go:28-41) is not modelled. It is the goroutine, the ticker and context cancellation, so it is concurrency and timing. Only a single tick is modelled.
- Concurrency between the scheduler and user commands is not modelled. Each store operation is one atomic step on the map.
- The SQL layer (internal/data with its queries, internal/db, migrations) is not modelled. The reminders table is a map, and the model's SELECTs return rows by ascending id.
- Storage failures are a flag per operation. Their causes and messages are not modelled.
- Logging is not modelled.
- `context.Context` arguments are not modelled.
- `parseFlexibleTimeUTC` (RFC 3339 and "YYYY-MM-DD HH:MM" parsing) is a parameter.
- RFC 3339 formatting of a `once` time is a parameter.
- `time.ParseDuration` is a parameter.
- YAML decoding, file reads, `os.Getenv`, `Load` and `LoadFromFile` are not modelled. `FromValues` receives their values.
- Sub-second precision is not modelled: the model measures every instant in whole Unix seconds. In the Go code only what reaches the database is whole seconds (`.Unix()` at internal/reminders/store.go:63-65, 95 and 107). `time.Now()` and a parsed RFC 3339 `at` can carry fractions of a second. Comparing a whole-second instant with `now` is unaffected: for an integer t, t > now holds exactly when t > the whole second of now.
- One case is lost this way. A `once` time 0.4 s after `now`, in the same second, is accepted by discord.go:186, and store.go:63 then stores a next run that is not after `now` in whole seconds. `PlanAdd` takes parsed times as whole seconds and cannot express this; its "next run after now" holds only for whole-second inputs.
- 64-bit overflow of times and ids is not modelled.
- `NextAfter` reads the calendar date of `from` in `from`'s own location. The model reads it in UTC, which is what every caller passes.
- Discord plumbing is not modelled: sessions, command registration, interaction dispatch, reply texts and the list message format. `HandleAdd` and `HandleDelete` return the kind of reply.
- The option loops of `handleAdd` and `handleDelete` (internal/bot/discord.go:154-165, 269-274) are not modelled. Their values arrive as parameters, empty or 0 when absent.
- Reading the caller's user, channel and guild from the interaction is not modelled.
- `Store.Create` updates the caller's `*Reminder` in place in Go. The model returns the updated reminder instead, so aliasing of that pointer is not modelled.
- GoStrings.ToLower: lower-cases only ASCII capitals and the two non-ASCII runes whose lower case is ASCII (U+0130, U+212A). Other non-ASCII runes are kept as they are, and invalid UTF-8 is not replaced. This never changes whether the result equals `once`, `hourly` or `daily`, which is the only use the Go code makes of it.
- ParseTime.ParseIgnoresSurroundingSpace: stated for padding made of ASCII white-space bytes only. Multi-byte white-space runes around the input are trimmed by the same TrimSpace, but that case is not proved.
- Process lifecycle and the command-line programs (cmd/mizubot, cmd/migrate) are not modelled.
