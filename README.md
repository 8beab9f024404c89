# Reminder trigger and settings, modelled in Dafny

This project models the core of a small macOS reminder app. The app holds a
trigger time of day. A background thread sleeps until that time, then shows a
countdown window that hides itself after counting down. A settings file holds
the trigger time, the countdown length and a snooze flag.

The model covers two pieces of logic:

- `src/main.rs`: the trigger (`TriggerCountdownUITime`) and what the
  background loop does with it; the start-up trigger; the countdown tick.
- `src/settings.rs`: the `AppSettings` record, its `HH:MM` trigger-time codec,
  its JSON form, `generate_settings_file` and `load_or_create_settings`.

Files:

- `options.dfy`: the `Option` type. `None` also stands for a panic of `unwrap`.
- `clock.dfy` (module `Clock`): chrono's `NaiveTime` as nanoseconds since
  midnight, and `TimeDelta` as signed nanoseconds. It covers subtraction,
  adding a delta with wrap-around at midnight, `num_milliseconds` (truncates
  toward zero), `abs` and `from_hms_opt`.
- `trigger.dfy` (module `Trigger`): the trigger as a class with the fields
  `time` and `repeatMinutes`. The methods are `At`, `SleepDurationFromNow`,
  `RepeatIn`, `IsNow` and `RunOnce`, plus `Run`, which runs the loop over a
  finite list of clock readings. Each method is specified by pure functions
  (`NextTime`, `SleepNanos`, `Fires`, `RunFrom`), and the lemmas state what
  those functions guarantee.
- `countdown.dfy` (module `Countdown`): one tick of the countdown timer as a
  method on the window's `counter` and `visible` fields, and a full countdown
  run.
- `timeformat.dfy` (module `TimeFormat`): `format("%H:%M")` and
  `parse_from_str(_, "%H:%M")`, as chrono treats that pattern. Before each
  number, white space is skipped. Then one or two ASCII digits are read. The
  hour must be below 24 and the minute below 60, and nothing may follow the
  minute.
- `settings.dfy` (module `Settings`): `AppSettings`, abstract JSON values, the
  derived serialisation and deserialisation, and a `FileStore` class. The
  store maps each path to its contents, or to "unreadable". The module also
  holds `GenerateSettingsFile` and `LoadOrCreateSettings`.

The clock is never read. Every operation that calls `Local::now()` in the
source takes the reading as a parameter instead.

## Behaviour of the code the model keeps

- `sleep_duration_from_now` corrects a passed trigger once. With a short
  repeat interval the corrected delay can still be negative. The method then
  returns its absolute value.
- The stored trigger time is shifted by the corrected delay. It is not
  shifted by the repeat interval itself.
- The background loop shows the countdown whenever `is_now` holds.
- The channel's receiver is never read.
- `load_or_create_settings` writes the default file on every call.
- `load_or_create_settings` panics on contents it cannot parse.
- `src/settings.rs` is not declared as a module of the binary. It is modelled
  on its own.

## Model

| member | source | states |
|---|---|---|
| `Trigger.TriggerCountdown.At` | src/main.rs:31-37 | needs `from_hms_opt(hour, minute, 0)` to succeed (otherwise `unwrap` panics); the trigger then reads `hour:minute:00` with no fraction of a second, and has no repeat interval |
| `Clock.FromHms` | src/main.rs:32 | `from_hms_opt` succeeds exactly when hour < 24, minute < 60 and second < 60; the time it builds reads back those fields |
| `Trigger.HasPassed` | src/main.rs:47 | the "already passed" test holds exactly when the trigger lies at least one whole millisecond behind the clock (`num_milliseconds` truncates toward zero) |
| `Clock.NumMilliseconds` | src/main.rs:47 | whole milliseconds, truncated toward zero; negative exactly when the delta is -1 ms or less |
| `Clock.Abs` | src/main.rs:58 | `TimeDelta::abs`: the magnitude of the delta, a non-negative value equal to `d` or `-d` |
| `Clock.AddDelta` | src/main.rs:55 | `NaiveTime += TimeDelta` lands on a time congruent to `t + d` modulo one day, and equals `t + d` when no midnight is crossed |
| `Clock.Diff` | src/main.rs:43 | `NaiveTime - NaiveTime` is the signed difference `a - b`, always strictly within one day either way |
| `Trigger.TriggerCountdown.SleepDurationFromNow` | src/main.rs:41-62 | the new stored time is `NextTime(old time, repeat, now)` and the result is `SleepNanos(old time, repeat, now)`: the absolute value of the delay, corrected once by the repeat interval when the trigger has passed |
| `Trigger.PendingSleep` | src/main.rs:43-58 | when the trigger has not passed, the stored time is unchanged, the sleep is the distance to it, and a trigger behind the clock is less than 1 ms behind; when the trigger is ahead, the sleep is exactly `time - now` and ends exactly on the trigger |
| `Trigger.SubMillisecondPassNotAdvanced` | src/main.rs:47-58 | a trigger less than 1 ms behind is not advanced; the thread sleeps for how far behind the trigger is, and the trigger fires |
| `Trigger.DailyPassedSleep` | src/main.rs:47-58 | with no repeat interval, a passed trigger gives a sleep in (0, 24 h - 1 ms] that ends exactly at the old trigger time of day; the stored time moves to `time + (time - now)` modulo one day |
| `Trigger.RepeatPassedSleep` | src/main.rs:47-58 | with a repeat of `m` minutes, the stored time moves to `time + r + (time - now)` modulo one day (shifted by the corrected delay, not by `r`); while `time - now + r >= 0` the sleep ends at `time + r`, and otherwise the sleep is `now - time - r` |
| `Trigger.ShortRepeatStaysBehind` | src/main.rs:39-58 | a one-minute repeat with the clock five minutes past a 09:00 trigger: the thread sleeps 4 minutes and the stored time becomes 08:56, still behind the clock, so the sleep is not the time until a next trigger |
| `Trigger.DailySleepUnderADay` | src/main.rs:47-58 | with no repeat interval every sleep is shorter than one day |
| `Trigger.TriggerCountdown.RepeatIn` | src/main.rs:64-66 | the repeat interval becomes `Some(minutes)` and the trigger time is unchanged |
| `Trigger.TriggerCountdown.IsNow` | src/main.rs:69-75 | `is_now` holds exactly when the clock is strictly after the stored time; it holds for every passed trigger, and otherwise only when the trigger is less than 1 ms behind |
| `Trigger.PassedFires` | src/main.rs:69-75 | whenever the trigger is at least 1 ms behind, `is_now` is true |
| `Trigger.TriggerCountdown.RunOnce` | src/main.rs:147-153 | one pass of the loop: the stored time and the sleep are those of `sleep_duration_from_now` at the first reading, and the countdown is shown exactly when the second reading is strictly after the new stored time |
| `Trigger.WakeOnPendingTrigger` | src/main.rs:147-153 | for a trigger still ahead, waking exactly when the sleep ends (on the trigger) does not fire, because equal times do not fire; the pass fires exactly when the second reading is strictly after the trigger |
| `Trigger.TriggerCountdown.Run` | src/main.rs:141-165 | passes of the loop over a list of clock readings leave the trace `RunFrom` describes; with no repeat interval every sleep is under a day |
| `Trigger.DailyRunSleepsUnderADay` | src/main.rs:141-165 | with no repeat interval, no pass of any run sleeps a day or more (by induction over the passes) |
| `Trigger.StartupPanicsAtMinute59` | src/main.rs:80-82 | start-up as written calls `at(hour, minute + 1)`; in the last minute of any hour this is minute 60 and start-up panics |
| `Trigger.StartupTimeAsWritten` | src/main.rs:80-82 | start-up as written, `at(hour, minute + 1)`: it panics (`None`) exactly when the clock is in minute 59 of its hour; otherwise the trigger is the same hour at the next minute, a whole minute |
| `Trigger.StartupTime` | src/main.rs:80-82 | the intended start-up trigger: a whole minute, more than 0 and at most one minute ahead of the clock (wrapping past the hour and midnight); it agrees with the code as written whenever that does not panic |
| `Trigger.Startup` | src/main.rs:80-84 | `main` builds a trigger at `StartupTime(now)` that repeats every minute |
| `Countdown.AfterTick` | src/main.rs:100-110 | a tick leaves the counter at zero or above; with time left and the window visible, the counter drops by exactly one and the window stays visible; otherwise the window is hidden and the counter is reset to 10 |
| `Countdown.CountdownWindow.Tick` | src/main.rs:100-110 | the window's counter and visibility become `AfterTick` of their old values, and the timer is re-armed exactly when the counter was positive and the window visible |
| `Countdown.RunToEnd` | src/main.rs:95-111 | a countdown whose window is not hidden meanwhile ends hidden with the counter back at 10; from a visible window with `n > 0` left it takes `n + 1` ticks, otherwise one |
| `Settings.Default` | src/settings.rs:67-74 | the defaults are a 17:00 trigger (a whole minute), a countdown of 10 seconds and no snoozing |
| `TimeFormat.Format` | src/settings.rs:20-26 | `%H:%M` always gives five characters: two digits, `:`, two digits |
| `TimeFormat.FormatFields` | src/settings.rs:24 | the two fields `%H:%M` writes spell out the time's hour and minute, zero-padded (the seconds are dropped) |
| `TimeFormat.Parse` | src/settings.rs:28-34 | a successful `%H:%M` parse always yields a whole minute: seconds and nanoseconds are zero |
| `TimeFormat.ParseShape` | src/settings.rs:28-34 | every string the `%H:%M` parse accepts is optional white space, an hour of one or two digits below 24, `:`, optional white space and a minute of one or two digits below 60, with nothing after it; the result has that hour and minute |
| `TimeFormat.ParseOfShape` | src/settings.rs:28-34 | every string of that shape (any white space, one- or two-digit fields) parses to `from_hms_opt(hour, minute, 0)`: accepted exactly when hour < 24 and minute < 60 |
| `TimeFormat.ParseInRange` | src/settings.rs:32-33 | a zero-padded `HH:MM` string parses exactly when hour < 24 and minute < 60, and then to that hour and minute |
| `TimeFormat.ParseSingleDigits` | src/settings.rs:33 | the parser also accepts one-digit fields: `"8:5"` is 08:05 |
| `TimeFormat.ParseFormat` | src/settings.rs:24-33 | parsing the formatted time gives the time cut to its whole minute, so whole minutes round-trip exactly |
| `TimeFormat.FormatParse` | src/settings.rs:24-33 | a parseable string of the shape `DD:DD` is formatted back to itself |
| `Settings.ToJson` | src/settings.rs:9-26 | the serialised record is an object with exactly the keys `trigger_time`, `countdown_seconds` and `allow_snooze`; the trigger time is a `DD:DD` string |
| `Settings.TriggerTimeFrom` | src/settings.rs:28-34 | the trigger-time field is read exactly from a JSON string that parses as `%H:%M`, and then to that parse, a whole minute |
| `Settings.CountdownSecondsFrom` | src/settings.rs:16 | a `u32` field is read exactly from an integer in [0, 2^32) |
| `Settings.AllowSnoozeFrom` | src/settings.rs:17 | a `bool` field is read exactly from a JSON boolean, as that boolean |
| `Settings.FromJson` | src/settings.rs:9-18 | reading settings succeeds only from an object or from an array of three elements, and always yields a whole-minute trigger time |
| `Settings.FromDocument` | src/settings.rs:61-65 | `AppSettings::from` panics on text that is not JSON; when it succeeds the text was JSON that reads as those settings, with a whole-minute trigger time |
| `Settings.JsonRoundTrip` | src/settings.rs:9-34 | serialising then reading gives back the record with its trigger time cut to the minute; whole-minute records come back unchanged |
| `Settings.JsonRoundTripBack` | src/settings.rs:9-34 | any JSON value that reads as settings is written back in a form that reads as the same settings |
| `Settings.GeneratedFileAtSixPm` | src/settings.rs:91-108 | the defaults with an 18:00 trigger serialise to `{"trigger_time": "18:00", "countdown_seconds": 10, "allow_snooze": false}` |
| `Settings.GenerateSettingsFile` | src/settings.rs:37-42 | the file at `path` afterwards holds the settings' JSON, and no other file changes |
| `Settings.LoadOrCreateSettings` | src/settings.rs:44-58 | the result is `Loaded` of the store before the call; afterwards the file always holds the defaults, because the `map_or` default is evaluated eagerly |
| `Settings.LoadMissing` | src/settings.rs:46-52 | a missing or unreadable file gives the defaults |
| `Settings.Loaded` | src/settings.rs:44-64 | a readable file gives what its old contents read as; contents that are not JSON panic (`None`); any settings loaded have a whole-minute trigger time |
| `Settings.GenerateThenLoad` | src/settings.rs:126-132 | writing whole-minute settings and then loading them gives those settings back |
| `Settings.LoadTwiceFromMissing` | src/settings.rs:116-124 | two loads from a path with no readable file both give the defaults, and each call writes the default file |

## Left out

- `Local::now()`, time zones and leap-second values of `NaiveTime`: each clock reading is a parameter, and a time of day is a plain nanosecond count below one day.
- Panics inside chrono's arithmetic: `TimeDelta::minutes` out of range and `TimeDelta + TimeDelta` overflow. These need a repeat interval of about 1.5·10^14 minutes or more. The model uses unbounded integers there.
- `Trigger.TriggerCountdown.At`: the panic of `from_hms_opt(..).unwrap()` is modelled as the constructor's precondition. `Clock.FromHms` models the `None` case itself.
- `sleep`, `spawn`, the `mpsc` channel and its sends: nothing reads the receiver, and the sleep is only the value returned. `Run` covers a finite number of passes of the endless loop.
- `invoke_from_event_loop`, `invoke_countdown_timer`, `show`, `hide` and `Timer::single_shot`: these are UI toolkit calls. Only the state each countdown tick reads and writes is modelled.
- `Countdown.RunToEnd`: assumes nothing else hides the window during the countdown. The counter's starting value is set in the UI definition, which is not part of this model.
- The status-bar menu (src/main.rs:116-137): it is UI wiring whose only effect is a send nobody receives.
- The unused `AppSettings` with `apps_to_quit` in src/main.rs:16-20.
- `println!` logging.
- serde_json text: pretty or compact layout, escaping, duplicate keys and non-integer numbers are not represented. A file's contents are either a JSON value or text that is not JSON.
- I/O failures of `File::create`, `write_all` and `flush`: writing the settings file always succeeds in the model.
- `Trigger.Startup`: builds its trigger from the corrected `StartupTime`, not from the panicking `at(hour, minute + 1)` (see Findings).

## Findings

| source | as written | input that shows it | evidently intended | confidence | as-written member | corrected member |
|---|---|---|---|---|---|---|
| src/main.rs:82 | `TriggerCountdownUITime::at(time_now.hour(), time_now.minute() + 1)` passes minute 60 in the last minute of an hour, and `from_hms_opt(..).unwrap()` panics | any start-up at `HH:59:ss`, e.g. 10:59:30 | a trigger at the start of the next minute (11:00, or 00:00 after 23:59) | high; not executed | `Trigger.StartupPanicsAtMinute59` | `Trigger.StartupTime` |
