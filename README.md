# Dark Alarm Clock — a verified model of its scheduling core

This project models the core of a browser alarm clock in Dafny. The user
keeps a list of named alarms. Each alarm has a time of day, a set of
weekdays, a tone, a ring duration and a snooze interval. The application
works out which alarm rings next, arms one timer for it, and moves alarms
through the states idle, armed, ringing and snoozed as they ring, are
snoozed, stopped or edited.

The model is split into modules that follow the source files:

- `LocalClock` (`local_clock.dfy`) is the time base. An instant is an
  integer number of milliseconds on a fixed-offset local timeline. Its
  day is `t / 86400000`, its time of day `t % 86400000`, and its weekday
  is `(day + 4) % 7`, numbered like `Date.getDay` (local day 0 is a
  Thursday). With this, `Date.setHours` and `Date.setDate` become plain
  arithmetic.
- `Time` (`src/utils/time.ts`) holds `pad2`, the 24 h and 12 h
  formatters, `parseHHMM` and `nextOccurrence`.
- `Days` (`src/utils/days.ts`) holds `DAY_KEYS`, `dayKeyForDate`, and
  `formatDaysShort` as a method that builds its list of parts one push at
  a time.
- `Alarms` (`src/state/alarms.ts` and the tone ids of
  `src/services/toneCatalog.ts`) holds the data model, the day-set
  presets, `isAnyDaySelected` and `createDefaultAlarm`.
- `AlarmMigrations` (`src/state/alarmMigrations.ts`) decodes a parsed
  JSON value into a non-empty list of alarms. `normalizeAlarms` is a
  method with the source's skipping loop. It is proved equal to a
  specification function, and loading is proved to be idempotent through
  an encoder.
- `MultiAlarmScheduler` (`src/hooks/useMultiAlarmScheduler.ts`) has the
  bounded seven-day search and the earliest-candidate scan, both as
  loops. It also has the hook's timer slot, as a class whose `Schedule`
  clears the pending timer and then arms at most one new one.
- `App` (`src/App.tsx`) has the per-alarm transitions as pure list
  functions and the host's state as a class. Each handler is a method
  that applies one of those functions.
- `TimeSpinner` (`src/components/TimeSpinner.tsx`) has `clamp`, the
  JavaScript `mod`, and the typed-input and wheel handlers.

JavaScript's `%` truncates toward zero. It is modelled as `TruncRem`, and
the source's `((n % m) + m) % m` is proved equal to Dafny's Euclidean
`n % m` for every positive `m`.

The code differs from what one might expect in these places:

- Editing a ringing or snoozed alarm keeps that status even when the new
  config is disabled. Disabling does not force `idle`
  (src/App.tsx:112-119).
- The auto-stop callback changes only the status. It leaves
  `snoozeUntilMs` as it was (src/App.tsx:94).
- Snoozing uses `max(1, snoozeMinutes)` minutes, not `snoozeMinutes`
  (src/App.tsx:192).
- The timer is cleared and re-armed on every recompute, whether or not the
  due alarm changed (src/hooks/useMultiAlarmScheduler.ts:55-66).
- `snoozeUntilMs` is not kept null outside the snoozed state. The loader
  keeps any number it finds (src/state/alarmMigrations.ts:22).
- The loader does not range-check the hour or the minute
  (src/state/alarmMigrations.ts:59-60), and `nextOccurrence` moves on by
  one day at most (src/utils/time.ts:31-34). An hour of -5 at 20:00 gives
  19:00 the same day, so the alarm's due time is already past and it rings
  at once. `MultiAlarmScheduler.OutOfRangeHourDueInPast` exhibits this.

## Model

| member | source | states |
|---|---|---|
| LocalClock.MsOfDay | src/utils/time.ts:28-36 | the time of day of an instant lies in `[0, 86400000)` |
| LocalClock.StartOfDay | src/utils/time.ts:28-36 | local midnight is at or before the instant, less than a day before it, and adding the time of day gives the instant back |
| LocalClock.Weekday | src/utils/days.ts:5-25 | the `getDay` number of an instant lies in 0..6 |
| LocalClock.Hours | src/utils/time.ts:11-16 | `getHours` lies in 0..23 |
| LocalClock.Minutes | src/utils/time.ts:11-16 | `getMinutes` lies in 0..59 |
| LocalClock.Seconds | src/utils/time.ts:11-16 | `getSeconds` lies in 0..59 |
| LocalClock.InDay | src/utils/time.ts:28-36 | an instant inside day `d` has day index `d` and time of day `t - d·DAY` |
| LocalClock.SetHours | src/utils/time.ts:31 | `setHours(h, m, 0, 0)`: local midnight of the instant's day plus `h` hours and `m` minutes, rolling over into other days when out of range (no contract; see `SetHoursInDay`) |
| LocalClock.SetHoursInDay | src/utils/time.ts:31 | `setHours(h, m, 0, 0)` lands on a whole minute; for `h` in 0..23 and `m` in 0..59 it stays on the same day, exactly `h:m` after midnight |
| LocalClock.AddDays | src/utils/time.ts:33 | `setDate(getDate() + n)`: the instant `n` whole days later (no contract; see `AddDaysShift`) |
| LocalClock.AddDaysShift | src/utils/time.ts:33 | `setDate(getDate() + n)` moves the day index by `n` and keeps the time of day |
| LocalClock.SameTimeOfDay | src/hooks/useMultiAlarmScheduler.ts:22-25 | two instants with the same time of day are a whole number of days apart |
| Time.OffsetMs | src/utils/time.ts:31 | a valid hour:minute is an offset within one day |
| Time.DigitValue | src/utils/time.ts:25 | a digit's value is in 0..9 and spells back to the same digit |
| Time.NatToString | src/utils/time.ts:3-5 | `String(n)` of a natural number is a non-empty run of digits, one digit long exactly when `n < 10`; which number the digits spell is `NatToStringValue` |
| Time.NatToStringValue | src/utils/time.ts:3-5 | the digits of `String(n)` read as a decimal number give back `n` |
| Time.IntToString | src/utils/time.ts:3-5 | `String(n)` of an integer starts with '-' exactly when `n < 0`; the digits that follow spell `|n|` |
| Time.SmallDecimal | src/utils/time.ts:3-5 | `String(n)` of a one- or two-digit number is its decimal digits |
| Time.Pad2 | src/utils/time.ts:3-5 | for `0 <= n <= 99`, `pad2(n)` is the two decimal digits of `n` and starts with '0' exactly when `n < 10` |
| Time.FormatTimeOfDay24 | src/utils/time.ts:7-9 | a valid time formats as five characters with ':' in the middle |
| Time.FormatTime12h | src/utils/time.ts:11-16 | the 12 h clock text ends in " AM" or " PM", according to the hour |
| Time.FormatTime24h | src/utils/time.ts:18-20 | the 24 h clock text is `HH:MM:SS`, eight characters with ':' at positions 2 and 5 |
| Time.Hour12 | src/utils/time.ts:13 | the 12 h hour is in 1..12 and agrees with the 24 h hour modulo 12 |
| Time.Meridiem | src/utils/time.ts:14 | "PM" from hour 12 on and "AM" before, and nothing else |
| Time.TwelveHourClock | src/utils/time.ts:12-14 | the 12 h hour is in 1..12; hour 0 is 12 AM, hour 12 is 12 PM; AM exactly when the hour is below 12; hour and meridiem give the 24 h hour back |
| Time.TwoDigitValue | src/utils/time.ts:25 | two digits read as a number give back their tens and units |
| Time.IsHHMM | src/utils/time.ts:23 | a string the `HH:MM` pattern matches has ':' in the middle, an hour in 0..23 and a minute in 0..59 |
| Time.ParseHHMM | src/utils/time.ts:22-26 | an accepted string is a valid time that formats back to the same string; anything else is the `Invalid time` error |
| Time.ParseFormatRoundTrip | src/utils/time.ts:7-26 | `parseHHMM(formatTimeOfDay24(t)) == t` for every valid time |
| Time.ParseAcceptsExactlyCanonical | src/utils/time.ts:22-26 | `parseHHMM` accepts a string exactly when it is the 24 h form of some valid time |
| Time.NextOccurrence | src/utils/time.ts:29-31 | the result has zero seconds and milliseconds |
| Time.NextOccurrenceIsNext | src/utils/time.ts:28-36 | the result is strictly after `now` and at most one day later; it is at the given hour:minute; it is today when that is still ahead, else tomorrow; no earlier instant after `now` has that time of day |
| Days.DayKeysListEachKeyOnce | src/utils/days.ts:3 | `DAY_KEYS` holds seven keys, each key once |
| Days.WeekdayNumber | src/utils/days.ts:5-25 | every key has a weekday number in 0..6 |
| Days.DayKeyForWeekday | src/utils/days.ts:7-24 | numbers 0..6 map to the key with that number; any other number maps to `mon` |
| Days.DayKeyForWeekdayBijective | src/utils/days.ts:5-24 | each key comes from exactly one number in 0..6 |
| Days.DayKeyForDate | src/utils/days.ts:5-25 | the key of an instant is the one whose number is the instant's `getDay` |
| Days.DayKeyAfterDays | src/utils/days.ts:5-25 | `n` days later the weekday number advances by `n` mod 7 |
| Days.WeekCoversEveryKey | src/utils/days.ts:5-25 | among any seven consecutive days, every key occurs |
| Days.SelectedNames | src/utils/days.ts:29-36 | the selected names are no more than the keys scanned |
| Days.SelectedNamesByDay | src/utils/days.ts:29-36 | the selected names are, Mon to Sun, the short name of each selected day and nothing else |
| Days.SelectedNamesEmptyIffNoDay | src/utils/days.ts:29-37 | there are no names exactly when no day is selected |
| Days.Join | src/utils/days.ts:37 | `parts.join(sep)`: no parts give "", one part gives itself (no contract; see `JoinEnds`) |
| Days.JoinEnds | src/utils/days.ts:37 | the joined text starts with the first part, followed by the separator when there are more parts, and ends with the last part |
| Days.FormatDaysShort | src/utils/days.ts:27-38 | '—' for a missing day-set or one with no day; otherwise the selected names, Mon first, joined by single spaces |
| Alarms.DaysExtensional | src/state/alarms.ts:6-14 | two day-sets that agree on every key are equal |
| Alarms.EveryDay | src/state/alarms.ts:16-18 | every flag is set |
| Alarms.Weekdays | src/state/alarms.ts:20-22 | exactly Mon–Fri are set |
| Alarms.Weekend | src/state/alarms.ts:24-26 | exactly Sat and Sun are set |
| Alarms.IsAnyDaySelected | src/state/alarms.ts:28-30 | true exactly when some key is set |
| Alarms.PresetsPartitionWeek | src/state/alarms.ts:16-30 | weekdays and weekend are disjoint and together make every day; all three presets select a day; the all-false set selects none |
| Alarms.ToneFromName | src/services/toneCatalog.ts:1 | reading a tone name gives back a tone with that name |
| Alarms.ToneNameRoundTrip | src/services/toneCatalog.ts:1 | a well-formed tone's name reads back as the same tone |
| Alarms.CreateDefaultAlarm | src/state/alarms.ts:58-76 | each supplied field is used as given, else the default (`Alarm`, disabled, 07:30, weekdays, beep, 30 s, snooze 7); the id is the supplied one or the generated one; the status is armed exactly when `enabled` is supplied true, else idle; no snooze |
| AlarmMigrations.Prop | src/state/alarmMigrations.ts:4-6 | only an object has properties |
| AlarmMigrations.IsObject | src/state/alarmMigrations.ts:4-6 | `undefined` and `null` are not objects; arrays and plain objects are |
| AlarmMigrations.Truthy | src/state/alarmMigrations.ts:29-35 | `Boolean(v)` is false exactly for `undefined`, `null`, `false`, `0` and the empty string |
| AlarmMigrations.StatusFromName | src/state/alarmMigrations.ts:15-18 | each of the four status strings reads as its status; a status read always has that name |
| AlarmMigrations.NormalizeRuntime | src/state/alarmMigrations.ts:8-24 | a recognised status string is kept, anything else becomes armed or idle according to `enabled`; `snoozeUntilMs` is kept exactly when it is a number |
| AlarmMigrations.NormalizeDays | src/state/alarmMigrations.ts:26-41 | the result always selects a day; no truthy flag (or no object) gives weekdays; otherwise each flag is the truthiness of its field |
| AlarmMigrations.NormalizeDuration | src/state/alarmMigrations.ts:63-66 | 'untilStop' and any number are kept, anything else is 30 s |
| AlarmMigrations.DecodeTone | src/state/alarmMigrations.ts:62 | a string tone id is kept by name, a missing one is beep |
| AlarmMigrations.DecodeConfig | src/state/alarmMigrations.ts:54-82 | each config field is the raw value when it has the right type and the default otherwise; a string id is kept, else the generated id |
| AlarmMigrations.NormalizeItem | src/state/alarmMigrations.ts:47-84 | an item is dropped exactly when it or its config is not an object; otherwise it gives one loaded alarm whose runtime is normalised against the loaded `enabled` |
| AlarmMigrations.Decoded | src/state/alarmMigrations.ts:47-89 | one outcome per raw item, in order |
| AlarmMigrations.KeptStep | src/state/alarmMigrations.ts:47-89 | one more item adds its alarm at the end when it is kept, and nothing otherwise |
| AlarmMigrations.Kept | src/state/alarmMigrations.ts:47-89 | the values the skip-or-push loop collects, at most one per item, in item order (order and origin in `KeptKeepsOrder`) |
| AlarmMigrations.NormalizedAlarms | src/state/alarmMigrations.ts:43-92 | never empty, every alarm loaded; a non-array gives one default 'Alarm 1'; no surviving item gives one 'Alarm 1' on every day; else the kept alarms |
| AlarmMigrations.NormalizeAlarms | src/state/alarmMigrations.ts:43-92 | the loop's output is `NormalizedAlarms` |
| AlarmMigrations.KeptKeepsOrder | src/state/alarmMigrations.ts:47-89 | the kept alarms come from strictly increasing input positions, one per kept item, so input order is kept and nothing kept is lost |
| AlarmMigrations.KeptAreLoaded | src/state/alarmMigrations.ts:47-89 | every kept alarm is loaded: some day is selected and its tone is well formed |
| AlarmMigrations.KeptAll | src/state/alarmMigrations.ts:47-89 | when no item is dropped, every alarm is kept, in order |
| AlarmMigrations.EncodeAlarms | src/hooks/useLocalStorageState.ts:17 | the encoding is an array with one entry per alarm |
| AlarmMigrations.EncodedConfigProps | src/state/alarmMigrations.ts:54-67 | every field the loader reads is present in an encoded config with its value |
| AlarmMigrations.EncodedDayProp | src/state/alarmMigrations.ts:29-35 | each encoded day flag is the boolean of that day |
| AlarmMigrations.DecodeEncodeDays | src/state/alarmMigrations.ts:26-41 | a day-set with a selected day decodes back to itself |
| AlarmMigrations.DecodeEncodeRuntime | src/state/alarmMigrations.ts:8-24 | an encoded runtime decodes back to itself |
| AlarmMigrations.DecodeConfigFromProps | src/state/alarmMigrations.ts:54-82 | a config object carrying each field of `c` decodes to `c` |
| AlarmMigrations.DecodeEncodeConfig | src/state/alarmMigrations.ts:54-82 | an encoded config decodes back to itself |
| AlarmMigrations.DecodeEncodeAlarm | src/state/alarmMigrations.ts:47-84 | an encoded loaded alarm decodes back to itself |
| AlarmMigrations.NormalizeIdempotent | src/state/alarmMigrations.ts:43-92 | loading an encoded loaded list gives the same list, whatever ids would be generated |
| MultiAlarmScheduler.SearchSelectedDay | src/hooks/useMultiAlarmScheduler.ts:19-27 | an instant the search finds is on a selected day |
| MultiAlarmScheduler.NextDayAt | src/hooks/useMultiAlarmScheduler.ts:22-24 | one step of the search: the next day, at the alarm's time (no contract; see `NextDayAtIsNextDay`) |
| MultiAlarmScheduler.NextDayAtIsNextDay | src/hooks/useMultiAlarmScheduler.ts:22-24 | for a valid time a step lands on the next day at that time, exactly one day later when the candidate already shows it |
| MultiAlarmScheduler.ScheduledDue | src/hooks/useMultiAlarmScheduler.ts:12-28 | a scheduled instant exists only when a day is selected, and it is on a selected day |
| MultiAlarmScheduler.NextOccurrenceOnSelectedDay | src/hooks/useMultiAlarmScheduler.ts:12-28 | the seven-step loop returns `ScheduledDue` |
| MultiAlarmScheduler.SearchVisitsDays | src/hooks/useMultiAlarmScheduler.ts:19-25 | the search returns the first selected day among the days it visits, and none when none is selected |
| MultiAlarmScheduler.ScheduledDueCharacterised | src/hooks/useMultiAlarmScheduler.ts:12-28 | none exactly when no day is selected; otherwise strictly after `now`, within seven days, at the alarm's time, on a selected day, and the earliest such instant |
| MultiAlarmScheduler.CandidateDue | src/hooks/useMultiAlarmScheduler.ts:34-41 | an alarm competes exactly when it is enabled, not ringing, and its instant is non-zero; that instant is its snooze instant when it has one, whatever its days, and otherwise its scheduled instant |
| MultiAlarmScheduler.ComputeNextDueAlarm | src/hooks/useMultiAlarmScheduler.ts:30-49 | null exactly when no alarm is a candidate; otherwise the id and time of the first alarm with the earliest candidate time |
| MultiAlarmScheduler.FirstEarliestUnique | src/hooks/useMultiAlarmScheduler.ts:43-44 | the strict `<` makes the chosen alarm unique |
| MultiAlarmScheduler.SampleAlarm | src/hooks/__tests__/useMultiAlarmScheduler.test.ts:6-23 | the test alarm rings every day at the given time, with no snooze |
| MultiAlarmScheduler.EveryDayCandidate | src/hooks/useMultiAlarmScheduler.ts:12-28 | an every-day alarm is due at its next occurrence |
| MultiAlarmScheduler.DisabledAlarmNeverDue | src/hooks/__tests__/useMultiAlarmScheduler.test.ts:26-30 | a disabled alarm has no candidate instant, so by `ComputeNextDueAlarm`'s contract a list of it alone gives null |
| MultiAlarmScheduler.EarlierAlarmChosen | src/hooks/__tests__/useMultiAlarmScheduler.test.ts:32-36 | at 08:00 on Friday 2026-02-20, 'b' at 08:30 is chosen over 'a' at 09:00 |
| MultiAlarmScheduler.SnoozeTakesPrecedence | src/hooks/__tests__/useMultiAlarmScheduler.test.ts:38-45 | a snooze two minutes ahead overrides the 09:00 schedule |
| MultiAlarmScheduler.OutOfRangeHourDueInPast | src/utils/time.ts:28-36 | with an hour of -5, which the loader lets through, the next occurrence at 20:00 is 19:00 the same day, and the alarm competes with that past instant |
| MultiAlarmScheduler.AlarmTimer.constructor | src/hooks/useMultiAlarmScheduler.ts:53 | no timer pending at first |
| MultiAlarmScheduler.AlarmTimer.Clear | src/hooks/useMultiAlarmScheduler.ts:56-59 | the pending timer, if any, is cleared and none is left |
| MultiAlarmScheduler.AlarmTimer.Rearm | src/hooks/useMultiAlarmScheduler.ts:55-66 | clears first; arms nothing when nothing is due; else arms one timer for the due alarm, with delay `max(0, due − clock)`, never negative, firing at the due time or at once |
| MultiAlarmScheduler.AlarmTimer.Schedule | src/hooks/useMultiAlarmScheduler.ts:51-77 | recomputes the next due alarm (as `ComputeNextDueAlarm` promises) and re-arms the slot for it |
| App.Apply | src/App.tsx:51-121 | ring: ringing, no snooze; snooze: snoozed until the given time; stop: armed or idle, no snooze; auto-stop acts only on a ringing alarm; reconfigure replaces the config and keeps ringing/snoozed, else armed exactly when the new config is enabled; consistency is kept |
| App.ApplyTo | src/App.tsx:53-61 | only alarms with the id change; the rest, the length and the order stay; configs change only on reconfigure |
| App.ApplyToKeepsConsistency | src/App.tsx:53-61 | every transition keeps every alarm's status consistent with its flag |
| App.RungAlarmNeverNextDue | src/App.tsx:58 | after ringing an id, the next due alarm never has that id |
| App.SnoozeUntil | src/App.tsx:192-193 | the snooze ends `max(1, snoozeMinutes)` minutes after the clock: `snoozeMinutes` later when that is at least 1, one minute later otherwise |
| App.SnoozedAlarmDueAtUntil | src/App.tsx:198 | an enabled, snoozed alarm is due exactly at its snooze time |
| App.StoppedAlarmBackOnSchedule | src/App.tsx:211 | a stopped alarm is due only if enabled, and then at its scheduled time |
| App.DisabledSnoozedAlarmSilent | src/App.tsx:112-120 | disabling a snoozed alarm keeps it snoozed, but it no longer competes |
| App.AutoStopAfterRing | src/App.tsx:91-97 | auto-stop after ringing is a stop; a second auto-stop does nothing |
| App.AutoStopDelayMs | src/App.tsx:83 | no auto-stop timer for 'untilStop'; otherwise the duration in milliseconds |
| App.FindById | src/App.tsx:30 | a found alarm is in the list with the id; none exactly when no id or no alarm has it |
| App.WithoutId | src/App.tsx:165 | exactly the alarms without the id are kept; a list without the id is unchanged |
| App.WithoutIdDistributes | src/App.tsx:165 | removal works piecewise over concatenation, so order is kept |
| App.WithoutIdIdempotent | src/App.tsx:165 | removing twice is removing once |
| App.RepairedSelection | src/App.tsx:25-28 | null exactly for an empty list; a non-empty selection that some alarm has is kept; anything else becomes the first alarm's id |
| App.RepairSettles | src/App.tsx:25-28 | a repaired selection needs no further repair, for any list, including one with empty ids |
| App.NewAlarmLabel | src/App.tsx:150-151 | the label for a list of `n` alarms is "Alarm " followed by decimal digits that spell `n + 1` |
| App.AlarmHost.constructor | src/App.tsx:18-32 | the loaded list and nothing ringing; with nothing stored the first alarm's id (or none) is selected, a stored `null` selects nothing and gives no draft, a stored id is selected; the draft is the selected alarm's config |
| App.AlarmHost.RingingAlarm | src/App.tsx:42 | the ringing alarm is an alarm of the list with the ringing id; there is none exactly when no id is ringing or no alarm has it |
| App.AlarmHost.OnRing | src/App.tsx:51-66 | the list is ring-applied to the id, which becomes the ringing id |
| App.AlarmHost.OnSnooze | src/App.tsx:188-203 | nothing without a ringing alarm; otherwise it is snoozed until `SnoozeUntil` and the ringing id is cleared |
| App.AlarmHost.StopAlarm | src/App.tsx:205-218 | the alarm is stopped; the ringing id is cleared only when it was this one |
| App.AlarmHost.OnStop | src/App.tsx:220-223 | stops the ringing alarm, if any |
| App.AlarmHost.AutoStopFired | src/App.tsx:89-99 | auto-stop applied to the id and the ringing id cleared |
| App.AlarmHost.UpdateAlarmConfig | src/App.tsx:106-125 | reconfigure applied to the id; nothing else changes |
| App.AlarmHost.AddAlarm | src/App.tsx:149-155 | the old list plus one default alarm labelled 'Alarm n+1' at the end, selected and drafted |
| App.AlarmHost.RemoveAlarm | src/App.tsx:157-168 | the alarms with the id are removed; the ringing id is cleared when it matched |
| App.AlarmHost.SaveDraft | src/App.tsx:127-130 | with a selected alarm and a draft, the draft is applied as a reconfiguration to that alarm's id; otherwise nothing changes |
| App.AlarmHost.CancelDraft | src/App.tsx:132-138 | the draft becomes the selected alarm's saved config, or none without a selected alarm; nothing else changes |
| App.AlarmHost.SelectAlarm | src/App.tsx:140-147 | the id is selected; the draft is that alarm's config when some alarm has the id, and unchanged otherwise |
| App.AlarmHost.RepairSelection | src/App.tsx:25-28 | the selection becomes `RepairedSelection`; nothing else changes |
| App.AddedAlarmStaysSelected | src/App.tsx:149-155 | the alarm just added survives the selection repair |
| App.SelectedAlarmStaysSelected | src/App.tsx:140-147 | a non-empty id that some alarm has survives the selection repair, and that alarm is the one `selectAlarm` drafts |
| TimeSpinner.Clamp | src/components/TimeSpinner.tsx:10-12 | within `[lo, hi]` when `lo <= hi`; `n` itself when in range; the nearer bound otherwise |
| TimeSpinner.TruncRem | src/components/TimeSpinner.tsx:15 | JavaScript `%`: smaller than the divisor in magnitude, with the sign of `n` |
| TimeSpinner.TruncRemEuclid | src/components/TimeSpinner.tsx:15 | JavaScript `%` agrees with the Euclidean remainder for `n >= 0` and is `m` less than it otherwise (unless zero) |
| TimeSpinner.EuclidUnique | src/components/TimeSpinner.tsx:15 | a quotient and a remainder in `[0, m)` that rebuild `a` are the Euclidean ones |
| TimeSpinner.Mod | src/components/TimeSpinner.tsx:14-16 | for `m > 0`, in `[0, m)` and equal to the Euclidean `n % m` |
| TimeSpinner.ModWraps | src/components/TimeSpinner.tsx:14-16 | in-range values are left alone; `m` wraps to 0 and −1 to `m − 1` |
| TimeSpinner.SetHour | src/components/TimeSpinner.tsx:19 | the hour is wrapped into 0..23, an in-range hour kept, the minute unchanged |
| TimeSpinner.SetMinute | src/components/TimeSpinner.tsx:20 | the minute is wrapped into 0..59, an in-range minute kept, the hour unchanged |
| TimeSpinner.HourTyped | src/components/TimeSpinner.tsx:34-38 | NaN emits nothing; a number is clamped to 0..23 and set, the minute unchanged |
| TimeSpinner.MinuteTyped | src/components/TimeSpinner.tsx:64-68 | NaN emits nothing; a number is clamped to 0..59 and set, the hour unchanged |
| TimeSpinner.HourWheel | src/components/TimeSpinner.tsx:39-46 | nothing when disabled; else the hour one up or down modulo 24, the minute unchanged |
| TimeSpinner.MinuteWheel | src/components/TimeSpinner.tsx:69-75 | nothing when disabled; else the minute one up or down modulo 60, with no carry into the hour |
| TimeSpinner.WheelStep | src/components/TimeSpinner.tsx:45 | one notch is +1 when `deltaY < 0` and -1 otherwise |
| TimeSpinner.TypedTimeValid | src/components/TimeSpinner.tsx:19-68 | typed input always gives a valid hour and minute |
| TimeSpinner.WheelWrapsAround | src/components/TimeSpinner.tsx:19-75 | the wheel keeps a time valid; 23 up is 0, 0 down is 23, 59 up is 0, 0 down is 59 |
| TimeSpinner.HourWheelUpThenDown | src/components/TimeSpinner.tsx:45 | one notch up then one down gives back the hour |
| TimeSpinner.MinuteWheelUpThenDown | src/components/TimeSpinner.tsx:74 | one notch up then one down gives back the minute |
| TimeSpinner.UpThenDown | src/components/TimeSpinner.tsx:19-20 | wrapping one step up then one down returns to the start |

## Left out

- Audio playback (`src/services/audioEngine.ts`), `stopAudio`, and the test-tone handlers `onTestTone`/`onStopTest`: foreign Web Audio calls with no state the model tracks.
- Local storage I/O, `JSON.parse` and `JSON.stringify` (`src/hooks/useLocalStorageState.ts`): the loader works on an already-parsed `Json` value, and `EncodeAlarms` stands for the stored form.
- The clock tick (`src/hooks/useNow.ts`) and real timer firing: `now` and the clock are parameters. The timer slot records what is pending and what was cleared, but nothing fires by itself. The `onRing` callback is the `App.AlarmHost.OnRing` method.
- `createAlarmId` (`Date.now` and `Math.random`): the generated id is a parameter (`generatedId`, `freshId`, or `gen(i)` for the i-th loaded item).
- Time zones, daylight-saving changes and calendar arithmetic: instants are on a fixed-offset timeline, so every day is 86 400 000 ms long.
- JavaScript numbers are floats: hours, minutes, durations, snooze minutes and instants are unbounded integers, and NaN is the `None` of an `Option<int>` in the typed-input handlers. The loader does not range-check numbers, and neither does the model.
- Rendering and UI state: the JSX, `LiveClock`, `RingingModal`, `AlarmStatus`, `AlarmForm`, `DaysOfWeekPicker`, locale formatting, `enabledCount`, `nextLabel` and the `isDirty` comparison.
- The stored selection is taken as already parsed. Malformed JSON and an empty stored string both read as nothing stored, as the hook's `catch` and `!raw` do. A stored JSON value that is neither `null` nor a string is not modelled.
- Tone metadata (labels and descriptions in `src/services/toneCatalog.ts`): only the four tone ids are modelled, plus `Unlisted` for any other string the loader's cast lets through.
- Time.FormatTime12h and Time.FormatTime24h state the shape and the AM/PM suffix of the text, not every character; the hour arithmetic is in Time.TwelveHourClock.
- Time.NextOccurrence states only the whole-minute property; the rest of what `nextOccurrence` promises is in Time.NextOccurrenceIsNext.
- TimeSpinner.Mod requires `m != 0`: JavaScript gives NaN for a zero modulus, and the picker only uses 24 and 60.
- App.FindById does not state that the first alarm with the id is found, only that an alarm with it is; the model never relies on which of several alarms with one id is found.
- Days.SelectedNames states only a length bound on its own; what it contains and in what order is stated by Days.SelectedNamesByDay.
- Loaded JSON numbers are integers; a fractional or non-finite number is not modelled.
