# FitPulse step accounting, modelled in Dafny

FitPulse is an Android step tracker. Its heart is `StepCounterManager`, which turns
the hardware step counter into "steps today". The counter is cumulative since boot.
The manager keeps one baseline per calendar day in its private `step_prefs` file
(`last_date` and `base_steps_<day>`). A sample on a new day key becomes that day's
baseline, so the first sample of a day reports 0. Every later sample reports
`max(0, raw - baseline)`. Published values are throttled to one per 200 ms. Each
published value is upserted into the Room table `steps` and broadcast as
`STEP_UPDATE`. A reference count (`start`/`stop`) lets several screens share one
sensor registration.

Around the manager, the model covers:

- the `StepDao` queries over the date-keyed table;
- the Monday-to-Sunday week and the day cards of `StatsActivity`;
- the goal percentage of `UserProfileActivity`;
- the label parse, animation duration and minutes of `MainActivity.updateSteps`;
- the account and goal state of `RegisterActivity`, `LoginActivity` and `SettingsActivity`.

Layout:

| file | module | contents |
|---|---|---|
| `wrappers.dfy` | `Wrappers` | `Option` |
| `java_int.dfy` | `JavaInt` | 32-bit `int` wrap-around, `Math.abs`, truncating division |
| `java_text.dfy` | `JavaText` | `Integer.parseInt`, `String.valueOf`, `%,d`, `replaceAll("[^0-9]", "")`, `trim`, string order |
| `prefs.dfy` | `Prefs` | a `SharedPreferences` file as a class over a map of typed values |
| `dates.dfy` | `Dates` | epoch days, `yyyy-MM-dd` keys, Monday-based weeks |
| `step_dao.dfy` | `StepDao` | the `steps` table and its queries |
| `step_counter.dfy` | `StepCounter` | the reference count, the daily baseline, the throttle, and the class `StepCounterManager` |
| `stats.dfy` | `Stats` | the week series and the cards |
| `user_profile.dfy` | `UserProfile` | `safeGetInt`, the goal percentage, the `STEP_UPDATE` receiver |
| `main_screen.dfy` | `MainScreen` | the home screen's `updateSteps` and `onResume` |
| `user_data.dfy`, `settings.dfy`, `login.dfy`, `register.dfy` | `UserData`, `Settings`, `Login`, `Register` | the account screens |

What stays outside the model:

- **Time and dates are parameters.** The day key (`today`) and the wall clock (`now`)
  are passed in. Dates in the statistics screen are epoch-day numbers, and their keys
  come from a proleptic Gregorian conversion.
- **Android state is a ghost variable.** The sensor registration is a ghost flag, and
  the broadcasts are a ghost log of `Emission(stepsToday, atMs)`.

Three points of the code that the model follows as written:

- **Throttle.** `StepCounterManager.java:109-114` publishes exactly when 200 ms have
  passed since the last publication, whatever the value. Its equal-value test is subsumed
  by the time test. `StepCounter.DuplicateTestIsSubsumed` states this.
- **Week selector.** Position 0 shows the current week and every other position shows the
  previous week (`StatsActivity.java:73-78`).
- **Stored baseline types.** A `last_date` or `base_steps_<day>` of another type would make
  `getString`/`getInt` throw. The model excludes such a file by the class invariant
  `StepCounter.StepPrefsOk`. Only the manager writes this file.

## Model

| member | source | states |
|---|---|---|
| StepCounter.AfterStart | app/src/main/java/com/example/fitpulse/StepCounterManager.java:64-68 | without a sensor nothing changes; otherwise the count goes up by one and the listener becomes registered exactly on the 0 to 1 step; the lease invariant (count >= 0, registered iff count > 0) is kept |
| StepCounter.AfterStop | app/src/main/java/com/example/fitpulse/StepCounterManager.java:74-80 | without a sensor or at count 0 nothing changes; otherwise the count goes down by one and the listener is unregistered exactly on the 1 to 0 step; the count never goes negative |
| StepCounter.RunCount | app/src/main/java/com/example/fitpulse/StepCounterManager.java:64-80 | any call sequence that never stops more than was started ends at count `start + starts - stops`, registered exactly when that is positive |
| StepCounter.MatchedCallsReturnToIdle | app/src/main/java/com/example/fitpulse/StepCounterManager.java:66-79 | matched `start`/`stop` calls from idle return to count 0, unregistered |
| StepCounter.StartStartStopStaysRegistered | app/src/main/java/com/example/fitpulse/StepCounterManager.java:66-79 | `start; start; stop` leaves the listener registered with count 1 |
| StepCounter.ExtraStopIsIgnored | app/src/main/java/com/example/fitpulse/StepCounterManager.java:76-79 | a second `stop` after `start; start; stop` unregisters; a third is ignored and the count stays 0 |
| StepCounter.NoSensorRunIsIdle | app/src/main/java/com/example/fitpulse/StepCounterManager.java:65-75 | without a sensor no call sequence changes the count or the registration |
| StepCounter.StartThenStop | app/src/main/java/com/example/fitpulse/MainActivity.java:137-148 | one visible period of a screen (`start` in `onStart`, `stop` in `onStop`; the same pair is at SettingsActivity.java:104 and 110 and StatsActivity.java:109 and 114) leaves the lease as it was |
| StepCounter.StepCounterManager.constructor | app/src/main/java/com/example/fitpulse/StepCounterManager.java:35-50 | a new manager has count 0, no registration, `lastSentSteps = -1`, `lastSentAtMs = 0` and no broadcasts |
| StepCounter.StepCounterManager.Start | app/src/main/java/com/example/fitpulse/StepCounterManager.java:64-68 | the new count and registration are `AfterStart` of the old ones; the throttle state and the broadcasts are unchanged; the invariant is kept |
| StepCounter.StepCounterManager.Stop | app/src/main/java/com/example/fitpulse/StepCounterManager.java:74-80 | the new count and registration are `AfterStop` of the old ones; the throttle state and the broadcasts are unchanged; the invariant is kept |
| StepCounter.BaseKey | app/src/main/java/com/example/fitpulse/StepCounterManager.java:100 | a baseline key is never the `last_date` key |
| StepCounter.BaseKeyInjective | app/src/main/java/com/example/fitpulse/StepCounterManager.java:100 | different days have different baseline keys |
| StepCounter.Rollover | app/src/main/java/com/example/fitpulse/StepCounterManager.java:95-102 | afterwards `last_date` is today and today has a baseline; on the same day the file is unchanged; on another day, or with `last_date` absent, today's baseline is the sample; no other day's baseline changes; the file stays well-typed |
| StepCounter.StepsSince | app/src/main/java/com/example/fitpulse/StepCounterManager.java:105 | `Math.max(0, raw - base)` with Java `int` subtraction is never negative, and for non-negative values it is `raw - base` or 0 |
| StepCounter.TodaySteps | app/src/main/java/com/example/fitpulse/StepCounterManager.java:95-105 | steps today lie in `[0, raw]`; the first sample of a new day key gives 0; on the same day they are `raw - base` or 0 when the sample is below the baseline |
| StepCounter.ReturnToEarlierDayRebaselines | app/src/main/java/com/example/fitpulse/StepCounterManager.java:97-102 | a sample on a day other than `last_date` that already has a baseline overwrites it and reports 0 |
| StepCounter.RebootWithinDayKeepsBaseline | app/src/main/java/com/example/fitpulse/StepCounterManager.java:97-105 | a same-day sample below the baseline reports 0 and leaves the file unchanged |
| StepCounter.ReplayFixedBase | app/src/main/java/com/example/fitpulse/StepCounterManager.java:104-105 | once today's baseline is set, every further sample of the day reports `max(0, raw - base)` against that one baseline |
| StepCounter.SamplesOfOneDay | app/src/main/java/com/example/fitpulse/StepCounterManager.java:95-105 | within one day all values are the sample minus one baseline (or 0); the first sample of a new day is that baseline and reports 0; non-decreasing samples give non-decreasing values |
| StepCounter.BaselineAndThrottleScenario | app/src/main/java/com/example/fitpulse/StepCounterManager.java:104-114 | with baseline 5000, a sample of 5137 reports 137, a repeat 50 ms after it is sent is held back, and 5140 after another 250 ms reports 140 and is sent |
| StepCounter.Emits | app/src/main/java/com/example/fitpulse/StepCounterManager.java:112-114 | a sample is published exactly when at least 200 ms have passed since the last publication |
| StepCounter.SuppressedAsWritten | app/src/main/java/com/example/fitpulse/StepCounterManager.java:109-114 | the two early returns as written, which `OnSensorChanged` tests: the same value within 200 ms, or any value within 200 ms |
| StepCounter.DuplicateTestIsSubsumed | app/src/main/java/com/example/fitpulse/StepCounterManager.java:109-114 | the two early returns together suppress a sample exactly when less than 200 ms have passed since the last send |
| StepCounter.FirstSampleEmits | app/src/main/java/com/example/fitpulse/StepCounterManager.java:41-43 | with the initial `lastSentAtMs = 0`, any first sample at a clock reading of at least 200 ms is published |
| StepCounter.SpacedApart | app/src/main/java/com/example/fitpulse/StepCounterManager.java:112-116 | in a log whose neighbours are 200 ms apart, emissions `i < j` are at least `200 * (j - i)` ms apart |
| StepCounter.StepCounterManager.LoadTodaySteps | app/src/main/java/com/example/fitpulse/StepCounterManager.java:94-105 | the preferences file becomes `Rollover` of the old one and the result is `TodaySteps` of the old file and the sample |
| StepCounter.StepCounterManager.OnSensorChanged | app/src/main/java/com/example/fitpulse/StepCounterManager.java:86-128 | an event of another sensor type changes nothing; otherwise the rollover is written even when the sample is suppressed; when published, the table row for today becomes today's steps, the broadcast log gains exactly `(steps, now)` and `lastSentSteps`/`lastSentAtMs` become those; when suppressed, table, log and throttle state are unchanged; the reference count is untouched; the invariant (well-typed file, broadcasts 200 ms apart, last broadcast = last-sent state) is kept |
| StepDao.StepStore.Insert | app/src/main/java/com/example/fitpulse/StepDao.java:13-14 | after the upsert the row of that date holds the new count and every other row is unchanged, so there is still one row per date |
| StepDao.GetStepsByDate | app/src/main/java/com/example/fitpulse/StepDao.java:25-26 | returns the row with that key, or none exactly when the date has no row |
| StepDao.GetAfterInsert | app/src/main/java/com/example/fitpulse/StepDao.java:13-26 | after an upsert the lookup of that date returns the new row, and every other lookup is as before |
| StepDao.SortedKeys | app/src/main/java/com/example/fitpulse/StepDao.java:21-22 | the keys in strictly ascending string order, each exactly once |
| StepDao.GetAll | app/src/main/java/com/example/fitpulse/StepDao.java:21-22 | every row of the table exactly once, in strictly ascending key order |
| StepDao.GetAllSteps | app/src/main/java/com/example/fitpulse/StepDao.java:29-30 | every row of the table exactly once, in strictly descending key order |
| StepDao.GetLast7Days | app/src/main/java/com/example/fitpulse/StepDao.java:16-18 | `min(7, n)` rows of the table in strictly descending key order, and every row left out has a smaller key than each row returned |
| StepDao.Last7DaysAreMostRecent | app/src/main/java/com/example/fitpulse/StepDao.java:16-18 | for `yyyy-MM-dd` keys, a recorded day left out is chronologically earlier than every day returned |
| Dates.FormatOrderIsChronological | app/src/main/java/com/example/fitpulse/StepDao.java:17 | for four-digit years, the string order of `yyyy-MM-dd` keys is the chronological order of the dates |
| Dates.DaysFromCivilOfCivilFromDays | app/src/main/java/com/example/fitpulse/StatsActivity.java:136 | converting an epoch day to its calendar date and back gives the same day |
| Dates.FirstKeyDayIsYearOne | app/src/main/java/com/example/fitpulse/StatsActivity.java:51-52 | the first day with a key is 0001-01-01; the day before it is in year 0, whose keys `yyyy` would print as year 0001 |
| Dates.EpochDayExamples | app/src/main/java/com/example/fitpulse/StatsActivity.java:136-137 | the conversion gives 1970-01-01 for epoch day 0 and 2000-02-29 for day 11016, as `LocalDate` does |
| Dates.DayKeyInjective | app/src/main/java/com/example/fitpulse/StatsActivity.java:137 | from 0001-01-01 on, two days have the same `yyyy-MM-dd` key exactly when they are the same day |
| Dates.WeekStart | app/src/main/java/com/example/fitpulse/StatsActivity.java:124-125 | the week start is a Monday on or before the date, less than seven days before it, so the week runs to start + 6 |
| Dates.DayOfWeekInWeek | app/src/main/java/com/example/fitpulse/StatsActivity.java:136-141 | the `i`-th day from the week start is weekday `i` (Monday = 0) |
| Dates.WeekStartOfSameWeek | app/src/main/java/com/example/fitpulse/StatsActivity.java:124 | every day of a week has the same week start, and seven days earlier the week starts seven days earlier |
| Stats.SelectedAnchor | app/src/main/java/com/example/fitpulse/StatsActivity.java:73-78 | position 0 renders today, so the week of today; any other position renders a date whose week starts seven days before this week's Monday |
| Stats.GetOrDefault | app/src/main/java/com/example/fitpulse/StatsActivity.java:137 | the mapped value of a present key, the default otherwise |
| Stats.RowsToMap | app/src/main/java/com/example/fitpulse/StatsActivity.java:128-130 | the map after the `put` of every row: its keys are exactly the rows' dates, and each date holds the count of the last row with that date |
| Stats.RowsToMapOfTableRows | app/src/main/java/com/example/fitpulse/StatsActivity.java:128-130 | for rows that agree with a table, the built map agrees with the table on every date it holds |
| Stats.RowsToMapOfCoveringRows | app/src/main/java/com/example/fitpulse/StatsActivity.java:128-130 | rows that agree with a table and cover all its dates build exactly that table |
| Stats.ByDateIsTable | app/src/main/java/com/example/fitpulse/StatsActivity.java:128-130 | `byDate` built from `getAllSteps()` has exactly one entry per stored date, with that row's count |
| Stats.BuildByDate | app/src/main/java/com/example/fitpulse/StatsActivity.java:129-130 | the `put` loop builds the map in which a later row for a date replaces an earlier one |
| Stats.WeekSeries | app/src/main/java/com/example/fitpulse/StatsActivity.java:133-141 | the date loop yields exactly seven bars, bar `i` at `x = i` holding the count of week start + `i` or 0 |
| Stats.LoadWeek | app/src/main/java/com/example/fitpulse/StatsActivity.java:122-141 | the data part of `loadAndRenderWeek`: the map from the rows and the seven bars over it |
| Stats.WeekBarsShowTable | app/src/main/java/com/example/fitpulse/StatsActivity.java:124-141 | over the table's rows, bar `i` is weekday `i` of the anchor's week and shows that day's stored count or 0; the anchor lies in its week |
| Stats.WeekBarsAreDistinctDays | app/src/main/java/com/example/fitpulse/StatsActivity.java:136-141 | two different days of one Monday-to-Sunday week have different day keys, so the seven bars look up seven different rows |
| Stats.Cards | app/src/main/java/com/example/fitpulse/StatsActivity.java:203-209 | three card values, for today, yesterday and two days ago; `CardOfTable` gives each one's value over the table |
| Stats.CardOfTable | app/src/main/java/com/example/fitpulse/StatsActivity.java:203-209 | card `k` shows the count of today - `k`, or 0 when that day has no row |
| Stats.CardMatchesBar | app/src/main/java/com/example/fitpulse/StatsActivity.java:203-209 | a card of a day in the current week shows the same count as that day's bar |
| Stats.CardsShowTable | app/src/main/java/com/example/fitpulse/StatsActivity.java:199-216 | over the table's rows, the three cards show today, yesterday and two days ago (or 0), agreeing with the current week's bars |
| UserProfile.SafeGetInt | app/src/main/java/com/example/fitpulse/UserProfileActivity.java:149-155 | a stored int is returned; a stored string is parsed, with the default when it does not parse; an absent key or a value of another type gives the default |
| UserProfile.SafeGetIntOfDecimalText | app/src/main/java/com/example/fitpulse/UserProfileActivity.java:152 | an `int` saved as its decimal text reads back as that `int` |
| UserProfile.SafeGetIntOfBadText | app/src/main/java/com/example/fitpulse/UserProfileActivity.java:152-153 | a string that is not a decimal `int` reads as the default |
| UserProfile.Clamp | app/src/main/java/com/example/fitpulse/UserProfileActivity.java:115-116 | negative values become 0; others are kept |
| UserProfile.RoundHalfUp | app/src/main/java/com/example/fitpulse/UserProfileActivity.java:122 | the rounded quotient is the nearest integer, halves rounded up |
| UserProfile.GoalPercent | app/src/main/java/com/example/fitpulse/UserProfileActivity.java:121-123 | the percentage is at most 100, and 0 for a goal of at most 0; its value for a positive goal is stated by `GoalPercentInRange` |
| UserProfile.GoalPercentInRange | app/src/main/java/com/example/fitpulse/UserProfileActivity.java:121-123 | while the rounded ratio fits in an `int`, the percentage lies in `[0, 100]`; below 100 it is the nearest integer to `reached * 100 / goal` (halves up), and it is 100 exactly when that ratio rounds to 100 or more: `min(100, Math.round(reached * 100.0 / goal))` |
| UserProfile.GoalReachedShowsFull | app/src/main/java/com/example/fitpulse/UserProfileActivity.java:121-123 | reached >= goal > 0 shows 100, while the ratio fits in an `int` |
| UserProfile.GoalPercentMonotone | app/src/main/java/com/example/fitpulse/UserProfileActivity.java:121-123 | more steps never show a smaller percentage, while the ratio fits in an `int` |
| UserProfile.GoalPercentWrapsForHugeRatio | app/src/main/java/com/example/fitpulse/UserProfileActivity.java:122 | the `(int)` cast wraps: a goal of 1 with `Integer.MAX_VALUE` steps shows -100 |
| UserProfile.GoalUi | app/src/main/java/com/example/fitpulse/UserProfileActivity.java:111-127 | the shown goal and steps are the clamped `safeGetInt` values of `step_goal` (default 10000) and `today_steps` (default 0), and the percentage is computed from them |
| UserProfile.EmptyPrefsView | app/src/main/java/com/example/fitpulse/UserProfileActivity.java:112-113 | with nothing saved the view shows goal 10000, 0 steps, 0 % |
| UserProfile.StepUpdateIsShown | app/src/main/java/com/example/fitpulse/UserProfileActivity.java:44-47 | after the receiver's write, the view shows the received (clamped) count against an unchanged goal |
| UserProfile.OnStepUpdate | app/src/main/java/com/example/fitpulse/UserProfileActivity.java:42-49 | another action changes nothing; `STEP_UPDATE` stores `today_steps` first and then recomputes the view from the updated file |
| MainScreen.Label | app/src/main/java/com/example/fitpulse/MainActivity.java:120 | the `%,d Steps` label; `OldStepsOfLabel` reads it back to the count |
| MainScreen.OldSteps | app/src/main/java/com/example/fitpulse/MainActivity.java:100-105 | the old value is a non-negative `int`: the number formed by all the label's digits when it fits in an `int`, and 0 when the label has no digits |
| MainScreen.OldStepsOfLabel | app/src/main/java/com/example/fitpulse/MainActivity.java:102-120 | reading back the `"%,d Steps"` label of a non-negative `int` gives that number |
| MainScreen.OldStepsOfOverflow | app/src/main/java/com/example/fitpulse/MainActivity.java:101-105 | digits that make a number beyond `Integer.MAX_VALUE` read as 0 |
| MainScreen.AnimationDuration | app/src/main/java/com/example/fitpulse/MainActivity.java:113-114 | the duration always lies in `[80, 500]` |
| MainScreen.DurationBySize | app/src/main/java/com/example/fitpulse/MainActivity.java:113-114 | for non-negative counts, the duration is 120 for a change of at most 3 and `min(500, 20 * change)` otherwise |
| MainScreen.DurationOfOverflow | app/src/main/java/com/example/fitpulse/MainActivity.java:113 | when the subtraction wraps to `Integer.MIN_VALUE`, `Math.abs` stays negative and the duration is 120 |
| MainScreen.Minutes | app/src/main/java/com/example/fitpulse/MainActivity.java:131 | for non-negative steps, the whole number of 130-step minutes |
| MainScreen.ResumeSteps | app/src/main/java/com/example/fitpulse/MainActivity.java:155-160 | `onResume` shows today's stored count, or 0 without a row |
| MainScreen.HomeScreen.UpdateSteps | app/src/main/java/com/example/fitpulse/MainActivity.java:98-133 | the old value is read from the previous label, the duration follows from old and new, the label ends as the new count and the minutes are `steps / 130` |
| Settings.GoalFieldText | app/src/main/java/com/example/fitpulse/SettingsActivity.java:46-48 | the field shows 10000 when no goal is saved |
| Settings.OnSaveGoal | app/src/main/java/com/example/fitpulse/SettingsActivity.java:51-59 | text that parses as an `int` is stored as the goal with no range check; other text changes nothing |
| Settings.SavedGoalRoundTrip | app/src/main/java/com/example/fitpulse/SettingsActivity.java:46-54 | a saved goal is shown as its decimal text, which parses back to the same goal |
| Settings.ResaveIsIdentity | app/src/main/java/com/example/fitpulse/SettingsActivity.java:46-54 | saving the field unchanged stores the goal already shown |
| Settings.SignedGoalTextExamples | app/src/main/java/com/example/fitpulse/SettingsActivity.java:52-57 | `+5` and `-007` are accepted, `Integer.MIN_VALUE` is accepted, and one below it or `+2147483648` is rejected |
| Settings.GoalTextExamples | app/src/main/java/com/example/fitpulse/SettingsActivity.java:52-57 | 0, negative numbers and `Integer.MAX_VALUE` are accepted; empty text, surrounding blanks, letters and `2147483648` are rejected |
| Settings.OnLogout | app/src/main/java/com/example/fitpulse/SettingsActivity.java:70-72 | `logged_in` becomes false and nothing else changes |
| Settings.LogoutKeepsAccount | app/src/main/java/com/example/fitpulse/SettingsActivity.java:71-72 | after logout the login screen asks again, the same credentials still match, and email, password and name are kept |
| JavaText.ParseInt | app/src/main/java/com/example/fitpulse/SettingsActivity.java:53 | a result is always an `int`; empty text, a lone sign, a non-digit anywhere after the sign or a bad first character is rejected; all-digit text within range parses to its value; a `-` or `+` followed by digits (leading zeros allowed) parses to the signed value exactly when that fits in an `int`, so `-2147483648` parses and `-2147483649` does not; a negative result comes from a leading `-` |
| JavaText.ParseIntOfIntToString | app/src/main/java/com/example/fitpulse/SettingsActivity.java:48-53 | `parseInt(String.valueOf(n)) == n` for every `int` |
| JavaText.IntToString | app/src/main/java/com/example/fitpulse/SettingsActivity.java:48 | `String.valueOf(int)`: a leading `-` exactly for negative numbers, followed by digits only; `ParseIntOfIntToString` reads it back |
| JavaText.Grouped | app/src/main/java/com/example/fitpulse/MainActivity.java:120 | `%,d`: a leading `-` exactly for negative numbers, otherwise a leading digit; `StripGrouped` gives its digits |
| JavaText.StripNonDigits | app/src/main/java/com/example/fitpulse/MainActivity.java:102 | `replaceAll("[^0-9]", "")`: only digits, never longer than the text; `StripAppend` splits it over a concatenation |
| JavaText.Trim | app/src/main/java/com/example/fitpulse/LoginActivity.java:52-53 | `String.trim`: the result is a slice `s[i..j]` of the text with only trimmable characters before `i` and after `j`, and no trimmable character at either of its ends; `TrimIdempotent` and `Login.SurroundingBlanksIgnored` build on it |
| JavaText.StripGrouped | app/src/main/java/com/example/fitpulse/MainActivity.java:102-120 | removing every non-digit from the `%,d` rendering of `n >= 0` leaves the digits of `n` |
| JavaText.TrimIdempotent | app/src/main/java/com/example/fitpulse/LoginActivity.java:52-53 | trimming twice is trimming once |
| JavaInt.ToInt | app/src/main/java/com/example/fitpulse/UserProfileActivity.java:122 | the narrowing to `int` keeps values in range and otherwise differs by a multiple of 2^32 |
| JavaInt.Abs | app/src/main/java/com/example/fitpulse/MainActivity.java:113 | `Math.abs` is the magnitude, except that `Integer.MIN_VALUE` stays itself |
| JavaInt.Div | app/src/main/java/com/example/fitpulse/MainActivity.java:131 | Java's division by a positive divisor truncates toward zero |
| Login.AlreadyLoggedIn | app/src/main/java/com/example/fitpulse/LoginActivity.java:43-48 | the screen skips the form exactly when `logged_in` is stored as true |
| Login.CredentialsMatch | app/src/main/java/com/example/fitpulse/LoginActivity.java:52-60 | login matches exactly when an email and a password are saved and equal the trimmed inputs |
| Login.OnLoginClick | app/src/main/java/com/example/fitpulse/LoginActivity.java:50-70 | success exactly on a match; success sets `logged_in` to true and nothing else; failure changes nothing |
| Login.LoginSetsLoggedIn | app/src/main/java/com/example/fitpulse/LoginActivity.java:62 | after a successful login the screen skips the form |
| Login.NoSavedCredentialsNoLogin | app/src/main/java/com/example/fitpulse/LoginActivity.java:56-60 | with no saved email or password, no input logs in |
| Login.UntrimmedPasswordNeverMatches | app/src/main/java/com/example/fitpulse/LoginActivity.java:53-60 | a saved password that starts or ends with a blank can never be matched |
| Login.SurroundingBlanksIgnored | app/src/main/java/com/example/fitpulse/LoginActivity.java:52-53 | inputs that differ from matching ones only by surrounding blanks still match |
| Register.FieldsValid | app/src/main/java/com/example/fitpulse/RegisterActivity.java:36-44 | registration proceeds exactly when the trimmed email, the raw password and the trimmed name are all non-empty |
| Register.Registered | app/src/main/java/com/example/fitpulse/RegisterActivity.java:47-52 | the file gains the trimmed email, the raw password and the trimmed name, overwriting earlier ones; every other key is unchanged |
| Register.OnRegisterClick | app/src/main/java/com/example/fitpulse/RegisterActivity.java:35-53 | valid fields are stored as above; invalid fields change nothing |
| Register.RegisterKeepsLoginState | app/src/main/java/com/example/fitpulse/RegisterActivity.java:48-52 | registration keeps the file well-typed and leaves the login flag as it was |
| Register.RegisterThenLogin | app/src/main/java/com/example/fitpulse/RegisterActivity.java:36-52 | after registering, the same inputs log in, provided the password has no surrounding blanks |
| Register.BlankPasswordAcceptedButUnusable | app/src/main/java/com/example/fitpulse/RegisterActivity.java:37-41 | a password of only spaces is accepted and stored, yet no login input matches it |

## Left out

- Concurrency: the synchronized singleton `get`, the locks on `start`/`stop`, the per-event
  thread that writes the table, the executor and `runOnUiThread`. Every call is sequential,
  and a write happens at the moment of the call. `onSensorChanged` itself is not synchronized.
- Android plumbing: the SensorManager registration is a ghost flag, and the
  `LocalBroadcastManager` broadcasts are a ghost log. Room/SQLite is a map from date key to
  count. `SharedPreferences` is a map of typed values: its `apply()` shows in memory at once,
  and its disk write is not modelled.
- Clock and locale: `today` (the day key), `now` and the statistics screen's `LocalDate.now()`
  are parameters. Locale digit variants and grouping separators other than `,` are not
  modelled. `Integer.parseInt` accepts ASCII digits only here, while Java also accepts other
  Unicode decimal digits.
- Dates.DayKey: keys are modelled for days from 0001-01-01 (`FIRST_KEY_DAY`) on. `yyyy`
  prints the year of the era, so Java prints the days of year 0 as year 0001, and their keys
  would collide with year 1. Earlier days have no key in the model. For years above 9999
  Java prints a leading `+`, which `DayKey` does not: there the model's key differs from
  Java's, and those years are outside the key-order lemmas.
- StepCounter.StepCounterManager.OnSensorChanged: the sample is taken as an `int` in
  `[0, Integer.MAX_VALUE]`, so the `(int)` cast of the `float` reading is not modelled.
  The clock difference `now - lastSentAtMs` is a `long` and is taken as unbounded.
- StepCounter.StepCounterManager.Start: the count is an unbounded integer, so `int` overflow
  after 2^31 starts is not modelled.
- StepCounter.StepCounterManager.OnSensorChanged: the `steps_today` extra and the receivers'
  `getIntExtra` default are not modelled. The receivers take the broadcast value directly.
- StepCounter.StepCounterManager.Valid: a `last_date` or baseline of another type, which
  the code would fail on, is excluded by the invariant rather than handled.
- UserProfile.RoundHalfUp: `Math.round` of a `double` is modelled as exact rounding of the
  rational quotient. The app first rounds `reached * 100.0 / goal` to a 53-bit `double`, so
  a quotient just below a half, closer to it than that rounding step, may round up there.
- UserProfile.GoalPercentInRange, UserProfile.GoalReachedShowsFull and
  UserProfile.GoalPercentMonotone hold only while the rounded ratio fits in an `int`
  (`PercentFits`). `GoalPercentWrapsForHugeRatio` shows the case where it does not.
- Stats.WeekSeries: `BarEntry` holds `float` values, which are exact only up to 2^24.
  The model keeps the `int` counts.
- Floating point: the calories estimate, the `/ 2.2` seconds, BMI in `SensorMonitorActivity`,
  the fractions of `StepProgressView` and the chart's value formatter.
- MainScreen.HomeScreen.UpdateSteps: the animation is modelled by its last frame only (the
  label ends as the new count). The progress ring, calories and seconds text are not modelled.
- UI-only code: layouts, navigation, chart styling, the x-axis day names, `setOrHide`,
  toasts, and `MainActivity.getSavedStepGoal`, whose value only feeds the progress ring.
- `SensorMonitorActivity` and `StepProgressView` are not part of this model. Nor are
  `AppDatabase` (the Room builder) and the build configuration. `StepEntry` is the
  `StepDao.StepEntry` datatype, and its primary key is the key of the table map.
- String order: `ORDER BY date` is modelled as character order (`StepDao.SortedKeys`),
  which equals SQLite's `BINARY` collation on the ASCII keys the app writes.
