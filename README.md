# SelfTrack habit tracker: data layer model

A Dafny model of the local data layer of the SelfTrack web habit tracker, with proofs about it.
SelfTrack keeps a list of habits and one record per calendar day. A day record maps habit
ids to check values and carries a journal text and a timestamp. The model covers these parts:

- **Validation and Replace-All import/export.** `validators.dfy`, `import.dfy` and
  `export.dfy` cover the schema guard for save files, in its fixed check order and with its
  exact messages. They also cover the import that writes a save file's fields to storage,
  the snapshot the export builds, and the `YYYYMMDD-HHmm` stamp in the export file name.
- **The state store.** `storage.dfy` covers the single stored slot, loaded with a fallback
  to the default state. It also covers the version migration, the shallow merge of
  `updateState`, and a save that may fail.
- **Habit and day actions.** `app.dfy` covers adding a habit, and deleting one with the
  cascade through every day record. It also covers toggling today's check and the field
  wiring of the import.
- **Date arithmetic and streaks.** `dates.dfy`, `calendar.dfy` and `streaks.dfy` model
  Gregorian dates through a days-from-civil number and a weekday. On top of these they
  define ISO `YYYY-MM-DD` text, `addDays`, the month grid of the history calendar and the
  current streak.
- **Aggregates and view computations.** `metrics.dfy`, `views.dfy` and `onboarding.dfy`
  cover the total check-in count, the longest streak and the weekly summary. They also
  cover the Today view's record, done count, percentage and checked state, and the
  first-run check.

JSON values are the datatype `JsonValues.Json`, with integer numbers. Records typed by the
app (habits, day records) are the datatypes of `records.dfy`. `JSON.parse`, `JSON.stringify`,
the clock, today's date and the random id suffix are parameters.

The pure parts are functions. `validateSnapshot` is a function, so it cannot change its
argument. The parts of the source that loop or update state are methods: the streak, total
and weekly loops, the cascade loop of `deleteHabit`, the store writes of the import, and the
storage slot (`Storage.StateStore`). Each method's `ensures` clause ties it to a
specification function. The lemmas state the promised properties about that function.

Behaviour of the code worth noting:

- `longestStreak` resets its run only at a recorded key whose entry is falsy or missing. A calendar gap between two recorded dates does not reset it (Metrics.AllHitsRunThrough).
- The longest streak is at least the current streak when every key of `days` is a well-formed ISO date (Metrics.LongestAtLeastCurrent). A key such as "2024-01-01x" sorts between two consecutive dates and can break the sorted run.
- storage.js keeps the whole state in one slot rather than in one slot per field.
- `migrate` throws on `null` and on primitives; `loadState` catches the error and returns the default state.
- Replace-All writes `version` only when it is truthy, rather than always.
- `weekSummary` reads its window one day early in every time zone other than UTC (js/metrics.js:30-32). `new Date("YYYY-MM-DD")` is UTC midnight and `getDate()` reads the local date. West of UTC that local date is the day before. East of UTC the local midnight built from it is still the previous day in UTC, which `toISOString` writes. The model, having no time zones, starts the window at the given date.

## Model

| member | source | states |
|---|---|---|
| Validators.IsPlainObject | js/validators.js:4-6 | true exactly for JSON objects: false for null, arrays and every primitive |
| Validators.ValidateSnapshot | js/validators.js:8-19 | no message exactly when the input is an object tagged `selftrack.save` with `user`, `days`, `meta` plain objects and `habits` an array; otherwise one of the seven messages; a non-object always gets "File is not a JSON object."; a wrong tag is reported before any key or shape problem |
| Validators.MissingKeyReported | js/validators.js:11-13 | a tagged object missing any one of the four keys gets the missing-keys message |
| Validators.HabitsMapRejected | js/validators.js:14 | `habits` given as an object map gets "habits must be an array." |
| Validators.DaysArrayRejected | js/validators.js:15-17 | `days` given as an array gets "days must be an object map.", however malformed `user` and `meta` are |
| Import.ReadSnapshotFile | js/import.js:7-13 | a parse failure is an error; the result is the parsed value unchanged exactly when the validator accepts it; a rejected file fails with exactly the validator's message |
| Import.ApplySnapshotReplaceAll | js/import.js:19-25 | the store becomes `ReplaceAll` of the old slots, and the writes happen in the order user, habits, days, meta, then version only when it is truthy |
| Import.ReplaceAll | js/import.js:19-25 | the slots present afterwards are the old ones plus the four data slots, plus the version slot when the snapshot's version is truthy |
| Import.ReplaceAllWrites | js/import.js:20-23 | the four data fields land verbatim |
| Import.ReplaceAllVersion | js/import.js:24 | a truthy version is written; otherwise the stored version stays as it was, present or absent |
| Import.ReplaceAllFrame | js/import.js:19-25 | no slot other than the five is touched |
| Import.ReplaceAllIdempotent | js/import.js:20-24 | applying the same snapshot twice leaves the store as applying it once |
| Import.AcceptedHasFields | js/import.js:9-12 | an accepted file is an object with the four fields the write step reads |
| Export.ExportVersion | js/export.js:21 | the state's version when truthy, else "0.1.0"; always truthy |
| Export.BuildSnapshot | js/export.js:18-28 | an object whose `__type` is "selftrack.save", whose version is `ExportVersion`, whose `exportedAt` is the clock reading, and which holds `user`, `habits`, `days` and `meta` exactly when the state does, with the state's values; it has no other field |
| Export.ExportIsValid | js/export.js:18-28 | a state with object `user`, `days` and `meta` and an array `habits` exports to a snapshot the validator accepts |
| Export.ExportImportRoundTrip | js/export.js:18-28 | for a state with object `user`, `days` and `meta` and an array `habits`, reading its exported snapshot back succeeds, and Replace-All then stores the state's own four fields and its export version |
| Export.PadShape | js/export.js:6 | `pad(n)` for 0..99 is two digits with value n and a leading "0" below 10 |
| Export.Timestamp | js/export.js:4-15 | the stamp starts with the year's decimal digits; for two-digit components it is the year followed by 9 characters, with the `-` fifth from the end |
| Export.TimestampShape | js/export.js:4-15 | for a four-digit year the stamp has 13 characters, YYYYMMDD-HHmm, and its digit groups read back as the year, month index + 1, day, hour and minute |
| Storage.DefaultState | js/storage.js:32-44 | version "0.1", theme "auto", `startOfWeek` 0, empty `habits`, and `days` with today as its only key, holding empty `habits` and an empty journal |
| Storage.Migrate | js/storage.js:47-51 | defined exactly for objects; a missing or falsy version becomes "0.1", a truthy one leaves the state unchanged, other fields are untouched, and the result always has a truthy version |
| Storage.MigrateIdempotent | js/storage.js:47-51 | migrating twice is migrating once |
| Storage.Load | js/storage.js:4-13 | total: the migrated parsed object when the stored text is non-empty and parses to an object; the default state when nothing or "" is stored, when the text does not parse, and when it parses to `null` or a primitive (`migrate` throws); the result always has a truthy version |
| Storage.SaveThenLoad | js/storage.js:4-23 | loading what was just saved gives the state back, provided the text round-trips through parsing and the state has a truthy version (otherwise loading adds version "0.1") |
| Storage.Merge | js/storage.js:27 | every patch field takes the patch value, every other field its current value, and no other field appears |
| Storage.MergeIdempotent | js/storage.js:27 | applying the same patch twice is applying it once |
| Storage.StateStore.LoadState | js/storage.js:4-13 | loads the stored slot; always has a truthy version |
| Storage.StateStore.SaveState | js/storage.js:15-23 | on success returns true with the serialized state stored; on a failed write returns false with the slot unchanged |
| Storage.StateStore.UpdateState | js/storage.js:25-30 | returns the merge of the loaded state with the patch, and the slot holds that merged state or, after a failed write, its old value |
| App.AddHabit | js/app.js:25-32 | saves only `habits`: the old list, unchanged and in order, plus one habit at the end; that habit is also returned and has the given name, icon 🔥, `targetDays` 0..6, `strict` false, the clock reading and an id starting "h_" |
| App.FilterOut | js/app.js:36 | the filtered list is never longer than the original |
| App.FilterOutMembers | js/app.js:36 | the filtered list keeps exactly the habits whose id differs |
| App.FilterOutConcat | js/app.js:36 | the filter commutes with concatenation, so the kept habits keep their order |
| App.FilterOutUnknown | js/app.js:36 | a list without the id is returned unchanged |
| App.FilterOutIds | js/app.js:36 | the ids left are the old ids less the deleted one |
| App.StripEntry | js/app.js:39-43 | the entry no longer refers to the id; a record keeps its journal, timestamp, other fields and every other entry; an entry that does not refer to the id is unchanged |
| App.CascadeDelete | js/app.js:37-44 | the loop over the copied days map gives every entry `StripEntry` and keeps every key |
| App.DeleteHabit | js/app.js:34-46 | saves the filtered habit list and the cascaded days |
| App.DeleteRemovesEveryReference | js/app.js:36-44 | after a delete no habit has the id and no day record's `habits` map contains it |
| App.DeleteKeepsTheRest | js/app.js:38-43 | the cascade keeps the set of date keys, and in each record the journal, the timestamp, the other fields and every other habit entry |
| App.DeleteIdempotent | js/app.js:36-45 | deleting twice is deleting once, for the habits and for the days |
| App.DeleteUnknownId | js/app.js:36-45 | deleting an id that no habit and no record has leaves both unchanged |
| App.AddThenDelete | js/app.js:25-46 | deleting a habit just added under a fresh id gives the old habit list back |
| App.DeletePreservesIntegrity | js/app.js:34-46 | if every record entry names a current habit before a delete, that still holds after it |
| App.ToggleHabitForToday | js/app.js:48-57 | saves only `days`: today's key is added if missing and holds the returned record, other dates are unchanged; the record has `ts` = now, keeps its journal (none for a new record) and its other fields, has `habitId` set to `!!checked`, and keeps every other entry |
| App.ToggleSetsDone | js/app.js:51-54 | afterwards the habit is done today exactly when `checked` is truthy, and every other habit is done today exactly when it was before |
| App.ToggleIdempotent | js/app.js:51-55 | toggling again with the same value saves the same days |
| App.TogglePreservesIntegrity | js/app.js:48-57 | toggling a habit of the list keeps every record entry pointing at a current habit |
| Import.KeyStore.Set | js/app.js:69-72 | one `storage.set(KEYS.k, v)`: the slot k holds v, every other slot is unchanged, and the write is logged |
| App.ImportReplaceAll | js/app.js:66-78 | fails exactly when reading the file fails, with the same error and without touching the store; otherwise returns true after the Replace-All writes (the setters of lines 68-74), made in the order user, habits, days, meta, then version when truthy |
| Records.Done | js/streaks.js:27 | `!!(day && day.habits && day.habits[habitId])`: true exactly when the date has a non-null record whose `habits` holds a truthy entry for the habit |
| Records.CheckedCount | js/views/today.js:31 | the number of truthy entries of a record is at most its entry count, and 0 exactly when no entry is truthy |
| Streaks.CurrentStreak | js/streaks.js:22-33 | the count k of done days back from today: today .. today-(k-1) are done and today-k is not; at most the number of records; 0 when today is not done |
| Streaks.UndoneTodayMeansZero | js/streaks.js:26-28 | a streak is 0 when today's record is absent or its entry is falsy |
| Streaks.StreakBound | js/streaks.js:25-31 | n done days back from today imply at least n records, which bounds the loop |
| Streaks.BackKeyStep | js/streaks.js:30 | stepping the cursor's day back by one gives the key `addDays(cursor, -1)` of a well-formed key |
| Streaks.StreakIsUnique | js/streaks.js:22-33 | the stopping condition fixes the count: two counts that both meet it are equal |
| Dates.ShiftDays | js/streaks.js:14 | `setDate(getDate() + n)`: a valid date whose day number is the original's plus n |
| Dates.Weekday | js/calendar.js:11 | `getDay()`: a weekday number in 0..6 (Dates.KnownWeekdays pins Sunday to 0) |
| Dates.FromDayNumber | js/streaks.js:13-14 | every day number is the number of exactly one valid Gregorian date |
| Dates.FromDayNumberOf | js/streaks.js:13-14 | converting a date to its number and back gives the date |
| Dates.DayNumberInjective | js/streaks.js:13-14 | distinct valid dates have distinct day numbers |
| Dates.ShiftCompose | js/streaks.js:14 | shifting by a and then by b is shifting by a + b |
| Dates.ShiftOneIsNextDay | js/streaks.js:14 | shifting by one day is the calendar's next day, rolling over month and year ends |
| Dates.RolloverExamples | js/streaks.js:14 | Feb 28 2024 is followed by Feb 29, Feb 29 2024 by Mar 1, Feb 28 2023 by Mar 1, and Dec 31 2024 by Jan 1 2025 |
| Dates.WeekdayShift | js/calendar.js:11 | shifting by n days moves the weekday by n modulo 7 |
| Dates.KnownWeekdays | js/calendar.js:11 | Jan 1 1970 is a Thursday and Jan 1 2024 a Monday |
| Dates.ParseIso | js/streaks.js:12-13 | the date a `YYYY-MM-DD` text denotes; any date it returns is valid and in years 1000..9999 |
| Dates.FormatIsoSplit | js/streaks.js:15 | `toLocaleDateString("en-CA")`, Dates.FormatIso, is the year text padded to four digits, a `-`, the two-digit month, a `-` and the two-digit day |
| Dates.ParseFormat | js/streaks.js:12-15 | formatting a date of years 1000..9999 and parsing it back gives the date |
| Dates.FormatParse | js/streaks.js:12-15 | a well-formed ISO date parses to a date that formats back to the same text |
| Dates.FormatIsoInjective | js/streaks.js:15 | distinct dates format to distinct keys |
| Dates.IsoOrderIsChronological | js/metrics.js:16 | for years 1000..9999, the ISO keys sort in the same order as the dates |
| Dates.AddDays | js/streaks.js:11-16 | the key of the date n days on, as padded `YYYY-MM-DD` text, and well formed whenever that date lies in years 1000..9999 |
| Dates.AddDaysZero | js/streaks.js:11-16 | `addDays(iso, 0)` is `iso` |
| Dates.AddDaysCompose | js/streaks.js:11-16 | `addDays(addDays(iso, a), b)` is `addDays(iso, a + b)` |
| Dates.AddDaysInverse | js/streaks.js:11-16 | `addDays(addDays(iso, n), -n)` is `iso` |
| Dates.AddDaysOneRollsOver | js/streaks.js:13-14 | `addDays(iso, 1)` is the key of the calendar's next day |
| Calendar.FirstOfMonth | js/calendar.js:4-6 | day 1 of the same month; a two-digit year is read as 19yy, as the `Date` constructor does |
| Calendar.DayZeroOfNextMonth | js/calendar.js:17 | `new Date(y, m + 1, 0)` is a valid date (Calendar.DayZeroIsLastDay shows it is the month's last day) |
| Calendar.DayZeroIsLastDay | js/calendar.js:17 | day 0 of the next month is the month's true last day, leap Februaries included |
| Calendar.StartOfCalendar | js/calendar.js:8-13 | a Sunday, on or before the first of the month and at most 6 days before it |
| Calendar.EndOfCalendar | js/calendar.js:15-22 | a Saturday, on or after the month's last day and at most 6 days after it |
| Calendar.GridIsWholeWeeks | js/calendar.js:8-22 | the inclusive grid from start to end has a multiple of 7 days, between 28 and 42 |
| Calendar.GridIgnoresDay | js/calendar.js:8-22 | start and end depend only on the year and month of their argument |
| Metrics.TotalCheckins | js/metrics.js:4-11 | the sum over all day records of their truthy entries, 0 for no records; no result (a TypeError) exactly when some record is `null` |
| Metrics.TotalRemove | js/metrics.js:7-9 | the sum can take out any one record first, so the key order of the loop does not matter |
| Metrics.AddRecordTotal | js/metrics.js:4-11 | storing a record under a new date adds exactly its check-ins, so the total never drops |
| Metrics.EntryContribution | js/metrics.js:8 | an entry adds one check-in when its value is truthy and none when it is falsy |
| Order.SortKeys | js/metrics.js:16 | `Object.keys(days).sort()`: a strictly ascending list holding exactly the keys, each once |
| Metrics.LongestStreak | js/metrics.js:13-24 | the `best` of the hits over the keys in sorted order; at most the number of records; 0 exactly when no record checks the habit |
| Metrics.BestStep | js/metrics.js:18-22 | a hit extends `run` and may raise `best`; a miss resets `run` to 0 |
| Metrics.WindowBound | js/metrics.js:16-21 | every run of consecutive hits in key order is at most `best` |
| Metrics.BestAchieved | js/metrics.js:16-21 | `best` is the length of some actual run of hits, so it is the longest run |
| Metrics.BestZeroIff | js/metrics.js:17-23 | `best` is 0 exactly when no key is a hit |
| Metrics.AllHitsRunThrough | js/metrics.js:16-21 | when every record is a hit, `best` is the record count: calendar gaps between keys do not reset the run |
| Metrics.LongestAtLeastCurrent | js/metrics.js:16-21 | when every key is a well-formed ISO date, the longest streak is at least the current streak from any valid today |
| Metrics.WeekCountIsSize | js/metrics.js:31-36 | a habit's weekly count is the number of distinct days in the window whose record checks it |
| Metrics.AddHits | js/metrics.js:34-36 | the inner loop adds each key's hit to its running count and starts missing keys from 0 |
| Metrics.AddDay | js/metrics.js:31-37 | after day i of the window every habit key has the count of the first i + 1 days |
| Metrics.WeekSummary | js/metrics.js:26-39 | for a start text `YYYY-MM-DD` of years 1000..9999, exactly one entry per habit key, each the count of the 7 days from the start whose record checks it, so each is in 0..7; no result for any other text (the source throws a RangeError for text `new Date` cannot read, and reads some other forms, listed under Left out) |
| Views.LoadDay | js/ui-helpers.js:95-97 | the stored record when the date has a non-null one; otherwise a record with empty `habits` and journal "" |
| Views.Percent | js/views/today.js:37 | 0 with no habits; otherwise the whole number p with 2·total·p ≤ 200·done + total < 2·total·(p + 1), which is 100·done/total rounded half up; at most 100 when done ≤ total |
| Views.PercentIsNearest | js/views/today.js:37 | that rounding condition has exactly one solution, the percentage |
| Views.PercentLabel | js/views/today.js:37 | "0%" with no habits; otherwise decimal digits reading back as the percentage, followed by "%" |
| Views.Checked | js/views/today.js:62 | the box is checked exactly when the record's entry for the habit is truthy; no result (a TypeError) for a record without `habits` |
| Views.CheckedIsDone | js/views/today.js:62 | the box shown for a habit is checked exactly when the habit counts as done for that date |
| Views.DoneCountIsChecked | js/views/today.js:31-62 | when every truthy entry of the shown record names a listed habit, the done count is the number of listed habit ids whose box is checked |
| Views.PercentInRange | js/views/today.js:30-37 | when every truthy entry of the shown record names a listed habit, the done count is at most the habit count and the percentage lies in 0..100 |
| Views.PercentInRangeUnderIntegrity | js/views/today.js:30-37 | the same bound on every date for a state where every entry names a listed habit, which adding, deleting and toggling keep (App.DeletePreservesIntegrity, App.TogglePreservesIntegrity) |
| Onboarding.HabitsLength | js/onboarding.js:3 | `state.habits?.length ?? 0`: 0 when `habits` is missing or null, the array length for an array |
| Onboarding.IsFirstRun | js/onboarding.js:2-4 | false whenever `meta.lastOpenDate` is truthy or `habits` is a non-empty array; true when `meta` is missing and `habits` is missing or empty |
| Onboarding.FirstRunOnStoredShapes | js/onboarding.js:3 | with an array of habits and an object `meta`, a first run means exactly an empty list and no truthy last open date |
| Onboarding.SampleHabits | js/onboarding.js:6-12 | exactly three names, all non-empty and pairwise distinct |

## Left out

- I/O and foreign code are parameters or left out:
  - `JSON.parse` and `JSON.stringify` are the functions `parse` and `serialize`.
  - `localStorage` is a field, and the name of its key is not modelled.
  - The file read (`file.text()`) and the download in `downloadSnapshot` are left out.
  - `Date.now()`, `new Date()`, `todayISO` and `Math.random` become parameters.
- Time zones are not modelled. The source mixes UTC (`toISOString`) and local dates; every date here is a time-zone-free Gregorian day.
- Numbers are integers. There is no floating point, NaN or negative zero, and `Math.round` is integer round-half-up.
- Views.Percent: the exact half-up rounding can differ from the source's floating-point `Math.round((done / total) * 100)` at exact halves. For done 29 and total 200 the product is 14.499999999999998 in floating point, giving 14, while Percent gives 15.
- Dates.ParseIso: only zero-padded `YYYY-MM-DD` text for years 1000..9999 is read. The leniency of `new Date(y, m - 1, d)` is not modelled, e.g. "2024-02-30" is not normalised to March 1.
- Dates.AddDays: the result is stated well formed only inside years 1000..9999. Outside that range `toLocaleDateString` output is not modelled.
- Metrics.WeekSummary: only a zero-padded `YYYY-MM-DD` start of years 1000..9999 is read. `new Date(text)` also reads other texts, such as date-times ("2024-01-05T00:00"), years 0..999 ("0999-01-01") and engine-specific forms ("2024/01/05" in V8). For those the source returns counts, while the model gives no result.
- Metrics.WeekSummary: a window day in year 10000 gets the key "10000-01-01" here. `toISOString` writes years 0..9999 as four zero-padded digits and any other year in the extended form, e.g. "+010000-01-01".
- Streaks.CurrentStreak: the cursor is a day number rather than text. Streaks.BackKeyStep shows that each step is `addDays(cursor, -1)` while the key is a well-formed ISO date.
- Storage.Migrate: a parsed JSON array gives no result, so loading falls back to the default state. The source would attach `version` to the array and return it.
- Storage.Load: for stored text that parses to a JSON array, the model returns the default state. The source returns the array with a `version` property, since `migrate` does not throw on arrays.
- Storage.StateStore.SaveState: a failed write is a nondeterministic flag. The `console.warn` logged on failure, quota behaviour and a failing `JSON.stringify` are not modelled.
- Export.BuildSnapshot: a field the state lacks is omitted. The source sets it to `undefined`, which serialization drops.
- Export.Timestamp: the year is a natural number. Negative years are not modelled.
- Import.ApplySnapshotReplaceAll: requires the four data fields, which every accepted file has (Import.AcceptedHasFields). It does not model writing `undefined` for a missing field.
- Records.DayEntry: a stored day value is a record or `null`. Other values (a number, a string, an array) are not modelled.
- Records.DayRecord: `habits` is an object map or absent. A `false`, `0` or `""` `habits` is read as absent, so Views.Checked gives no result for it. The source reads it as having no entries, so `!!day.habits[id]` is false. A string or array `habits`, which the source would index by the id, is not modelled either.
- Records.Habit: the named fields are typed. A stored habit whose `id`, `name`, `icon`, `targetDays`, `strict` or `createdAt` has another JSON type is not modelled. Its other fields, such as `color`, are kept in `extra`.
- Strings are sequences of Unicode scalar values, whereas JavaScript strings are UTF-16. For a character beyond U+FFFF, `.length` counts two code units where Onboarding.HabitsLength counts one. The default sort compares code units where Order.LexLt compares scalar values, so such keys can sort differently.
- The `in` operator and property reads see only own keys of a record; inherited prototype properties are not modelled.
- The app.js store (`KEYS`, `storage`, `loadState`, `saveState`) is elided in the source at js/app.js:17. The actions return the patch they would save, and the import writes through `Import.KeyStore`, whose keys are the datatype `Import.Key`.
- App.ToggleHabitForToday: the source mutates the loaded day object in place. The model builds the new record as a value, since nothing else aliases the loaded state.
- App.AddHabit: id uniqueness is not checked. The source does not check it either, and AddThenDelete takes freshness as a precondition.
- Left out as rendering or DOM code:
  - routing and `render`;
  - the DOM parts of the views and the other views;
  - quotes, which use the network and randomness;
  - the controller methods that no modelled file defines.
