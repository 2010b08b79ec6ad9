# AquaTrack record store and aggregates, in Dafny

AquaTrack is a browser hydration tracker. Its state is a daily goal in millilitres and a
store: a sequence of day records `{date, total, entries}`, each entry `{id, amount,
timestamp}`. This project models the logic under the React views:

- logging a drink into today's record, or creating that record at the end of the store
  (`Tracker.AddWaterTo`, the `Tracker.App` class with `AddWater` and `AddCustomAmount`);
- today's intake, what remains of the goal and the capped progress (`Tracker`);
- deleting one entry: filter the day's entries, recompute its total, drop empty days
  (`History.WithoutEntry`, `History.DeleteEntry`), and clearing the store;
- the statistics: 7- and 30-day window averages, the current streak (an imperative loop over a
  reversed copy, `Stats.CalculateStreak`, proved equal to the function `Stats.Streak`),
  successful days, success rate, total volume and total entry count (`Stats`);
- the six-badge achievement catalogue with its unlock and progress rules (`Achievements`);
- saving the goal, importing and exporting a backup, and deleting all data (`Settings`).

One module per source file: `Tracker` (WaterTracker.tsx), `History` (WaterHistory.tsx),
`Stats` (WaterStats.tsx), `Achievements` (AchievementBadges.tsx), `Settings`
(WaterSettings.tsx). Two shared modules hold the values (`Records`) and the exact stand-ins
for the views' floating-point percentages (`Percent`).

Inputs the browser supplies are parameters: today's date key, the clock reading `now`
(`Date.now()`), a confirmation dialog's answer, the prompt's answer, and `parseInt`'s result
as an `Option<int>` where `None` is NaN. Percentages are exact: `Math.round(n / d)` is
`(2*n + d) / (2*d)` in integer division, and `Math.min(100, (m / t) * 100)` is a rational
`Ratio(num, den)` capped at 100.

The model follows the code, including where it is looser than the app's own labels suggest:

- Logging does not check the amount. The custom path rejects only NaN, so zero and negative
  amounts are logged and totals may be negative.
- The goal is bounded to 1..10000 only by `saveGoal`. Import checks only that the goal is truthy,
  so any goal except 0 is taken, negative or above 10000.
- Day keys are not unique once a store has been imported. `addWater` updates every record
  with today's key, today's intake reads the first one, and `deleteEntry` prunes every
  record of the date. The model keeps all three behaviours.
- The streak does not check that records are adjacent calendar days.
- Ids are the clock reading in decimal, so two drinks logged in the same millisecond share an
  id, and deleting one of them deletes both.
- The "consistency" badge counts records (`totalDays >= 14`), not days in a row.

## Model

| member | source | states |
|---|---|---|
| Records.EntrySum | src/components/WaterHistory.tsx:29 | the left fold over entry amounts; with no negative amount the sum is non-negative and at least every single amount |
| Records.EntrySumAppend | src/components/WaterTracker.tsx:68-69 | appending one entry raises the sum of a day's entry amounts by exactly that entry's amount |
| Records.Reverse | src/components/WaterStats.tsx:37 | the reversed copy has the same length and holds element `n-1-i` at position `i` |
| Percent.RoundDiv | src/components/WaterStats.tsx:25 | `Math.round(n/d)` for `d > 0`: the result `r` satisfies `r - 1/2 <= n/d < r + 1/2` |
| Percent.RoundDivBetween | src/components/WaterStats.tsx:24-26 | a rounded quotient that lies between two integers stays between them |
| Percent.CappedPercent | src/components/WaterTracker.tsx:87 | `min(100, m/t*100)` for a non-zero divisor is at most 100, equals 100 iff `m/t >= 1`, and otherwise equals `100*m/t` exactly |
| Percent.Displayed | src/components/AchievementBadges.tsx:135 | the printed `Math.round(progress)` is the whole number nearest to the exact progress, halves rounded upward |
| Percent.DisplayedBounds | src/components/AchievementBadges.tsx:135 | the printed `Math.round(progress)` of a capped progress is at most 100, non-negative for a non-negative progress, and 100 for a full one |
| Stats.TotalVolume | src/components/WaterStats.tsx:156 | the total volume of a store without negative totals is non-negative and at least every single day's total |
| Stats.TotalEntries | src/components/WaterStats.tsx:163 | the entry count is 0 iff no record holds an entry, and at least every record's entry count |
| Stats.TotalVolumeConcat | src/components/WaterStats.tsx:156 | the total volume of two concatenated stores is the sum of their volumes |
| Stats.TotalEntriesOfOne | src/components/WaterStats.tsx:163 | a single record contributes exactly its number of entries, so with additivity the count is the sum of `entries.length` |
| Stats.TotalEntriesConcat | src/components/WaterStats.tsx:163 | the total entry count of two concatenated stores is the sum of their counts |
| Stats.TotalVolumeOfConsistentStore | src/components/WaterStats.tsx:156 | on a store whose day totals agree with their entries, the total volume is the sum of every entry amount |
| Stats.LastDays | src/components/WaterStats.tsx:23 | `slice(-n)` is the suffix of length `min(n, length)` |
| Stats.WindowAverage | src/components/WaterStats.tsx:22-32 | the average of an empty store is 0; otherwise it is the whole number nearest to the mean total of the last `min(n, length)` records, halves upward |
| Stats.WeeklyAverage | src/components/WaterStats.tsx:22-26 | the 7-day average is 0 for an empty store and otherwise lies between the smallest and largest total of the last seven records |
| Stats.MonthlyAverage | src/components/WaterStats.tsx:28-32 | the 30-day average is 0 for an empty store and otherwise lies between the smallest and largest total of the last thirty records |
| Stats.WindowAverageBounds | src/components/WaterStats.tsx:23-32 | the window average is 0 on an empty store, and otherwise lies between the smallest and the largest total of the last `min(n, length)` records |
| Stats.WindowAverageOfEvenDays | src/components/WaterStats.tsx:23-26 | a window whose records all have the same total averages to exactly that total |
| Stats.Streak | src/components/WaterStats.tsx:35-47 | the streak never exceeds the number of records |
| Stats.StreakCharacterization | src/components/WaterStats.tsx:35-47 | the streak is `k` iff the last `k` records all meet the goal and either `k` is the store length or record `length-k-1` misses it (both directions) |
| Stats.StreakAtLeast | src/components/WaterStats.tsx:39-45 | the streak is at least `m` iff the last `m` records all meet the goal |
| Stats.StreakZero | src/components/WaterStats.tsx:37-44 | the streak is 0 iff the store is empty or its last record misses the goal |
| Stats.StreakOfSeven | src/components/WaterStats.tsx:35-47 | seven goal-meeting records after one that misses the goal give a streak of exactly 7 |
| Stats.CalculateStreak | src/components/WaterStats.tsx:35-47 | the loop over the reversed copy, with its `break`, returns the streak |
| Stats.SuccessfulDays | src/components/WaterStats.tsx:51 | the number of successful days is at most the number of records |
| Stats.SuccessfulDaysOfOne | src/components/WaterStats.tsx:51 | a single record is one successful day iff its total reaches the goal |
| Stats.SuccessfulDaysConcat | src/components/WaterStats.tsx:51 | the count of successful days is additive over concatenated stores, so every record contributes independently |
| Stats.SuccessfulDaysExtremes | src/components/WaterStats.tsx:51 | every record meets the goal iff all records are successful days; none meets it iff there are none |
| Stats.StreakAtMostSuccessfulDays | src/components/WaterStats.tsx:35-51 | the streak never exceeds the number of successful days |
| Stats.SuccessRate | src/components/WaterStats.tsx:50-52 | the success rate is 0 on an empty store and otherwise the whole percentage nearest to successful days over records, halves upward; it lies in 0..100 |
| Stats.SuccessRateExtremes | src/components/WaterStats.tsx:50-52 | the success rate is 100 when every record of a non-empty store meets the goal, and 0 when none does or the store is empty |
| Tracker.DecimalString | src/components/WaterTracker.tsx:55 | an entry id is a non-empty string of decimal digits |
| Tracker.DecimalStringValue | src/components/WaterTracker.tsx:55 | the digits of an id denote exactly the clock reading it was made from |
| Tracker.DecimalStringInjective | src/components/WaterTracker.tsx:55 | different clock readings give different ids |
| Tracker.NewEntry | src/components/WaterTracker.tsx:54-58 | a new entry carries the logged amount, the clock reading as its timestamp and an id whose digits denote that reading |
| Tracker.FindDay | src/components/WaterTracker.tsx:61 | `find` returns the first record with the date, or none iff no record has it |
| Tracker.IntakeOn | src/components/WaterTracker.tsx:42-44 | today's intake is the total of the first record dated today, or 0 when there is none; `Tracker.App.CurrentIntake` is this value on the app's store, the `currentIntake` state |
| Tracker.Merge | src/components/WaterTracker.tsx:66-70 | a merged record keeps its date, its entry sum rises by exactly the amount, and a record consistent before is consistent after |
| Tracker.AddWaterTo | src/components/WaterTracker.tsx:60-80 | logging grows the store by at most one record, and afterwards the store holds a record for today |
| Tracker.AddWaterToExistingDay | src/components/WaterTracker.tsx:61-72 | with a record for today, the length is kept and each record of today gains the amount and exactly one entry at the end |
| Tracker.AddWaterNewDay | src/components/WaterTracker.tsx:73-79 | without a record for today, exactly `{today, amount, [entry]}` is appended and the length grows by 1 |
| Tracker.AddWaterKeepsOtherDays | src/components/WaterTracker.tsx:64-71 | records of other days keep their value and their position, and the store never shrinks |
| Tracker.AddWaterKeepsConsistency | src/components/WaterTracker.tsx:60-80 | if every record's total is the sum of its entry amounts before logging, this still holds afterwards |
| Tracker.IntakeAfterAddWater | src/components/WaterTracker.tsx:60-80 | after logging, today's intake is the previous intake plus the amount |
| Tracker.Remaining | src/components/WaterTracker.tsx:88 | the remaining volume is non-negative, is 0 iff the intake reaches the goal, and otherwise tops the intake up to the goal |
| Tracker.ProgressPercentage | src/components/WaterTracker.tsx:87 | the progress is at most 100 percent, non-negative for a non-negative intake under a positive goal, and for a positive goal full iff the intake reaches the goal |
| Tracker.ProgressFullIffNothingRemains | src/components/WaterTracker.tsx:87-88 | for a positive goal the progress is at most 100 percent and is full iff nothing remains |
| Tracker.App.constructor | src/components/WaterTracker.tsx:26-28 | the application starts with a goal of 2000 and an empty store |
| Tracker.App.Progress | src/components/WaterTracker.tsx:87-88 | the progress ring of the application's state divides by a non-zero goal, is at most 100 percent, and for a positive goal is full iff nothing remains |
| Tracker.App.AddWater | src/components/WaterTracker.tsx:52-80 | logging replaces the store by its logged version, leaves the goal alone, keeps it non-zero and raises today's intake by the amount |
| Tracker.App.AddCustomAmount | src/components/WaterTracker.tsx:204-209 | a custom amount is logged iff the answer is non-empty and parses to a number; otherwise the store is unchanged; the goal stays non-zero |
| History.WithoutId | src/components/WaterHistory.tsx:28 | the kept entries are exactly those whose id differs from the deleted one |
| History.WithoutIdCounts | src/components/WaterHistory.tsx:28 | every entry with another id is kept as many times as it occurs, including identical same-millisecond drinks; entries with the id are dropped |
| History.WithoutIdKeepsCount | src/components/WaterHistory.tsx:28 | an entry whose id differs from the deleted one occurs in the filtered entries exactly as often as before |
| History.WithoutIdAppend | src/components/WaterHistory.tsx:28 | the filter keeps the order: filtering a concatenation concatenates the filtered parts |
| History.PruneDay | src/components/WaterHistory.tsx:27-30 | a pruned day keeps its date, its entries are exactly the filtered entries, none has the id, and its total is the sum of the remaining entries |
| History.PruneDate | src/components/WaterHistory.tsx:26-32 | the map keeps the length, prunes each record of the date and leaves the others as they were |
| History.NonEmptyDays | src/components/WaterHistory.tsx:33 | the filter keeps only records with entries, taken from the input, and never lengthens the store |
| History.NonEmptyDaysCounts | src/components/WaterHistory.tsx:33 | every record with entries is kept as many times as it occurs, and every empty record is dropped |
| History.WithoutEntryOnDate | src/components/WaterHistory.tsx:26-33 | after a deletion no record is empty, and every record of the date lacks the id and has a total equal to the sum of its entries |
| History.WithoutEntry | src/components/WaterHistory.tsx:25-33 | a deletion never lengthens the store, leaves no empty record, and every record of another day in the result comes from the old store |
| History.WithoutEntryKeepsOtherEntries | src/components/WaterHistory.tsx:26-33 | a record of the date holding an entry with another id survives, pruned, and keeps every entry of another id as many times as before |
| History.WithoutEntryKeepsOtherDays | src/components/WaterHistory.tsx:26-33 | the records of other days are exactly their non-empty ones, unchanged and in their original order |
| History.WithoutLastEntryDropsDay | src/components/WaterHistory.tsx:28-33 | deleting the last entries of a day removes every record of that day |
| History.WithoutAbsentEntry | src/components/WaterHistory.tsx:24-34 | on a store without empty records, deleting an id the date's consistent records lack changes nothing |
| History.WithoutEntryIdempotent | src/components/WaterHistory.tsx:24-34 | deleting the same entry twice gives the same store as deleting it once |
| History.WithoutEntryKeepsConsistency | src/components/WaterHistory.tsx:29-30 | a store whose totals agree with their entries still does after a deletion |
| History.DeleteEntry | src/components/WaterHistory.tsx:24-36 | the store is replaced by the store without the entry; the goal is untouched and stays non-zero |
| History.ClearAllHistory | src/components/WaterHistory.tsx:38-44 | after a confirmed clear the store is empty, otherwise unchanged; the goal is untouched and stays non-zero |
| Achievements.CalculateStreak | src/components/AchievementBadges.tsx:26-38 | the badge view's copy of the streak loop returns the same streak as the statistics view's |
| Achievements.Catalogue | src/components/AchievementBadges.tsx:45-93 | there are always exactly six badges in the fixed id order; the first has no progress and every other has a progress of at most 100 percent |
| Achievements.Badges | src/components/AchievementBadges.tsx:40-93 | the application's badges are computed against its non-zero goal: six badges, the goal badge unlocked iff today's intake reaches the goal, every progress at most 100 percent |
| Achievements.ShowsProgress | src/components/AchievementBadges.tsx:126 | a progress bar is drawn only for a badge that is locked and has a progress; an unlocked badge never shows one |
| Achievements.GoalBadgeOf | src/components/AchievementBadges.tsx:53-60 | the goal badge depends only on today's intake and the goal |
| Achievements.UnlockRules | src/components/AchievementBadges.tsx:51-90 | each badge is unlocked iff its metric reaches its target: a record exists, intake reaches the goal, streak >= 7, successful days >= 30, total volume >= 100000, records >= 14 |
| Achievements.ProgressFullIffUnlocked | src/components/AchievementBadges.tsx:58-91 | a badge's progress is full iff the badge is unlocked, for every non-zero goal except on the goal badge, where the goal must be positive |
| Achievements.ProgressShownOnlyWhenLocked | src/components/AchievementBadges.tsx:126 | for any non-zero goal (positive for the goal badge), a progress bar is shown exactly on the locked badges after the first, and the progress it shows is below 100 percent |
| Achievements.NegativeGoalLockedAtHundred | src/components/AchievementBadges.tsx:58-59 | under a negative goal an intake below it leaves the goal badge locked with a full progress bar that prints 100 |
| Achievements.WeekStreakUnlocked | src/components/AchievementBadges.tsx:66 | the week badge is unlocked iff the seven most recent records all meet the goal |
| Achievements.HydrationMasterOnThirtyDays | src/components/AchievementBadges.tsx:74-75 | thirty or more records that all meet the goal unlock the mastery badge with full progress |
| Achievements.UnlockIsNotSticky | src/components/AchievementBadges.tsx:45-51 | unlocks are recomputed: deleting the only entry of a one-day store locks the first badge again |
| Achievements.LockedBadgeCanPrintHundred | src/components/AchievementBadges.tsx:126-135 | a locked badge at 99.95 percent shows a progress bar that prints 100 |
| Achievements.GoalReachedAfterThreeDrinks | src/components/AchievementBadges.tsx:58-59 | 500, 750 and 1000 ml on a fresh day against 2000 ml give an intake of 2250, an unlocked goal badge and a printed progress of 100 |
| Settings.SaveGoal | src/components/WaterSettings.tsx:28-37 | the goal is set iff the parsed value is in 1..10000; NaN or out of range leaves it and the store unchanged |
| Settings.GoalInRange | src/components/WaterSettings.tsx:29-30 | a goal that passes the bound is a number and is never 0; the upper end 10000 passes |
| Settings.ImportData | src/components/WaterSettings.tsx:50-73 | both store and goal are replaced iff the document parsed and both fields are present and truthy; otherwise neither changes |
| Settings.Importable | src/components/WaterSettings.tsx:57 | a taken document has both fields and a goal other than 0, and every document with both fields and a goal in the saving bound is taken |
| Settings.ExportData | src/components/WaterSettings.tsx:39-40 | the exported document carries exactly the store and the goal, and import accepts it iff the goal is not 0 |
| Settings.ExportImportRoundTrip | src/components/WaterSettings.tsx:39-66 | importing the document exported from one application state into another succeeds and leaves it with exactly the exported store and goal |
| Settings.ImportSkipsGoalBound | src/components/WaterSettings.tsx:57 | import refuses a goal of 0 or a missing field but takes 20000 and -5, which saving refuses |
| Settings.DeleteAllData | src/components/WaterSettings.tsx:201-208 | a confirmed delete-all empties the store and leaves the goal unchanged and non-zero |

## Left out

- Rendering: JSX, styles, the SVG progress ring and the chart bar widths are presentation.
- Browser storage, `JSON.stringify`/`JSON.parse`, `FileReader` and the download link are
  persistence and I/O. Import takes the parsed document, or `None` when parsing failed or no
  file was chosen. The start-up load of the goal (`parseInt` of the stored text, which could be
  NaN) is not modelled. So the goal's invariant `dailyGoal != 0` (`Tracker.App.Valid`) covers
  the values the screens set, not a corrupted stored goal.
- Backup fields are modelled as an array of day records and an integer goal. JSON values of
  other kinds in those fields (strings, booleans, objects, fractional numbers) are not modelled.
  The imported store is taken as given, as the code does.
- Toasts, including the percentage in the logging toast, are UI side effects. Confirmation
  dialogs and the prompt are parameters.
- The clock and locale formatting (`toDateString`, `toLocaleDateString`,
  `toLocaleTimeString`) are parameters or presentation. `Date.now().toString()` is modelled
  as the decimal digits of `now`.
- Floating point: percentages are exact rationals, and `Math.round((s / t) * 100)` is computed
  on the exact quotient. The binary rounding error of `s / t` just below a half is not modelled.
  Amounts and totals are unbounded integers, so precision loss above 2^53 is not modelled.
- The goal text field and its preset buttons, the units switch, the reminders toggle and the
  selected tab hold no logic. `saveGoal` takes `parseInt(tempGoal)` directly.
- Percent.CappedPercent, Tracker.ProgressPercentage and Achievements.Catalogue require a
  non-zero divisor. The views never divide by a zero goal: every method of `Tracker.App` and
  every screen operation keeps `Tracker.App.Valid`, and `Tracker.App.Progress` and
  `Achievements.Badges` evaluate the views on that state. The badge targets are constants.
- Achievements.ProgressFullIffUnlocked: for a negative goal, which only an import can set, the
  goal badge's progress and its unlock state disagree, so for the goal badge this equivalence is
  stated for a positive goal only.
- Achievements.ProgressShownOnlyWhenLocked: for the same reason, on the goal badge it is stated for
  a positive goal only; under a negative goal a locked goal badge can show a full bar printing
  100, which Achievements.NegativeGoalLockedAtHundred states.
- Tracker.NewEntry: the code reads the clock twice, once for the id and once for the
  timestamp, and the two readings can differ by a millisecond. The model takes one reading
  `now` for both.
