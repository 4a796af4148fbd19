# One Piece tracker: pacing and history core

A model of the logic inside the tracker's progress form
(`src/ProgressForm.js`): a viewer logs the last episode watched each day,
the form derives the pace needed to reach the series total by a fixed
deadline and a plan for the next 30 days, and it shows the history as a
newest-first series of episodes watched per day.

Dates are integer day numbers (days since 1970-01-01). The deadline
2025-11-30 is day 20422. The source stores dates as `YYYY-MM-DD` strings,
which compare like their day numbers. The pace is an exact `real`, not a
float, and `Math.ceil` is `Pacing.Ceil`.

Three modules:

- `Pacing` (pacing.dfy): days and episodes left, the required pace
  (`PerDay`, unclamped), the displayed pace (`DisplayedPace`, clamped at 0),
  the plan as a value (`Plan`), the loop that builds it (`ComputePlan`), and
  the display filter that drops today (`FilterPlan`, with the "watched
  today" lookup `WatchedToday` from `History`). `DaysLeft` and
  `EpisodesLeft` serve both `calculatePlan` (lines 70-71) and the
  stat cards (lines 148-149).
- `History` (history.dfy): history entries, the upsert by date (`Upsert`,
  a recursive reference definition, and `FindIndex`, the `findIndex`
  loop), and the daily series (`DailyProgress` = sort a copy by date, map
  each entry to its difference from the previous one, reverse). As a
  function of the history value alone it is idempotent and cannot reorder
  its input, which the source achieves by sorting a copy.
- `Tracker` (tracker.dfy): the class `ProgressForm` with the fields the
  component keeps as state (`currentEpisode`, `totalEpisodes`, `history`,
  `episodesPerDay`, `plan`) and the handlers that update them in place
  (`Submit`, `ChangeTotal`, `CalculatePlan`). `DisplayedPlan` is the plan as shown
  on a given day. Three client methods (`SubmitScenario`,
  `StalePlanScenario`, `AdminScenario`) show what callers can prove.

## Model

| member | source | states |
|---|---|---|
| Pacing.Ceil | src/ProgressForm.js:79 | `Math.ceil`: the result is the least integer not below its argument |
| Pacing.DisplayedPace | src/ProgressForm.js:72-73 | the displayed pace is never negative, is at least the required pace, and is either 0 or the required pace |
| Pacing.ComputePlan | src/ProgressForm.js:68-87 | the loop that pushes one entry per day offset 1..min(daysLeft, 30) returns exactly `Plan`, and the pace it sets is the clamped `DisplayedPace` |
| Pacing.PerDayMeetsDeadline | src/ProgressForm.js:70-72 | with days left, the current episode plus pace × days left is exactly the total; with none left, the pace is the whole remainder |
| Pacing.DisplayedPaceCases | src/ProgressForm.js:70-73 | the displayed pace is 0 once the total is reached, and max(total − episode, 0) once the deadline has passed |
| Pacing.PlanDays | src/ProgressForm.js:75-85 | the plan has max(0, min(daysLeft, 30)) entries dated today+1, today+2, … up to at most the deadline, all carrying `ceil` of the unclamped pace |
| Pacing.FilterPlanKeepsPlan | src/ProgressForm.js:280-285 | a plan shown on the day it was computed loses nothing to the filter that drops today, whatever the "watched today" lookup says |
| Pacing.FilterStalePlan | src/ProgressForm.js:280-285 | a plan computed on one day and shown on another loses its first entry exactly when it is shown the next day, the viewer has watched that day, and the plan is not empty; otherwise it is shown whole |
| Pacing.PlanTargetsCapped | src/ProgressForm.js:79 | no plan target exceeds the series total |
| Pacing.PlanCompleteWhenCaughtUp | src/ProgressForm.js:79 | when the episode is at or past the total, every target equals the total |
| Pacing.PlanTargetsProgress | src/ProgressForm.js:79 | when behind with days left, targets never decrease, each is above the current episode and at most the total, and the entry for the deadline day (within 30 days) is the total |
| Pacing.CaughtUpTarget | src/ProgressForm.js:79 | at or past the total, the target for any day offset within the days left is the total |
| Pacing.TargetAtDeadline | src/ProgressForm.js:79 | the target for the day offset equal to the days left is exactly the total |
| Pacing.DaysLeft | src/ProgressForm.js:70 | reference definition (also line 148): deadline minus today in day numbers; its consequences are stated by `PerDayMeetsDeadline`, `PlanDays` and `FilterStalePlan` |
| Pacing.EpisodesLeft | src/ProgressForm.js:71 | reference definition (also line 149): total minus the current episode, negative past the total; `PerDayMeetsDeadline` and `DisplayedPaceCases` state what the pace does with it |
| Pacing.PerDay | src/ProgressForm.js:72 | reference definition of the unclamped pace; `PerDayMeetsDeadline` states that it reaches the total exactly at the deadline, `DisplayedPace` and `UnclampedPerDayExample` how it differs from the shown pace |
| Pacing.Plan | src/ProgressForm.js:75-85 | reference definition of the plan as a value; `ComputePlan` is proved to build it, and `PlanDays`, `PlanTargetsCapped`, `PlanCompleteWhenCaughtUp`, `PlanTargetsProgress` and `PlanExample` state its properties |
| Pacing.FilterPlan | src/ProgressForm.js:282-285 | reference definition of the display filter; `FilterPlanKeepsPlan` and `FilterStalePlan` state when it drops the first entry |
| Pacing.PlanExample | src/ProgressForm.js:68-87 | episode 100 of 1100 with ten days left: pace 100, ten entries, first target 200, last target 1100 |
| Pacing.UnclampedPerDayExample | src/ProgressForm.js:72-83 | episode 1200 of 1100: displayed pace 0, yet every plan entry shows −10 episodes to watch, because the plan uses the unclamped pace |
| History.FindIndex | src/ProgressForm.js:101 | returns the first index whose date is today, or −1 exactly when no entry has today's date |
| History.UpsertReplaces | src/ProgressForm.js:101-103 | with an entry for the date, the upsert replaces only that entry's episode and keeps the length |
| History.UpsertAppends | src/ProgressForm.js:104-106 | with no entry for the date, the upsert appends `(date, episode)` at the end |
| History.UpsertKeepsDatesUnique | src/ProgressForm.js:99-106 | the upsert keeps at most one entry per date, and afterwards the date's only entry holds the new episode |
| History.UpsertDates | src/ProgressForm.js:99-106 | after the upsert every entry was already in the history or is the new `(date, episode)` |
| History.UpsertExample | src/ProgressForm.js:99-106 | confirming episode 8 on a day that already holds episode 5 replaces the entry, not appends |
| History.Upsert | src/ProgressForm.js:99-106 | reference definition of the upsert by date; `UpsertReplaces`, `UpsertAppends`, `UpsertKeepsDatesUnique`, `UpsertDates` and `UpsertExample` state its properties, and `Submit` is proved to perform it |
| History.EpisodeAfterToday | src/ProgressForm.js:281 | reference definition of the inner `find(...)?.episode \|\| 0`: the episode of the first entry whose predecessor is dated today, or 0; `NothingAfterToday` states when it is 0 |
| History.WatchedToday | src/ProgressForm.js:281 | reference definition of `hasWatchedToday`; `WatchedTodayAfterAppend` states its value after today's first entry is appended |
| History.NothingAfterToday | src/ProgressForm.js:281 | with no entry dated today before the last one, the inner lookup yields 0 |
| History.WatchedTodayAfterAppend | src/ProgressForm.js:281 | right after today's first entry is appended, the viewer counts as having watched today exactly when its episode is positive |
| History.Insert | src/ProgressForm.js:133 | an insertion adds exactly the one entry to the sequence's multiset |
| History.InsertSorted | src/ProgressForm.js:133 | inserting into a date-sorted sequence keeps it sorted by date |
| History.SortByDate | src/ProgressForm.js:133 | the sorted copy is ordered by date and is a permutation of the history |
| History.Reverse | src/ProgressForm.js:141 | `.reverse()`: same length, element k is element n−1−k of the input, same multiset |
| History.Deltas | src/ProgressForm.js:134-140 | reference definition of the `map` step: each entry's episode minus the previous one's, 0 before the first; `NewestFirst`, `NewestFirstSnapshots` and `DailyProgressWatched` state its properties |
| History.DailyProgress | src/ProgressForm.js:132-142 | reference definition of the daily series (sort a copy, map, reverse; empty for an empty history); `DailyProgressShape`, `DailyProgressWatched`, `WatchedTelescopes`, `DailyProgressDates` and `DailyProgressExample` state its properties |
| History.NewestFirst | src/ProgressForm.js:134-141 | reversing the mapped series gives days whose count is their total minus the next older day's total, the oldest counting its whole total |
| History.NewestFirstSnapshots | src/ProgressForm.js:134-141 | the `(date, total)` pairs of the reversed series are the input entries reversed |
| History.NewestFirstOrder | src/ProgressForm.js:133-141 | reversing the series of a date-sorted copy puts dates in non-increasing order |
| History.DailyProgressShape | src/ProgressForm.js:132-142 | the series has one day per history entry (none for an empty history), newest first, and its `(date, total)` pairs are exactly the history's entries |
| History.DailyProgressWatched | src/ProgressForm.js:134-140 | each day counts its episode minus the chronologically previous entry's, and the earliest counts from 0 |
| History.ChainedSum | src/ProgressForm.js:134-141 | in a newest-first series chained this way the counts telescope to the newest total |
| History.WatchedTelescopes | src/ProgressForm.js:132-142 | the counts sum to the newest day's total, and that day is a history entry with the latest date |
| History.DailyProgressDates | src/ProgressForm.js:132-142 | the series shows exactly the history's distinct dates |
| History.DailyProgressExample | src/ProgressForm.js:132-142 | history (day 1: 5, day 2: 9) shows as (day 2: +4, total 9), (day 1: +5, total 5) |
| Tracker.ProgressForm.constructor | src/ProgressForm.js:53-62 | after loading, a missing or zero stored episode becomes 1 and a missing history becomes empty; a loaded history with one entry per date establishes the invariant `Submit` keeps |
| Tracker.ProgressForm.CanSubmit | src/ProgressForm.js:96 | reference definition of the role check: a profile is present and its role is the viewer's; `Submit` accepts exactly when it holds and the episode is in range |
| Tracker.ProgressForm.DisplayedPlan | src/ProgressForm.js:280-285 | reference definition of the plan as shown on a day, filtered by `WatchedToday`; `CalculatePlan` states that a fresh plan is shown whole, and `StalePlanScenario` that a plan kept past midnight loses its first day |
| Tracker.ProgressForm.CalculatePlan | src/ProgressForm.js:68-93 | sets the displayed pace and the plan for the given episode against the deadline, and that plan, shown the same day, is displayed whole |
| Tracker.ProgressForm.Submit | src/ProgressForm.js:95-108 | accepted exactly for a viewer profile with 1 ≤ newEp ≤ total; then the episode becomes newEp and the history is the upsert of (today, newEp); otherwise nothing changes; one entry per date is preserved |
| Tracker.ProgressForm.ChangeTotal | src/ProgressForm.js:117-120 | accepted exactly when the value is at least 1, and only then does the total change |

## Left out

- Fetching the settings and the user, saving them back, `localStorage` and
  routing (src/ProgressForm.js:35-65, 109-114, 121-126) are I/O. The
  constructor takes the values already read and models only the defaults
  applied to them.
- The REST handlers, the database connection and the schemas
  (src/app/api, src/lib, src/models) are foreign library calls or
  declarations.
- Clock and calendar: `getToday`, `toISOString`, `toLocaleDateString` and
  `formatDate` become integer day numbers passed in as `today`. The
  difference between local midnight and the UTC deadline (which can make
  `Math.ceil` in line 70 add a day, and `toISOString` name the previous day
  east of UTC) is not modelled: days left is the plain difference of day
  numbers.
- Floating point: the pace is an exact rational, so float rounding inside
  `Math.ceil`, `toFixed` and `progressPercentage` is not modelled.
- `Number()` coercion and NaN inputs: episodes and totals are integers.
- Aliasing: the source mutates the entry object that the previous history
  array shares; entries here are values, so the old history is unaffected.
- React rendering and effects: the effect that re-runs `calculatePlan`
  when the episode or total changes (lines 89-93) is left to the caller of
  `CalculatePlan`. As in the source, nothing recomputes the plan when only
  the day changes; `FilterStalePlan` and `StalePlanScenario` state what is
  then displayed.
- `SortByDate` is a stable insertion sort; stability is not proved, and it
  only matters for duplicate dates, which the upsert never creates.
- `ChangeTotal` does not check the admin role, like the source, which only
  hides the input from viewers (line 194).
