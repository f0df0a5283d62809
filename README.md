# run-stats: the weekly mileage engine and its loader, in Dafny

run-stats is a small dashboard for running data. It fetches an athlete's runs from the
Strava API and shows them in weekly buckets. This project models the parts of it that
compute: the pieces below are written in Dafny and proved against their specifications.

- **The weekly mileage engine** of the weekly view (`WeeklyMileage`):
  - Monday-start and Sunday-end week boundaries;
  - bucketing activities by week, adding up distance, miles, activity count and run count;
  - gap-filling an empty bucket for every Monday of the selected period;
  - sorting the buckets most recent first;
  - the seven-slot daily graph;
  - the summary statistics;
  - the offset and pending-offset navigation state.
- **The incremental loader** of the application shell (`App`):
  - resolving a period and an offset into a window and a page budget;
  - the sequential page loop with its stopping rules.
- **The state transitions** of the application shell (`App`): authentication start, success and
  error, logout, view switching, and the single-page load.
- **The pure helpers of the service client** (`StravaService`):
  - the case-insensitive activity-type filter;
  - the token-expiry test;
  - the `h:mm:ss` / `m:ss` duration format, proved to read back to the seconds it was given.
- **The navigation bar's text and button rules** (`TimeNavigation`).
- **The timeline chart's data** (`WeeklyTimelineChart`): the chronological reversal, the points,
  the tick spacing and tick selection, and the several-years test.

## Representation decisions

**Time.** An instant is a local day number (day 0 is 1970-01-01, a Thursday) plus the
milliseconds of that day (`Dates.Instant`). The weekday is `(day + 4) % 7`, with Sunday
as 0, as `getDay` numbers it. A week's key is the day number of its Monday. The source
uses the `YYYY-MM-DD` text of that Monday instead, and both are injective on week starts.

**Calendar.** Month shifts (`setMonth`, and `setFullYear(y - 2)`, which is a shift of 24
months) and `getFullYear` are the two function values of a `Dates.Calendar` parameter.
The properties that need them to decrease with the month count, and to leave a date
alone at a shift of 0, assume the calendar is `WellBehaved`.

**Current time.** "Now" is a parameter. The source reads `new Date()` several times in one
function; a single `now` stands for all of those reads.

**Upstream service.** The fetch is replaced by the sequence of the upstream's answers to
requests for pages 1, 2, …. Each answer is a page of activities or a failure, and a page past
the end of the sequence is empty. The `Run` filter of `getActivities` is applied to each page
before the loop sees it.

**Numbers.** Distances and miles are exact reals, so sums and averages carry no rounding.

**Two copies of the window.** The loader and the weekly view each compute the period
window. They disagree for `'last year'` at a non-zero offset: App.tsx steps back
`52 * 7` days per step (lines 174 and 200), and WeeklyMileage.tsx steps back `365` days
(lines 109 and 141). Both are modelled as written. `App.LastYearCopiesDisagree` states by how
much they differ, and `App.LastYearWindowsLeaveAWeek` shows that consecutive loader windows
for `'last year'` leave a seven-day gap. For every period other than `'all'` and
`'last year'`, and for `'last year'` at offset 0, the two copies agree (`App.CopiesAgree`).

**Filtering before the empty-page test.** The loader runs the type filter before it tests
for an empty page. A page that holds only activities other than runs therefore counts as
empty and ends the load (`App.NonRunPageStops`).

## Model

| member | source | states |
|---|---|---|
| `WeeklyMileage.WeekStart` | src/components/WeeklyMileage.tsx:35-49 | the week start is a Monday at midnight, no later than the given instant, and fewer than seven days before it |
| `WeeklyMileage.WeekStartUnique` | src/components/WeeklyMileage.tsx:35-49 | a Monday midnight within the seven days up to an instant is that instant's week start |
| `WeeklyMileage.WeekStartIdempotent` | src/components/WeeklyMileage.tsx:157 | the week start of a week start is itself, which the gap-fill loop relies on |
| `WeeklyMileage.WeekEnd` | src/components/WeeklyMileage.tsx:52-57 | the week end is six days after the start at 23:59:59.999 |
| `WeeklyMileage.InWeekIff` | src/components/WeeklyMileage.tsx:52-69 | an instant lies between a week's start and end exactly when that week is its week |
| `WeeklyMileage.WeekBoundaries` | src/components/WeeklyMileage.tsx:52-69 | Monday 00:00 and Sunday 23:59:59.999 belong to the week; the instants just outside it do not |
| `WeeklyMileage.Tally` | src/components/WeeklyMileage.tsx:64-91 | a bucket holds its activities in order, their count, the sum of their distances, that sum in miles, and a run count no larger than the activity count |
| `WeeklyMileage.CountRuns` | src/components/WeeklyMileage.tsx:87-89 | only activities whose lower-cased type is `run` are counted, so the count is at most the number of activities |
| `WeeklyMileage.WeekMembers` | src/components/WeeklyMileage.tsx:64-91 | a bucket receives exactly the activities whose week start is its key, each as often as it occurs in the input, in their input order |
| `WeeklyMileage.BucketActivities` | src/components/WeeklyMileage.tsx:64-91 | the map has a key exactly for the weeks holding an activity, and each key's bucket is the tally of that week's activities |
| `WeeklyMileage.EmptyBucket` | src/components/WeeklyMileage.tsx:152-175 | a week without activities tallies to the all-zero bucket with no activities |
| `WeeklyMileage.EarliestWeek` | src/components/WeeklyMileage.tsx:111-121 | the earliest bucket key is absent exactly when there are no activities; otherwise it is some activity's week and no activity's week is earlier |
| `WeeklyMileage.FillStart` | src/components/WeeklyMileage.tsx:95-124 | for `'all'` the fill starts at the earliest bucket's Monday, or 24 months back without activities; for every other period, with a well-behaved calendar, it starts no later than the fill end |
| `WeeklyMileage.FillEnd` | src/components/WeeklyMileage.tsx:126-149 | the fill period ends now at offset 0 and always for `'all'`; with a well-behaved calendar it never ends after now |
| `WeeklyMileage.AllTimeStart` | src/components/WeeklyMileage.tsx:111-121 | for `'all'` the fill starts at the earliest bucket's week start, which no activity precedes, or 24 months back when there are no activities |
| `WeeklyMileage.MinKey` | src/components/WeeklyMileage.tsx:114-116 | returns a key of the set that no key of the set is below |
| `WeeklyMileage.MaxKey` | src/components/WeeklyMileage.tsx:178-180 | returns a key of the set that no key of the set is above |
| `WeeklyMileage.FillWeeks` | src/components/WeeklyMileage.tsx:152-175 | existing buckets are unchanged; every Monday from the start's week to the end's week has a bucket; every added bucket is an empty one on such a Monday |
| `WeeklyMileage.SortByWeekDesc` | src/components/WeeklyMileage.tsx:178-180 | the result lists every bucket of the map exactly once, strictly most recent first |
| `WeeklyMileage.GroupActivitiesByWeek` | src/components/WeeklyMileage.tsx:60-181 | the weeks are strictly descending week starts, each the tally of its activities; every activity's week is present; every Monday of the fill period is present; every other week holds an activity; when the activities lie inside the fill period the list is exactly one week per seven days, the i-th week i weeks before the last Monday |
| `WeeklyMileage.SpanOfGrouping` | src/components/WeeklyMileage.tsx:152-180 | descending week starts that cover every Monday of a range and hold nothing outside it except weeks with activities are, when no activity falls outside the range, exactly one week per seven days from the range's end |
| `WeeklyMileage.SortedBuckets` | src/components/WeeklyMileage.tsx:152-180 | the sorted gap-filled buckets are each the bucket of their Monday, cover every activity's week and every Monday of the range, hold only weeks with activities outside it, and are one per seven days when every activity lies inside |
| `WeeklyMileage.NoGaps` | src/components/WeeklyMileage.tsx:152-180 | a strictly descending list of exactly the Mondays in a range has one week per seven days, with the i-th week i weeks before the last |
| `WeeklyMileage.BucketingConservesTotals` | src/components/WeeklyMileage.tsx:64-91 | over the buckets, activity counts add up to the number of activities; distances, miles and run counts add up to those of the input |
| `WeeklyMileage.MondayFirstIndex` | src/components/WeeklyMileage.tsx:189-191 | the slot of a weekday is `(weekday + 6) % 7`: Monday is slot 0 and Sunday slot 6 |
| `WeeklyMileage.DayIndexInWeek` | src/components/WeeklyMileage.tsx:184-196 | an activity's slot is the number of days from its week's Monday |
| `WeeklyMileage.WeeklyGraph` | src/components/WeeklyMileage.tsx:184-196 | the graph has seven entries, and entry d is the miles of the activities on day d of the week |
| `WeeklyMileage.DailyMilesSumToWeek` | src/components/WeeklyMileage.tsx:184-196 | the seven daily entries of a bucket add up to its total miles |
| `WeeklyMileage.TotalMiles` | src/components/WeeklyMileage.tsx:244 | the sum of the weeks' miles is the miles component of the week totals |
| `WeeklyMileage.TotalRuns` | src/components/WeeklyMileage.tsx:247 | the sum of the weeks' run counts is the runs component of the week totals |
| `WeeklyMileage.AverageWeeklyMiles` | src/components/WeeklyMileage.tsx:245 | the average times the number of weeks is the total miles, and 0 when there are no weeks |
| `WeeklyMileage.AverageWeeklyRuns` | src/components/WeeklyMileage.tsx:248 | the average times the number of weeks is the total runs, and 0 when there are no weeks |
| `WeeklyMileage.HighestWeekMiles` | src/components/WeeklyMileage.tsx:246 | no week has more miles and some week has exactly as many, or 0 when there are no weeks |
| `WeeklyMileage.WeekMaxDay` | src/components/WeeklyMileage.tsx:251-255 | the largest daily entry of a week: no entry exceeds it and one equals it |
| `WeeklyMileage.MaxDayMiles` | src/components/WeeklyMileage.tsx:251-255 | no daily entry of any week exceeds it; it is one of them or the initial 0 |
| `WeeklyMileage.ChangePeriod` | src/components/WeeklyMileage.tsx:206-213 | a period change selects the period, resets the offset to 0, clears the pending offset and requests the current window |
| `WeeklyMileage.GoBackward` | src/components/WeeklyMileage.tsx:216-222 | going back requests one period further back and marks it pending, leaving the shown offset alone |
| `WeeklyMileage.GoForward` | src/components/WeeklyMileage.tsx:225-233 | going forward does nothing at offset 0; otherwise it requests one period nearer and marks it pending |
| `WeeklyMileage.Settle` | src/components/WeeklyMileage.tsx:25-30 | once nothing is loading, the pending offset becomes the shown offset; otherwise nothing changes |
| `WeeklyMileage.SettleEnables` | src/components/WeeklyMileage.tsx:25-30 | after settling with nothing loading the controls are enabled, and settling again changes nothing |
| `WeeklyMileage.ControlsDisabled` | src/components/WeeklyMileage.tsx:279 | the navigation is disabled while loading and while an offset is pending; otherwise it is enabled and the state is already settled |
| `WeeklyMileage.BackThenForward` | src/components/WeeklyMileage.tsx:216-233 | going back and then forward, each load completing, returns to the state first shown |
| `App.MaxPages` | src/App.tsx:158-184 | the page budget is between 1 and 20, and 20 exactly for `'all'` |
| `App.AppWindow` | src/App.tsx:156-208 | the budget is the period's; only non-`'all'` periods stop early; the window ends now at offset 0 and for `'all'`; `'all'` starts on 2000-01-01 |
| `App.WindowOrdered` | src/App.tsx:156-208 | with a well-behaved calendar and a present after 2000, a window starts no later than it ends |
| `App.WindowsTile` | src/App.tsx:156-208 | except for `'last year'` and `'all'`, the window one step back ends exactly where the current one starts |
| `App.LastYearWindowsLeaveAWeek` | src/App.tsx:174 | consecutive `'last year'` windows leave seven days between them |
| `App.CopiesAgree` | src/App.tsx:156-208 | the loader's window and the period the weekly view fills coincide, except for `'all'` and for `'last year'` at a non-zero offset |
| `App.LastYearCopiesDisagree` | src/App.tsx:174 | for `'last year'` at offset k, the loader's window starts, and ends, k days later than the weekly view's |
| `App.WindowActivities` | src/App.tsx:230-233 | the kept activities are exactly the page's activities inside the window, in page order |
| `App.LoadFrom` | src/App.tsx:211-244 | a load from page p requests no more than the pages left in the budget, loads nothing once past the budget, and keeps only activities between the cutoff and the end date |
| `App.LoadConcatenation` | src/App.tsx:229-243 | the kept activities are the windowed pages requested, concatenated in arrival order |
| `App.LoadContinued` | src/App.tsx:215-243 | pages are requested 1, 2, … in turn, and every page before the last one requested was served, non-empty and no reason to stop |
| `App.LoadStopReason` | src/App.tsx:215-244 | a load that stops before its budget stopped on a failure, an empty page, or (not for `'all'`) a page with an activity older than the cutoff |
| `App.FailsOnLastPage` | src/App.tsx:215-221 | a failed load requested at least one page and failed on the last page it requested |
| `App.StopsOnLastPage` | src/App.tsx:216-241 | a successful load short of its budget stopped on a served page that was empty or, for periods other than `'all'`, held an activity older than the cutoff |
| `App.AllTimeNeverStopsEarly` | src/App.tsx:238-241 | for `'all'` a load short of its budget ended on an empty page: old activities never stop it |
| `App.NonRunPageStops` | src/App.tsx:216-227 | a page holding no runs counts as empty and ends the load with nothing added |
| `App.LoadPages` | src/App.tsx:211-244 | the page loop produces the outcome of the page-by-page definition of a load |
| `App.HandleAuthStart` | src/App.tsx:92-94 | authenticating is set and the error cleared; nothing else changes |
| `App.HandleAuthSuccess` | src/App.tsx:96-116 | authenticated with the token's credentials and athlete and no error; activities, loading flags and view are kept |
| `App.HandleAuthError` | src/App.tsx:118-124 | authenticating is cleared and the error set; nothing else changes |
| `App.AuthFlow` | src/App.tsx:92-124 | a failed authentication leaves everything but the two authentication fields as it was; a later success clears the error |
| `App.Logout` | src/App.tsx:262-278 | logout gives exactly the initial state, whatever the state was |
| `App.StartWeeklyLoad` | src/App.tsx:152 | a weekly load sets its loading flag and clears the error; nothing else changes |
| `App.FinishWeeklyLoad` | src/App.tsx:246-258 | on success the activities are replaced and counted; on failure they are kept and the error is set; loading stops in both cases |
| `App.LoadMoreActivitiesForWeekly` | src/App.tsx:149-260 | without a token nothing changes; otherwise the state after starting, running the page loop over the period's window, and finishing |
| `App.WeeklyLoadResult` | src/App.tsx:246-258 | after a load, loading has stopped and at most the budget was requested; on success the activities lie in the window and are counted; on failure they are unchanged and the error is set |
| `App.LoadActivities` | src/App.tsx:126-147 | without a token nothing changes; on success the runs of the page are shown and the count is the requested one; on failure the error is set and the activities are kept; the authentication, token, athlete, weekly-loading and view fields are unchanged in every case |
| `App.SwitchView` | src/App.tsx:280-296 | only the view changes; a reload is started only for the weekly view, always when fewer than 200 are loaded or none, and otherwise exactly when no activity is from the last six months |
| `StravaService.KeepType` | src/services/stravaService.ts:146-151 | the kept activities are exactly those whose lower-cased type is the filter, with their multiplicities, in page order |
| `StravaService.FilterByType` | src/services/stravaService.ts:143-153 | with no type or an empty type the page is returned as it is; otherwise exactly its activities of that type, case-insensitively, as an ordered subsequence |
| `StravaService.GetActivities` | src/services/stravaService.ts:126-157 | an upstream failure is passed on; a served page is filtered by type |
| `StravaService.KeepTypeNone` | src/services/stravaService.ts:146-151 | a page without an activity of the type keeps nothing |
| `StravaService.IsTokenExpired` | src/services/stravaService.ts:193-195 | a token is expired exactly when the time in milliseconds is past 1000 times its expiry in seconds |
| `StravaService.TokenExpiryMonotone` | src/services/stravaService.ts:193-195 | an expired token stays expired as time goes on |
| `StravaService.ClockParts` | src/services/stravaService.ts:205-207 | minutes and seconds are below 60, and hours, minutes and seconds add back up to the total |
| `StravaService.FormatTimeRoundTrip` | src/services/stravaService.ts:204-213 | the text has three colon-separated fields exactly from one hour up, and reading it back gives the seconds formatted; every field after the first has exactly two digits, and the first has no leading zero; the fields read as the hours, the minutes below 60 and the seconds below 60 (or the minutes and seconds below an hour) |
| `StravaService.ClockFields` | src/services/stravaService.ts:209-212 | the first clock field is unpadded with no leading zero, the later ones are two digits, and each reads as its hours, minutes or seconds |
| `StravaService.FormatTime` | src/services/stravaService.ts:204-213 | the text ends in a colon and two digits that read as the seconds within the minute |
| `Text.TwoDigits` | src/services/stravaService.ts:209-212 | a number below 100, zero-padded, is two digits that read back as the number |
| `Text.DigitsValueOfNatToString` | src/services/stravaService.ts:209-212 | the decimal text of a number reads back as the number |
| `TimeNavigation.PeriodLabel` | src/components/TimeNavigation.tsx:20-40 | at offset 0 the label is `All Time` for `'all'` and `Current` otherwise; for `'all'` it is always `All Time` |
| `TimeNavigation.LabelCountsBack` | src/components/TimeNavigation.tsx:25-38 | away from offset 0, the label ends in ` ago` and starts with the offset times 1, 3 or 6 units |
| `TimeNavigation.LabelShape` | src/components/TimeNavigation.tsx:25-38 | away from offset 0, the label is the decimal count of units back, the period's unit, and ` ago` |
| `TimeNavigation.LabelUnit` | src/components/TimeNavigation.tsx:27-38 | away from offset 0, between the leading number and ` ago` stands the period's unit: ` month` or ` year` with a plural `s` past one step, ` months` for three and six months, ` period` otherwise |
| `TimeNavigation.LabelInjective` | src/components/TimeNavigation.tsx:20-40 | for a period other than `'all'`, different offsets give different labels |
| `TimeNavigation.LabelPlural` | src/components/TimeNavigation.tsx:27-38 | for `'last month'`, `'last year'` and an unrecognised period, the unit is plural exactly when more than one step back |
| `TimeNavigation.ControlsShown` | src/components/TimeNavigation.tsx:63 | the navigation controls are shown exactly when the period is not `'all'` |
| `TimeNavigation.BackwardEnabledMovesBack` | src/components/TimeNavigation.tsx:65-69 | when the back button is enabled, nothing is loading or pending, and pressing it requests and marks pending the period one step further back |
| `TimeNavigation.FirstRender` | src/components/WeeklyMileage.tsx:20-22 | on first render the bar is shown with the label `Current`, the back button enabled and the forward button disabled |
| `TimeNavigation.ForwardDisabled` | src/components/TimeNavigation.tsx:78 | the forward button is disabled when the navigation is and at offset 0; when it is enabled, so is the back button |
| `TimeNavigation.ForwardEnabledMovesForward` | src/components/TimeNavigation.tsx:76-78 | when the forward button is enabled, pressing it requests the period one step nearer |
| `Periods.FromName` | src/components/TimeNavigation.tsx:54-58 | a recognised option value maps to the period of that name |
| `Periods.FromNameOfName` | src/components/TimeNavigation.tsx:54-58 | every period's option value maps back to it |
| `WeeklyTimelineChart.ChronologicalAscending` | src/components/WeeklyTimelineChart.tsx:33 | reversing the most-recent-first weeks gives strictly ascending weeks |
| `WeeklyTimelineChart.ChartPoints` | src/components/WeeklyTimelineChart.tsx:35-44 | one point per week, oldest first, each with the week, its start and its miles |
| `WeeklyTimelineChart.Interval` | src/components/WeeklyTimelineChart.tsx:46-47 | the tick spacing is at least 1, and from eight weeks up it is the whole number of eighths |
| `WeeklyTimelineChart.TicksBelow` | src/components/WeeklyTimelineChart.tsx:48-50 | the tick indices are exactly the multiples of the spacing and the last index, in increasing order |
| `WeeklyTimelineChart.TicksIncludeEnds` | src/components/WeeklyTimelineChart.tsx:48-50 | for data that is not empty, the ticks start with the first week and end with the last |
| `WeeklyTimelineChart.TickWeeks` | src/components/WeeklyTimelineChart.tsx:48-50 | the weeks carrying ticks are the chronological weeks at the tick indices, in order |
| `WeeklyTimelineChart.MultipleYearsIff` | src/components/WeeklyTimelineChart.tsx:16-17 | the weeks span several years exactly when two of them start in different years |

## Left out

- Network and OAuth calls (the token exchange, token refresh, single-activity and athlete requests, and the fetch inside `getActivities`): these are foreign I/O. The page source is the `upstream` parameter instead.
- `getAuthorizationUrl`: its result depends on the `URLSearchParams` encoding of a library.
- `localStorage` persistence, the parsing of saved authentication, and the `checkExistingAuth` and `refreshTokenIfNeeded` effects (src/App.tsx:42-90): browser storage and asynchronous side effects.
- React rendering, JSX, and the scheduling of effects. The effect of the weekly view is modelled as the `Settle` transition.
- The presentation components (AuthCallback, StravaAuth, ActivitiesList, WeekItem, DailyBreakdownChart, WeeklySummaryStats, LoadingIndicator): they hold no logic beyond display.
- Locale formatting: the `toLocaleDateString` text of chart labels and `formatWeekLabel`, and `formatDistance` and `formatPace`. The chart model keeps the week start in place of the label text, and models the several-years test that picks the format.
- Floating point: distances, miles and averages are exact reals, so the rounding of `/ 1609.344` and of the sums is not modelled.
- JavaScript `Date` internals: time zones, daylight saving, the parsing of `start_date_local`, and the day overflow of `setMonth`. Month shifts and the year of a date come in through the `Calendar` parameter.
- The race between overlapping asynchronous loads, whose late answer can overwrite a newer one: a load is modelled as one sequential run.
- `onLoadMoreData` being optional in the weekly view: the navigation transitions always return the load they request.
- `switchView` reads `state` from the render in which it was called; the model gives it the current state.
- `LoadActivities`: its default of 30 activities when called without a count is not modelled; the count is always a parameter. One upstream answer stands for the single request of `count` activities. The page size and page number it passes to the service (and the loader's page size of 200) are not modelled.
- `StravaService.FormatTime`: modelled only for whole, non-negative seconds, which is what its callers pass.
- `Text.ToLower`: lower-cases ASCII letters only, not all of Unicode.
- The athlete's profile and location fields, and the activity fields that no core computation reads.
- `getFilteredActivities` returns the loaded activities unchanged, so the model passes them straight to `GroupActivitiesByWeek`.
