/** The application shell: its state record and the transitions on it (authentication,
    logout, view switching) and the incremental loader behind the weekly view, which
    turns a period and an offset into a time window and a page budget and then fetches
    pages one after another. The upstream service is a parameter: the sequence of its
    answers to requests for pages 1, 2, ... (a page past its end is an empty page). */
module App {
  import opened Collections
  import opened Text
  import opened Dates
  import opened Periods
  import opened StravaService
  import WeeklyMileage

  // ---------------------------------------------------------------------------------
  // The window of a load

  /** The activities a load keeps lie between `cutoff` and `end`; at most `maxPages`
      pages are requested, and unless the period is `'all'` the load stops after the
      first page holding an activity older than `cutoff`. */
  datatype Window = Window(cutoff: Instant, end: Instant, maxPages: nat, stopsEarly: bool)

  /** The page budget of a period. */
  function MaxPages(period: Period): (n: nat)
    ensures 1 <= n <= 20
    ensures n == 20 <==> period == AllTime
  {
    match period
    case LastMonth => 1
    case ThreeMonths => 2
    case LastSixMonths => 5
    case LastYear => 10
    case AllTime => 20
    case Other => 5
  }

  /** `cutoffDate`: the start of the window. `'last year'` steps back 52 weeks per step
      of the offset here (the weekly view steps back 365 days, see `LastYearCopiesDisagree`). */
  function Cutoff(period: Period, offset: nat, now: Instant, cal: Calendar): Instant
  {
    match period
    case LastMonth => AddDays(now, -(4 * 7) - offset * 4 * 7)
    case ThreeMonths => cal.shiftMonths(now, -3 - offset * 3)
    case LastSixMonths => cal.shiftMonths(now, -6 - offset * 6)
    case LastYear => AddDays(now, -(51 * 7) - offset * 52 * 7)
    case AllTime => Jan1st2000
    case Other => cal.shiftMonths(now, -6 - offset * 6)
  }

  /** `endDate`: `now` moved back by `offset` periods; `now` itself for `'all'`. */
  function WindowEnd(period: Period, offset: nat, now: Instant, cal: Calendar): Instant
  {
    if offset > 0 then
      match period
      case LastMonth => AddDays(now, -(offset * 4 * 7))
      case ThreeMonths => cal.shiftMonths(now, -(offset * 3))
      case LastSixMonths => cal.shiftMonths(now, -(offset * 6))
      case LastYear => AddDays(now, -(offset * 52 * 7))
      case AllTime => now
      case Other => cal.shiftMonths(now, -(offset * 6))
    else now
  }

  /** The window `loadMoreActivitiesForWeekly` computes from its arguments. */
  function AppWindow(period: Period, offset: nat, now: Instant, cal: Calendar): (w: Window)
    ensures w.maxPages == MaxPages(period)
    ensures w.stopsEarly <==> period != AllTime
    ensures offset == 0 || period == AllTime ==> w.end == now
    ensures period == AllTime ==> w.cutoff == Jan1st2000
  {
    Window(Cutoff(period, offset, now, cal), WindowEnd(period, offset, now, cal), MaxPages(period), period != AllTime)
  }

  /** For a well-behaved calendar, and a present after 2000, every window starts no later
      than it ends. */
  lemma WindowOrdered(period: Period, offset: nat, now: Instant, cal: Calendar)
    requires WellBehaved(cal) && Le(Jan1st2000, now)
    ensures Le(AppWindow(period, offset, now, cal).cutoff, AppWindow(period, offset, now, cal).end)
  {
    var w := AppWindow(period, offset, now, cal);
    if offset == 0 {
      assert cal.shiftMonths(now, 0) == now;
    }
    match period
    case LastMonth =>
    case ThreeMonths => assert Le(cal.shiftMonths(now, -3 - offset * 3), cal.shiftMonths(now, -(offset * 3)));
    case LastSixMonths => assert Le(cal.shiftMonths(now, -6 - offset * 6), cal.shiftMonths(now, -(offset * 6)));
    case LastYear =>
    case AllTime =>
    case Other => assert Le(cal.shiftMonths(now, -6 - offset * 6), cal.shiftMonths(now, -(offset * 6)));
  }

  /** For the month-based periods and for `'last month'`, the window one step further back
      ends exactly where this one starts. */
  lemma WindowsTile(period: Period, offset: nat, now: Instant, cal: Calendar)
    requires period != LastYear && period != AllTime
    ensures AppWindow(period, offset + 1, now, cal).end == AppWindow(period, offset, now, cal).cutoff
  {
    match period
    case LastMonth =>
    case ThreeMonths => assert -((offset + 1) * 3) == -3 - offset * 3;
    case LastSixMonths => assert -((offset + 1) * 6) == -6 - offset * 6;
    case Other => assert -((offset + 1) * 6) == -6 - offset * 6;
  }

  /** For `'last year'` the window one step further back ends a week before this one
      starts (51 weeks back, but 52 weeks per step), so the seven days between are in
      neither window. */
  lemma LastYearWindowsLeaveAWeek(offset: nat, now: Instant, cal: Calendar)
    ensures AppWindow(LastYear, offset + 1, now, cal).end.day + 7 == AppWindow(LastYear, offset, now, cal).cutoff.day
    ensures AppWindow(LastYear, offset + 1, now, cal).end.ms == AppWindow(LastYear, offset, now, cal).cutoff.ms
  {
  }

  /** The loader and the weekly view compute the same period, except for `'all'`, and for
      `'last year'` at a non-zero offset. */
  lemma CopiesAgree(period: Period, offset: nat, now: Instant, cal: Calendar, earliest: Option<int>)
    requires period != AllTime && (period == LastYear ==> offset == 0)
    ensures WeeklyMileage.FillStart(period, offset, now, cal, earliest) == AppWindow(period, offset, now, cal).cutoff
    ensures WeeklyMileage.FillEnd(period, offset, now, cal) == AppWindow(period, offset, now, cal).end
  {
  }

  /** The two copies disagree for `'last year'`: at offset `k` the loader's window starts
      and ends `k` days later than the period the weekly view fills. */
  lemma LastYearCopiesDisagree(offset: nat, now: Instant, cal: Calendar, earliest: Option<int>)
    ensures AppWindow(LastYear, offset, now, cal).cutoff.day - WeeklyMileage.FillStart(LastYear, offset, now, cal, earliest).day == offset
    ensures offset > 0 ==>
      AppWindow(LastYear, offset, now, cal).end.day - WeeklyMileage.FillEnd(LastYear, offset, now, cal).day == offset
  {
  }

  // ---------------------------------------------------------------------------------
  // The page loop

  predicate InWindow(a: Activity, w: Window)
  {
    Le(w.cutoff, a.startDateLocal) && Le(a.startDateLocal, w.end)
  }

  /** `windowActivities`: the activities of a page inside the window, in page order. */
  function WindowActivities(page: seq<Activity>, w: Window): (r: seq<Activity>)
    ensures forall a :: a in r ==> InWindow(a, w)
    ensures forall a {:trigger multiset(r)[a]} :: multiset(r)[a] == if InWindow(a, w) then multiset(page)[a] else 0
    ensures IsSubsequence(r, page)
  {
    if page == [] then []
    else
      var a, rest := page[0], WindowActivities(page[1..], w);
      assert page == [a] + page[1..];
      if InWindow(a, w) then
        ConsSubsequence(a, rest, page[1..]);
        [a] + rest
      else
        SkipSubsequence(a, rest, page[1..]);
        rest
  }

  /** The page holds an activity older than `cutoff`. */
  predicate HasOlderThan(page: seq<Activity>, cutoff: Instant)
  {
    exists a :: a in page && Lt(a.startDateLocal, cutoff)
  }

  /** `getActivities(token, page, 200, 'Run')`: the upstream's answer for `page`, filtered
      to runs. */
  function FetchPage(upstream: seq<PageResponse>, page: nat): PageResponse
    requires page >= 1
  {
    var raw := if page <= |upstream| then upstream[page - 1] else Served([]);
    GetActivities(raw, Some(RunType))
  }

  /** How a load ends: with the activities collected, or with an error; in both cases
      with the number of pages requested. */
  datatype LoadOutcome =
    | Loaded(activities: seq<Activity>, pagesRequested: nat)
    | LoadFailed(pagesRequested: nat)

  /** `acc` collected from `n` earlier pages, followed by the outcome `o` of the rest. */
  function After(acc: seq<Activity>, n: nat, o: LoadOutcome): LoadOutcome
  {
    match o
    case Loaded(rest, m) => Loaded(acc + rest, n + m)
    case LoadFailed(m) => LoadFailed(n + m)
  }

  /** A served page lets the loop go on: it is not empty and does not end the load early. */
  predicate Continues(w: Window, response: PageResponse)
  {
    response.Served? && |response.activities| > 0 &&
    !(w.stopsEarly && HasOlderThan(response.activities, w.cutoff))
  }

  /** What the page loop does from page `page` on. It requests no page beyond the
      budget, and every activity it keeps lies in the window. */
  function LoadFrom(w: Window, upstream: seq<PageResponse>, page: nat): (o: LoadOutcome)
    requires page >= 1
    ensures page <= w.maxPages ==> o.pagesRequested <= w.maxPages + 1 - page
    ensures page > w.maxPages ==> o == Loaded([], 0)
    ensures o.Loaded? ==> forall a :: a in o.activities ==> InWindow(a, w)
    decreases w.maxPages + 1 - page
  {
    if page > w.maxPages then Loaded([], 0)
    else
      match FetchPage(upstream, page)
      case Failed => LoadFailed(1)
      case Served(items) =>
        if |items| == 0 then Loaded([], 1)
        else if w.stopsEarly && HasOlderThan(items, w.cutoff) then Loaded(WindowActivities(items, w), 1)
        else After(WindowActivities(items, w), 1, LoadFrom(w, upstream, page + 1))
  }

  /** The window activities of pages `page`, ..., `page + n - 1` concatenated in order. */
  function WindowedPages(w: Window, upstream: seq<PageResponse>, page: nat, n: nat): seq<Activity>
    requires page >= 1
    decreases n
  {
    if n == 0 then []
    else
      var here := FetchPage(upstream, page);
      (if here.Served? then WindowActivities(here.activities, w) else []) + WindowedPages(w, upstream, page + 1, n - 1)
  }

  /** The activities a load keeps are the window activities of the pages it requested,
      concatenated in the order the pages arrived. */
  lemma {:induction false} LoadConcatenation(w: Window, upstream: seq<PageResponse>, page: nat)
    requires page >= 1
    ensures LoadFrom(w, upstream, page).Loaded? ==>
      LoadFrom(w, upstream, page).activities ==
        WindowedPages(w, upstream, page, LoadFrom(w, upstream, page).pagesRequested)
    decreases w.maxPages + 1 - page
  {
    if page <= w.maxPages {
      var here := FetchPage(upstream, page);
      if Continues(w, here) {
        LoadConcatenation(w, upstream, page + 1);
      } else if here.Served? && |here.activities| == 0 {
        assert WindowActivities(here.activities, w) == [];
      }
    }
  }

  /** Pages are requested one after another, and every page before the last one requested
      was served, not empty, and not a reason to stop early. */
  lemma {:induction false} LoadContinued(w: Window, upstream: seq<PageResponse>, page: nat)
    requires page >= 1
    ensures forall i :: page <= i < page + LoadFrom(w, upstream, page).pagesRequested - 1 ==>
      Continues(w, FetchPage(upstream, i))
    decreases w.maxPages + 1 - page
  {
    if page <= w.maxPages {
      LoadContinued(w, upstream, page + 1);
    }
  }

  /** A load ends only for a reason: the last page requested failed, was empty, or held an
      activity older than the cutoff (never for `'all'`), or the budget was used up. */
  lemma LoadStopReason(w: Window, upstream: seq<PageResponse>, page: nat)
    requires 1 <= page <= w.maxPages
    ensures var o := LoadFrom(w, upstream, page);
      var last := page + o.pagesRequested - 1;
      o.pagesRequested >= 1 &&
      (o.LoadFailed? ==> FetchPage(upstream, last).Failed?) &&
      (o.Loaded? && last < w.maxPages ==>
        FetchPage(upstream, last).Served? &&
        (|FetchPage(upstream, last).activities| == 0 ||
         (w.stopsEarly && HasOlderThan(FetchPage(upstream, last).activities, w.cutoff))))
  {
    FailsOnLastPage(w, upstream, page);
    StopsOnLastPage(w, upstream, page);
  }

  /** A failed load failed on the last page it requested. */
  lemma {:induction false} FailsOnLastPage(w: Window, upstream: seq<PageResponse>, page: nat)
    requires 1 <= page <= w.maxPages
    ensures var o := LoadFrom(w, upstream, page);
      o.pagesRequested >= 1 &&
      (o.LoadFailed? ==> FetchPage(upstream, page + o.pagesRequested - 1).Failed?)
    decreases w.maxPages + 1 - page
  {
    if page < w.maxPages && Continues(w, FetchPage(upstream, page)) {
      FailsOnLastPage(w, upstream, page + 1);
    }
  }

  /** A successful load short of its budget stopped on an empty page or, when the period
      stops early, on a page with an activity older than the cutoff. */
  lemma {:induction false} StopsOnLastPage(w: Window, upstream: seq<PageResponse>, page: nat)
    requires 1 <= page <= w.maxPages
    ensures var o := LoadFrom(w, upstream, page);
      var last := page + o.pagesRequested - 1;
      o.Loaded? && last < w.maxPages ==>
        FetchPage(upstream, last).Served? &&
        (|FetchPage(upstream, last).activities| == 0 ||
         (w.stopsEarly && HasOlderThan(FetchPage(upstream, last).activities, w.cutoff)))
    decreases w.maxPages + 1 - page
  {
    if page < w.maxPages && Continues(w, FetchPage(upstream, page)) {
      StopsOnLastPage(w, upstream, page + 1);
    }
  }

  /** With `'all'`, a load that requests fewer pages than its budget ended on an empty
      page (or an error): an old activity never stops it. */
  lemma AllTimeNeverStopsEarly(offset: nat, now: Instant, cal: Calendar, upstream: seq<PageResponse>)
    ensures var w := AppWindow(AllTime, offset, now, cal);
      var o := LoadFrom(w, upstream, 1);
      o.Loaded? && o.pagesRequested < w.maxPages ==>
        FetchPage(upstream, o.pagesRequested).Served? &&
        |FetchPage(upstream, o.pagesRequested).activities| == 0
  {
    LoadStopReason(AppWindow(AllTime, offset, now, cal), upstream, 1);
  }

  /** The type filter runs before the empty-page test: a page holding only activities other
      than runs counts as empty and ends the load, whatever the later pages hold. */
  lemma NonRunPageStops(w: Window, upstream: seq<PageResponse>, page: nat)
    requires 1 <= page <= w.maxPages && page <= |upstream|
    requires upstream[page - 1].Served?
    requires forall a :: a in upstream[page - 1].activities ==> ToLower(a.activityType) != "run"
    ensures LoadFrom(w, upstream, page) == Loaded([], 1)
  {
    RunTypeLower();
    KeepTypeNone(upstream[page - 1].activities, "run");
  }

  lemma AfterAssoc(acc: seq<Activity>, n: nat, more: seq<Activity>, o: LoadOutcome)
    ensures After(acc, n, After(more, 1, o)) == After(acc + more, n + 1, o)
  {
    match o
    case Loaded(rest, m) => assert acc + (more + rest) == acc + more + rest;
    case LoadFailed(m) =>
  }

  /** The `while (keepLoading && page <= maxPages)` loop of `loadMoreActivitiesForWeekly`. */
  method LoadPages(w: Window, upstream: seq<PageResponse>) returns (outcome: LoadOutcome)
    ensures outcome == LoadFrom(w, upstream, 1)
  {
    var allActivities: seq<Activity> := [];
    var page := 1;
    var requested := 0;
    var keepLoading := true;
    while keepLoading && page <= w.maxPages
      invariant page >= 1
      invariant keepLoading ==> requested == page - 1
      invariant keepLoading ==> LoadFrom(w, upstream, 1) == After(allActivities, requested, LoadFrom(w, upstream, page))
      invariant !keepLoading ==> LoadFrom(w, upstream, 1) == Loaded(allActivities, requested)
      decreases keepLoading, w.maxPages + 1 - page
    {
      var response := FetchPage(upstream, page);
      requested := page;
      if response.Failed? {
        return LoadFailed(requested);
      }
      var pageActivities := response.activities;
      if |pageActivities| == 0 {
        assert allActivities + [] == allActivities;
        keepLoading := false;
        break;
      }
      var windowActivities := WindowActivities(pageActivities, w);
      AfterAssoc(allActivities, page - 1, windowActivities, LoadFrom(w, upstream, page + 1));
      allActivities := allActivities + windowActivities;
      if w.stopsEarly && HasOlderThan(pageActivities, w.cutoff) {
        keepLoading := false;
      }
      page := page + 1;
    }
    assert allActivities + [] == allActivities;
    outcome := Loaded(allActivities, requested);
  }

  // ---------------------------------------------------------------------------------
  // Application state

  datatype View = ActivitiesView | WeeklyView

  datatype AppState = AppState(
    isAuthenticated: bool,
    isAuthenticating: bool,
    accessToken: Option<string>,
    refreshToken: Option<string>,
    expiresAt: Option<int>,
    athlete: Option<Athlete>,
    activities: seq<Activity>,
    loading: bool,
    loadingMoreForWeekly: bool,
    activitiesLoaded: int,
    error: Option<string>,
    currentView: View)

  /** The state `App` starts in. */
  const InitialState: AppState :=
    AppState(false, false, None, None, None, None, [], false, false, 0, None, WeeklyView)

  const WeeklyLoadError: string := "Failed to load activities for weekly view."
  const LoadError: string := "Failed to load activities. Please try again."

  /** `if (!state.accessToken) return;`: there is a non-empty access token. */
  predicate HasToken(s: AppState) { s.accessToken.Some? && s.accessToken.value != "" }

  /** `handleAuthStart`: authentication is under way, the error is cleared, nothing else
      changes. */
  function HandleAuthStart(s: AppState): (r: AppState)
    ensures r.isAuthenticating && r.error == None
    ensures r.(isAuthenticating := s.isAuthenticating, error := s.error) == s
  {
    s.(isAuthenticating := true, error := None)
  }

  /** `handleAuthSuccess`: authenticated with the token's credentials and athlete, no
      error; activities and view are kept. */
  function HandleAuthSuccess(s: AppState, t: TokenResponse): (r: AppState)
    ensures r.isAuthenticated && !r.isAuthenticating && r.error == None
    ensures r.accessToken == Some(t.accessToken) && r.refreshToken == Some(t.refreshToken)
    ensures r.expiresAt == Some(t.expiresAt) && r.athlete == Some(t.athlete)
    ensures r.activities == s.activities && r.activitiesLoaded == s.activitiesLoaded
    ensures r.loading == s.loading && r.loadingMoreForWeekly == s.loadingMoreForWeekly
    ensures r.currentView == s.currentView
  {
    s.(isAuthenticated := true, isAuthenticating := false, accessToken := Some(t.accessToken),
       refreshToken := Some(t.refreshToken), expiresAt := Some(t.expiresAt),
       athlete := Some(t.athlete), error := None)
  }

  /** `handleAuthError`: authentication has stopped with `message` as the error, nothing
      else changes. */
  function HandleAuthError(s: AppState, message: string): (r: AppState)
    ensures !r.isAuthenticating && r.error == Some(message)
    ensures r.(isAuthenticating := s.isAuthenticating, error := s.error) == s
  {
    s.(isAuthenticating := false, error := Some(message))
  }

  /** Starting authentication and then failing leaves the state as it was except for the
      two authentication fields; succeeding afterwards clears the error again. */
  lemma AuthFlow(s: AppState, message: string, t: TokenResponse)
    ensures HandleAuthError(HandleAuthStart(s), message) == s.(isAuthenticating := false, error := Some(message))
    ensures HandleAuthSuccess(HandleAuthError(HandleAuthStart(s), message), t).error == None
  {
  }

  /** `logout`: every field back to its initial value, whatever the state was. */
  function Logout(s: AppState): (r: AppState)
    ensures r == InitialState
    ensures !HasToken(r) && r.activities == [] && r.activitiesLoaded == 0
  {
    AppState(
      isAuthenticated := false,
      isAuthenticating := false,
      accessToken := None,
      refreshToken := None,
      expiresAt := None,
      athlete := None,
      activities := [],
      loading := false,
      loadingMoreForWeekly := false,
      activitiesLoaded := 0,
      error := None,
      currentView := WeeklyView)
  }

  /** The first update of `loadMoreActivitiesForWeekly`: loading, no error. */
  function StartWeeklyLoad(s: AppState): (r: AppState)
    ensures r.loadingMoreForWeekly && r.error == None
    ensures r.(loadingMoreForWeekly := s.loadingMoreForWeekly, error := s.error) == s
  {
    s.(loadingMoreForWeekly := true, error := None)
  }

  /** The last update of `loadMoreActivitiesForWeekly`: on success the activities are
      replaced and counted; on failure they are kept and the error is set. Loading stops
      in both cases. */
  function FinishWeeklyLoad(s: AppState, outcome: LoadOutcome): (r: AppState)
    ensures !r.loadingMoreForWeekly
    ensures outcome.Loaded? ==>
      r.activities == outcome.activities && r.activitiesLoaded == |outcome.activities| &&
      r.(activities := s.activities, activitiesLoaded := s.activitiesLoaded,
         loadingMoreForWeekly := s.loadingMoreForWeekly) == s
    ensures outcome.LoadFailed? ==>
      r.error == Some(WeeklyLoadError) &&
      r.(error := s.error, loadingMoreForWeekly := s.loadingMoreForWeekly) == s
  {
    match outcome
    case Loaded(activities, _) =>
      s.(activities := activities, activitiesLoaded := |activities|, loadingMoreForWeekly := false)
    case LoadFailed(_) =>
      s.(loadingMoreForWeekly := false, error := Some(WeeklyLoadError))
  }

  /** `loadMoreActivitiesForWeekly(timePeriod, timeOffset)` run to completion against the
      upstream answers `upstream`: without a token nothing happens; otherwise the state
      after the loop over the window of `period` and `offset`. */
  method LoadMoreActivitiesForWeekly(
    s: AppState, period: Period, offset: nat, now: Instant, cal: Calendar, upstream: seq<PageResponse>)
    returns (r: AppState)
    ensures !HasToken(s) ==> r == s
    ensures HasToken(s) ==>
      r == FinishWeeklyLoad(StartWeeklyLoad(s), LoadFrom(AppWindow(period, offset, now, cal), upstream, 1))
  {
    if !HasToken(s) {
      return s;
    }
    var begun := StartWeeklyLoad(s);
    var window := AppWindow(period, offset, now, cal);
    var outcome := LoadPages(window, upstream);
    r := FinishWeeklyLoad(begun, outcome);
  }

  /** After a load with a token, the activities shown are either those of the window, at
      most `maxPages` pages of them, or (on failure) those shown before, with the error
      set; loading has stopped. */
  lemma WeeklyLoadResult(s: AppState, period: Period, offset: nat, now: Instant, cal: Calendar, upstream: seq<PageResponse>)
    requires HasToken(s)
    ensures var w := AppWindow(period, offset, now, cal);
      var o := LoadFrom(w, upstream, 1);
      var r := FinishWeeklyLoad(StartWeeklyLoad(s), o);
      !r.loadingMoreForWeekly &&
      o.pagesRequested <= w.maxPages &&
      (o.Loaded? ==>
         r.activitiesLoaded == |r.activities| && r.error == None &&
         forall a :: a in r.activities ==> InWindow(a, w)) &&
      (o.LoadFailed? ==> r.activities == s.activities && r.error == Some(WeeklyLoadError))
  {
  }

  /** `loadActivities(count)`: one page of `count` runs; on success the activities are
      replaced and `activitiesLoaded` is set to `count` (not to the number received). */
  function LoadActivities(s: AppState, count: int, response: PageResponse): (r: AppState)
    ensures !HasToken(s) ==> r == s
    ensures HasToken(s) ==> !r.loading
    ensures HasToken(s) && response.Served? ==>
      r.activities == FilterByType(response.activities, Some(RunType)) &&
      r.activitiesLoaded == count && r.error == None
    ensures HasToken(s) && response.Failed? ==>
      r.activities == s.activities && r.activitiesLoaded == s.activitiesLoaded && r.error == Some(LoadError)
    ensures r.(activities := s.activities, activitiesLoaded := s.activitiesLoaded, loading := s.loading, error := s.error) == s
  {
    if !HasToken(s) then s
    else
      var begun := s.(loading := true, error := None);
      match GetActivities(response, Some(RunType))
      case Served(activities) => begun.(activities := activities, activitiesLoaded := count, loading := false)
      case Failed => begun.(loading := false, error := Some(LoadError))
  }

  /** Some activity starts at or after `since`, and there is at least one activity. */
  predicate HasRecentData(activities: seq<Activity>, since: Instant)
  {
    |activities| > 0 && exists a :: a in activities && Le(since, a.startDateLocal)
  }

  /** `switchView`: the new view, and whether a reload of the last six months is started
      (only for the weekly view, when nothing in the last six months is loaded or fewer
      than 200 activities were loaded). */
  function SwitchView(s: AppState, view: View, now: Instant, cal: Calendar): (r: (AppState, bool))
    ensures r.0.currentView == view && r.0.(currentView := s.currentView) == s
    ensures view == ActivitiesView ==> !r.1
    ensures view == WeeklyView && (s.activitiesLoaded < 200 || s.activities == []) ==> r.1
    ensures view == WeeklyView && !r.1 ==>
      s.activitiesLoaded >= 200 &&
      exists a :: a in s.activities && Le(cal.shiftMonths(now, -6), a.startDateLocal)
    ensures r.1 && s.activitiesLoaded >= 200 ==>
      forall a :: a in s.activities ==> Lt(a.startDateLocal, cal.shiftMonths(now, -6))
  {
    var sixMonthsAgo := cal.shiftMonths(now, -6);
    var reload := view == WeeklyView && (!HasRecentData(s.activities, sixMonthsAgo) || s.activitiesLoaded < 200);
    (s.(currentView := view), reload)
  }
}
