/** The weekly-mileage engine: Monday-start week boundaries, bucketing of activities into
    weeks with gap filling and most-recent-first ordering, the per-day breakdown of a week,
    the summary statistics and the offset navigation of the weekly view. */
module WeeklyMileage {
  import opened Collections
  import opened Text
  import opened Dates
  import opened Periods
  import opened StravaService
  import opened Types

  /** Meters in a statute mile; distances are exact reals, so no rounding is modelled. */
  const MetersPerMile: real := 1609.344

  // ---------------------------------------------------------------------------------
  // Week boundaries

  /** `getWeekStart`: midnight of the Monday on or before `t`. */
  function WeekStart(t: Instant): (r: Instant)
    ensures r.ms == 0 && IsMonday(r.day)
    ensures Le(r, t) && r.day <= t.day < r.day + 7
  {
    var day := Weekday(t.day);
    var daysToSubtract := if day == Sunday then 6 else day - 1;
    Instant(t.day - daysToSubtract, 0)
  }

  /** A week start: midnight of a Monday. */
  predicate IsWeekStart(t: Instant) { t.ms == 0 && IsMonday(t.day) }

  /** The week start of `t` is the only Monday midnight on or before `t` and less than
      seven days before it. */
  lemma WeekStartUnique(t: Instant, m: Instant)
    requires IsWeekStart(m) && m.day <= t.day < m.day + 7
    ensures WeekStart(t) == m
  {
    var w := WeekStart(t);
    if w.day < m.day {
      MondayUnique(w.day, m.day);
    } else {
      MondayUnique(m.day, w.day);
    }
  }

  /** `getWeekStart` of a week start is itself, which the gap-filling loop relies on. */
  lemma WeekStartIdempotent(t: Instant)
    ensures WeekStart(WeekStart(t)) == WeekStart(t)
  {
    WeekStartUnique(WeekStart(t), WeekStart(t));
  }

  /** `getWeekEnd`: 23:59:59.999 on the Sunday six days after the week start. */
  function WeekEnd(weekStart: Instant): (r: Instant)
    ensures r.day == weekStart.day + 6 && r.ms == EndOfDayMs
  {
    Instant(weekStart.day + 6, EndOfDayMs)
  }

  /** An instant lies between a week's start and its end exactly when that week start is
      its `getWeekStart`. */
  lemma InWeekIff(t: Instant, weekStart: Instant)
    requires IsWeekStart(weekStart)
    ensures Le(weekStart, t) && Le(t, WeekEnd(weekStart)) <==> WeekStart(t) == weekStart
  {
    if Le(weekStart, t) && Le(t, WeekEnd(weekStart)) {
      WeekStartUnique(t, weekStart);
    }
  }

  /** Monday 00:00:00.000 and Sunday 23:59:59.999 belong to the week; the millisecond
      before the start and the one after the end do not. */
  lemma WeekBoundaries(weekStart: Instant)
    requires IsWeekStart(weekStart)
    ensures WeekStart(weekStart) == weekStart
    ensures WeekStart(WeekEnd(weekStart)) == weekStart
    ensures WeekStart(Instant(weekStart.day - 1, EndOfDayMs)) != weekStart
    ensures WeekStart(Instant(weekStart.day + 7, 0)) != weekStart
  {
    InWeekIff(weekStart, weekStart);
    InWeekIff(WeekEnd(weekStart), weekStart);
  }

  // ---------------------------------------------------------------------------------
  // Buckets

  /** The key of the bucket an activity goes to: the day of its week start. (The source
      keys by the week start's `YYYY-MM-DD` text, which names the same day.) */
  function WeekKey(a: Activity): int { WeekStart(a.startDateLocal).day }

  /** The day a bucket stands for. */
  function Key(w: WeekData): int { w.weekStart.day }

  /** The lower-cased type is `run`. */
  predicate IsRun(a: Activity) { ToLower(a.activityType) == "run" }

  function EmptyWeek(weekStart: Instant): WeekData
  {
    WeekData(weekStart, WeekEnd(weekStart), 0.0, 0.0, 0, 0, [])
  }

  /** One turn of the bucketing `forEach`: add the activity's distance, miles and counts
      and append it. */
  function AddActivity(w: WeekData, a: Activity): WeekData
  {
    w.(totalDistance := w.totalDistance + a.distance,
       totalMiles := w.totalMiles + a.distance / MetersPerMile,
       activityCount := w.activityCount + 1,
       runCount := w.runCount + (if IsRun(a) then 1 else 0),
       activities := w.activities + [a])
  }

  function SumDistance(s: seq<Activity>): real
  {
    if s == [] then 0.0 else SumDistance(s[..|s| - 1]) + s[|s| - 1].distance
  }

  function CountRuns(s: seq<Activity>): (n: nat)
    ensures n <= |s|
  {
    if s == [] then 0 else CountRuns(s[..|s| - 1]) + (if IsRun(s[|s| - 1]) then 1 else 0)
  }

  /** The activities of `s` whose week key is `key`, in their order in `s`. */
  function WeekMembers(s: seq<Activity>, key: int): (r: seq<Activity>)
    ensures forall a :: a in r ==> WeekKey(a) == key
    ensures forall a {:trigger multiset(r)[a]} ::
      multiset(r)[a] == if WeekKey(a) == key then multiset(s)[a] else 0
    ensures IsSubsequence(r, s)
  {
    if s == [] then []
    else
      var init, last := s[..|s| - 1], s[|s| - 1];
      assert s == init + [last];
      var kept := WeekMembers(init, key);
      if WeekKey(last) == key then
        assert multiset(kept + [last]) == multiset(kept) + multiset{last};
        SnocKeepSubsequence(kept, init, last);
        kept + [last]
      else
        SnocSkipSubsequence(kept, init, last);
        kept
  }

  /** The bucket for `weekStart` after the activities `s` have been added to it in order. */
  function Tally(s: seq<Activity>, weekStart: Instant): (w: WeekData)
    ensures w.weekStart == weekStart && w.weekEnd == WeekEnd(weekStart)
    ensures w.activities == s && w.activityCount == |s|
    ensures w.totalDistance == SumDistance(s)
    ensures w.totalMiles == SumDistance(s) / MetersPerMile
    ensures w.runCount == CountRuns(s) <= w.activityCount
  {
    if s == [] then EmptyWeek(weekStart)
    else AddActivity(Tally(s[..|s| - 1], weekStart), s[|s| - 1])
  }

  /** What bucketing `s` leaves in the bucket keyed `key`. */
  function BucketFor(s: seq<Activity>, key: int): WeekData
  {
    Tally(WeekMembers(s, key), Instant(key, 0))
  }

  /** A week no activity falls in has a bucket of zeros with no activities. */
  lemma {:induction false} EmptyBucket(s: seq<Activity>, key: int)
    requires forall a :: a in s ==> WeekKey(a) != key
    ensures WeekMembers(s, key) == []
    ensures BucketFor(s, key) == EmptyWeek(Instant(key, 0))
  {
    if s != [] {
      assert s[|s| - 1] in s;
      EmptyBucket(s[..|s| - 1], key);
    }
  }

  lemma TallySnoc(s: seq<Activity>, a: Activity, weekStart: Instant)
    ensures Tally(s + [a], weekStart) == AddActivity(Tally(s, weekStart), a)
  {
    assert (s + [a])[..|s|] == s;
  }

  lemma WeekMembersSnoc(s: seq<Activity>, a: Activity, key: int)
    ensures WeekMembers(s + [a], key) == WeekMembers(s, key) + (if WeekKey(a) == key then [a] else [])
  {
    assert (s + [a])[..|s|] == s;
  }

  // ---------------------------------------------------------------------------------
  // groupActivitiesByWeek

  /** Some activity of `s` has week key `key`. */
  predicate HasActivityIn(s: seq<Activity>, key: int) { exists a :: a in s && WeekKey(a) == key }

  /** The first pass of `groupActivitiesByWeek`: one bucket per week that has an activity,
      holding exactly that week's activities. */
  method BucketActivities(activities: seq<Activity>) returns (weekMap: map<int, WeekData>)
    ensures forall key :: key in weekMap <==> HasActivityIn(activities, key)
    ensures forall key :: key in weekMap ==> weekMap[key] == BucketFor(activities, key)
  {
    weekMap := map[];
    for i := 0 to |activities|
      invariant forall key :: key in weekMap <==> HasActivityIn(activities[..i], key)
      invariant forall key :: key in weekMap ==> weekMap[key] == BucketFor(activities[..i], key)
    {
      var activity := activities[i];
      var weekStart := WeekStart(activity.startDateLocal);
      var weekKey := weekStart.day;
      assert activities[..i + 1] == activities[..i] + [activity];
      ghost var before := weekMap;
      if weekKey !in weekMap {
        EmptyBucket(activities[..i], weekKey);
        weekMap := weekMap[weekKey := EmptyWeek(weekStart)];
      }
      var weekData := weekMap[weekKey];
      weekMap := weekMap[weekKey := AddActivity(weekData, activity)];
      forall key | key in weekMap
        ensures weekMap[key] == BucketFor(activities[..i + 1], key)
      {
        WeekMembersSnoc(activities[..i], activity, key);
        if key == weekKey {
          assert weekData == BucketFor(activities[..i], key);
          TallySnoc(WeekMembers(activities[..i], key), activity, Instant(key, 0));
          assert WeekMembers(activities[..i + 1], key) == WeekMembers(activities[..i], key) + [activity];
          assert weekMap[key] == AddActivity(weekData, activity);
        } else {
          assert weekMap[key] == before[key];
          assert key in before;
          assert before[key] == BucketFor(activities[..i], key);
          assert WeekMembers(activities[..i + 1], key) == WeekMembers(activities[..i], key);
        }
      }
      forall key
        ensures key in weekMap <==> HasActivityIn(activities[..i + 1], key)
      {
        if HasActivityIn(activities[..i + 1], key) && key != weekKey {
          var a :| a in activities[..i + 1] && WeekKey(a) == key;
          assert a in activities[..i];
        }
      }
    }
    assert activities[..|activities|] == activities;
  }

  /** The week key of the earliest activity, if there is one: the first element of the
      buckets sorted by ascending `weekStart`, which the `'all'` period starts from. */
  function EarliestWeek(s: seq<Activity>): (r: Option<int>)
    ensures r.None? <==> s == []
    ensures r.Some? ==> HasActivityIn(s, r.value)
    ensures r.Some? ==> forall a :: a in s ==> r.value <= WeekKey(a)
  {
    if s == [] then None
    else
      var init, last := s[..|s| - 1], s[|s| - 1];
      assert s == init + [last];
      var rest := EarliestWeek(init);
      if rest.Some? && rest.value <= WeekKey(last) then rest else Some(WeekKey(last))
  }

  /** The start of the period to fill, as the weekly view computes it. `earliest` is the
      earliest bucket's key; only `'all'` looks at it. `'last year'` goes back 365 days per
      step of the offset here (the loader uses 52 weeks, see `App.AppWindow`). */
  function FillStart(period: Period, offset: nat, now: Instant, cal: Calendar, earliest: Option<int>): (r: Instant)
    ensures period == AllTime && earliest.Some? ==> r == Instant(earliest.value, 0)
    ensures period == AllTime && earliest.None? ==> r == cal.shiftMonths(now, -24)
    ensures period != AllTime && WellBehaved(cal) ==> Le(r, FillEnd(period, offset, now, cal))
  {
    ShiftBack(cal, now, 3);
    ShiftBack(cal, now, 6);
    ShiftOrder(cal, now, -3 - offset * 3, -(offset * 3));
    ShiftOrder(cal, now, -6 - offset * 6, -(offset * 6));
    match period
    case LastMonth => AddDays(now, -(4 * 7) - offset * 4 * 7)
    case ThreeMonths => cal.shiftMonths(now, -3 - offset * 3)
    case LastSixMonths => cal.shiftMonths(now, -6 - offset * 6)
    case LastYear => AddDays(now, -(51 * 7) - offset * 365)
    case AllTime => if earliest.Some? then Instant(earliest.value, 0) else cal.shiftMonths(now, -24)
    case Other => cal.shiftMonths(now, -6 - offset * 6)
  }

  /** The end of the period to fill: `now` at offset 0 and for `'all'`, otherwise `now`
      moved back by `offset` periods. */
  function FillEnd(period: Period, offset: nat, now: Instant, cal: Calendar): (r: Instant)
    ensures offset == 0 || period == AllTime ==> r == now
    ensures WellBehaved(cal) ==> Le(r, now)
  {
    ShiftBack(cal, now, offset * 3);
    ShiftBack(cal, now, offset * 6);
    if offset > 0 then
      match period
      case LastMonth => AddDays(now, -(offset * 4 * 7))
      case ThreeMonths => cal.shiftMonths(now, -(offset * 3))
      case LastSixMonths => cal.shiftMonths(now, -(offset * 6))
      case LastYear => AddDays(now, -(offset * 365))
      case AllTime => now
      case Other => cal.shiftMonths(now, -(offset * 6))
    else now
  }

  /** For `'all'` the period starts at the earliest activity's week, or two years back
      when there is no activity. */
  lemma AllTimeStart(acts: seq<Activity>, offset: nat, now: Instant, cal: Calendar)
    ensures acts != [] ==>
      FillStart(AllTime, offset, now, cal, EarliestWeek(acts)) == Instant(EarliestWeek(acts).value, 0)
    ensures acts != [] ==> forall a :: a in acts ==>
      Le(FillStart(AllTime, offset, now, cal, EarliestWeek(acts)), WeekStart(a.startDateLocal))
    ensures acts == [] ==>
      FillStart(AllTime, offset, now, cal, EarliestWeek(acts)) == cal.shiftMonths(now, -24)
  {
  }

  /** The Monday the gap fill starts from and the Monday it ends with. */
  function FirstFillWeek(acts: seq<Activity>, period: Period, offset: nat, now: Instant, cal: Calendar): int
  {
    WeekStart(FillStart(period, offset, now, cal, EarliestWeek(acts))).day
  }

  function LastFillWeek(period: Period, offset: nat, now: Instant, cal: Calendar): int
  {
    WeekStart(FillEnd(period, offset, now, cal)).day
  }

  /** The least element of a non-empty set of keys. */
  method MinKey(keys: set<int>) returns (k: int)
    requires keys != {}
    ensures k in keys && forall x :: x in keys ==> k <= x
  {
    NonEmptyHasElement(keys);
    k :| k in keys;
    var rest := keys - {k};
    while rest != {}
      invariant rest <= keys && k in keys
      invariant forall x :: x in keys - rest ==> k <= x
      decreases |rest|
    {
      NonEmptyHasElement(rest);
      var x :| x in rest;
      if x < k {
        k := x;
      }
      assert keys - (rest - {x}) == (keys - rest) + {x};
      rest := rest - {x};
    }
    assert keys - rest == keys;
  }

  /** The greatest element of a non-empty set of keys. */
  method MaxKey(keys: set<int>) returns (k: int)
    requires keys != {}
    ensures k in keys && forall x :: x in keys ==> x <= k
  {
    NonEmptyHasElement(keys);
    k :| k in keys;
    var rest := keys - {k};
    while rest != {}
      invariant rest <= keys && k in keys
      invariant forall x :: x in keys - rest ==> x <= k
      decreases |rest|
    {
      NonEmptyHasElement(rest);
      var x :| x in rest;
      if x > k {
        k := x;
      }
      assert keys - (rest - {x}) == (keys - rest) + {x};
      rest := rest - {x};
    }
    assert keys - rest == keys;
  }

  /** The second pass of `groupActivitiesByWeek`: walk from the week of `startDate` to the
      week of `endDate` a week at a time and add an empty bucket for every week that has
      none. Existing buckets are kept as they are. */
  method FillWeeks(weekMap: map<int, WeekData>, startDate: Instant, endDate: Instant)
    returns (filled: map<int, WeekData>)
    ensures forall k :: k in weekMap ==> k in filled && filled[k] == weekMap[k]
    ensures forall k :: k in filled && k !in weekMap ==>
      IsMonday(k) && WeekStart(startDate).day <= k <= WeekStart(endDate).day &&
      filled[k] == EmptyWeek(Instant(k, 0))
    ensures forall d :: WeekStart(startDate).day <= d <= WeekStart(endDate).day && IsMonday(d) ==> d in filled
  {
    var firstWeek := WeekStart(startDate);
    var lastWeek := WeekStart(endDate);
    filled := weekMap;
    var currentWeek := firstWeek;
    while Le(currentWeek, lastWeek)
      invariant IsWeekStart(currentWeek) && firstWeek.day <= currentWeek.day
      invariant forall k :: k in weekMap ==> k in filled && filled[k] == weekMap[k]
      invariant forall k :: k in filled && k !in weekMap ==>
        IsMonday(k) && firstWeek.day <= k <= lastWeek.day && k < currentWeek.day &&
        filled[k] == EmptyWeek(Instant(k, 0))
      invariant forall d :: firstWeek.day <= d < currentWeek.day && IsMonday(d) ==> d in filled
      decreases lastWeek.day - currentWeek.day + 7
    {
      var weekStart := WeekStart(currentWeek);
      WeekStartUnique(currentWeek, currentWeek);
      var weekKey := weekStart.day;
      if weekKey !in filled {
        filled := filled[weekKey := EmptyWeek(weekStart)];
      }
      forall d | firstWeek.day <= d < currentWeek.day + 7 && IsMonday(d)
        ensures d in filled
      {
        if d >= currentWeek.day {
          MondayUnique(currentWeek.day, d);
        }
      }
      WeekdayNext(currentWeek.day);
      currentWeek := AddDays(currentWeek, 7);
    }
  }

  /** Every bucket is filed under the day of its own week start. */
  predicate WellKeyed(weekMap: map<int, WeekData>)
  {
    forall k :: k in weekMap ==> weekMap[k].weekStart == Instant(k, 0)
  }

  /** The final `sort` of `groupActivitiesByWeek`: the buckets, most recent week first.
      The week starts are distinct, so the order is fully determined. */
  method SortByWeekDesc(weekMap: map<int, WeekData>) returns (weeks: seq<WeekData>)
    requires WellKeyed(weekMap)
    ensures |weeks| == |weekMap.Keys|
    ensures forall i, j :: 0 <= i < j < |weeks| ==> Key(weeks[i]) > Key(weeks[j])
    ensures forall i :: 0 <= i < |weeks| ==> Key(weeks[i]) in weekMap && weeks[i] == weekMap[Key(weeks[i])]
    ensures forall k :: k in weekMap ==> exists i :: 0 <= i < |weeks| && Key(weeks[i]) == k
  {
    var remaining := weekMap.Keys;
    weeks := [];
    while remaining != {}
      invariant remaining <= weekMap.Keys
      invariant |weeks| + |remaining| == |weekMap.Keys|
      invariant SortedPrefix(weekMap, remaining, weeks)
      decreases |remaining|
    {
      var k := MaxKey(remaining);
      SortedPrefixGrows(weekMap, remaining, weeks, k);
      weeks := weeks + [weekMap[k]];
      remaining := remaining - {k};
    }
    assert weekMap.Keys - remaining == weekMap.Keys;
  }

  /** The loop state of `SortByWeekDesc`: the weeks listed so far are the buckets of the keys
      no longer remaining, each once, most recent first, and all more recent than any key
      still remaining. */
  predicate SortedPrefix(weekMap: map<int, WeekData>, remaining: set<int>, weeks: seq<WeekData>)
  {
    (forall i :: 0 <= i < |weeks| ==>
      Key(weeks[i]) in weekMap.Keys - remaining && weeks[i] == weekMap[Key(weeks[i])]) &&
    (forall k :: k in weekMap.Keys - remaining ==> exists i :: 0 <= i < |weeks| && Key(weeks[i]) == k) &&
    (forall i, j :: 0 <= i < j < |weeks| ==> Key(weeks[i]) > Key(weeks[j])) &&
    (forall i, k :: 0 <= i < |weeks| && k in remaining ==> Key(weeks[i]) > k)
  }

  /** Appending the bucket of the greatest remaining key keeps the loop state. */
  lemma SortedPrefixGrows(weekMap: map<int, WeekData>, remaining: set<int>, weeks: seq<WeekData>, k: int)
    requires WellKeyed(weekMap) && remaining <= weekMap.Keys && SortedPrefix(weekMap, remaining, weeks)
    requires k in remaining && forall x :: x in remaining ==> x <= k
    ensures SortedPrefix(weekMap, remaining - {k}, weeks + [weekMap[k]])
  {
    var after := weeks + [weekMap[k]];
    var rest := remaining - {k};
    assert forall i :: 0 <= i < |weeks| ==> after[i] == weeks[i];
    assert Key(after[|weeks|]) == k;
    forall i | 0 <= i < |after|
      ensures Key(after[i]) in weekMap.Keys - rest && after[i] == weekMap[Key(after[i])]
    {
      if i < |weeks| {
        assert after[i] == weeks[i];
      }
    }
    forall x | x in weekMap.Keys - rest
      ensures exists i :: 0 <= i < |after| && Key(after[i]) == x
    {
      if x != k {
        assert x in weekMap.Keys - remaining;
        var i :| 0 <= i < |weeks| && Key(weeks[i]) == x;
        assert after[i] == weeks[i];
      }
    }
    forall i, j | 0 <= i < j < |after|
      ensures Key(after[i]) > Key(after[j])
    {
      assert after[i] == weeks[i];
      if j == |weeks| {
        assert Key(weeks[i]) > k;
      } else {
        assert after[j] == weeks[j];
      }
    }
    forall i, x | 0 <= i < |after| && x in rest
      ensures Key(after[i]) > x
    {
      if i < |weeks| {
        assert after[i] == weeks[i] && x in remaining;
      } else {
        assert x <= k && x != k;
      }
    }
  }

  /** `groupActivitiesByWeek`: the buckets of the activities, with an empty bucket for
      every other week of the selected period, most recent week first. */
  method GroupActivitiesByWeek(acts: seq<Activity>, period: Period, offset: nat, now: Instant, cal: Calendar)
    returns (weeks: seq<WeekData>)
    ensures forall i, j :: 0 <= i < j < |weeks| ==> Key(weeks[i]) > Key(weeks[j])
    ensures GroupedWeeks(acts, weeks, FirstFillWeek(acts, period, offset, now, cal), LastFillWeek(period, offset, now, cal))
  {
    var weekMap := BucketActivities(acts);
    var earliest: Option<int> := None;
    if period == AllTime && weekMap.Keys != {} {
      var k := MinKey(weekMap.Keys);
      earliest := Some(k);
      var e := EarliestWeek(acts);
      assert HasActivityIn(acts, k);
      var a :| a in acts && WeekKey(a) == k;
      assert e.Some? && e.value == k;
    }
    assert FillStart(period, offset, now, cal, earliest) == FillStart(period, offset, now, cal, EarliestWeek(acts));
    var startDate := FillStart(period, offset, now, cal, earliest);
    var endDate := FillEnd(period, offset, now, cal);
    var filled := FillWeeks(weekMap, startDate, endDate);
    var first, last := WeekStart(startDate).day, WeekStart(endDate).day;
    assert first == FirstFillWeek(acts, period, offset, now, cal) && last == LastFillWeek(period, offset, now, cal);
    forall d | first <= d <= last && IsMonday(d)
      ensures d in filled
    {
      assert WeekStart(startDate).day <= d <= WeekStart(endDate).day;
    }
    FilledAreBuckets(acts, weekMap, filled, first, last);
    weeks := SortByWeekDesc(filled);
    SortedBuckets(acts, filled, weeks, first, last);
  }

  /** What grouping leaves, for the fill range `[first, last]`: each week is the bucket of
      its Monday; every activity's week is present; every week holds an activity or lies in
      the range; every Monday of the range is present; and when every activity lies in the
      range, there is exactly one week per seven days, the i-th being i weeks before `last`. */
  predicate GroupedWeeks(acts: seq<Activity>, weeks: seq<WeekData>, first: int, last: int)
  {
    (forall i :: 0 <= i < |weeks| ==>
      IsWeekStart(weeks[i].weekStart) && weeks[i] == BucketFor(acts, Key(weeks[i]))) &&
    (forall a :: a in acts ==> exists i :: 0 <= i < |weeks| && Key(weeks[i]) == WeekKey(a)) &&
    (forall i :: 0 <= i < |weeks| ==> HasActivityIn(acts, Key(weeks[i])) || first <= Key(weeks[i]) <= last) &&
    (forall d :: first <= d <= last && IsMonday(d) ==> exists i :: 0 <= i < |weeks| && Key(weeks[i]) == d) &&
    (first <= last && (forall a :: a in acts ==> first <= WeekKey(a) <= last) ==>
      |weeks| == (last - first) / 7 + 1 && forall i :: 0 <= i < |weeks| ==> Key(weeks[i]) == last - 7 * i)
  }

  /** The sorted gap-filled buckets: most recent first, each the bucket of its Monday,
      covering every activity's week and every Monday of `[first, last]`, and exactly one
      week per seven days when every activity lies in that range. */
  lemma SortedBuckets(acts: seq<Activity>, filled: map<int, WeekData>, weeks: seq<WeekData>, first: int, last: int)
    requires IsMonday(first) && IsMonday(last)
    requires forall k :: k in filled ==>
      filled[k] == BucketFor(acts, k) && IsMonday(k) && (HasActivityIn(acts, k) || first <= k <= last)
    requires forall a :: a in acts ==> WeekKey(a) in filled
    requires forall d :: first <= d <= last && IsMonday(d) ==> d in filled
    requires forall i, j :: 0 <= i < j < |weeks| ==> Key(weeks[i]) > Key(weeks[j])
    requires forall i :: 0 <= i < |weeks| ==> Key(weeks[i]) in filled && weeks[i] == filled[Key(weeks[i])]
    requires forall k :: k in filled ==> exists i :: 0 <= i < |weeks| && Key(weeks[i]) == k
    ensures GroupedWeeks(acts, weeks, first, last)
  {
    forall a | a in acts
      ensures exists i :: 0 <= i < |weeks| && Key(weeks[i]) == WeekKey(a)
    {
      assert WeekKey(a) in filled;
    }
    forall d | first <= d <= last && IsMonday(d)
      ensures exists i :: 0 <= i < |weeks| && Key(weeks[i]) == d
    {
      assert d in filled;
    }
    SpanOfGrouping(acts, weeks, first, last);
  }

  /** After gap-filling, every bucket is the bucket of its Monday, and it either holds an
      activity or lies in the filled range; every activity's week has one. */
  lemma FilledAreBuckets(acts: seq<Activity>, weekMap: map<int, WeekData>, filled: map<int, WeekData>,
                         first: int, last: int)
    requires forall key :: key in weekMap <==> HasActivityIn(acts, key)
    requires forall key :: key in weekMap ==> weekMap[key] == BucketFor(acts, key)
    requires forall k :: k in weekMap ==> k in filled && filled[k] == weekMap[k]
    requires forall k :: k in filled && k !in weekMap ==>
      IsMonday(k) && first <= k <= last && filled[k] == EmptyWeek(Instant(k, 0))
    ensures forall k :: k in filled ==>
      filled[k] == BucketFor(acts, k) && IsMonday(k) && (HasActivityIn(acts, k) || first <= k <= last)
    ensures forall a :: a in acts ==> WeekKey(a) in filled
    ensures WellKeyed(filled)
  {
    forall k | k in filled
      ensures filled[k] == BucketFor(acts, k) && IsMonday(k)
    {
      if k !in weekMap {
        if HasActivityIn(acts, k) {
          assert false;
        }
        EmptyBucket(acts, k);
      } else {
        var a :| a in acts && WeekKey(a) == k;
      }
    }
    forall a | a in acts
      ensures WeekKey(a) in filled
    {
      assert HasActivityIn(acts, WeekKey(a));
    }
  }

  /** A most-recent-first list of week starts, holding every Monday of `[first, last]`
      and otherwise only weeks of activities, all of which lie in `[first, last]`, is
      exactly the Mondays of that range, a week apart. */
  lemma SpanOfGrouping(acts: seq<Activity>, weeks: seq<WeekData>, first: int, last: int)
    requires IsMonday(first) && IsMonday(last)
    requires Descending(weeks)
    requires forall i :: 0 <= i < |weeks| ==> IsWeekStart(weeks[i].weekStart)
    requires forall i :: 0 <= i < |weeks| ==> HasActivityIn(acts, Key(weeks[i])) || first <= Key(weeks[i]) <= last
    requires CoversMondays(weeks, first, last)
    ensures first <= last && (forall a :: a in acts ==> first <= WeekKey(a) <= last) ==>
      |weeks| == (last - first) / 7 + 1 && forall i :: 0 <= i < |weeks| ==> Key(weeks[i]) == last - 7 * i
  {
    if first <= last && (forall a :: a in acts ==> first <= WeekKey(a) <= last) {
      forall i | 0 <= i < |weeks|
        ensures IsMonday(Key(weeks[i])) && first <= Key(weeks[i]) <= last
      {
        if HasActivityIn(acts, Key(weeks[i])) {
          var a :| a in acts && WeekKey(a) == Key(weeks[i]);
        }
      }
      NoGaps(weeks, first, last);
    }
  }

  /** The buckets are in strictly decreasing order of week start. */
  predicate Descending(weeks: seq<WeekData>)
  {
    forall i, j :: 0 <= i < j < |weeks| ==> Key(weeks[i]) > Key(weeks[j])
  }

  /** Every bucket is a Monday between `first` and `last`. */
  predicate MondaysWithin(weeks: seq<WeekData>, first: int, last: int)
  {
    forall i :: 0 <= i < |weeks| ==> IsMonday(Key(weeks[i])) && first <= Key(weeks[i]) <= last
  }

  /** Every Monday between `first` and `last` has a bucket. */
  predicate CoversMondays(weeks: seq<WeekData>, first: int, last: int)
  {
    forall d :: first <= d <= last && IsMonday(d) ==> exists i :: 0 <= i < |weeks| && Key(weeks[i]) == d
  }

  /** Under the conditions of `NoGaps`, the most recent bucket is the week `last`. */
  lemma NewestIsLast(weeks: seq<WeekData>, first: int, last: int)
    requires IsMonday(last) && first <= last
    requires Descending(weeks) && MondaysWithin(weeks, first, last) && CoversMondays(weeks, first, last)
    ensures |weeks| > 0 && Key(weeks[0]) == last
  {
    var j :| 0 <= j < |weeks| && Key(weeks[j]) == last;
    assert Key(weeks[0]) >= Key(weeks[j]);
  }

  /** Under the conditions of `NoGaps`, the oldest bucket is the week `first`. */
  lemma OldestIsFirst(weeks: seq<WeekData>, first: int, last: int)
    requires IsMonday(first) && first <= last
    requires Descending(weeks) && MondaysWithin(weeks, first, last) && CoversMondays(weeks, first, last)
    ensures |weeks| > 0 && Key(weeks[|weeks| - 1]) == first
  {
    var f :| 0 <= f < |weeks| && Key(weeks[f]) == first;
    assert Key(weeks[|weeks| - 1]) <= Key(weeks[f]);
  }

  /** Under the conditions of `NoGaps`, a bucket is the week after the next one. */
  lemma StepIsOneWeek(weeks: seq<WeekData>, first: int, last: int, i: int)
    requires Descending(weeks) && MondaysWithin(weeks, first, last) && CoversMondays(weeks, first, last)
    requires 0 <= i < |weeks| - 1
    ensures Key(weeks[i + 1]) == Key(weeks[i]) - 7
  {
    var k := Key(weeks[i]);
    var d := k - 7;
    assert Key(weeks[i + 1]) < k;
    MondaysAWeekApart(Key(weeks[i + 1]), k);
    WeekdayNext(d);
    if first <= d {
      assert IsMonday(d) && d <= last;
      var m :| 0 <= m < |weeks| && Key(weeks[m]) == d;
      assert i < m;
      assert Key(weeks[i + 1]) >= Key(weeks[m]);
    }
  }

  /** Consecutive buckets of a result whose keys all lie in the filled period are exactly
      a week apart, from the last week of the period down to the first: there are no gaps
      and nothing outside the period. */
  lemma {:induction false} NoGaps(weeks: seq<WeekData>, first: int, last: int)
    requires IsMonday(first) && IsMonday(last) && first <= last
    requires Descending(weeks) && MondaysWithin(weeks, first, last) && CoversMondays(weeks, first, last)
    ensures |weeks| == (last - first) / 7 + 1
    ensures forall i :: 0 <= i < |weeks| ==> Key(weeks[i]) == last - 7 * i
  {
    NewestIsLast(weeks, first, last);
    var i := 0;
    while i < |weeks| - 1
      invariant 0 <= i < |weeks|
      invariant forall m :: 0 <= m <= i ==> Key(weeks[m]) == last - 7 * m
    {
      StepIsOneWeek(weeks, first, last, i);
      i := i + 1;
    }
    OldestIsFirst(weeks, first, last);
    assert last - 7 * (|weeks| - 1) == first;
  }

  // ---------------------------------------------------------------------------------
  // Conservation

  /** The four sums the weekly view reads off a set of buckets. */
  datatype Totals = Totals(count: nat, distance: real, miles: real, runs: nat)

  function Plus(t: Totals, u: Totals): Totals
  {
    Totals(t.count + u.count, t.distance + u.distance, t.miles + u.miles, t.runs + u.runs)
  }

  const NoTotals: Totals := Totals(0, 0.0, 0.0, 0)

  /** The sums over a list of activities. */
  function TotalsOf(s: seq<Activity>): Totals
  {
    Totals(|s|, SumDistance(s), SumDistance(s) / MetersPerMile, CountRuns(s))
  }

  /** The sums a bucket records. */
  function TotalsIn(w: WeekData): Totals
  {
    Totals(w.activityCount, w.totalDistance, w.totalMiles, w.runCount)
  }

  /** The sums over the buckets, one `reduce` over the list for each field. */
  function WeekTotals(weeks: seq<WeekData>): Totals
  {
    if weeks == [] then NoTotals
    else Plus(WeekTotals(weeks[..|weeks| - 1]), TotalsIn(weeks[|weeks| - 1]))
  }

  /** The week keys of the buckets, in order. */
  function KeysOf(weeks: seq<WeekData>): (keys: seq<int>)
    ensures |keys| == |weeks| && forall i :: 0 <= i < |weeks| ==> keys[i] == Key(weeks[i])
  {
    seq(|weeks|, i requires 0 <= i < |weeks| => Key(weeks[i]))
  }

  predicate Distinct(keys: seq<int>)
  {
    forall i, j :: 0 <= i < j < |keys| ==> keys[i] != keys[j]
  }

  /** The sums over the activities of the weeks `keys`, week by week. */
  function MembersTotals(acts: seq<Activity>, keys: seq<int>): Totals
  {
    if keys == [] then NoTotals
    else Plus(MembersTotals(acts, keys[..|keys| - 1]), TotalsOf(WeekMembers(acts, keys[|keys| - 1])))
  }

  lemma TotalsSnoc(s: seq<Activity>, a: Activity)
    ensures TotalsOf(s + [a]) == Plus(TotalsOf(s), TotalsOf([a]))
  {
    assert (s + [a])[..|s|] == s;
    assert [a][..0] == [];
    assert SumDistance([a]) == a.distance;
    assert SumDistance(s + [a]) == SumDistance(s) + a.distance;
    assert CountRuns(s + [a]) == CountRuns(s) + CountRuns([a]);
  }

  lemma {:induction false} MembersTotalsEmpty(keys: seq<int>)
    ensures MembersTotals([], keys) == NoTotals
  {
    if keys != [] {
      MembersTotalsEmpty(keys[..|keys| - 1]);
    }
  }

  /** Dropping the last of distinct keys leaves distinct keys without it. */
  lemma DistinctInit(keys: seq<int>)
    requires Distinct(keys) && keys != []
    ensures Distinct(keys[..|keys| - 1]) && keys[|keys| - 1] !in keys[..|keys| - 1]
  {
    var init := keys[..|keys| - 1];
    forall x | x in init
      ensures x != keys[|keys| - 1]
    {
      var i :| 0 <= i < |init| && init[i] == x;
      assert keys[i] == x;
    }
  }

  lemma PlusAssoc(t: Totals, u: Totals, v: Totals)
    ensures Plus(Plus(t, u), v) == Plus(t, Plus(u, v))
    ensures Plus(Plus(t, u), v) == Plus(Plus(t, v), u)
  {
  }

  /** One more activity adds its own sums to the weeks exactly when its week is among them. */
  lemma {:induction false} MembersTotalsSnoc(acts: seq<Activity>, a: Activity, keys: seq<int>)
    requires Distinct(keys)
    ensures WeekKey(a) in keys ==> MembersTotals(acts + [a], keys) == Plus(MembersTotals(acts, keys), TotalsOf([a]))
    ensures WeekKey(a) !in keys ==> MembersTotals(acts + [a], keys) == MembersTotals(acts, keys)
  {
    if keys != [] {
      var init, k := keys[..|keys| - 1], keys[|keys| - 1];
      assert keys == init + [k];
      DistinctInit(keys);
      MembersTotalsSnoc(acts, a, init);
      WeekMembersSnoc(acts, a, k);
      var rest := MembersTotals(acts, init);
      var mine := TotalsOf(WeekMembers(acts, k));
      assert MembersTotals(acts, keys) == Plus(rest, mine);
      if WeekKey(a) == k {
        TotalsSnoc(WeekMembers(acts, k), a);
        assert MembersTotals(acts + [a], keys) == Plus(rest, Plus(mine, TotalsOf([a])));
        PlusAssoc(rest, mine, TotalsOf([a]));
      } else {
        assert WeekMembers(acts + [a], k) == WeekMembers(acts, k);
        if WeekKey(a) in init {
          assert MembersTotals(acts + [a], keys) == Plus(Plus(rest, TotalsOf([a])), mine);
          PlusAssoc(rest, TotalsOf([a]), mine);
        }
      }
    }
  }

  /** When every activity's week is among the distinct weeks `keys`, the week-by-week sums
      are the sums over all the activities. */
  lemma {:induction false} MembersTotalsAll(acts: seq<Activity>, keys: seq<int>)
    requires Distinct(keys)
    requires forall a :: a in acts ==> WeekKey(a) in keys
    ensures MembersTotals(acts, keys) == TotalsOf(acts)
  {
    if acts == [] {
      MembersTotalsEmpty(keys);
    } else {
      var init, a := acts[..|acts| - 1], acts[|acts| - 1];
      assert acts == init + [a];
      MembersTotalsAll(init, keys);
      MembersTotalsSnoc(init, a, keys);
      TotalsSnoc(init, a);
    }
  }

  /** The sums recorded in buckets built from `acts` are the week-by-week sums. */
  lemma {:induction false} WeekTotalsOfBuckets(acts: seq<Activity>, weeks: seq<WeekData>)
    requires forall i :: 0 <= i < |weeks| ==> weeks[i] == BucketFor(acts, Key(weeks[i]))
    ensures WeekTotals(weeks) == MembersTotals(acts, KeysOf(weeks))
  {
    if weeks != [] {
      var init := weeks[..|weeks| - 1];
      assert KeysOf(weeks)[..|weeks| - 1] == KeysOf(init);
      WeekTotalsOfBuckets(acts, init);
    }
  }

  /** Bucketing conserves the totals: over the buckets `groupActivitiesByWeek` returns, the
      activity counts add up to the number of activities, and the distances, miles and
      run counts add up to those of the activities. */
  lemma BucketingConservesTotals(acts: seq<Activity>, weeks: seq<WeekData>)
    requires forall i, j :: 0 <= i < j < |weeks| ==> Key(weeks[i]) > Key(weeks[j])
    requires forall i :: 0 <= i < |weeks| ==> weeks[i] == BucketFor(acts, Key(weeks[i]))
    requires forall a :: a in acts ==> exists i :: 0 <= i < |weeks| && Key(weeks[i]) == WeekKey(a)
    ensures WeekTotals(weeks).count == |acts|
    ensures WeekTotals(weeks).distance == SumDistance(acts)
    ensures WeekTotals(weeks).miles == SumDistance(acts) / MetersPerMile
    ensures WeekTotals(weeks).runs == CountRuns(acts)
  {
    var keys := KeysOf(weeks);
    KeysCover(acts, weeks);
    KeysDistinct(weeks);
    WeekTotalsOfBuckets(acts, weeks);
    MembersTotalsAll(acts, keys);
    assert WeekTotals(weeks) == TotalsOf(acts);
  }

  lemma KeysCover(acts: seq<Activity>, weeks: seq<WeekData>)
    requires forall a :: a in acts ==> exists i :: 0 <= i < |weeks| && Key(weeks[i]) == WeekKey(a)
    ensures forall a :: a in acts ==> WeekKey(a) in KeysOf(weeks)
  {
    var keys := KeysOf(weeks);
    forall a | a in acts
      ensures WeekKey(a) in keys
    {
      var i :| 0 <= i < |weeks| && Key(weeks[i]) == WeekKey(a);
      assert keys[i] == WeekKey(a);
    }
  }

  lemma KeysDistinct(weeks: seq<WeekData>)
    requires forall i, j :: 0 <= i < j < |weeks| ==> Key(weeks[i]) > Key(weeks[j])
    ensures Distinct(KeysOf(weeks))
  {
  }

  // ---------------------------------------------------------------------------------
  // getWeeklyGraph

  /** The slot of a `getDay()` value in a Monday-first week: Monday 0, ..., Sunday 6. */
  function MondayFirstIndex(weekday: int): (r: int)
    requires 0 <= weekday < 7
    ensures 0 <= r < 7
    ensures r == (weekday + 6) % 7
  {
    if weekday == Sunday then 6 else weekday - 1
  }

  /** The slot of an activity, from the weekday of its own date. */
  function DayIndex(a: Activity): int { MondayFirstIndex(Weekday(a.startDateLocal.day)) }

  /** For an activity of the week starting `weekStart`, the slot is the number of days
      since that Monday; so Monday's activities go to slot 0 and Sunday's to slot 6. */
  lemma DayIndexInWeek(a: Activity, weekStart: Instant)
    requires WeekStart(a.startDateLocal) == weekStart
    ensures DayIndex(a) == a.startDateLocal.day - weekStart.day
  {
  }

  /** The miles of the activities of `s` that fall in slot `d`. */
  function DayMiles(s: seq<Activity>, d: int): real
  {
    if s == [] then 0.0
    else DayMiles(s[..|s| - 1], d) + (if DayIndex(s[|s| - 1]) == d then s[|s| - 1].distance / MetersPerMile else 0.0)
  }

  /** The seven daily-mile slots of a week, Monday first. */
  function DailyMiles(week: WeekData): (r: seq<real>)
    ensures |r| == 7
  {
    seq(7, d requires 0 <= d < 7 => DayMiles(week.activities, d))
  }

  /** `getWeeklyGraph`: seven zeros, then each activity's miles added to its slot. */
  method WeeklyGraph(week: WeekData) returns (dailyMiles: seq<real>)
    ensures |dailyMiles| == 7
    ensures forall d :: 0 <= d < 7 ==> dailyMiles[d] == DayMiles(week.activities, d)
  {
    var slots := new real[7](_ => 0.0);
    for i := 0 to |week.activities|
      invariant forall d :: 0 <= d < 7 ==> slots[d] == DayMiles(week.activities[..i], d)
    {
      var activity := week.activities[i];
      var mondayFirstIndex := MondayFirstIndex(Weekday(activity.startDateLocal.day));
      assert week.activities[..i + 1][..i] == week.activities[..i];
      slots[mondayFirstIndex] := slots[mondayFirstIndex] + activity.distance / MetersPerMile;
    }
    assert week.activities[..|week.activities|] == week.activities;
    dailyMiles := slots[..];
  }

  function Sum7(r: seq<real>): real
    requires |r| == 7
  {
    r[0] + r[1] + r[2] + r[3] + r[4] + r[5] + r[6]
  }

  /** The seven slots add up to the miles of all the activities. */
  lemma {:induction false} DayMilesSum(s: seq<Activity>)
    ensures DayMiles(s, 0) + DayMiles(s, 1) + DayMiles(s, 2) + DayMiles(s, 3) +
      DayMiles(s, 4) + DayMiles(s, 5) + DayMiles(s, 6) == SumDistance(s) / MetersPerMile
  {
    if s != [] {
      DayMilesSum(s[..|s| - 1]);
    }
  }

  /** The daily graph of a bucket adds up to the bucket's miles. */
  lemma DailyMilesSumToWeek(acts: seq<Activity>, key: int)
    ensures Sum7(DailyMiles(BucketFor(acts, key))) == BucketFor(acts, key).totalMiles
  {
    DayMilesSum(WeekMembers(acts, key));
  }

  // ---------------------------------------------------------------------------------
  // Summary statistics

  /** `totalMiles`: the sum of the buckets' miles. */
  function TotalMiles(weeks: seq<WeekData>): (r: real)
    ensures r == WeekTotals(weeks).miles
  {
    if weeks == [] then 0.0 else TotalMiles(weeks[..|weeks| - 1]) + weeks[|weeks| - 1].totalMiles
  }

  /** `totalRuns`: the sum of the buckets' run counts. */
  function TotalRuns(weeks: seq<WeekData>): (r: nat)
    ensures r == WeekTotals(weeks).runs
  {
    if weeks == [] then 0 else TotalRuns(weeks[..|weeks| - 1]) + weeks[|weeks| - 1].runCount
  }

  /** `averageWeeklyMiles`: total miles per week, 0 when there are no weeks. */
  function AverageWeeklyMiles(weeks: seq<WeekData>): (r: real)
    ensures |weeks| > 0 ==> r * (|weeks| as real) == TotalMiles(weeks)
    ensures |weeks| == 0 ==> r == 0.0
  {
    if |weeks| > 0 then TotalMiles(weeks) / (|weeks| as real) else 0.0
  }

  /** `averageWeeklyRuns`: runs per week, 0 when there are no weeks. */
  function AverageWeeklyRuns(weeks: seq<WeekData>): (r: real)
    ensures |weeks| > 0 ==> r * (|weeks| as real) == TotalRuns(weeks) as real
    ensures |weeks| == 0 ==> r == 0.0
  {
    if |weeks| > 0 then (TotalRuns(weeks) as real) / (|weeks| as real) else 0.0
  }

  function Max(x: real, y: real): real { if x >= y then x else y }

  /** `highestWeekMiles`: the largest miles of any bucket, 0 when there are no buckets. */
  function HighestWeekMiles(weeks: seq<WeekData>): (r: real)
    ensures forall i :: 0 <= i < |weeks| ==> weeks[i].totalMiles <= r
    ensures weeks != [] ==> exists i :: 0 <= i < |weeks| && weeks[i].totalMiles == r
    ensures weeks == [] ==> r == 0.0
  {
    if weeks == [] then 0.0
    else if |weeks| == 1 then weeks[0].totalMiles
    else
      var init := weeks[..|weeks| - 1];
      var m := HighestWeekMiles(init);
      assert forall i :: 0 <= i < |init| ==> init[i] == weeks[i];
      Max(m, weeks[|weeks| - 1].totalMiles)
  }

  /** `Math.max(...dailyMiles)` of one week's graph. */
  function WeekMaxDay(week: WeekData): (r: real)
    ensures forall d :: 0 <= d < 7 ==> DailyMiles(week)[d] <= r
    ensures exists d :: 0 <= d < 7 && DailyMiles(week)[d] == r
  {
    var g := DailyMiles(week);
    Max(Max(Max(g[0], g[1]), Max(g[2], g[3])), Max(Max(g[4], g[5]), g[6]))
  }

  /** `maxDayMiles`: the largest daily miles of any week, starting from 0. */
  function MaxDayMiles(weeks: seq<WeekData>): (r: real)
    ensures r >= 0.0
    ensures forall i, d :: 0 <= i < |weeks| && 0 <= d < 7 ==> DailyMiles(weeks[i])[d] <= r
    ensures r == 0.0 || exists i, d :: 0 <= i < |weeks| && 0 <= d < 7 && DailyMiles(weeks[i])[d] == r
  {
    if weeks == [] then 0.0
    else
      var init := weeks[..|weeks| - 1];
      var m := MaxDayMiles(init);
      assert forall i :: 0 <= i < |init| ==> init[i] == weeks[i];
      Max(m, WeekMaxDay(weeks[|weeks| - 1]))
  }

  // ---------------------------------------------------------------------------------
  // Navigation

  /** The view's state: the selected period, the offset shown (0 is the current period,
      1 one period back, ...) and the offset a load is under way for. */
  datatype NavState = NavState(period: Period, timeOffset: nat, pendingTimeOffset: Option<nat>)

  /** What `onLoadMoreData(timePeriod, timeOffset)` is asked to load. */
  datatype LoadRequest = LoadRequest(period: Period, offset: nat)

  /** The state on first render: `'last 6 months'`, offset 0, nothing pending. */
  const InitialNav: NavState := NavState(LastSixMonths, 0, None)

  /** `handleTimePeriodChange`: select the period, go back to offset 0, drop any pending
      navigation and request that period's current window. */
  function ChangePeriod(s: NavState, period: Period): (r: (NavState, LoadRequest))
    ensures r.0.period == period && r.0.timeOffset == 0 && r.0.pendingTimeOffset == None
    ensures r.1 == LoadRequest(period, 0)
  {
    (NavState(period, 0, None), LoadRequest(period, 0))
  }

  /** `goBackward`: ask for one period further back; the offset shown changes only once
      the load completes. */
  function GoBackward(s: NavState): (r: (NavState, LoadRequest))
    ensures r.0 == s.(pendingTimeOffset := Some(s.timeOffset + 1))
    ensures r.1 == LoadRequest(s.period, s.timeOffset + 1)
  {
    var newOffset := s.timeOffset + 1;
    (s.(pendingTimeOffset := Some(newOffset)), LoadRequest(s.period, newOffset))
  }

  /** `goForward`: ask for one period less far back, unless the current period is shown. */
  function GoForward(s: NavState): (r: (NavState, Option<LoadRequest>))
    ensures s.timeOffset == 0 ==> r == (s, None)
    ensures s.timeOffset > 0 ==>
      r.0 == s.(pendingTimeOffset := Some(s.timeOffset - 1)) &&
      r.1 == Some(LoadRequest(s.period, s.timeOffset - 1))
  {
    if s.timeOffset > 0 then
      var newOffset := s.timeOffset - 1;
      (s.(pendingTimeOffset := Some(newOffset)), Some(LoadRequest(s.period, newOffset)))
    else (s, None)
  }

  /** The effect on `[loading, pendingTimeOffset]`: once nothing is loading, the pending
      offset becomes the offset shown. */
  function Settle(s: NavState, loading: bool): (r: NavState)
    ensures r.period == s.period
    ensures !loading && s.pendingTimeOffset.Some? ==>
      r.timeOffset == s.pendingTimeOffset.value && r.pendingTimeOffset == None
    ensures loading || s.pendingTimeOffset == None ==> r == s
  {
    if !loading && s.pendingTimeOffset != None then
      s.(timeOffset := s.pendingTimeOffset.value, pendingTimeOffset := None)
    else s
  }

  /** `disabled` of the navigation controls: a load is running or a navigation is pending. */
  function ControlsDisabled(s: NavState, loading: bool): (disabled: bool)
    ensures loading ==> disabled
    ensures s.pendingTimeOffset.Some? ==> disabled
    ensures !loading && s.pendingTimeOffset == None ==> !disabled && Settle(s, loading) == s
  {
    loading || s.pendingTimeOffset.Some?
  }

  /** After the effect has run with nothing loading, the controls are enabled again, and
      running it again changes nothing. */
  lemma SettleEnables(s: NavState)
    ensures !ControlsDisabled(Settle(s, false), false)
    ensures Settle(Settle(s, false), false) == Settle(s, false)
  {
  }

  /** Going back one period and then forward one, each load completing, returns to the
      offset and period first shown. */
  lemma BackThenForward(s: NavState)
    requires s.pendingTimeOffset == None
    ensures var back := Settle(GoBackward(s).0, false);
      back.timeOffset == s.timeOffset + 1 &&
      Settle(GoForward(back).0, false) == s
  {
  }
}
