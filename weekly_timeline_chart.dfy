/** The data side of the weekly timeline chart: the weeks in chronological order, one point
    per week, which weeks get an axis tick, and whether the weeks span several years
    (which decides the label format; the label text itself is locale formatting). */
module WeeklyTimelineChart {
  import opened Collections
  import opened Dates
  import opened Types
  import opened WeeklyMileage

  /** `sortedWeeklyData`: `weeklyData.slice().reverse()`. */
  function Chronological(weeklyData: seq<WeekData>): (r: seq<WeekData>)
    ensures |r| == |weeklyData|
  {
    Reverse(weeklyData)
  }

  /** Most recent first, as `groupActivitiesByWeek` returns them, becomes oldest first. */
  lemma ChronologicalAscending(weeklyData: seq<WeekData>)
    requires Descending(weeklyData)
    ensures forall i, j :: 0 <= i < j < |weeklyData| ==>
      Key(Chronological(weeklyData)[i]) < Key(Chronological(weeklyData)[j])
  {
    var r := Chronological(weeklyData);
    forall i, j | 0 <= i < j < |weeklyData|
      ensures Key(r[i]) < Key(r[j])
    {
      assert r[i] == weeklyData[|weeklyData| - 1 - i];
      assert r[j] == weeklyData[|weeklyData| - 1 - j];
    }
  }

  /** One point of the line: the week start (the point's `x` is its label) and the miles. */
  datatype ChartPoint = ChartPoint(weekStart: Instant, y: real, week: WeekData)

  /** `chartData[0].data`: one point per week, oldest first. */
  function ChartPoints(weeklyData: seq<WeekData>): (r: seq<ChartPoint>)
    ensures |r| == |weeklyData|
    ensures forall i :: 0 <= i < |r| ==>
      r[i].week == weeklyData[|weeklyData| - 1 - i] &&
      r[i].weekStart == r[i].week.weekStart && r[i].y == r[i].week.totalMiles
  {
    var sorted := Chronological(weeklyData);
    seq(|sorted|, i requires 0 <= i < |sorted| => ChartPoint(sorted[i].weekStart, sorted[i].totalMiles, sorted[i]))
  }

  /** The spacing of the ticks: `Math.max(1, Math.floor(totalWeeks / 8))`. */
  function Interval(totalWeeks: nat): (r: nat)
    ensures r >= 1
    ensures totalWeeks >= 8 ==> r * 8 <= totalWeeks < (r + 1) * 8
    ensures totalWeeks < 8 ==> r == 1
  {
    var q := totalWeeks / 8;
    if q > 1 then q else 1
  }

  /** Index `i` of `n` weeks gets a tick: a multiple of the interval, or the last week. */
  predicate IsTick(n: nat, i: int)
  {
    i % Interval(n) == 0 || i == n - 1
  }

  /** The indices below `k` that get a tick out of `n` weeks, in increasing order. */
  function TicksBelow(n: nat, k: nat): (r: seq<int>)
    ensures forall j :: 0 <= j < |r| ==> 0 <= r[j] < k && IsTick(n, r[j])
    ensures forall i :: 0 <= i < k && IsTick(n, i) ==> i in r
    ensures forall j1, j2 :: 0 <= j1 < j2 < |r| ==> r[j1] < r[j2]
  {
    if k == 0 then []
    else
      var rest := TicksBelow(n, k - 1);
      if IsTick(n, k - 1) then rest + [k - 1] else rest
  }

  /** The indices of the weeks the `filter` keeps as tick values. */
  function TickIndices(n: nat): seq<int> { TicksBelow(n, n) }

  /** The ticks are an in-order selection of the weeks that starts with the first week
      and ends with the last one. */
  lemma TicksIncludeEnds(n: nat)
    requires n > 0
    ensures TickIndices(n) != [] && TickIndices(n)[0] == 0 && TickIndices(n)[|TickIndices(n)| - 1] == n - 1
    ensures forall j :: 0 <= j < |TickIndices(n)| ==> 0 <= TickIndices(n)[j] < n
  {
    var r := TickIndices(n);
    assert IsTick(n, 0);
    assert IsTick(n, n - 1);
    var a :| 0 <= a < |r| && r[a] == 0;
    var b :| 0 <= b < |r| && r[b] == n - 1;
    assert r[0] <= r[a];
    assert r[b] <= r[|r| - 1];
  }

  /** The weeks that carry a tick, oldest first. */
  function TickWeeks(weeklyData: seq<WeekData>): (r: seq<WeekData>)
    ensures var idx := TickIndices(|weeklyData|);
      |r| == |idx| && forall j :: 0 <= j < |r| ==> r[j] == Chronological(weeklyData)[idx[j]]
  {
    var sorted := Chronological(weeklyData);
    var idx := TickIndices(|sorted|);
    seq(|idx|, j requires 0 <= j < |idx| => sorted[idx[j]])
  }

  /** The calendar years of the weeks' start dates. */
  function Years(weeklyData: seq<WeekData>, cal: Calendar): set<int>
  {
    set w | w in weeklyData :: cal.yearOf(w.weekStart.day)
  }

  /** `hasMultipleYears`: the `Set` of years has more than one element. */
  predicate HasMultipleYears(weeklyData: seq<WeekData>, cal: Calendar)
  {
    |Years(weeklyData, cal)| > 1
  }

  /** A set has more than one element exactly when it holds two different ones. */
  lemma MoreThanOne(s: set<int>)
    ensures |s| > 1 <==> exists x, y :: x in s && y in s && x != y
  {
    if |s| > 1 {
      NonEmptyHasElement(s);
      var x :| x in s;
      assert |s - {x}| > 0;
      NonEmptyHasElement(s - {x});
      var y :| y in s - {x};
    }
    if exists x, y :: x in s && y in s && x != y {
      var x, y :| x in s && y in s && x != y;
      assert s == {x} + (s - {x});
      assert y in s - {x};
    }
  }

  /** The weeks span several years exactly when two of them start in different years. */
  lemma MultipleYearsIff(weeklyData: seq<WeekData>, cal: Calendar)
    ensures HasMultipleYears(weeklyData, cal) <==>
      exists i, j :: 0 <= i < |weeklyData| && 0 <= j < |weeklyData| &&
        cal.yearOf(weeklyData[i].weekStart.day) != cal.yearOf(weeklyData[j].weekStart.day)
  {
    var ys := Years(weeklyData, cal);
    MoreThanOne(ys);
    if HasMultipleYears(weeklyData, cal) {
      var x, y :| x in ys && y in ys && x != y;
      var u :| u in weeklyData && cal.yearOf(u.weekStart.day) == x;
      var v :| v in weeklyData && cal.yearOf(v.weekStart.day) == y;
      var i :| 0 <= i < |weeklyData| && weeklyData[i] == u;
      var j :| 0 <= j < |weeklyData| && weeklyData[j] == v;
    }
    if exists i, j :: 0 <= i < |weeklyData| && 0 <= j < |weeklyData| &&
        cal.yearOf(weeklyData[i].weekStart.day) != cal.yearOf(weeklyData[j].weekStart.day) {
      var i, j :| 0 <= i < |weeklyData| && 0 <= j < |weeklyData| &&
        cal.yearOf(weeklyData[i].weekStart.day) != cal.yearOf(weeklyData[j].weekStart.day);
      assert cal.yearOf(weeklyData[i].weekStart.day) in ys;
      assert cal.yearOf(weeklyData[j].weekStart.day) in ys;
    }
  }
}
