/** The parts of the activity client that are computation rather than network access:
    the activity-type filter applied to a fetched page, the token-expiry test and the
    formatting of a duration. */
module StravaService {
  import opened Collections
  import opened Text
  import opened Dates

  /** One workout as the upstream service reports it. `startDateLocal` is the parsed
      `start_date_local` field, which all bucketing uses. */
  datatype Activity = Activity(
    id: int,
    name: string,
    distance: real,          // meters
    movingTime: int,         // seconds
    elapsedTime: int,        // seconds
    activityType: string,    // "Run", "Ride", ...
    startDateLocal: Instant)

  /** The athlete record the token exchange returns (the profile picture and location
      fields are not modelled). */
  datatype Athlete = Athlete(id: int, username: string, firstname: string, lastname: string)

  /** The answer of the token exchange. */
  datatype TokenResponse = TokenResponse(
    tokenType: string,
    expiresAt: int,
    expiresIn: int,
    refreshToken: string,
    accessToken: string,
    athlete: Athlete)

  /** What the upstream service answers to one request for a page of activities: the
      activities of that page, or an error (the request throws). */
  datatype PageResponse = Served(activities: seq<Activity>) | Failed

  /** `ACTIVITY_TYPES.RUN`. */
  const RunType: string := "Run"

  /** The activities of `activities` whose lower-cased type is `filterType`, in order. */
  function KeepType(activities: seq<Activity>, filterType: string): (r: seq<Activity>)
    ensures forall a :: a in r ==> ToLower(a.activityType) == filterType
    ensures forall a {:trigger multiset(r)[a]} ::
      multiset(r)[a] == if ToLower(a.activityType) == filterType then multiset(activities)[a] else 0
    ensures IsSubsequence(r, activities)
  {
    if activities == [] then []
    else
      var a, rest := activities[0], KeepType(activities[1..], filterType);
      assert activities == [a] + activities[1..];
      if ToLower(a.activityType) == filterType then
        ConsSubsequence(a, rest, activities[1..]);
        [a] + rest
      else
        SkipSubsequence(a, rest, activities[1..]);
        rest
  }

  /** A page with no activity of the type keeps nothing. */
  lemma {:induction false} KeepTypeNone(activities: seq<Activity>, filterType: string)
    requires forall a :: a in activities ==> ToLower(a.activityType) != filterType
    ensures KeepType(activities, filterType) == []
  {
    if activities != [] {
      assert activities[0] in activities;
      KeepTypeNone(activities[1..], filterType);
    }
  }

  /** Lower-cased, the run type is `run`. */
  lemma RunTypeLower()
    ensures ToLower(RunType) == "run"
  {
    assert LowerChar('R') == 'r';
  }

  /** The filter in `getActivities`: with a (non-empty) type, only the activities of that
      type, compared case-insensitively; without one, the page as fetched. */
  function FilterByType(page: seq<Activity>, activityType: Option<string>): (r: seq<Activity>)
    ensures activityType == None || activityType == Some("") ==> r == page
    ensures activityType.Some? && activityType.value != "" ==>
      forall a :: a in r ==> ToLower(a.activityType) == ToLower(activityType.value)
    ensures activityType.Some? && activityType.value != "" ==>
      forall a {:trigger multiset(r)[a]} :: multiset(r)[a] ==
        if ToLower(a.activityType) == ToLower(activityType.value) then multiset(page)[a] else 0
    ensures IsSubsequence(r, page)
  {
    if activityType.Some? && activityType.value != "" then
      KeepType(page, ToLower(activityType.value))
    else
      SubsequenceRefl(page);
      page
  }

  /** `getActivities` on the upstream's answer: an error is passed on, a page is filtered
      by type. */
  function GetActivities(response: PageResponse, activityType: Option<string>): (r: PageResponse)
    ensures r.Failed? <==> response.Failed?
    ensures r.Served? ==> r.activities == FilterByType(response.activities, activityType)
  {
    match response
    case Served(activities) => Served(FilterByType(activities, activityType))
    case Failed => Failed
  }

  lemma {:induction false} SubsequenceRefl(s: seq<Activity>)
    ensures IsSubsequence(s, s)
  {
    if s != [] {
      SubsequenceRefl(s[1..]);
    }
  }

  /** `isTokenExpired`: the current time in seconds (`Date.now() / 1000`, not rounded) is past
      `expiresAt`. The current time `nowMs` is a parameter. */
  function IsTokenExpired(expiresAt: int, nowMs: int): (expired: bool)
    ensures expired <==> nowMs > expiresAt * 1000
  {
    (nowMs as real) / 1000.0 > expiresAt as real
  }

  /** Once expired, a token stays expired as time goes on. */
  lemma TokenExpiryMonotone(expiresAt: int, earlier: int, later: int)
    requires earlier <= later
    requires IsTokenExpired(expiresAt, earlier)
    ensures IsTokenExpired(expiresAt, later)
  {
  }

  datatype Clock = Clock(hours: nat, minutes: nat, secs: nat)

  /** Whole hours, the minutes left over and the seconds left over. */
  function ClockParts(seconds: nat): (c: Clock)
    ensures c.minutes < 60 && c.secs < 60
    ensures c.hours * 3600 + c.minutes * 60 + c.secs == seconds
  {
    Clock(seconds / 3600, (seconds % 3600) / 60, seconds % 60)
  }

  /** `formatTime` for a whole, non-negative number of seconds: `h:mm:ss` when there is at
      least one hour, `m:ss` otherwise. */
  function FormatTime(seconds: nat): (text: string)
    ensures |text| >= 4 && text[|text| - 3] == ':'
    ensures AllDigits(text[|text| - 2..]) && DigitsValue(text[|text| - 2..]) == seconds % 60
  {
    var c := ClockParts(seconds);
    TwoDigits(c.secs);
    if c.hours > 0 then
      NatToString(c.hours) + ":" + PadStart2(NatToString(c.minutes)) + ":" + PadStart2(NatToString(c.secs))
    else
      NatToString(c.minutes) + ":" + PadStart2(NatToString(c.secs))
  }

  /** A clock field: one or more decimal digits. */
  predicate IsField(s: string) { |s| > 0 && AllDigits(s) }

  /** Reads `h:mm:ss` or `m:ss` (fields of decimal digits) back into seconds. */
  function ParseClock(text: string): Option<nat>
  {
    ClockValue(Split(text, ':'))
  }

  /** The seconds in `m:ss` and in `h:mm:ss`. */
  function MinutesAndSeconds(m: nat, s: nat): nat { m * 60 + s }

  function HoursMinutesAndSeconds(h: nat, m: nat, s: nat): nat { h * 3600 + m * 60 + s }

  /** The seconds denoted by two or three clock fields. */
  function ClockValue(f: seq<string>): Option<nat>
  {
    if |f| == 2 && IsField(f[0]) && IsField(f[1]) then
      Some(MinutesAndSeconds(DigitsValue(f[0]), DigitsValue(f[1])))
    else if |f| == 3 && IsField(f[0]) && IsField(f[1]) && IsField(f[2]) then
      Some(HoursMinutesAndSeconds(DigitsValue(f[0]), DigitsValue(f[1]), DigitsValue(f[2])))
    else None
  }

  lemma NoColonInDigits(s: string)
    requires AllDigits(s)
    ensures ':' !in s
  {
    assert forall i :: 0 <= i < |s| ==> s[i] != ':';
  }

  /** Splitting two colon-free fields joined by a colon gives the fields back. */
  lemma SplitTwoFields(a: string, b: string)
    requires ':' !in a && ':' !in b
    ensures Split(a + ":" + b, ':') == [a, b]
  {
    SplitNoSeparator(b, ':');
    assert a + ":" + b == a + [':'] + b;
    SplitField(a, ':', b);
  }

  /** Splitting three colon-free fields joined by colons gives the fields back. */
  lemma SplitThreeFields(a: string, b: string, c: string)
    requires ':' !in a && ':' !in b && ':' !in c
    ensures Split(a + ":" + b + ":" + c, ':') == [a, b, c]
  {
    SplitTwoFields(b, c);
    assert a + ":" + b + ":" + c == a + [':'] + (b + ":" + c);
    SplitField(a, ':', b + ":" + c);
  }

  /** A formatted field: non-empty decimal digits denoting `n`, without a colon. */
  lemma ClockField(s: string, n: nat)
    requires s == NatToString(n) || (n < 100 && s == PadStart2(NatToString(n)))
    ensures |s| > 0 && AllDigits(s) && ':' !in s && DigitsValue(s) == n
  {
    if s == NatToString(n) {
      DigitsValueOfNatToString(n);
    } else {
      TwoDigits(n);
    }
    NoColonInDigits(s);
  }

  /** The seconds that two or three digit fields denote. */
  lemma ClockValueOfFields(a: string, b: string, c: string)
    requires IsField(a) && IsField(b) && IsField(c)
    ensures ClockValue([a, b]) == Some(MinutesAndSeconds(DigitsValue(a), DigitsValue(b)))
    ensures ClockValue([a, b, c]) == Some(HoursMinutesAndSeconds(DigitsValue(a), DigitsValue(b), DigitsValue(c)))
  {
    var two, three := [a, b], [a, b, c];
    assert two[0] == a && two[1] == b && |two| == 2;
    assert three[0] == a && three[1] == b && three[2] == c && |three| == 3;
  }

  /** The formatted duration has three fields exactly when it is an hour or more, and
      reading it back gives the number of seconds formatted. */
  lemma FormatTimeRoundTrip(seconds: nat)
    ensures |Split(FormatTime(seconds), ':')| == (if seconds >= 3600 then 3 else 2)
    ensures ParseClock(FormatTime(seconds)) == Some(seconds)
    ensures var fields := Split(FormatTime(seconds), ':');
      forall i :: 1 <= i < |fields| ==> |fields[i]| == 2
    ensures var fields := Split(FormatTime(seconds), ':');
      |fields[0]| >= 1 && (|fields[0]| > 1 ==> fields[0][0] != '0')
    ensures var fields, c := Split(FormatTime(seconds), ':'), ClockParts(seconds);
      if |fields| == 3 then
        DigitsValue(fields[0]) == c.hours && DigitsValue(fields[1]) == c.minutes && DigitsValue(fields[2]) == c.secs
      else
        DigitsValue(fields[0]) == c.minutes && DigitsValue(fields[1]) == c.secs
  {
    var c := ClockParts(seconds);
    ClockFields(c);
    HoursFromAnHour(seconds);
    if c.hours > 0 {
      FormatWithHours(seconds, c);
    } else {
      FormatWithoutHours(seconds, c);
    }
  }

  /** There is a whole hour exactly from 3600 seconds up. */
  lemma HoursFromAnHour(seconds: nat)
    ensures ClockParts(seconds).hours > 0 <==> seconds >= 3600
  {
  }

  /** The fields `formatTime` writes from one hour up: hours, then padded minutes and seconds. */
  function HourFields(c: Clock): seq<string>
  {
    [NatToString(c.hours), PadStart2(NatToString(c.minutes)), PadStart2(NatToString(c.secs))]
  }

  /** The fields `formatTime` writes below one hour: minutes, then padded seconds. */
  function MinuteFields(c: Clock): seq<string>
  {
    [NatToString(c.minutes), PadStart2(NatToString(c.secs))]
  }

  /** What the fields of a clock hold: the first unpadded without a leading zero, the later
      ones two digits, and each reading as its part of the clock. */
  lemma ClockFields(c: Clock)
    requires c.minutes < 60 && c.secs < 60
    ensures var f := HourFields(c);
      |f[0]| >= 1 && (|f[0]| > 1 ==> f[0][0] != '0') && |f[1]| == 2 && |f[2]| == 2 &&
      DigitsValue(f[0]) == c.hours && DigitsValue(f[1]) == c.minutes && DigitsValue(f[2]) == c.secs
    ensures var f := MinuteFields(c);
      |f[0]| >= 1 && (|f[0]| > 1 ==> f[0][0] != '0') && |f[1]| == 2 &&
      DigitsValue(f[0]) == c.minutes && DigitsValue(f[1]) == c.secs
  {
    DigitsValueOfNatToString(c.hours);
    DigitsValueOfNatToString(c.minutes);
    TwoDigits(c.minutes);
    TwoDigits(c.secs);
  }

  lemma FormatWithHours(seconds: nat, c: Clock)
    requires c == ClockParts(seconds) && c.hours > 0
    ensures Split(FormatTime(seconds), ':') == HourFields(c)
    ensures ParseClock(FormatTime(seconds)) == Some(seconds)
  {
    var hs, ms, ss := NatToString(c.hours), PadStart2(NatToString(c.minutes)), PadStart2(NatToString(c.secs));
    ClockField(hs, c.hours);
    ClockField(ms, c.minutes);
    ClockField(ss, c.secs);
    var text := hs + ":" + ms + ":" + ss;
    assert FormatTime(seconds) == text;
    SplitThreeFields(hs, ms, ss);
    ClockValueOfFields(hs, ms, ss);
    assert HoursMinutesAndSeconds(c.hours, c.minutes, c.secs) == seconds;
  }

  lemma FormatWithoutHours(seconds: nat, c: Clock)
    requires c == ClockParts(seconds) && c.hours == 0
    ensures Split(FormatTime(seconds), ':') == MinuteFields(c)
    ensures ParseClock(FormatTime(seconds)) == Some(seconds)
  {
    var m, ss := NatToString(c.minutes), PadStart2(NatToString(c.secs));
    ClockField(m, c.minutes);
    ClockField(ss, c.secs);
    var text := m + ":" + ss;
    assert FormatTime(seconds) == text;
    SplitTwoFields(m, ss);
    ClockValueOfFields(m, ss, ss);
    assert MinutesAndSeconds(c.minutes, c.secs) == seconds;
  }
}
