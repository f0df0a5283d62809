/** The navigation bar of the weekly view: the label naming the period shown and the
    rules for showing and enabling its controls. */
module TimeNavigation {
  import opened Collections
  import opened Text
  import opened Periods
  import WeeklyMileage

  /** `"s"` when more than one, as in `month${periods > 1 ? 's' : ''}`. */
  function Plural(n: nat): string { if n > 1 then "s" else "" }

  /** `getCurrentPeriodLabel`. */
  function PeriodLabel(period: Period, offset: nat): (text: string)
    ensures offset == 0 ==> text == (if period == AllTime then "All Time" else "Current")
    ensures period == AllTime ==> text == "All Time"
  {
    if offset == 0 then
      if period == AllTime then "All Time" else "Current"
    else
      var periods := offset;
      match period
      case LastMonth => NatToString(periods) + " month" + Plural(periods) + " ago"
      case ThreeMonths => NatToString(periods * 3) + " months ago"
      case LastSixMonths => NatToString(periods * 6) + " months ago"
      case LastYear => NatToString(periods) + " year" + Plural(periods) + " ago"
      case AllTime => "All Time"
      case Other => NatToString(periods) + " period" + Plural(periods) + " ago"
  }

  /** How many of the period's units one step of the offset goes back: one month, three
      months, six months, one year, or one period. */
  function UnitsPerStep(period: Period): nat
  {
    match period
    case ThreeMonths => 3
    case LastSixMonths => 6
    case _ => 1
  }

  /** The unit after the number: singular or plural month, year or period, and always
      `months` for the three- and six-month periods. */
  function UnitWord(period: Period, offset: nat): (unit: string)
    ensures period != AllTime ==> |unit| > 0 && unit[0] == ' '
  {
    match period
    case LastMonth => " month" + Plural(offset)
    case ThreeMonths => " months"
    case LastSixMonths => " months"
    case LastYear => " year" + Plural(offset)
    case AllTime => ""
    case Other => " period" + Plural(offset)
  }

  /** The decimal digits at the start of a string. */
  function LeadingDigits(s: string): (r: string)
    ensures AllDigits(r) && |r| <= |s| && r == s[..|r|]
  {
    if s == [] || !IsDigit(s[0]) then [] else [s[0]] + LeadingDigits(s[1..])
  }

  lemma {:induction false} LeadingDigitsOf(d: string, rest: string)
    requires AllDigits(d)
    requires rest == [] || !IsDigit(rest[0])
    ensures LeadingDigits(d + rest) == d
    decreases |d|
  {
    if d == [] {
      assert d + rest == rest;
    } else {
      assert (d + rest)[0] == d[0];
      assert (d + rest)[1..] == d[1..] + rest;
      LeadingDigitsOf(d[1..], rest);
      assert [d[0]] + d[1..] == d;
    }
  }

  /** Away from the current period, the label is the number of units back, the unit, and
      ` ago`. */
  lemma LabelShape(period: Period, offset: nat)
    requires offset > 0 && period != AllTime
    ensures PeriodLabel(period, offset) ==
      NatToString(offset * UnitsPerStep(period)) + UnitWord(period, offset) + " ago"
  {
    var n := offset * UnitsPerStep(period);
    match period {
      case LastMonth => assert n == offset;
      case ThreeMonths => assert n == offset * 3;
      case LastSixMonths => assert n == offset * 6;
      case LastYear => assert n == offset;
      case Other => assert n == offset;
    }
  }

  /** Away from the current period, the text starts with the number of units back and
      ends with `ago`; reading that number gives the offset times the units per step. */
  lemma LabelCountsBack(period: Period, offset: nat)
    requires offset > 0 && period != AllTime
    ensures var text := PeriodLabel(period, offset);
      |text| >= 4 && text[|text| - 4..] == " ago" &&
      DigitsValue(LeadingDigits(text)) == offset * UnitsPerStep(period)
  {
    var n := offset * UnitsPerStep(period);
    var digits, unit := NatToString(n), UnitWord(period, offset);
    LabelShape(period, offset);
    LabelDigits(digits, unit);
    DigitsValueOfNatToString(n);
  }

  /** Between the leading number and `ago` stands the unit of the period. */
  lemma LabelUnit(period: Period, offset: nat)
    requires offset > 0 && period != AllTime
    ensures var text, digits := PeriodLabel(period, offset), NatToString(offset * UnitsPerStep(period));
      LeadingDigits(text) == digits && |digits| <= |text| - 4 &&
      text[|digits|..|text| - 4] == UnitWord(period, offset)
  {
    var digits, unit := NatToString(offset * UnitsPerStep(period)), UnitWord(period, offset);
    LabelShape(period, offset);
    LabelDigits(digits, unit);
    Middle(digits, unit, " ago");
  }

  /** Digits, then a unit starting with a space, then ` ago`: the leading digits are the
      digits and the text ends with ` ago`. */
  lemma LabelDigits(digits: string, unit: string)
    requires AllDigits(digits) && |unit| > 0 && unit[0] == ' '
    ensures var text := digits + unit + " ago";
      LeadingDigits(text) == digits && |text| >= 4 && text[|text| - 4..] == " ago"
  {
    var tail := unit + " ago";
    assert tail[0] == ' ';
    LeadingDigitsOf(digits, tail);
    assert digits + unit + " ago" == digits + tail;
  }

  /** Different offsets of one period get different labels. */
  lemma LabelInjective(period: Period, m: nat, n: nat)
    requires period != AllTime
    requires PeriodLabel(period, m) == PeriodLabel(period, n)
    ensures m == n
  {
    if m > 0 {
      LabelCountsBack(period, m);
    }
    if n > 0 {
      LabelCountsBack(period, n);
    }
  }

  /** For `'last month'`, `'last year'` and an unrecognised period the unit is plural
      (`months`, `years`, `periods`) exactly when more than one step back. */
  lemma LabelPlural(period: Period, offset: nat)
    requires offset > 0 && (period == LastMonth || period == LastYear || period == Other)
    ensures var text := PeriodLabel(period, offset);
      |text| >= 5 && (text[|text| - 5] == 's' <==> offset > 1)
  {
  }

  /** The back and forward buttons are shown unless the selected option is `'all'`. */
  function ControlsShown(period: Period): (shown: bool)
    ensures shown <==> Name(period) != "all"
  {
    period != AllTime
  }

  /** The back button is disabled exactly when the bar is, whatever the offset. */
  function BackwardDisabled(disabled: bool): (off: bool)
    ensures off <==> disabled
  {
    disabled
  }

  /** The forward button is disabled when the bar is, and also at the current period:
      it is enabled only away from offset 0 with the bar enabled. */
  function ForwardDisabled(offset: nat, disabled: bool): (off: bool)
    ensures disabled ==> off
    ensures offset == 0 ==> off
    ensures !off ==> offset > 0 && !disabled && !BackwardDisabled(disabled)
  {
    offset == 0 || disabled
  }

  /** An enabled forward button always starts a load one period nearer: the one case in
      which `goForward` does nothing is exactly a case in which the button is disabled. */
  lemma ForwardEnabledMovesForward(s: WeeklyMileage.NavState, loading: bool)
    requires !ForwardDisabled(s.timeOffset, WeeklyMileage.ControlsDisabled(s, loading))
    ensures WeeklyMileage.GoForward(s).1.Some?
    ensures WeeklyMileage.GoForward(s).0.pendingTimeOffset == Some(s.timeOffset - 1)
  {
  }

  /** An enabled back button always starts a load one period further back. */
  lemma BackwardEnabledMovesBack(s: WeeklyMileage.NavState, loading: bool)
    requires !BackwardDisabled(WeeklyMileage.ControlsDisabled(s, loading))
    ensures WeeklyMileage.GoBackward(s).1 == WeeklyMileage.LoadRequest(s.period, s.timeOffset + 1)
    ensures WeeklyMileage.GoBackward(s).0.pendingTimeOffset == Some(s.timeOffset + 1)
    ensures s.pendingTimeOffset == None && !loading
  {
  }

  /** On first render, with nothing loading, the bar shows `Current` with the back button
      enabled and the forward button disabled. */
  lemma FirstRender()
    ensures var s := WeeklyMileage.InitialNav;
      ControlsShown(s.period) && PeriodLabel(s.period, s.timeOffset) == "Current" &&
      !BackwardDisabled(WeeklyMileage.ControlsDisabled(s, false)) &&
      ForwardDisabled(s.timeOffset, WeeklyMileage.ControlsDisabled(s, false))
  {
  }
}
