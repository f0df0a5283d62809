/** The time periods the user can pick. The source passes them around as strings; every
    `switch` on them falls back to a default branch for an unrecognised string, which is
    the `Other` period here. */
module Periods {

  datatype Period = LastMonth | ThreeMonths | LastSixMonths | LastYear | AllTime | Other

  /** The option values of the period selector. */
  function Name(p: Period): string
  {
    match p
    case LastMonth => "last month"
    case ThreeMonths => "3 months"
    case LastSixMonths => "last 6 months"
    case LastYear => "last year"
    case AllTime => "all"
    case Other => ""
  }

  /** The period a `switch (timePeriod)` selects for a string. */
  function FromName(s: string): (p: Period)
    ensures p != Other ==> Name(p) == s
  {
    if s == "last month" then LastMonth
    else if s == "3 months" then ThreeMonths
    else if s == "last 6 months" then LastSixMonths
    else if s == "last year" then LastYear
    else if s == "all" then AllTime
    else Other
  }

  /** Each selector option is recognised as its own period. */
  lemma FromNameOfName(p: Period)
    requires p != Other
    ensures FromName(Name(p)) == p
  {
  }
}
