/** The record the weekly view is built from. */
module Types {
  import opened Dates
  import opened StravaService

  /** One Monday-to-Sunday bucket: its boundaries, the sums over its activities and the
      activities themselves in the order they were added. */
  datatype WeekData = WeekData(
    weekStart: Instant,
    weekEnd: Instant,
    totalDistance: real,     // meters
    totalMiles: real,
    activityCount: nat,
    runCount: nat,
    activities: seq<Activity>)
}
