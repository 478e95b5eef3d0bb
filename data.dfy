/** The series the dashboard computes once at start-up, as opaque identifiers.
    Their values (hourly readings, rolling means, daily maxima) are not modelled:
    the chart callback only chooses which of them to show and how to label them. */
module Data {

  /** The x columns a trace can draw against: the hourly index of the
      loaded table, and the daily index of the resampled YVR MDA8 series. */
  datatype TimeIndex = HourlyIndex | YvrDailyIndex

  /** The six y series: the two raw station columns, their 7-day centred
      means, and their maximum daily 8-hour averages (MDA8). */
  datatype Series =
    | YvrPpb | AbbotsfordPpb
    | YvrSmoothed | AbbSmoothed
    | YvrMax8hrsAvg | AbbMax8hrsAvg
}
