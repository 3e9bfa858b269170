/**
 The values the weather analyses work on: one temperature reading of one
 station, the optional time window of the fluctuation query and the bounds a
 caller hands to the time-bounded query. Dates and temperatures are exact
 reals, standing in for the source's floats.
 */
module WeatherTypes {

  /** One row of the readings table: station id, date (an ordinal time value) and temperature. */
  datatype Reading = Reading(id: int, date: real, temp: real)

  datatype Option<T> = None | Some(value: T)

  /** The inclusive date window `[start, end]` a fluctuation scan honours, or none at all. */
  datatype Window = NoWindow | Between(start: real, end: real)

  /**
   A date bound as a caller may pass it to the time-bounded query: absent
   (`None`), a value that does not compare with a number (a string, say), or a number.
   */
  datatype Bound = Missing | NonNumeric | Num(value: real)

  function Abs(x: real): (r: real)
    ensures r >= 0.0
    ensures r == x || r == -x
  {
    if x < 0.0 then -x else x
  }

  function Max(x: real, y: real): (r: real)
    ensures r >= x && r >= y
    ensures r == x || r == y
  {
    if x < y then y else x
  }

  /** Whether a reading dated `date` is kept by the window `w`. */
  predicate InWindow(date: real, w: Window)
  {
    match w
    case NoWindow => true
    case Between(start, end) => start <= date <= end
  }

  /**
   The scan is windowed only when both optional dates are given; a single
   date on its own is ignored.
   */
  function TimeWindow(startDate: Option<real>, endDate: Option<real>): (w: Window)
    ensures w.Between? <==> startDate.Some? && endDate.Some?
    ensures w.Between? ==> w.start == startDate.value && w.end == endDate.value
  {
    if startDate.Some? && endDate.Some? then Between(startDate.value, endDate.value) else NoWindow
  }
}
