/** Python's `datetime.date` as its proleptic Gregorian ordinal, the number
    `date.toordinal()` returns: day 1 is 0001-01-01 and day 3652059 is
    9999-12-31. Subtracting a `timedelta` is subtraction of day numbers,
    guarded by the ranges `date` and `timedelta` accept. */
module Dates {
  import opened Results

  /** `date.min.toordinal()`, 0001-01-01. */
  const MinDate: int := 1
  /** `date.max.toordinal()`, 9999-12-31. */
  const MaxDate: int := 3652059
  /** `timedelta.max.days`: a `timedelta(days=n)` needs |n| <= 999999999. */
  const MaxDeltaDays: int := 999999999

  /** A day number some `date` has. */
  predicate IsDate(d: int)
  {
    MinDate <= d <= MaxDate
  }

  /** A day count `timedelta(days=n)` accepts. */
  predicate IsDelta(n: int)
  {
    -MaxDeltaDays <= n <= MaxDeltaDays
  }

  /** `d - timedelta(days=n)`: the day n days earlier (later for a negative
      n), or `OverflowError` when the `timedelta` cannot be built or the
      result leaves the range of `date`. */
  function DaysBefore(d: int, n: int): (r: Result<int>)
    ensures r.Ok? <==> IsDelta(n) && IsDate(d - n)
    ensures r.Ok? ==> r.value == d - n
    ensures r.Err? ==> r.error == DateOverflow
  {
    if IsDelta(n) && IsDate(d - n) then Ok(d - n) else Err(DateOverflow)
  }
}
