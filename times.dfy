/** Instants as Go's time package orders them, counted in integer nanoseconds. */
module Times {

  /** Nanoseconds since the Unix epoch. `t.Before(u)` is `t < u`. */
  type Time = int

  const Second: int := 1_000_000_000
  const Minute: int := 60 * Second

  /** `time.Time{}`: midnight UTC, January 1 of year 1. */
  const ZeroTime: Time := -62_135_596_800 * Second

  /** `time.Unix(sec, 0)`. */
  function Unix(sec: int): Time
  {
    sec * Second
  }

  function Max(a: Time, b: Time): Time
  {
    if a < b then b else a
  }
}
