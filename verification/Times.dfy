/** Points in time and durations. */
module Times {

  /** Nanoseconds. */
  type Time = int

  const SECOND: Time := 1_000_000_000
}
