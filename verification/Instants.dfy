/** Time as the sources use it: instants are numbers of nanoseconds, and the zero
    instant stands for the zero value of the source's time type. */
module Instants {
  type Time = nat

  const ZERO_TIME: Time := 0

  /** A clock reading: the wall clock is always later than the zero value. */
  type Clock = t: Time | ZERO_TIME < t witness 1

  const SECOND: nat := 1_000_000_000

  function Max(a: Time, b: Time): Time {
    if a < b then b else a
  }
}
