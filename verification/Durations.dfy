/** Durations are counted in nanoseconds, as Go's time.Duration is. */
module Durations {

  const MS: int := 1_000_000

  const SECOND: int := 1_000_000_000
}
