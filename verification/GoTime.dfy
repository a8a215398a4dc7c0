/** Durations as Go's time package counts them. */
module GoTime {
  /** In nanoseconds. */
  const SECOND := 1_000_000_000
}
