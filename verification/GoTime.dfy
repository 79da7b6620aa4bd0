/** Instants and durations, in nanoseconds; the instant 0 is Go's zero time. */
module GoTime {
  type Time = int

  const SECOND: int := 1_000_000_000

  /** An instant as a `timestamptz` column holds it: in whole microseconds, the rest cut off. */
  function Micros(t: Time): Time {
    t / 1000
  }
}
