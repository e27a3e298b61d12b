/**
 * The part of Go's `time` package the fetcher relies on, reduced to values.
 * An instant is a count of nanoseconds since the Unix epoch (the resolution of
 * `time.Time`); a location is a fixed offset from UTC.
 */
module GoTime {
  import opened Wrappers

  type Instant = int

  const Second: int := 1_000_000_000
  const Minute: int := 60_000_000_000
  const Hour: int := 3_600_000_000_000
  /** `24 * time.Hour`: a day of absolute time, not a calendar day. */
  const Day: int := 86_400_000_000_000

  /** A parsed `time.Time`: the instant, and the UTC offset in seconds that the text carried. */
  datatype Timestamp = Timestamp(instant: Instant, offset: int)

  /** A `*time.Location`, as a name and a fixed offset in seconds east of UTC. */
  datatype Zone = Zone(name: string, offset: int)

  /** `time.UTC`. */
  const UTC: Zone := Zone("UTC", 0)

  /** `time.Parse(time.RFC3339, s)`: None when it returns an error. */
  type Parser = string -> Option<Timestamp>

  /** `time.LoadLocation(name)`: None when it returns an error. */
  type ZoneDatabase = string -> Option<Zone>

  /** The wall clock reading of `t` in zone `z`, in nanoseconds since the local epoch. */
  function LocalClock(t: Instant, z: Zone): int
  {
    t + z.offset * Second
  }

  /** Nanoseconds since local midnight of `t` in `z`. */
  function TimeOfDay(t: Instant, z: Zone): (d: int)
    ensures 0 <= d < Day
  {
    LocalClock(t, z) % Day
  }

  /** The local calendar day number of `t` in `z` (days since the local epoch). */
  function LocalDay(t: Instant, z: Zone): int
  {
    LocalClock(t, z) / Day
  }
}
