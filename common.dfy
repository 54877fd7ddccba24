/** Values shared by every part of the persistence model: failure-carrying
    results, identifiers and the clock's timestamps. */
module Common {

  datatype Option<+T> = None | Some(value: T)

  datatype Result<+T, +E> = Ok(value: T) | Err(error: E)

  /** A UUID is an opaque identifier; only equality matters to the store. */
  type Uuid = nat

  /** A naive timestamp (Postgres `timestamp`, chrono `NaiveDateTime`) at
      its native resolution: microseconds counted from the epoch. */
  type Timestamp = int

  /** A calendar date, counted in days from the epoch. */
  type Date = int

  const MicrosPerDay: int := 86_400_000_000

  /** The `::date` cast: the day that contains the timestamp (floor, also
      for timestamps before the epoch). */
  function DateOf(t: Timestamp): (d: Date)
    ensures d * MicrosPerDay <= t < d * MicrosPerDay + MicrosPerDay
  {
    t / MicrosPerDay
  }

  /** The date of a timestamp one day earlier is the previous date: an item
      stamped "now minus one day" belongs to yesterday, not today. */
  lemma DayBefore(t: Timestamp)
    ensures DateOf(t - MicrosPerDay) == DateOf(t) - 1
  {
  }
}
