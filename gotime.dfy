/**
  The part of Go's time package the program relies on: a Time value made of
  wall-clock fields and a location, its absolute instant, the After/Before
  comparisons, and Time.Add. A location is a single fixed offset from UTC.
 */
module GoTime {
  import opened Civil

  const NanosPerSecond: int := 1_000_000_000
  const NanosPerMinute: int := 60_000_000_000
  const NanosPerHour: int := 3_600_000_000_000
  const NanosPerDay: int := 86_400_000_000_000

  /** A time zone with one fixed offset, in seconds east of UTC. */
  datatype Location = Location(name: string, offsetSeconds: int)

  const UTC: Location := Location("UTC", 0)

  /** A time.Time as its wall-clock fields in its own location. */
  datatype DateTime = DateTime(
    year: int, month: Month, day: int,
    hour: int, minute: int, second: int, nanosecond: int,
    loc: Location)

  function DateOf(t: DateTime): Date {
    Date(t.year, t.month, t.day)
  }

  /** Every field within the range a time.Time reports for it. */
  predicate Valid(t: DateTime) {
    && ValidDate(DateOf(t))
    && 0 <= t.hour < 24 && 0 <= t.minute < 60 && 0 <= t.second < 60
    && 0 <= t.nanosecond < NanosPerSecond
  }

  /** Nanoseconds since midnight on the wall clock. */
  function ClockNanos(t: DateTime): int {
    t.hour * NanosPerHour + t.minute * NanosPerMinute + t.second * NanosPerSecond + t.nanosecond
  }

  /** Nanoseconds from 0000-01-01T00:00:00 to `t`, read on `t`'s wall clock. */
  function WallNanos(t: DateTime): int {
    DayNumber(DateOf(t)) * NanosPerDay + ClockNanos(t)
  }

  /** Nanoseconds from 0000-01-01T00:00:00 UTC to the instant `t` denotes. */
  function Instant(t: DateTime): int {
    WallNanos(t) - t.loc.offsetSeconds * NanosPerSecond
  }

  /** Go's t.Before(u): t is an earlier instant than u. */
  predicate Before(t: DateTime, u: DateTime) {
    Instant(t) < Instant(u)
  }

  /** Go's t.After(u): t is a later instant than u. */
  predicate After(t: DateTime, u: DateTime) {
    Instant(u) < Instant(t)
  }

  /** Lexicographic order on (year, month, day, hour, minute, second, nanosecond). */
  predicate WallClockLess(a: DateTime, b: DateTime) {
    DateLess(DateOf(a), DateOf(b))
    || (DateOf(a) == DateOf(b)
        && (a.hour < b.hour
            || (a.hour == b.hour
                && (a.minute < b.minute
                    || (a.minute == b.minute
                        && (a.second < b.second
                            || (a.second == b.second && a.nanosecond < b.nanosecond)))))))
  }

  lemma ClockBounds(t: DateTime)
    requires Valid(t)
    ensures 0 <= ClockNanos(t) < NanosPerDay
  {
  }

  lemma ClockOrder(a: DateTime, b: DateTime)
    requires Valid(a) && Valid(b) && DateOf(a) == DateOf(b)
    ensures ClockNanos(a) < ClockNanos(b) <==> WallClockLess(a, b)
    ensures ClockNanos(a) == ClockNanos(b) <==> a.(loc := b.loc) == b
  {
  }

  /**
    Within one location, the instant order of valid times is the lexicographic
    order of their wall-clock fields, and the instant determines the fields.
   */
  lemma InstantOrderIsWallClockOrder(a: DateTime, b: DateTime)
    requires Valid(a) && Valid(b) && a.loc == b.loc
    ensures Instant(a) < Instant(b) <==> WallClockLess(a, b)
    ensures Instant(a) == Instant(b) <==> a == b
  {
    DayNumberOrder(DateOf(a), DateOf(b));
    ClockBounds(a);
    ClockBounds(b);
    if DateOf(a) == DateOf(b) {
      ClockOrder(a, b);
    }
  }

  /** The time whose wall clock reads `date` at `clock` nanoseconds past midnight. */
  function AtClock(date: Date, clock: int, loc: Location): (t: DateTime)
    requires ValidDate(date) && 0 <= clock < NanosPerDay
    ensures Valid(t) && DateOf(t) == date && t.loc == loc
    ensures ClockNanos(t) == clock
  {
    var seconds := clock / NanosPerSecond;
    var minutes := seconds / 60;
    DateTime(date.year, date.month, date.day,
             minutes / 60, minutes % 60, seconds % 60, clock % NanosPerSecond, loc)
  }

  /**
    Go's t.Add(d) for a duration of `d` nanoseconds: the instant `d` nanoseconds
    later, read in the same location, with second, minute, hour, day, month and
    year carries.
   */
  function AddDuration(t: DateTime, d: int): (r: DateTime)
    requires Valid(t)
    ensures Valid(r) && r.loc == t.loc
    ensures Instant(r) == Instant(t) + d
  {
    var total := ClockNanos(t) + d;
    var date := ShiftDays(DateOf(t), total / NanosPerDay);
    AtClock(date, total % NanosPerDay, t.loc)
  }
}
