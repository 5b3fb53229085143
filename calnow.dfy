/**
  The time helpers of main.go: the open-interval test `between`, the relocation
  `fixDate`, and the day-long window the program passes to the calendar query.
 */
module CalNow {
  import opened Civil
  import opened GoTime

  /** between(now, begin, end) (main.go:32-34): now.After(begin) && now.Before(end). */
  function Between(now: DateTime, begin: DateTime, end: DateTime): (r: bool)
    ensures r ==> Instant(begin) < Instant(end)
    ensures Instant(now) == Instant(begin) || Instant(now) == Instant(end) ==> !r
  {
    After(now, begin) && Before(now, end)
  }

  /** An interval whose end is not after its begin contains no instant. */
  lemma EmptyIntervalContainsNothing(now: DateTime, begin: DateTime, end: DateTime)
    requires Instant(end) <= Instant(begin)
    ensures !Between(now, begin, end)
  {
  }

  /**
    For times in one location, `between` is the strict lexicographic order of the
    wall-clock fields on both sides.
   */
  lemma BetweenIsWallClockOrder(now: DateTime, begin: DateTime, end: DateTime)
    requires Valid(now) && Valid(begin) && Valid(end)
    requires begin.loc == now.loc && end.loc == now.loc
    ensures Between(now, begin, end) <==> WallClockLess(begin, now) && WallClockLess(now, end)
  {
    InstantOrderIsWallClockOrder(begin, now);
    InstantOrderIsWallClockOrder(now, end);
  }

  /**
    fixDate(a, b) (main.go:36-47): time.Date with a's year, month, day, hour,
    minute, second and nanosecond, in b's location. The fields are in range, so
    time.Date keeps them as they are.
   */
  function FixDate(a: DateTime, b: DateTime): (r: DateTime)
    ensures r.year == a.year && r.month == a.month && r.day == a.day
    ensures r.hour == a.hour && r.minute == a.minute && r.second == a.second
    ensures r.nanosecond == a.nanosecond
    ensures r.loc == b.loc
    ensures Valid(a) ==> Valid(r)
  {
    DateTime(a.year, a.month, a.day, a.hour, a.minute, a.second, a.nanosecond, b.loc)
  }

  /** The result depends on the reference only through its location. */
  lemma FixDateReadsOnlyLocation(a: DateTime, b: DateTime, c: DateTime)
    requires b.loc == c.loc
    ensures FixDate(a, b) == FixDate(a, c)
  {
  }

  lemma FixDateIdempotent(a: DateTime, b: DateTime)
    ensures FixDate(FixDate(a, b), b) == FixDate(a, b)
  {
  }

  /**
    Relocation keeps the wall clock, so the instant moves by the difference of
    the two offsets; two times relocated from one location keep their distance.
   */
  lemma FixDateShiftsInstant(a: DateTime, b: DateTime)
    ensures Instant(FixDate(a, b)) == Instant(a) + (a.loc.offsetSeconds - b.loc.offsetSeconds) * NanosPerSecond
  {
  }

  lemma FixDateKeepsDistance(a1: DateTime, a2: DateTime, b: DateTime)
    requires a1.loc == a2.loc
    ensures Instant(FixDate(a2, b)) - Instant(FixDate(a1, b)) == Instant(a2) - Instant(a1)
  {
    FixDateShiftsInstant(a1, b);
    FixDateShiftsInstant(a2, b);
  }

  /** The query range of main.go:84-99. */
  datatype Window = Window(start: DateTime, end: DateTime)

  /**
    From 00:00:01.000000000 to 23:59:59.999999999 on now's date, in now's
    location.
   */
  function DayWindow(now: DateTime): (w: Window)
    requires Valid(now)
    ensures Valid(w.start) && Valid(w.end)
    ensures DateOf(w.start) == DateOf(now) && DateOf(w.end) == DateOf(now)
    ensures w.start.loc == now.loc && w.end.loc == now.loc
    ensures w.start.hour == 0 && w.start.minute == 0 && w.start.second == 1 && w.start.nanosecond == 0
    ensures w.end.hour == 23 && w.end.minute == 59 && w.end.second == 59 && w.end.nanosecond == 999_999_999
    ensures Before(w.start, w.end)
  {
    Window(
      DateTime(now.year, now.month, now.day, 0, 0, 1, 0, now.loc),
      DateTime(now.year, now.month, now.day, 23, 59, 59, 999_999_999, now.loc))
  }

  /**
    The window holds now except during the first second of the day: it starts at
    00:00:01, not at midnight.
   */
  lemma DayWindowHoldsNow(now: DateTime)
    requires Valid(now)
    ensures Instant(DayWindow(now).start) <= Instant(now) <= Instant(DayWindow(now).end)
        <==> NanosPerSecond <= ClockNanos(now)
  {
  }
}
