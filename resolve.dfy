/**
  Resolution of one calendar component (main.go:137-187): read DTSTART, DTEND
  and DURATION, try the explicit-end path and then the duration path, relocate
  each interval into now's location and test it with `between`.
 */
module Resolve {
  import opened Wrappers
  import opened Civil
  import opened GoTime
  import opened Layout
  import opened CalNow

  /**
    The first DTSTART, DTEND and DURATION property of a component, each absent
    (a nil *ical.Prop) or holding its raw text.
   */
  datatype Component = Component(dtStart: Option<string>, dtEnd: Option<string>, duration: Option<string>)

  /**
    The ISO 8601 duration parser composed with its conversion to a
    time.Duration: a whole number of nanoseconds, or None on a parse error.
   */
  type DurationParser = string -> Option<int>

  /** What one resolution path produced. */
  datatype PathResult =
    | Abandoned                                  // a parse failed: `continue` to the next component
    | NilStart                                   // DTSTART absent where main.go:155 reads it
    | Resolved(begin: DateTime, end: DateTime)   // the relocated interval

  /**
    The explicit-end path (main.go:150-161): DTEND is parsed first, then
    DTSTART; both are relocated into now's location.
   */
  function ExplicitEnd(now: DateTime, dtStart: Option<string>, dtEnd: string): (r: PathResult)
    ensures r.NilStart? <==> dtStart.None? && ParseFullTime(dtEnd).Some?
    ensures r.Resolved? <==> dtStart.Some? && ParseFullTime(dtStart.value).Some? && ParseFullTime(dtEnd).Some?
    ensures r.Resolved? ==> Valid(r.begin) && Valid(r.end) && r.begin.loc == now.loc && r.end.loc == now.loc
    ensures r.Resolved? ==>
      Some(r.begin.(loc := UTC)) == ParseFullTime(dtStart.value) && Some(r.end.(loc := UTC)) == ParseFullTime(dtEnd)
  {
    match ParseFullTime(dtEnd)
    case None => Abandoned
    case Some(endTime) =>
      if dtStart.None? then NilStart
      else
        match ParseFullTime(dtStart.value)
        case None => Abandoned
        case Some(beginTime) => Resolved(FixDate(beginTime, now), FixDate(endTime, now))
  }

  /**
    The duration path (main.go:169-181): end = begin + duration, computed in UTC
    before both are relocated, so the relocated interval is exactly as long as
    the duration.
   */
  function DurationEnd(now: DateTime, dtStart: string, duration: string, parseDuration: DurationParser): (r: PathResult)
    ensures !r.NilStart?
    ensures r.Resolved? <==> ParseFullTime(dtStart).Some? && parseDuration(duration).Some?
    ensures r.Resolved? ==> Valid(r.begin) && Valid(r.end) && r.begin.loc == now.loc && r.end.loc == now.loc
    ensures r.Resolved? ==> Some(r.begin.(loc := UTC)) == ParseFullTime(dtStart)
    ensures r.Resolved? ==> Instant(r.end) == Instant(r.begin) + parseDuration(duration).value
  {
    match ParseFullTime(dtStart)
    case None => Abandoned
    case Some(beginTime) =>
      match parseDuration(duration)
      case None => Abandoned
      case Some(d) =>
        var endTime := AddDuration(beginTime, d);
        FixDateKeepsDistance(beginTime, endTime, now);
        Resolved(FixDate(beginTime, now), FixDate(endTime, now))
  }

  /** What the evaluation of one component leads to. */
  datatype Verdict =
    | Found      // os.Exit(0): an interval contains now
    | NotFound   // go on with the next component
    | Crash      // nil pointer dereference at main.go:155: the process panics

  predicate Contains(now: DateTime, p: PathResult) {
    p.Resolved? && Between(now, p.begin, p.end)
  }

  /** The verdict main.go:137-187 reaches for one component. */
  function ChildVerdict(now: DateTime, c: Component, parseDuration: DurationParser): (v: Verdict)
    ensures c.dtStart.None? && c.duration.None? ==> v == NotFound
    ensures v == Crash <==>
      c.dtStart.None? && c.duration.Some? && c.dtEnd.Some? && ParseFullTime(c.dtEnd.value).Some?
  {
    if c.dtStart.None? && c.duration.None? then NotFound
    else
      var explicit := if c.dtEnd.Some? then Some(ExplicitEnd(now, c.dtStart, c.dtEnd.value)) else None;
      if explicit == Some(NilStart) then Crash
      else if explicit == Some(Abandoned) then NotFound
      else if explicit.Some? && Contains(now, explicit.value) then Found
      else if c.duration.Some? && c.dtStart.Some?
              && Contains(now, DurationEnd(now, c.dtStart.value, c.duration.value, parseDuration)) then Found
      else NotFound
  }

  /**
    The body of the innermost loop (main.go:137-187), statement by statement,
    with `continue` as a NotFound return and os.Exit(0) as a Found return.
   */
  method EvaluateChild(now: DateTime, c: Component, parseDuration: DurationParser) returns (v: Verdict)
    ensures v == ChildVerdict(now, c, parseDuration)
  {
    v := NotFound;
    if c.dtStart.None? && c.duration.None? {
      return;
    }
    if c.dtEnd.Some? {
      var endTime := ParseFullTime(c.dtEnd.value);
      if endTime.None? {
        return;
      }
      if c.dtStart.None? {
        return Crash;
      }
      var beginTime := ParseFullTime(c.dtStart.value);
      if beginTime.None? {
        return;
      }
      var e := FixDate(endTime.value, now);
      var b := FixDate(beginTime.value, now);
      if Between(now, b, e) {
        return Found;
      }
    }
    if c.duration.Some? && c.dtStart.Some? {
      var beginTime := ParseFullTime(c.dtStart.value);
      if beginTime.None? {
        return;
      }
      var d := parseDuration(c.duration.value);
      if d.None? {
        return;
      }
      var endTime := AddDuration(beginTime.value, d.value);
      endTime := FixDate(endTime, now);
      var b := FixDate(beginTime.value, now);
      if Between(now, b, endTime) {
        return Found;
      }
    }
  }

  /**
    A DTEND or DTSTART that fails to parse on the explicit-end path abandons the
    whole component: the duration path is not tried, whatever it would give.
   */
  lemma ExplicitParseFailureSkipsComponent(now: DateTime, c: Component, parseDuration: DurationParser)
    requires c.dtEnd.Some?
    requires ParseFullTime(c.dtEnd.value).None? || (c.dtStart.Some? && ParseFullTime(c.dtStart.value).None?)
    ensures ChildVerdict(now, c, parseDuration) == NotFound
  {
  }

  /**
    With DTSTART and DTEND and no DURATION, the component is found exactly when
    both parse and now's wall clock lies strictly between their wall clocks.
   */
  lemma ExplicitVerdictOnWallClock(now: DateTime, start: string, end: string, parseDuration: DurationParser)
    requires Valid(now)
    ensures ChildVerdict(now, Component(Some(start), Some(end), None), parseDuration) == Found
        <==> && ParseFullTime(start).Some? && ParseFullTime(end).Some?
             && WallClockLess(ParseFullTime(start).value, now.(loc := UTC))
             && WallClockLess(now.(loc := UTC), ParseFullTime(end).value)
  {
    var p := ExplicitEnd(now, Some(start), end);
    ExplicitOnlyVerdict(now, Component(Some(start), Some(end), None), parseDuration);
    if p.Resolved? {
      BetweenIsWallClockOrder(now, p.begin, p.end);
    }
  }

  /** Without DURATION, only the explicit-end path decides. */
  lemma ExplicitOnlyVerdict(now: DateTime, c: Component, parseDuration: DurationParser)
    requires c.dtStart.Some? && c.dtEnd.Some? && c.duration.None?
    ensures ChildVerdict(now, c, parseDuration) == Found <==> Contains(now, ExplicitEnd(now, c.dtStart, c.dtEnd.value))
  {
  }

  /**
    The duration path decides as the explicit-end path would for
    DTEND = DTSTART + DURATION written in the same layout, whenever that end has
    no sub-second part and a four-digit year.
   */
  lemma DurationPathMatchesExplicitEnd(
    now: DateTime, start: string, duration: string, parseDuration: DurationParser, d: int)
    requires Valid(now)
    requires ParseFullTime(start).Some? && parseDuration(duration) == Some(d)
    requires AddDuration(ParseFullTime(start).value, d).nanosecond == 0
    requires 0 <= AddDuration(ParseFullTime(start).value, d).year <= 9999
    ensures var end := FormatFullTime(AddDuration(ParseFullTime(start).value, d));
      && DurationEnd(now, start, duration, parseDuration) == ExplicitEnd(now, Some(start), end)
      && ChildVerdict(now, Component(Some(start), None, Some(duration)), parseDuration)
         == ChildVerdict(now, Component(Some(start), Some(end), None), parseDuration)
  {
    var b := ParseFullTime(start).value;
    var e := AddDuration(b, d);
    ParseFormatRoundTrip(e);
    assert e.(nanosecond := 0, loc := UTC) == e;
  }
}
