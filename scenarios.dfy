/**
  Worked cases: now is 2024-06-01 14:30:00 local time (two hours east of UTC)
  and the calendar data is given literally.
 */
module Scenarios {
  import opened Wrappers
  import opened GoTime
  import opened Layout
  import opened CalNow
  import opened Resolve
  import opened Scan

  const Local: Location := Location("Local", 7200)
  const Now: DateTime := DateTime(2024, 6, 1, 14, 30, 0, 0, Local)

  lemma PadYear()
    ensures Pad(2024, 4) == "2024"
  {
    assert Pad(2, 1) == Pad(0, 0) + [Digit(2)] == "2";
    assert Pad(20, 2) == Pad(2, 1) + [Digit(0)] == "20";
    assert Pad(202, 3) == Pad(20, 2) + [Digit(2)] == "202";
    assert Pad(2024, 4) == Pad(202, 3) + [Digit(4)];
  }

  lemma PadTwo(n: nat)
    requires n < 100
    ensures Pad(n, 2) == [Digit(n / 10), Digit(n % 10)]
  {
    assert Pow10(1) == 10;
    assert Pad(n / 10, 1) == Pad(0, 0) + [Digit(n / 10)];
  }

  /** The fields of the rendering of a whole hour on 2024-06-01. */
  lemma RenderJuneFirst(t: DateTime, hh: string)
    requires Valid(t) && t.year == 2024 && t.month == 6 && t.day == 1 && t.minute == 0 && t.second == 0
    requires Pad(t.hour, 2) == hh
    ensures var s := FormatFullTime(t);
      && s[..4] == "2024" && s[4..6] == "06" && s[6..8] == "01"
      && s[9..11] == hh && s[11..13] == "00" && s[13..15] == "00"
  {
    FormatFields(t);
    PadYear();
    PadTwo(6);
    PadTwo(1);
    PadTwo(0);
  }

  lemma AssembleJuneFirst(s: string, hh: string)
    requires |s| == 15 && s[8] == 'T'
    requires s[..4] == "2024" && s[4..6] == "06" && s[6..8] == "01"
    requires s[9..11] == hh && s[11..13] == "00" && s[13..15] == "00"
    ensures s == "20240601T" + hh + "0000"
  {
    assert s == s[..4] + s[4..6] + s[6..8] + [s[8]] + s[9..11] + s[11..13] + s[13..15];
  }

  /** A time with no sub-second part, in UTC, parses back from its rendering. */
  lemma ParseOfRendering(t: DateTime, s: string)
    requires Valid(t) && 0 <= t.year <= 9999 && t.nanosecond == 0 && t.loc == UTC
    requires FormatFullTime(t) == s
    ensures ParseFullTime(s) == Some(t)
  {
    ParseFormatRoundTrip(t);
  }

  lemma ParsesFourteenHundred()
    ensures ParseFullTime("20240601T140000") == Some(DateTime(2024, 6, 1, 14, 0, 0, 0, UTC))
  {
    var t := DateTime(2024, 6, 1, 14, 0, 0, 0, UTC);
    PadTwo(14);
    RenderJuneFirst(t, "14");
    AssembleJuneFirst(FormatFullTime(t), "14");
    assert "20240601T" + "14" + "0000" == "20240601T140000";
    ParseOfRendering(t, "20240601T140000");
  }

  lemma ParsesFifteenHundred()
    ensures ParseFullTime("20240601T150000") == Some(DateTime(2024, 6, 1, 15, 0, 0, 0, UTC))
  {
    var t := DateTime(2024, 6, 1, 15, 0, 0, 0, UTC);
    PadTwo(15);
    RenderJuneFirst(t, "15");
    AssembleJuneFirst(FormatFullTime(t), "15");
    assert "20240601T" + "15" + "0000" == "20240601T150000";
    ParseOfRendering(t, "20240601T150000");
  }

  /** An event from 14:00 to 15:00 contains 14:30: exit status 0. */
  lemma ScenarioExplicitEndContainsNow(parseDuration: DurationParser)
    ensures ChildVerdict(Now, Component(Some("20240601T140000"), Some("20240601T150000"), None), parseDuration) == Found
  {
    ParsesFourteenHundred();
    ParsesFifteenHundred();
    ExplicitVerdictOnWallClock(Now, "20240601T140000", "20240601T150000", parseDuration);
  }

  /** An event from 14:00 lasting 30 minutes ends exactly at now, which the open interval excludes. */
  lemma ScenarioDurationEndsAtNow(parseDuration: DurationParser)
    requires parseDuration("PT30M") == Some(30 * NanosPerMinute)
    ensures ChildVerdict(Now, Component(Some("20240601T140000"), None, Some("PT30M")), parseDuration) == NotFound
  {
    ParsesFourteenHundred();
    var p := DurationEnd(Now, "20240601T140000", "PT30M", parseDuration);
    assert p.begin == DateTime(2024, 6, 1, 14, 0, 0, 0, Local);
    assert Instant(Now) == Instant(p.begin) + 30 * NanosPerMinute;
  }

  /** An event with neither DTEND nor DURATION is passed over; alone, the scan finds nothing. */
  lemma ScenarioNoEndSkipped(parseDuration: DurationParser)
    ensures ChildrenVerdict(Now, [Component(Some("20240601T140000"), None, None)], parseDuration) == NotFound
  {
  }

  /** The first calendar's query fails and is passed over; the second calendar's event contains now. */
  lemma ScenarioFailedQuerySkipped(query: CalendarQuery, parseDuration: DurationParser)
    requires query("/cal/one/", DayWindow(Now).start, DayWindow(Now).end) == None
    requires query("/cal/two/", DayWindow(Now).start, DayWindow(Now).end)
          == Some([CalendarObject([Component(Some("20240601T140000"), Some("20240601T150000"), None)])])
    ensures CalendarsVerdict(Now, [Calendar("one", "/cal/one/", ["VEVENT"]), Calendar("two", "/cal/two/", ["VEVENT"])],
                             DayWindow(Now), query, parseDuration) == Found
  {
    ScenarioExplicitEndContainsNow(parseDuration);
    var cals := [Calendar("one", "/cal/one/", ["VEVENT"]), Calendar("two", "/cal/two/", ["VEVENT"])];
    assert cals[1..] == [Calendar("two", "/cal/two/", ["VEVENT"])];
  }
}
