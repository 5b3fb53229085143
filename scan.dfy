/**
  The scan of main.go:84-192: over the calendars, over the objects each query
  returns, over the children of each object, stopping at the first component
  whose interval contains now (exit status 0) or that panics; otherwise
  "not found" (exit status 1).
 */
module Scan {
  import opened Wrappers
  import opened GoTime
  import opened CalNow
  import opened Resolve

  /** A discovered calendar collection: its path and SupportedComponentSet. */
  datatype Calendar = Calendar(name: string, path: string, supportedComponentSet: seq<string>)

  /** A calendar object returned by a query: the children of its VCALENDAR (e.Data.Children). */
  datatype CalendarObject = CalendarObject(children: seq<Component>)

  /**
    client.QueryCalendar for a collection path and the start and end of the
    day window: the objects, or None when the query fails.
   */
  type CalendarQuery = (string, DateTime, DateTime) -> Option<seq<CalendarObject>>

  predicate SupportsEvents(cal: Calendar) {
    "VEVENT" in cal.supportedComponentSet
  }

  /** The first verdict other than NotFound among `cs`, in order; NotFound if none. */
  function ChildrenVerdict(now: DateTime, cs: seq<Component>, parseDuration: DurationParser): Verdict {
    if cs == [] then NotFound
    else
      var v := ChildVerdict(now, cs[0], parseDuration);
      if v != NotFound then v else ChildrenVerdict(now, cs[1..], parseDuration)
  }

  function ObjectsVerdict(now: DateTime, objs: seq<CalendarObject>, parseDuration: DurationParser): Verdict {
    if objs == [] then NotFound
    else
      var v := ChildrenVerdict(now, objs[0].children, parseDuration);
      if v != NotFound then v else ObjectsVerdict(now, objs[1..], parseDuration)
  }

  /** A calendar without VEVENT support, or whose query fails, is passed over. */
  function CalendarVerdict(
    now: DateTime, cal: Calendar, window: Window, query: CalendarQuery, parseDuration: DurationParser): Verdict
  {
    if !SupportsEvents(cal) then NotFound
    else
      match query(cal.path, window.start, window.end)
      case None => NotFound
      case Some(objs) => ObjectsVerdict(now, objs, parseDuration)
  }

  function CalendarsVerdict(
    now: DateTime, cals: seq<Calendar>, window: Window, query: CalendarQuery, parseDuration: DurationParser): Verdict
  {
    if cals == [] then NotFound
    else
      var v := CalendarVerdict(now, cals[0], window, query, parseDuration);
      if v != NotFound then v else CalendarsVerdict(now, cals[1..], window, query, parseDuration)
  }

  /**
    main.go:84-192 once the calendars are discovered: build the day window, then
    the three nested loops with their early exits.
   */
  method Scan(now: DateTime, calendars: seq<Calendar>, query: CalendarQuery, parseDuration: DurationParser)
    returns (v: Verdict)
    requires Valid(now)
    ensures v == CalendarsVerdict(now, calendars, DayWindow(now), query, parseDuration)
  {
    var window := DayWindow(now);
    var i := 0;
    while i < |calendars|
      invariant 0 <= i <= |calendars|
      invariant CalendarsVerdict(now, calendars, window, query, parseDuration)
             == CalendarsVerdict(now, calendars[i..], window, query, parseDuration)
    {
      var cal := calendars[i];
      assert calendars[i..][0] == cal && calendars[i..][1..] == calendars[i + 1..];
      if !SupportsEvents(cal) {
        i := i + 1;
        continue;
      }
      var events := query(cal.path, window.start, window.end);
      if events.None? {
        i := i + 1;
        continue;
      }
      var objs := events.value;
      var j := 0;
      while j < |objs|
        invariant 0 <= j <= |objs|
        invariant ObjectsVerdict(now, objs, parseDuration) == ObjectsVerdict(now, objs[j..], parseDuration)
      {
        var children := objs[j].children;
        assert objs[j..][0].children == children && objs[j..][1..] == objs[j + 1..];
        var k := 0;
        while k < |children|
          invariant 0 <= k <= |children|
          invariant ChildrenVerdict(now, children, parseDuration) == ChildrenVerdict(now, children[k..], parseDuration)
        {
          assert children[k..][0] == children[k] && children[k..][1..] == children[k + 1..];
          var r := EvaluateChild(now, children[k], parseDuration);
          if r != NotFound {
            v := r;
            return;
          }
          k := k + 1;
        }
        j := j + 1;
      }
      i := i + 1;
    }
    v := NotFound;
  }

  /** All children of the objects, in order. */
  function Components(objs: seq<CalendarObject>): seq<Component> {
    if objs == [] then [] else objs[0].children + Components(objs[1..])
  }

  /** The components the scan visits, in the order it visits them. */
  function ScannedComponents(cals: seq<Calendar>, window: Window, query: CalendarQuery): seq<Component> {
    if cals == [] then []
    else
      var own :=
        if !SupportsEvents(cals[0]) then []
        else match query(cals[0].path, window.start, window.end)
          case None => []
          case Some(objs) => Components(objs);
      own + ScannedComponents(cals[1..], window, query)
  }

  lemma {:induction false} ChildrenVerdictAppend(
    now: DateTime, a: seq<Component>, b: seq<Component>, parseDuration: DurationParser)
    ensures ChildrenVerdict(now, a + b, parseDuration)
         == if ChildrenVerdict(now, a, parseDuration) != NotFound then ChildrenVerdict(now, a, parseDuration)
            else ChildrenVerdict(now, b, parseDuration)
  {
    if a != [] {
      assert (a + b)[0] == a[0] && (a + b)[1..] == a[1..] + b;
      ChildrenVerdictAppend(now, a[1..], b, parseDuration);
    } else {
      assert a + b == b;
    }
  }

  lemma {:induction false} ObjectsVerdictFlat(now: DateTime, objs: seq<CalendarObject>, parseDuration: DurationParser)
    ensures ObjectsVerdict(now, objs, parseDuration) == ChildrenVerdict(now, Components(objs), parseDuration)
  {
    if objs != [] {
      ObjectsVerdictFlat(now, objs[1..], parseDuration);
      ChildrenVerdictAppend(now, objs[0].children, Components(objs[1..]), parseDuration);
    }
  }

  /**
    The nested scan decides as one pass over the visited components in order,
    stopping at the first verdict other than NotFound.
   */
  lemma {:induction false} CalendarsVerdictFlat(
    now: DateTime, cals: seq<Calendar>, window: Window, query: CalendarQuery, parseDuration: DurationParser)
    ensures CalendarsVerdict(now, cals, window, query, parseDuration)
         == ChildrenVerdict(now, ScannedComponents(cals, window, query), parseDuration)
  {
    if cals != [] {
      CalendarsVerdictFlat(now, cals[1..], window, query, parseDuration);
      var rest := ScannedComponents(cals[1..], window, query);
      if !SupportsEvents(cals[0]) {
        assert ScannedComponents(cals, window, query) == rest;
      } else {
        match query(cals[0].path, window.start, window.end)
        case None =>
          assert ScannedComponents(cals, window, query) == rest;
        case Some(objs) =>
          ObjectsVerdictFlat(now, objs, parseDuration);
          ChildrenVerdictAppend(now, Components(objs), rest, parseDuration);
      }
    }
  }

  /**
    A component is visited exactly when it is a child of an object that the
    query of a VEVENT-capable calendar returned.
   */
  lemma {:induction false} ScannedMembership(
    c: Component, cals: seq<Calendar>, window: Window, query: CalendarQuery)
    ensures c in ScannedComponents(cals, window, query) <==>
      exists i, o :: 0 <= i < |cals| && SupportsEvents(cals[i])
        && query(cals[i].path, window.start, window.end).Some?
        && o in query(cals[i].path, window.start, window.end).value
        && c in o.children
  {
    if cals != [] {
      ScannedMembership(c, cals[1..], window, query);
      var r := query(cals[0].path, window.start, window.end);
      if SupportsEvents(cals[0]) && r.Some? {
        ComponentsMembership(c, r.value);
      }
      if c in ScannedComponents(cals[1..], window, query) {
        var i, o :| 0 <= i < |cals[1..]| && SupportsEvents(cals[1..][i])
          && query(cals[1..][i].path, window.start, window.end).Some?
          && o in query(cals[1..][i].path, window.start, window.end).value
          && c in o.children;
        assert cals[1..][i] == cals[i + 1];
      }
      if exists i, o :: (0 <= i < |cals| && SupportsEvents(cals[i])
        && query(cals[i].path, window.start, window.end).Some?
        && o in query(cals[i].path, window.start, window.end).value
        && c in o.children)
      {
        var i, o :| 0 <= i < |cals| && SupportsEvents(cals[i])
          && query(cals[i].path, window.start, window.end).Some?
          && o in query(cals[i].path, window.start, window.end).value
          && c in o.children;
        if i > 0 {
          assert cals[1..][i - 1] == cals[i];
        }
      }
    }
  }

  lemma {:induction false} ComponentsMembership(c: Component, objs: seq<CalendarObject>)
    ensures c in Components(objs) <==> exists o :: o in objs && c in o.children
  {
    if objs != [] {
      ComponentsMembership(c, objs[1..]);
      if c in Components(objs[1..]) {
        var o :| o in objs[1..] && c in o.children;
        assert o in objs;
      }
      if exists o :: o in objs && c in o.children {
        var o :| o in objs && c in o.children;
        if o != objs[0] {
          assert o in objs[1..];
        }
      }
    }
  }

  /** The verdict of each component, in order. */
  function Verdicts(now: DateTime, cs: seq<Component>, parseDuration: DurationParser): (vs: seq<Verdict>)
    ensures |vs| == |cs|
    ensures forall k | 0 <= k < |cs| :: vs[k] == ChildVerdict(now, cs[k], parseDuration)
  {
    seq(|cs|, k requires 0 <= k < |cs| => ChildVerdict(now, cs[k], parseDuration))
  }

  /** The first verdict other than NotFound, or NotFound. */
  function FirstDecisive(vs: seq<Verdict>): Verdict {
    if vs == [] then NotFound else if vs[0] != NotFound then vs[0] else FirstDecisive(vs[1..])
  }

  lemma {:induction false} ChildrenVerdictIsFirstDecisive(now: DateTime, cs: seq<Component>, parseDuration: DurationParser)
    ensures ChildrenVerdict(now, cs, parseDuration) == FirstDecisive(Verdicts(now, cs, parseDuration))
  {
    if cs != [] {
      ChildrenVerdictIsFirstDecisive(now, cs[1..], parseDuration);
      assert Verdicts(now, cs, parseDuration)[1..] == Verdicts(now, cs[1..], parseDuration);
    }
  }

  /**
    FirstDecisive returns a verdict other than NotFound exactly when some entry
    has it and every earlier entry is NotFound.
   */
  lemma {:induction false} FirstDecisiveWitness(vs: seq<Verdict>, v: Verdict)
    requires v != NotFound
    ensures FirstDecisive(vs) == v <==>
      exists k :: 0 <= k < |vs| && vs[k] == v && forall j :: 0 <= j < k ==> vs[j] == NotFound
  {
    if vs != [] {
      FirstDecisiveWitness(vs[1..], v);
      if FirstDecisive(vs) == v && vs[0] != v {
        var k :| 0 <= k < |vs[1..]| && vs[1..][k] == v && forall j :: 0 <= j < k ==> vs[1..][j] == NotFound;
        assert vs[k + 1] == v;
        assert forall j :: 0 < j < k + 1 ==> vs[j] == vs[1..][j - 1];
      }
      if exists k :: 0 <= k < |vs| && vs[k] == v && forall j :: 0 <= j < k ==> vs[j] == NotFound {
        var k :| 0 <= k < |vs| && vs[k] == v && forall j :: 0 <= j < k ==> vs[j] == NotFound;
        if k > 0 {
          assert vs[1..][k - 1] == v;
          assert forall j :: 0 <= j < k - 1 ==> vs[1..][j] == vs[j + 1];
        }
      }
    }
  }

  /** FirstDecisive is NotFound exactly when every entry is. */
  lemma {:induction false} FirstDecisiveNone(vs: seq<Verdict>)
    ensures FirstDecisive(vs) == NotFound <==> forall k :: 0 <= k < |vs| ==> vs[k] == NotFound
  {
    if vs != [] {
      FirstDecisiveNone(vs[1..]);
      assert forall k :: 0 < k < |vs| ==> vs[k] == vs[1..][k - 1];
    }
  }

  /**
    When no visited component panics, the scan reports "found" exactly when some
    visited component has an interval containing now.
   */
  lemma ScanFoundIffSomeComponentFound(
    now: DateTime, cals: seq<Calendar>, query: CalendarQuery, parseDuration: DurationParser)
    requires Valid(now)
    requires forall c | c in ScannedComponents(cals, DayWindow(now), query) :: ChildVerdict(now, c, parseDuration) != Crash
    ensures CalendarsVerdict(now, cals, DayWindow(now), query, parseDuration) == Found <==>
      exists c :: c in ScannedComponents(cals, DayWindow(now), query) && ChildVerdict(now, c, parseDuration) == Found
  {
    var cs := ScannedComponents(cals, DayWindow(now), query);
    var vs := Verdicts(now, cs, parseDuration);
    CalendarsVerdictFlat(now, cals, DayWindow(now), query, parseDuration);
    ChildrenVerdictIsFirstDecisive(now, cs, parseDuration);
    assert forall k :: 0 <= k < |vs| ==> vs[k] != Crash by {
      forall k | 0 <= k < |vs| ensures vs[k] != Crash {
        assert cs[k] in cs;
      }
    }
    FirstDecisiveFound(vs);
    if exists c :: c in cs && ChildVerdict(now, c, parseDuration) == Found {
      var c :| c in cs && ChildVerdict(now, c, parseDuration) == Found;
      var i :| 0 <= i < |cs| && cs[i] == c;
      assert vs[i] == Found;
    }
    if exists k :: 0 <= k < |vs| && vs[k] == Found {
      var k :| 0 <= k < |vs| && vs[k] == Found;
      assert cs[k] in cs;
    }
  }

  /** With no Crash entry, FirstDecisive is Found exactly when some entry is Found. */
  lemma {:induction false} FirstDecisiveFound(vs: seq<Verdict>)
    requires forall k :: 0 <= k < |vs| ==> vs[k] != Crash
    ensures FirstDecisive(vs) == Found <==> exists k :: 0 <= k < |vs| && vs[k] == Found
  {
    if vs != [] {
      assert forall k :: 0 <= k < |vs[1..]| ==> vs[1..][k] == vs[k + 1];
      FirstDecisiveFound(vs[1..]);
      if vs[0] == NotFound && exists k :: 0 <= k < |vs| && vs[k] == Found {
        var k :| 0 <= k < |vs| && vs[k] == Found;
        assert vs[1..][k - 1] == Found;
      }
      if vs[0] == NotFound && exists k :: 0 <= k < |vs[1..]| && vs[1..][k] == Found {
        var k :| 0 <= k < |vs[1..]| && vs[1..][k] == Found;
        assert vs[k + 1] == Found;
      }
    }
  }

  /**
    A component whose verdict is NotFound (one with a DTEND that does not parse,
    say) can be dropped without changing the outcome of the pass.
   */
  lemma NotFoundComponentIgnored(
    now: DateTime, a: seq<Component>, c: Component, b: seq<Component>, parseDuration: DurationParser)
    requires ChildVerdict(now, c, parseDuration) == NotFound
    ensures ChildrenVerdict(now, a + [c] + b, parseDuration) == ChildrenVerdict(now, a + b, parseDuration)
  {
    ChildrenVerdictAppend(now, a, [c] + b, parseDuration);
    ChildrenVerdictAppend(now, a, b, parseDuration);
    assert a + [c] + b == a + ([c] + b);
    assert ([c] + b)[1..] == b;
  }
}
