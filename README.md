# calnow in Dafny

calnow answers one question: is a calendar event happening right now? It queries
a CalDAV server for today's events. For each event component it reads
`DTSTART`, `DTEND` and `DURATION` and builds an interval in two ways: with an
explicit end, and as start plus duration. It moves each interval into the local
time zone and checks whether the current instant lies strictly inside it. The
first interval that contains now ends the run with exit status 0. If none does,
the exit status is 1.

This project models that evaluator in `main.go` and proves properties of it.
The CalDAV calls are inputs. The current time, the calendar list, the query and
the ISO 8601 duration parser are parameters.

- `wrappers.dfy` (`Wrappers`): `Option`, used for nil pointers and for results whose error is dropped.
- `civil.dfy` (`Civil`): proleptic Gregorian arithmetic as Go's time package does it.
  It covers leap years, month lengths from the `daysBefore` table, a day number
  counted from 0000-01-01, and shifting a date by whole days with month and year
  carries.
- `gotime.dfy` (`GoTime`): a `time.Time` value with its wall-clock fields and a
  fixed-offset location. It also has the absolute instant, `Before`/`After` and `Time.Add`.
- `layout.dfy` (`Layout`): `time.Parse` and `Format` for the layout
  `20060102T150405` (main.go:18). That layout is the floating local form of
  DATE-TIME in section 3.3.5 of RFC 5545.
- `calnow.dfy` (`CalNow`): `between`, `fixDate` and the day-long query window.
- `resolve.dfy` (`Resolve`): the two resolution paths of one component and its
  verdict. It has a function as the specification and a method that follows the
  loop body statement by statement.
- `scan.dfy` (`Scan`): the three nested loops with early exit as a method. The
  method is proved equal to a recursive specification. That specification is
  proved equal to one pass over the flattened list of visited components.
- `scenarios.dfy` (`Scenarios`): worked cases with literal data.

The verdict of a component is `Found` (exit 0), `NotFound` (go on) or `Crash`.
`Crash` happens when a component has `DTEND` and `DURATION` but no `DTSTART`,
and its `DTEND` parses. The guard at main.go:146 lets that component through,
and main.go:155 then dereferences the nil `DTSTART` property. The process
panics.

Three details of main.go that are easy to misread:

- `fixDate` keeps the year, month and day of the parsed value. It does not
  re-anchor the value to today. It only changes the location.
- On the explicit-end path, a `DTEND` or `DTSTART` that fails to parse runs
  `continue`. That abandons the whole component, so the duration path is not
  tried (main.go:151-158).
- Go's `time.Parse` also accepts a fractional second after the seconds, such as
  `20240601T140000.5` or `,5`, even though the layout has none. Digits after the
  ninth are ignored. The parser models this, and `Layout.ParseSuffix` states it.

## Model

| member | source | states |
|---|---|---|
| `Civil.ShiftDays` | main.go:178 | Shifting a valid date by k days gives a valid date whose day number is exactly k larger. This is the day, month and year carry inside `Time.Add`. |
| `Civil.DayNumberOrder` | main.go:33 | On valid dates, the day number is strictly monotone in (year, month, day) order, and equal day numbers mean equal dates. |
| `GoTime.InstantOrderIsWallClockOrder` | main.go:33 | Within one location, `Before` on valid times is the lexicographic order of the fields, year through nanosecond. Equal instants mean equal values. |
| `GoTime.AddDuration` | main.go:178 | `begin.Add(d)` gives a valid time in the same location whose instant is exactly d nanoseconds later. |
| `Layout.ParseFullTime` | main.go:151-158 | A value parses only to a valid UTC time with a four-digit year. |
| `Layout.ParseFormatRoundTrip` | main.go:18 | Formatting a valid time with a year from 0 to 9999 and parsing the text gives the same wall clock in UTC, with the sub-second part dropped. |
| `Layout.ParseIsCanonical` | main.go:18 | An accepted value begins with the 15-character rendering of the parsed time. A value of exactly 15 characters has no sub-second part. |
| `Layout.ParseSuffix` | main.go:151-158 | After the 15 layout characters, an accepted value has either nothing, giving nanosecond 0, or a period or comma and at least one digit. In the second case the nanosecond is the first nine digits, scaled to nine places. |
| `Layout.ParseRenderingWithFraction` | main.go:151-158 | The rendering of a valid time followed by a period or comma and digits parses to that wall clock in UTC, with the nanoseconds of the digits. |
| `Layout.ParseFractionValue` | main.go:151-158 | A separator followed by digits is read as the first nine digits scaled to nanoseconds; digits past the ninth are ignored. |
| `Layout.FractionExamples` | main.go:151-158 | `.5` and `,5` give 500000000 nanoseconds, and `.5x` is refused. |
| `Layout.DateOnlyRejected` | main.go:151-154 | A DATE value such as `20240601` does not parse. |
| `Layout.UtcFormRejected` | main.go:151-154 | Any value ending in `Z`, such as the UTC form `20240601T140000Z`, does not parse. |
| `CalNow.Between` | main.go:32-34 | If now is between begin and end, then begin is before end. Now equal to either bound is never between. |
| `CalNow.EmptyIntervalContainsNothing` | main.go:32-34 | An interval whose end is not after its begin contains no instant. |
| `CalNow.BetweenIsWallClockOrder` | main.go:32-34 | For valid times in one location, `between` holds exactly when the wall clocks are strictly ordered begin < now < end. |
| `CalNow.FixDate` | main.go:36-47 | The result has a's year, month, day, hour, minute, second and nanosecond, and b's location. It is valid when a is. |
| `CalNow.FixDateReadsOnlyLocation` | main.go:36-47 | The result depends on b only through b's location. |
| `CalNow.FixDateIdempotent` | main.go:36-47 | Relocating again to the same reference changes nothing. |
| `CalNow.FixDateShiftsInstant` | main.go:36-47 | Relocation moves the instant by the difference between the two UTC offsets. |
| `CalNow.FixDateKeepsDistance` | main.go:180-181 | Two times from one location, relocated to the same reference, stay the same distance apart. |
| `CalNow.DayWindow` | main.go:84-99 | Both bounds are valid and carry now's date and location. The start is 00:00:01.000000000, the end is 23:59:59.999999999, and the start is before the end. |
| `CalNow.DayWindowHoldsNow` | main.go:84-99 | The window contains now exactly when now is at least one second past midnight. |
| `Resolve.ExplicitEnd` | main.go:150-161 | The explicit-end path reaches the nil `DTSTART` exactly when `DTSTART` is absent and `DTEND` parses. It resolves exactly when `DTSTART` is present and both values parse. A resolved interval is in now's location and has the parsed wall clocks of `DTSTART` and `DTEND`. |
| `Resolve.DurationEnd` | main.go:169-181 | The duration path resolves exactly when `DTSTART` and `DURATION` both parse. Its begin is the parsed `DTSTART` in now's location, and its end is exactly the duration later. |
| `Resolve.ChildVerdict` | main.go:137-187 | A component with neither `DTSTART` nor `DURATION` is skipped. The evaluation panics exactly when `DTSTART` is absent and `DURATION` and a parsing `DTEND` are present. |
| `Resolve.EvaluateChild` | main.go:137-187 | The statement-by-statement loop body returns the verdict `ChildVerdict` specifies. |
| `Resolve.ExplicitParseFailureSkipsComponent` | main.go:150-158 | If `DTEND` or a present `DTSTART` fails to parse on the explicit-end path, the component is not found, whatever the duration path would give. |
| `Resolve.ExplicitVerdictOnWallClock` | main.go:150-166 | A component with `DTSTART` and `DTEND` and no `DURATION` is found exactly when both parse and now's wall clock is strictly between them. |
| `Resolve.DurationPathMatchesExplicitEnd` | main.go:150-186 | The duration path gives the same interval and verdict as the explicit-end path with `DTEND` = `DTSTART` + `DURATION` written in the layout. This holds whenever that end has no sub-second part and a four-digit year. |
| `Scan.Scan` | main.go:101-192 | The nested loops with early exit return the verdict of the specification: the first calendar, object and child whose verdict is not NotFound, else NotFound. |
| `Scan.CalendarsVerdictFlat` | main.go:101-190 | The nested scan decides as one in-order pass over the visited components that stops at the first decisive verdict. |
| `Scan.ScannedMembership` | main.go:101-136 | A component is visited exactly when it is a child of an object that the successful query of a VEVENT-capable calendar returned. |
| `Scan.FirstDecisiveWitness` | main.go:164-165 | A pass yields a given decisive verdict exactly when some entry has it and every earlier entry is NotFound. |
| `Scan.FirstDecisiveFound` | main.go:164-192 | If no entry panics, a pass reports found exactly when some entry is found. |
| `Scan.ScanFoundIffSomeComponentFound` | main.go:101-192 | If no visited component panics, the scan reports found exactly when some visited component has an interval that contains now. |
| `Scan.NotFoundComponentIgnored` | main.go:146-158 | A skipped component, such as one with an unparsable `DTEND` and no `DURATION`, can be removed without changing the outcome. |
| `Scenarios.ScenarioExplicitEndContainsNow` | main.go:150-166 | At 14:30, an event from 14:00 to 15:00 is found. |
| `Scenarios.ScenarioDurationEndsAtNow` | main.go:169-186 | At 14:30, an event starting at 14:00 and lasting 30 minutes ends exactly at now and is not found. |
| `Scenarios.ScenarioNoEndSkipped` | main.go:146-187 | A component with `DTSTART` only is not found. |
| `Scenarios.ScenarioFailedQuerySkipped` | main.go:131-134 | A failed query on the first calendar is passed over, and an event in the second calendar that contains now is found. |

## Left out

- Client construction, principal discovery, home-set and calendar discovery, and
  `log.Fatal` on their errors (main.go:60-82). These are network I/O through a
  library. The calendar list is an input; when discovery fails, that list is empty.
- `QueryCalendar` and the query it sends (main.go:106-131). The query is a
  parameter that maps a path and the window bounds to objects, or to `None` on error.
- The iCalendar property lookup `Props.Get` (main.go:137-140). Each component is
  given as its first `DTSTART`, `DTEND` and `DURATION` values. `SUMMARY` is read
  only for logging and is omitted.
- Environment variables, flag parsing and the credential check (main.go:50-58).
  These are process configuration.
- The 30-second context timeout (main.go:69-70). It only cancels network calls.
- `msg` and the `debug` flag (main.go:22-30, 143, 163, 183). They only log.
- `duration.Parse` and `ToTimeDuration` (main.go:174-178). They are a foreign library
  that works in float64. The parser is a parameter from text to a whole number of
  nanoseconds, or `None`. Float rounding is not modelled.
- Time zones. A location is one fixed UTC offset: no time-zone database, no
  daylight-saving gaps or overlaps, and no monotonic clock reading. `time.Now` is
  the parameter `now`.
- `GoTime.AddDuration`: Go's int64 overflow of `Time.Add` and of `time.Duration` is not
  modelled, because the model uses unbounded integers.
- `time.Date` normalising out-of-range fields. Every call in main.go passes
  in-range fields, so `CalNow.FixDate` and `CalNow.DayWindow` build the value directly.
- `os.Exit` and the panic. Each becomes a `Verdict`: `Found` for exit 0,
  `NotFound` at the end for exit 1, and `Crash` for the nil dereference, which
  makes the Go runtime exit with status 2.
- `Layout.FormatFullTime` renders only years 0 to 9999. Go writes other years
  with more digits or a sign, and the layout cannot parse those back.
- The unused constant `fullFimeTmt` (main.go:19).
