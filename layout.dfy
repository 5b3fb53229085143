/**
  time.Parse and time.Format for the one layout the program uses,
  "20060102T150405": the floating local form of DATE-TIME in section 3.3.5 of
  RFC 5545 (YYYYMMDD "T" HHMMSS, no zone designator). A value carrying no zone
  parses as UTC. As Go does, the parser also takes a fractional second
  (".ddd" or ",ddd") straight after the seconds even though the layout has none.
 */
module Layout {
  import opened Wrappers
  import opened Civil
  import opened GoTime

  /** The layout string main.go passes to time.Parse. */
  const FullTimeFmt: string := "20060102T150405"

  predicate IsDigit(c: char) {
    '0' <= c <= '9'
  }

  predicate AllDigits(s: string) {
    forall i | 0 <= i < |s| :: IsDigit(s[i])
  }

  function Pow10(n: nat): (p: nat)
    ensures p >= 1
  {
    if n == 0 then 1 else 10 * Pow10(n - 1)
  }

  /** The decimal value of a string of digits, most significant digit first. */
  function DigitsValue(s: string): (v: nat)
    requires AllDigits(s)
    ensures v < Pow10(|s|)
  {
    if s == [] then 0 else DigitsValue(s[..|s| - 1]) * 10 + (s[|s| - 1] as int - '0' as int)
  }

  function Digit(n: int): (c: char)
    requires 0 <= n < 10
    ensures IsDigit(c) && c as int - '0' as int == n
  {
    ('0' as int + n) as char
  }

  /** `n` written with exactly `width` decimal digits, zero-padded on the left. */
  function Pad(n: nat, width: nat): (s: string)
    requires n < Pow10(width)
    ensures |s| == width && AllDigits(s)
    ensures DigitsValue(s) == n
  {
    if width == 0 then []
    else
      var s := Pad(n / 10, width - 1) + [Digit(n % 10)];
      assert s[..|s| - 1] == Pad(n / 10, width - 1);
      s
  }

  /** Pad is the inverse of DigitsValue on strings of digits. */
  lemma {:induction false} PadDigitsValue(s: string)
    requires AllDigits(s)
    ensures Pad(DigitsValue(s), |s|) == s
  {
    if s != [] {
      var init := s[..|s| - 1];
      PadDigitsValue(init);
      assert DigitsValue(s) / 10 == DigitsValue(init);
      assert s == init + [s[|s| - 1]];
    }
  }

  function Zeros(n: nat): (s: string)
    ensures |s| == n && AllDigits(s)
  {
    if n == 0 then [] else Zeros(n - 1) + ['0']
  }

  /**
    The fractional second Go accepts after the seconds field: nothing, or a
    period or comma followed by at least one digit and nothing else. Digits past
    the ninth are ignored; fewer than nine are scaled up.
   */
  function ParseFraction(rest: string): (r: Option<int>)
    ensures r.Some? ==> 0 <= r.value < NanosPerSecond
    ensures rest == [] ==> r == Some(0)
  {
    if rest == [] then Some(0)
    else if 2 <= |rest| && (rest[0] == '.' || rest[0] == ',') && AllDigits(rest[1..]) then
      var digits := if |rest| > 10 then rest[1..10] else rest[1..];
      assert Pow10(9) == NanosPerSecond;
      Some(DigitsValue(digits + Zeros(9 - |digits|)))
    else None
  }

  predicate DigitsBetween(s: string, lo: int, hi: int)
    requires 0 <= lo <= hi <= |s|
  {
    forall i | lo <= i < hi :: IsDigit(s[i])
  }

  /**
    Go's time.Parse(FullTimeFmt, value): four year digits, two each for month and
    day, "T", two each for hour, minute and second, then an optional fraction and
    nothing else; month 1-12, day within the month, hour below 24, minute and
    second below 60. The result is in UTC.
   */
  function ParseFullTime(value: string): (r: Option<DateTime>)
    ensures r.Some? ==> Valid(r.value) && r.value.loc == UTC
    ensures r.Some? ==> 0 <= r.value.year <= 9999
  {
    if |value| < 15 || !DigitsBetween(value, 0, 8) || value[8] != 'T' || !DigitsBetween(value, 9, 15)
    then None
    else
      assert Pow10(4) == 10000;
      var year := DigitsValue(value[..4]);
      var month := DigitsValue(value[4..6]);
      var day := DigitsValue(value[6..8]);
      var hour := DigitsValue(value[9..11]);
      var minute := DigitsValue(value[11..13]);
      var second := DigitsValue(value[13..15]);
      var fraction := ParseFraction(value[15..]);
      if month < 1 || 12 < month || 24 <= hour || 60 <= minute || 60 <= second || fraction.None? then None
      else if day < 1 || DaysIn(month, year) < day then None
      else Some(DateTime(year, month, day, hour, minute, second, fraction.value, UTC))
  }

  /** t.Format(FullTimeFmt) for a year Go writes with four digits; sub-second digits are dropped. */
  function FormatFullTime(t: DateTime): (s: string)
    requires Valid(t) && 0 <= t.year <= 9999
    ensures |s| == 15 && s[8] == 'T'
  {
    assert Pow10(2) == 100 && Pow10(4) == 10000;
    Pad(t.year, 4) + Pad(t.month, 2) + Pad(t.day, 2) + "T" + Pad(t.hour, 2) + Pad(t.minute, 2) + Pad(t.second, 2)
  }

  /** A string of at least 15 characters cut at the field boundaries of the layout. */
  lemma SplitFields(s: string)
    requires |s| >= 15
    ensures s[..15] == s[..4] + s[4..6] + s[6..8] + [s[8]] + s[9..11] + s[11..13] + s[13..15]
  {
    assert s[..8] == s[..4] + s[4..6] + s[6..8];
    assert s[..9] == s[..8] + [s[8]];
    assert s[9..15] == s[9..11] + s[11..13] + s[13..15];
    assert s[..15] == s[..9] + s[9..15];
  }

  /** Each field of the rendering is the padded value of the matching field of the time. */
  lemma FormatFields(t: DateTime)
    requires Valid(t) && 0 <= t.year <= 9999
    ensures var s := FormatFullTime(t);
      && s[..4] == Pad(t.year, 4) && s[4..6] == Pad(t.month, 2) && s[6..8] == Pad(t.day, 2)
      && s[9..11] == Pad(t.hour, 2) && s[11..13] == Pad(t.minute, 2) && s[13..15] == Pad(t.second, 2)
      && s[15..] == []
  {
    assert Pow10(2) == 100 && Pow10(4) == 10000;
    var s := FormatFullTime(t);
    var date := Pad(t.year, 4) + Pad(t.month, 2) + Pad(t.day, 2);
    var clock := Pad(t.hour, 2) + Pad(t.minute, 2) + Pad(t.second, 2);
    assert s == date + "T" + clock;
    assert s[..8] == date;
    assert s[9..15] == clock;
    assert s[..4] == date[..4];
    assert s[4..6] == date[4..6];
    assert s[6..8] == date[6..8];
    assert s[9..11] == clock[..2];
    assert s[11..13] == clock[2..4];
    assert s[13..15] == clock[4..6];
  }

  /** The fields an accepted value is read from. */
  lemma ParseFields(value: string)
    requires ParseFullTime(value).Some?
    ensures |value| >= 15 && value[8] == 'T'
    ensures AllDigits(value[..4]) && AllDigits(value[4..6]) && AllDigits(value[6..8])
    ensures AllDigits(value[9..11]) && AllDigits(value[11..13]) && AllDigits(value[13..15])
    ensures var t := ParseFullTime(value).value;
      && t.year == DigitsValue(value[..4]) && t.month == DigitsValue(value[4..6]) && t.day == DigitsValue(value[6..8])
      && t.hour == DigitsValue(value[9..11]) && t.minute == DigitsValue(value[11..13])
      && t.second == DigitsValue(value[13..15])
      && Some(t.nanosecond) == ParseFraction(value[15..])
  {
  }

  /** Formatting then parsing gives back the time, in UTC and without its sub-second part. */
  lemma ParseFormatRoundTrip(t: DateTime)
    requires Valid(t) && 0 <= t.year <= 9999
    ensures ParseFullTime(FormatFullTime(t)) == Some(t.(nanosecond := 0, loc := UTC))
  {
    assert Pow10(2) == 100 && Pow10(4) == 10000;
    var s := FormatFullTime(t);
    FormatFields(t);
    assert DigitsBetween(s, 0, 8) by {
      forall i | 0 <= i < 8 ensures IsDigit(s[i]) {
        if i < 4 { assert s[i] == s[..4][i]; }
        else if i < 6 { assert s[i] == s[4..6][i - 4]; }
        else { assert s[i] == s[6..8][i - 6]; }
      }
    }
    assert DigitsBetween(s, 9, 15) by {
      forall i | 9 <= i < 15 ensures IsDigit(s[i]) {
        if i < 11 { assert s[i] == s[9..11][i - 9]; }
        else if i < 13 { assert s[i] == s[11..13][i - 11]; }
        else { assert s[i] == s[13..15][i - 13]; }
      }
    }
  }

  /** Whatever the parser accepts begins with the canonical rendering of what it returns. */
  lemma ParseIsCanonical(value: string)
    requires ParseFullTime(value).Some?
    ensures |value| >= 15 && FormatFullTime(ParseFullTime(value).value) == value[..15]
    ensures |value| == 15 ==> ParseFullTime(value).value.nanosecond == 0
  {
    var t := ParseFullTime(value).value;
    ParseFields(value);
    PadDigitsValue(value[..4]);
    PadDigitsValue(value[4..6]);
    PadDigitsValue(value[6..8]);
    PadDigitsValue(value[9..11]);
    PadDigitsValue(value[11..13]);
    PadDigitsValue(value[13..15]);
    SplitFields(value);
    assert FormatFullTime(t) == Pad(t.year, 4) + Pad(t.month, 2) + Pad(t.day, 2) + "T"
      + Pad(t.hour, 2) + Pad(t.minute, 2) + Pad(t.second, 2);
  }

  /**
    The nanoseconds a run of fraction digits stands for: the first nine digits
    read as a number of nanoseconds, scaled by ten for each of the nine places
    they leave unfilled.
   */
  function FractionNanos(digits: string): nat
    requires AllDigits(digits)
  {
    var k := if |digits| < 9 then |digits| else 9;
    DigitsValue(digits[..k]) * Pow10(9 - k)
  }

  lemma AppendZero(s: string)
    requires AllDigits(s)
    ensures AllDigits(s + ['0']) && DigitsValue(s + ['0']) == DigitsValue(s) * 10
  {
    var longer := s + ['0'];
    assert forall i | 0 <= i < |s| :: longer[i] == s[i];
    assert longer[..|longer| - 1] == s;
  }

  /** Appending zeros multiplies the value of a digit string by a power of ten. */
  lemma {:induction false} DigitsValueZeros(s: string, k: nat)
    requires AllDigits(s)
    ensures AllDigits(s + Zeros(k)) && DigitsValue(s + Zeros(k)) == DigitsValue(s) * Pow10(k)
  {
    if k == 0 {
      assert s + Zeros(0) == s;
    } else {
      DigitsValueZeros(s, k - 1);
      ZeroStep(s, k);
    }
  }

  lemma ZeroStep(s: string, k: nat)
    requires AllDigits(s) && k > 0
    requires AllDigits(s + Zeros(k - 1)) && DigitsValue(s + Zeros(k - 1)) == DigitsValue(s) * Pow10(k - 1)
    ensures AllDigits(s + Zeros(k)) && DigitsValue(s + Zeros(k)) == DigitsValue(s) * Pow10(k)
  {
    var shorter := s + Zeros(k - 1);
    assert s + Zeros(k) == shorter + ['0'];
    AppendZero(shorter);
    ScaleStep(DigitsValue(s + Zeros(k)), DigitsValue(shorter), DigitsValue(s), Pow10(k - 1), Pow10(k));
  }

  lemma ScaleStep(longer: int, shorter: int, v: int, p: int, q: int)
    requires longer == shorter * 10 && shorter == v * p && q == 10 * p
    ensures longer == v * q
  {
  }

  /** A separator followed by digits is read as FractionNanos of the digits. */
  lemma ParseFractionValue(rest: string)
    requires 2 <= |rest| && (rest[0] == '.' || rest[0] == ',') && AllDigits(rest[1..])
    ensures ParseFraction(rest) == Some(FractionNanos(rest[1..]))
  {
    var digits := if |rest| > 10 then rest[1..10] else rest[1..];
    assert digits == rest[1..][..|digits|];
    DigitsValueZeros(digits, 9 - |digits|);
  }

  /** Half a second written with either separator; a trailing letter is refused. */
  lemma FractionExamples()
    ensures ParseFraction(".5") == Some(500_000_000)
    ensures ParseFraction(",5") == Some(500_000_000)
    ensures ParseFraction(".5x") == None
  {
    ParseFractionValue(".5");
    ParseFractionValue(",5");
    assert ".5"[1..] == "5" && ",5"[1..] == "5";
    assert "5"[..1] == "5" && "5"[..0] == [];
    assert Pow10(8) == 100_000_000;
    assert ".5x"[1..][1] == 'x';
  }

  /**
    After the 15 layout characters an accepted value has nothing, giving no
    sub-second part, or a period or comma and at least one digit, giving the
    first nine digits as nanoseconds.
   */
  lemma ParseSuffix(value: string)
    requires ParseFullTime(value).Some?
    ensures var t := ParseFullTime(value).value;
      || (|value| == 15 && t.nanosecond == 0)
      || (&& 17 <= |value| && (value[15] == '.' || value[15] == ',') && AllDigits(value[16..])
          && t.nanosecond == FractionNanos(value[16..]))
  {
    ParseFields(value);
    var rest := value[15..];
    if rest != [] {
      assert rest[1..] == value[16..];
      ParseFractionValue(rest);
    }
  }

  /** The rendering of a time followed by a fraction parses to that time with the fraction's nanoseconds. */
  lemma ParseRenderingWithFraction(t: DateTime, separator: char, digits: string)
    requires Valid(t) && 0 <= t.year <= 9999
    requires (separator == '.' || separator == ',') && 1 <= |digits| && AllDigits(digits)
    ensures ParseFullTime(FormatFullTime(t) + [separator] + digits)
         == Some(t.(nanosecond := FractionNanos(digits), loc := UTC))
  {
    var s := FormatFullTime(t);
    var value := s + [separator] + digits;
    ParseFormatRoundTrip(t);
    ParseFields(s);
    assert value[..15] == s;
    assert value[..4] == s[..4] && value[4..6] == s[4..6] && value[6..8] == s[6..8];
    assert value[9..11] == s[9..11] && value[11..13] == s[11..13] && value[13..15] == s[13..15];
    assert DigitsBetween(value, 0, 8) && DigitsBetween(value, 9, 15) by {
      assert forall i | 0 <= i < 15 :: value[i] == s[i];
    }
    var rest := value[15..];
    assert rest == [separator] + digits && rest[1..] == digits;
    ParseFractionValue(rest);
  }

  /** A date-only value (section 3.3.4 of RFC 5545) does not parse. */
  lemma DateOnlyRejected(value: string)
    requires |value| == 8
    ensures ParseFullTime(value) == None
  {
  }

  /** The UTC form of DATE-TIME, with its trailing "Z", does not parse. */
  lemma UtcFormRejected(value: string)
    requires |value| > 0 && value[|value| - 1] == 'Z'
    ensures ParseFullTime(value) == None
  {
    if 15 < |value| && DigitsBetween(value, 0, 8) && value[8] == 'T' && DigitsBetween(value, 9, 15) {
      var rest := value[15..];
      if 2 <= |rest| {
        assert rest[1..][|rest| - 2] == 'Z';
      }
      assert ParseFraction(rest) == None;
    }
  }
}
