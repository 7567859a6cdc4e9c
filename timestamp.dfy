/** `parse_datetime` (analyzer.py:64-81): try three `strptime` formats in a
    fixed order and return the first success.  Every result is a UTC instant
    (naive results are tagged UTC, and format 1 only accepts a zero offset),
    so an instant is its six calendar fields, compared lexicographically. */
module Timestamp {
  import opened Wrappers
  import opened Text

  datatype DateTime = DateTime(year: int, month: int, day: int, hour: int, minute: int, second: int)

  predicate IsLeapYear(y: int)
  {
    y % 4 == 0 && (y % 100 != 0 || y % 400 == 0)
  }

  function DaysInMonth(y: int, m: int): (n: int)
    requires 1 <= m <= 12
    ensures 28 <= n <= 31
  {
    if m == 2 then (if IsLeapYear(y) then 29 else 28)
    else if m == 4 || m == 6 || m == 9 || m == 11 then 30
    else 31
  }

  /** The calendar dates Python's `datetime` accepts (MINYEAR 1 to MAXYEAR 9999). */
  predicate ValidDate(y: int, m: int, d: int)
  {
    1 <= y <= 9999 && 1 <= m <= 12 && 1 <= d <= DaysInMonth(y, m)
  }

  /** `strptime` reads seconds up to 61, but `datetime` then refuses 60 and 61. */
  predicate ValidClock(h: int, mi: int, s: int)
  {
    0 <= h <= 23 && 0 <= mi <= 59 && 0 <= s <= 59
  }

  predicate Valid(t: DateTime)
  {
    ValidDate(t.year, t.month, t.day) && ValidClock(t.hour, t.minute, t.second)
  }

  /** `a <= b` on two UTC datetimes: lexicographic on (year, ..., second). */
  predicate LessEq(a: DateTime, b: DateTime)
  {
    if a.year != b.year then a.year < b.year
    else if a.month != b.month then a.month < b.month
    else if a.day != b.day then a.day < b.day
    else if a.hour != b.hour then a.hour < b.hour
    else if a.minute != b.minute then a.minute < b.minute
    else a.second <= b.second
  }

  /** `a < b` on two UTC datetimes. */
  predicate Less(a: DateTime, b: DateTime)
  {
    LessEq(a, b) && a != b
  }

  /** The comparison is a total order on instants. */
  lemma LessEqIsTotalOrder(a: DateTime, b: DateTime, c: DateTime)
    ensures LessEq(a, a)
    ensures LessEq(a, b) && LessEq(b, a) ==> a == b
    ensures LessEq(a, b) && LessEq(b, c) ==> LessEq(a, c)
    ensures LessEq(a, b) || LessEq(b, a)
    ensures Less(a, b) <==> !LessEq(b, a)
  {
  }

  /** The three formats of analyzer.py:65-69, in the order they are tried. */
  datatype Format =
    | WithZone     // "%Y-%m-%d %H:%M:%S %z %Z"
    | DateAndTime  // "%Y-%m-%d %H:%M:%S"
    | DateOnly     // "%Y-%m-%d"

  const Formats: seq<Format> := [WithZone, DateAndTime, DateOnly]

  /** "YYYY-MM-DD" naming a real calendar date. */
  function ParseDate(s: string): (r: Option<(int, int, int)>)
    ensures r.Some? ==> |s| == 10 && ValidDate(r.value.0, r.value.1, r.value.2)
  {
    if |s| == 10 && s[4] == '-' && s[7] == '-'
       && AllDigits(s[..4]) && AllDigits(s[5..7]) && AllDigits(s[8..])
    then
      var y, m, d := DigitsValue(s[..4]), DigitsValue(s[5..7]), DigitsValue(s[8..]);
      if ValidDate(y, m, d) then Some((y, m, d)) else None
    else None
  }

  /** "HH:MM:SS" naming a real time of day. */
  function ParseClock(s: string): (r: Option<(int, int, int)>)
    ensures r.Some? ==> |s| == 8 && ValidClock(r.value.0, r.value.1, r.value.2)
  {
    if |s| == 8 && s[2] == ':' && s[5] == ':'
       && AllDigits(s[..2]) && AllDigits(s[3..5]) && AllDigits(s[6..])
    then
      var h, mi, sec := DigitsValue(s[..2]), DigitsValue(s[3..5]), DigitsValue(s[6..]);
      if ValidClock(h, mi, sec) then Some((h, mi, sec)) else None
    else None
  }

  /** The `%z %Z` suffix for UTC: a zero offset and the zone name UTC or GMT. */
  predicate IsUtcSuffix(z: string)
  {
    |z| == 9 && (z[0] == '+' || z[0] == '-') && z[1..5] == "0000" && z[5] == ' '
    && (z[6..] == "UTC" || z[6..] == "GMT")
  }

  /** "YYYY-MM-DD HH:MM:SS", the common head of the first two formats. */
  function ParseDateAndClock(s: string): (r: Option<DateTime>)
    ensures r.Some? ==> |s| == 19 && Valid(r.value)
  {
    if |s| == 19 && s[10] == ' ' then
      match (ParseDate(s[..10]), ParseClock(s[11..]))
      case (Some(d), Some(c)) => Some(DateTime(d.0, d.1, d.2, c.0, c.1, c.2))
      case _ => None
    else None
  }

  /** `datetime.strptime(s, fmt)` for one format, with the UTC tag applied;
      `None` where `strptime` raises `ValueError`. */
  function ParseWith(f: Format, s: string): (r: Option<DateTime>)
    ensures r.Some? ==> Valid(r.value)
    ensures f == DateOnly && r.Some? ==> r.value.hour == 0 && r.value.minute == 0 && r.value.second == 0
  {
    match f
    case WithZone =>
      if |s| == 29 && s[19] == ' ' && IsUtcSuffix(s[20..]) then ParseDateAndClock(s[..19]) else None
    case DateAndTime => ParseDateAndClock(s)
    case DateOnly =>
      match ParseDate(s)
      case Some(d) => Some(DateTime(d.0, d.1, d.2, 0, 0, 0))
      case None => None
  }

  /** The loop of analyzer.py:71-79: the first format that accepts wins. */
  function ParseFirst(fmts: seq<Format>, s: string): (r: Option<DateTime>)
    ensures r.Some? ==> Valid(r.value)
  {
    if fmts == [] then None
    else
      match ParseWith(fmts[0], s)
      case Some(t) => Some(t)
      case None => ParseFirst(fmts[1..], s)
  }

  /** `parse_datetime`; `None` stands for the `ValueError` it raises. */
  function ParseDateTime(s: string): (r: Option<DateTime>)
  {
    ParseFirst(Formats, s)
  }

  /** When format `i` is the first to accept `s`, the search returns its result. */
  lemma {:induction false} ParseFirstTakesFirstSuccess(fmts: seq<Format>, s: string, i: nat)
    requires i < |fmts| && ParseWith(fmts[i], s).Some?
    requires forall j :: 0 <= j < i ==> ParseWith(fmts[j], s).None?
    ensures ParseFirst(fmts, s) == ParseWith(fmts[i], s)
  {
    if i > 0 {
      assert ParseWith(fmts[0], s).None?;
      ParseFirstTakesFirstSuccess(fmts[1..], s, i - 1);
    }
  }

  /** The search fails exactly when no format accepts `s`. */
  lemma {:induction false} ParseFirstFailsIffNoneAccepts(fmts: seq<Format>, s: string)
    ensures ParseFirst(fmts, s).None? <==> forall i :: 0 <= i < |fmts| ==> ParseWith(fmts[i], s).None?
  {
    if fmts != [] {
      ParseFirstFailsIffNoneAccepts(fmts[1..], s);
      if ParseWith(fmts[0], s).None? {
        assert forall i :: 1 <= i < |fmts| ==> fmts[i] == fmts[1..][i - 1];
      }
    }
  }

  /** `parse_datetime` in full: the first of the three formats that accepts,
      and an error exactly when none does. */
  lemma ParseDateTimeOrder(s: string)
    ensures ParseWith(WithZone, s).Some? ==> ParseDateTime(s) == ParseWith(WithZone, s)
    ensures ParseWith(WithZone, s).None? && ParseWith(DateAndTime, s).Some?
            ==> ParseDateTime(s) == ParseWith(DateAndTime, s)
    ensures ParseWith(WithZone, s).None? && ParseWith(DateAndTime, s).None?
            ==> ParseDateTime(s) == ParseWith(DateOnly, s)
    ensures ParseDateTime(s).None? <==>
            ParseWith(WithZone, s).None? && ParseWith(DateAndTime, s).None? && ParseWith(DateOnly, s).None?
  {
    ParseFirstFailsIffNoneAccepts(Formats, s);
    if ParseWith(WithZone, s).Some? {
      ParseFirstTakesFirstSuccess(Formats, s, 0);
    } else if ParseWith(DateAndTime, s).Some? {
      ParseFirstTakesFirstSuccess(Formats, s, 1);
    } else if ParseWith(DateOnly, s).Some? {
      ParseFirstTakesFirstSuccess(Formats, s, 2);
    }
  }

  /** "YYYY-MM-DD" of an instant. */
  function FormatDate(t: DateTime): (s: string)
    requires Valid(t)
    ensures |s| == 10
  {
    Pad(t.year, 4) + "-" + Pad(t.month, 2) + "-" + Pad(t.day, 2)
  }

  /** "YYYY-MM-DD HH:MM:SS" of an instant. */
  function FormatDateTime(t: DateTime): (s: string)
    requires Valid(t)
    ensures |s| == 19
  {
    FormatDate(t) + " " + Pad(t.hour, 2) + ":" + Pad(t.minute, 2) + ":" + Pad(t.second, 2)
  }

  function Midnight(t: DateTime): DateTime
  {
    t.(hour := 0, minute := 0, second := 0)
  }

  lemma {:induction false} ParseFormattedDate(t: DateTime)
    requires Valid(t)
    ensures ParseDate(FormatDate(t)) == Some((t.year, t.month, t.day))
  {
    var s := FormatDate(t);
    assert s[..4] == Pad(t.year, 4);
    assert s[5..7] == Pad(t.month, 2);
    assert s[8..] == Pad(t.day, 2);
    PadValue(t.year, 4);
    PadValue(t.month, 2);
    PadValue(t.day, 2);
  }

  lemma {:induction false} ParseFormattedDateAndClock(t: DateTime)
    requires Valid(t)
    ensures ParseDateAndClock(FormatDateTime(t)) == Some(t)
  {
    var s := FormatDateTime(t);
    assert s[..10] == FormatDate(t);
    ParseFormattedDate(t);
    var c := s[11..];
    assert c == Pad(t.hour, 2) + ":" + Pad(t.minute, 2) + ":" + Pad(t.second, 2);
    assert c[..2] == Pad(t.hour, 2);
    assert c[3..5] == Pad(t.minute, 2);
    assert c[6..] == Pad(t.second, 2);
    PadValue(t.hour, 2);
    PadValue(t.minute, 2);
    PadValue(t.second, 2);
  }

  /** A "YYYY-MM-DD HH:MM:SS" text parses back to the instant it was written from. */
  lemma {:induction false} ParseDateTimeRoundTrip(t: DateTime)
    requires Valid(t)
    ensures ParseDateTime(FormatDateTime(t)) == Some(t)
  {
    var s := FormatDateTime(t);
    assert ParseWith(WithZone, s).None?;
    ParseFormattedDateAndClock(t);
    ParseDateTimeOrder(s);
  }

  /** The same text with the " +0000 UTC" suffix the sensor data carries
      (format 1) denotes the same instant. */
  lemma {:induction false} ParseZonedRoundTrip(t: DateTime)
    requires Valid(t)
    ensures ParseDateTime(FormatDateTime(t) + " +0000 UTC") == Some(t)
  {
    var head, zone := FormatDateTime(t), "+0000 UTC";
    var s := head + " " + zone;
    assert head + " +0000 UTC" == s;
    assert ParseWith(WithZone, s) == Some(t) by {
      assert s[..19] == head && s[19] == ' ' && s[20..] == zone;
      assert IsUtcSuffix(zone) by { assert zone[1..5] == "0000" && zone[6..] == "UTC"; }
      ParseFormattedDateAndClock(t);
    }
    ParseDateTimeOrder(s);
  }

  /** A date alone denotes midnight of that date, the same instant as the
      date written with "00:00:00". */
  lemma {:induction false} DateOnlyIsMidnight(t: DateTime)
    requires Valid(t)
    ensures ParseDateTime(FormatDate(t)) == Some(Midnight(t))
    ensures ParseDateTime(FormatDate(t)) == ParseDateTime(FormatDate(t) + " 00:00:00")
  {
    var s := FormatDate(t);
    assert ParseWith(WithZone, s).None?;
    assert ParseWith(DateAndTime, s).None?;
    ParseFormattedDate(t);
    ParseDateTimeOrder(s);
    var m := Midnight(t);
    assert Valid(m);
    assert FormatDate(m) == s;
    assert FormatDateTime(m) == s + " 00:00:00";
    ParseDateTimeRoundTrip(m);
  }
}
