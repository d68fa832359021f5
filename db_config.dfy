/** Table naming and the time normaliser of the Node API's database module:
    `getTable` prefixes a table name, `formatDateTimeFromUnix` renders an epoch
    instant as local `YYYY-MM-DD HH:MM:SS` text. The local time zone is a fixed
    offset in seconds east of UTC, passed as a parameter. */
module DbConfig {
  import opened Strings
  import opened Wrappers
  import opened Js

  const DefaultTablePrefix: string := "fa_"

  /** `process.env.DB_PREFIX || 'fa_'`: an unset or empty variable gives `fa_`. */
  function TablePrefix(env: Option<string>): (prefix: string)
    ensures env.None? || env.value == "" ==> prefix == DefaultTablePrefix
    ensures env.Some? && env.value != "" ==> prefix == env.value
    ensures prefix != ""
  {
    if env.Some? && env.value != "" then env.value else DefaultTablePrefix
  }

  /** `getTable(name)`: the prefix followed by the bare name. */
  function GetTable(prefix: string, name: string): (table: string)
    ensures |table| == |prefix| + |name|
    ensures table[..|prefix|] == prefix && table[|prefix|..] == name
  {
    prefix + name
  }

  /** Under one prefix, different names give different tables, and the bare name
      can be read back after the prefix. */
  lemma GetTableDistinct(prefix: string, a: string, b: string)
    ensures GetTable(prefix, a)[..|prefix|] == prefix
    ensures GetTable(prefix, a)[|prefix|..] == a
    ensures GetTable(prefix, a) == GetTable(prefix, b) <==> a == b
  {
    if GetTable(prefix, a) == GetTable(prefix, b) {
      assert a == GetTable(prefix, a)[|prefix|..];
    }
  }

  // ---------------------------------------------------------------------------
  // Proleptic Gregorian calendar, counted in days from 1970-01-01.

  predicate IsLeapYear(y: int)
  {
    y % 4 == 0 && (y % 100 != 0 || y % 400 == 0)
  }

  function DaysInYear(y: int): int
  {
    if IsLeapYear(y) then 366 else 365
  }

  /** Days from 1970-01-01 to January 1 of year y (negative before 1970). */
  function YearStart(y: int): int
    decreases if y >= 1970 then y - 1970 else 1970 - y
  {
    if y == 1970 then 0
    else if y > 1970 then YearStart(y - 1) + DaysInYear(y - 1)
    else YearStart(y + 1) - DaysInYear(y)
  }

  lemma YearStartStep(y: int)
    ensures YearStart(y + 1) == YearStart(y) + DaysInYear(y)
  {
  }

  /** A later year starts at least a whole year later. */
  lemma {:induction false} YearStartGrows(y1: int, y2: int)
    requires y1 < y2
    ensures YearStart(y2) >= YearStart(y1) + DaysInYear(y1)
    decreases y2 - y1
  {
    YearStartStep(y2 - 1);
    if y1 < y2 - 1 {
      YearStartGrows(y1, y2 - 1);
    }
  }

  /** The year and the zero-based day within it of the day `d` counted from
      January 1 of year y. */
  function YearAndDay(y: int, d: int): (r: (int, int))
    ensures 0 <= r.1 < DaysInYear(r.0)
    ensures YearStart(r.0) + r.1 == YearStart(y) + d
    decreases if d < 0 then 400 - d else d
  {
    YearStartStep(y - 1);
    YearStartStep(y);
    if d < 0 then YearAndDay(y - 1, d + DaysInYear(y - 1))
    else if d >= DaysInYear(y) then YearAndDay(y + 1, d - DaysInYear(y))
    else (y, d)
  }

  /** Days in the year before month m (1 <= m <= 13; month 13 is the year's end). */
  function MonthStart(y: int, m: int): int
    requires 1 <= m <= 13
  {
    var common :=
      if m == 1 then 0 else if m == 2 then 31 else if m == 3 then 59
      else if m == 4 then 90 else if m == 5 then 120 else if m == 6 then 151
      else if m == 7 then 181 else if m == 8 then 212 else if m == 9 then 243
      else if m == 10 then 273 else if m == 11 then 304 else if m == 12 then 334
      else 365;
    common + (if m > 2 && IsLeapYear(y) then 1 else 0)
  }

  lemma MonthStartGrows(y: int, m1: int, m2: int)
    requires 1 <= m1 < m2 <= 13
    ensures MonthStart(y, m1) + 28 <= MonthStart(y, m2)
  {
  }

  /** The month (m..12) holding the zero-based day of year `doy`, searching
      upwards from month m. */
  function MonthFrom(y: int, doy: int, m: int): (r: int)
    requires 1 <= m <= 12 && MonthStart(y, m) <= doy < DaysInYear(y)
    ensures m <= r <= 12 && MonthStart(y, r) <= doy < MonthStart(y, r + 1)
    decreases 12 - m
  {
    if m == 12 || doy < MonthStart(y, m + 1) then m else MonthFrom(y, doy, m + 1)
  }

  /** The month (1..12) holding the zero-based day of year `doy`. */
  function MonthOf(y: int, doy: int): (m: int)
    requires 0 <= doy < DaysInYear(y)
    ensures 1 <= m <= 12 && MonthStart(y, m) <= doy < MonthStart(y, m + 1)
  {
    MonthFrom(y, doy, 1)
  }

  /** The fields a `Date` reports through its local getters. */
  datatype DateTime = DateTime(year: int, month: int, day: int, hour: int, minute: int, second: int)

  /** Ranges of the getters: `getMonth() + 1` in 1..12, `getDate()` in 1..31,
      `getHours()` in 0..23, minutes and seconds in 0..59. */
  predicate InRange(dt: DateTime)
  {
    && 1 <= dt.month <= 12 && 1 <= dt.day <= 31
    && 0 <= dt.hour <= 23 && 0 <= dt.minute <= 59 && 0 <= dt.second <= 59
  }

  const SecondsPerDay := 86400

  /** Local seconds since 1970-01-01 00:00:00 of the instant `ms` (milliseconds
      since the epoch, UTC) in a zone `zone` seconds east of UTC. */
  function LocalSeconds(ms: int, zone: int): int
  {
    ms / 1000 + zone
  }

  /** Local seconds of the whole-second instant `s` in a zone `zone` seconds
      east of UTC. */
  function LocalOfUnix(s: int, zone: int): int
  {
    s + zone
  }

  /** The local calendar fields of a local-seconds count. */
  function Fields(local: int): (dt: DateTime)
    ensures InRange(dt)
  {
    var days := local / SecondsPerDay;
    var sod := local % SecondsPerDay;
    var (y, doy) := YearAndDay(1970, days);
    var m := MonthOf(y, doy);
    DateTime(y, m, doy - MonthStart(y, m) + 1, sod / 3600, sod % 3600 / 60, sod % 60)
  }

  /** The largest magnitude of a valid `Date` time value, in milliseconds. */
  const MaxTimeMs := 8_640_000_000_000_000

  /** The text an invalid `Date` produces: every getter returns NaN. */
  const InvalidText: string := "NaN-NaN-NaN NaN:NaN:NaN"

  /** One two-digit field of the template after its separator, followed by the
      rest of the text. */
  function Piece(sep: string, n: int, rest: string): string
  {
    sep + Pad2(n) + rest
  }

  /** The template of `formatDateTimeFromUnix`: the year as it is, every other
      field padded to two digits, `YYYY-MM-DD HH:MM:SS`. */
  function Render(dt: DateTime): string
  {
    IntToString(dt.year)
      + Piece("-", dt.month, Piece("-", dt.day, Piece(" ", dt.hour,
          Piece(":", dt.minute, Piece(":", dt.second, "")))))
  }

  /** A valid `Date` time value in milliseconds. */
  predicate ValidMs(t: int)
  {
    -MaxTimeMs <= t <= MaxTimeMs
  }

  /** A valid instant, in whole seconds. */
  predicate ValidSeconds(s: int)
  {
    ValidMs(s * 1000)
  }

  /** What the local getters of `new Date(ms)` report: nothing for an invalid
      date (NaN or beyond the `Date` range), the local fields otherwise. */
  function LocalDate(ms: Num, zone: int): Option<DateTime>
  {
    match ms
    case NaN => None
    case Int(t) => if ValidMs(t) then Some(Fields(LocalSeconds(t, zone))) else None
  }

  /** The template applied to the getters; every getter of an invalid date
      prints `NaN`. */
  function Text(date: Option<DateTime>): string
  {
    match date
    case None => InvalidText
    case Some(dt) => Render(dt)
  }

  /** `new Date(ms)` followed by the template. */
  function FormatDateTime(ms: Num, zone: int): string
  {
    Text(LocalDate(ms, zone))
  }

  /** `formatDateTimeFromUnix(unixSeconds)`: `new Date(unixSeconds * 1000)`,
      which shows the local calendar fields of a valid instant and `NaN` in
      every field otherwise. */
  function FormatDateTimeFromUnix(seconds: Num, zone: int): (text: string)
    ensures seconds.Int? && ValidSeconds(seconds.value) ==> text == Render(Fields(LocalOfUnix(seconds.value, zone)))
    ensures seconds.NaN? || !ValidSeconds(seconds.value) ==> text == InvalidText
  {
    match seconds
    case NaN => FormatDateTime(NaN, zone)
    case Int(s) =>
      UnixDate(s, zone);
      FormatDateTime(Int(s * 1000), zone)
  }

  /** The local year of a whole-second instant. */
  function YearAt(s: int, zone: int): int
  {
    Fields(LocalOfUnix(s, zone)).year
  }

  /** The getters of `new Date(s * 1000)` see the local second `s + zone`; an
      instant beyond the `Date` range has no fields. */
  lemma UnixDate(s: int, zone: int)
    ensures LocalDate(Int(s * 1000), zone) == if ValidSeconds(s) then Some(Fields(LocalOfUnix(s, zone))) else None
  {
    assert LocalSeconds(s * 1000, zone) == LocalOfUnix(s, zone);
  }

  /** A valid whole-second instant renders its local fields. */
  lemma UnixText(s: int, zone: int)
    requires ValidSeconds(s)
    ensures FormatDateTimeFromUnix(Int(s), zone) == Render(Fields(LocalOfUnix(s, zone)))
  {
    UnixDate(s, zone);
  }

  /** A millisecond instant renders as its whole second: `new Date(ms)` and
      `new Date(Math.floor(ms / 1000) * 1000)` give the same text. */
  lemma MillisecondsDropped(ms: int, zone: int)
    requires ValidMs(ms)
    ensures FormatDateTime(Int(ms), zone) == FormatDateTimeFromUnix(Int(ms / 1000), zone)
  {
    UnixDate(ms / 1000, zone);
    assert LocalDate(Int(ms), zone) == LocalDate(Int(ms / 1000 * 1000), zone);
  }

  // ---------------------------------------------------------------------------
  // Shape of the text.

  /** Text of the shape `YYYY-MM-DD HH:MM:SS` (ASCII digits, fixed separators). */
  predicate IsDateTimeText(s: string)
  {
    && |s| == 19
    && IsDigit(s[0]) && IsDigit(s[1]) && IsDigit(s[2]) && IsDigit(s[3])
    && s[4] == '-' && IsDigit(s[5]) && IsDigit(s[6])
    && s[7] == '-' && IsDigit(s[8]) && IsDigit(s[9])
    && s[10] == ' ' && IsDigit(s[11]) && IsDigit(s[12])
    && s[13] == ':' && IsDigit(s[14]) && IsDigit(s[15])
    && s[16] == ':' && IsDigit(s[17]) && IsDigit(s[18])
  }

  /** A piece is its one-character separator, two digits, then the rest. */
  lemma PieceShape(sep: string, n: int, rest: string)
    requires |sep| == 1 && 0 <= n < 100
    ensures var p := Piece(sep, n, rest);
      && |p| == |rest| + 3 && p[0] == sep[0] && IsDigit(p[1]) && IsDigit(p[2]) && p[3..] == rest
  {
    Pad2Digits(n);
  }

  /** The part after the year: `-MM-DD HH:MM:SS`. */
  predicate IsTimeTail(t: string)
  {
    && |t| == 15
    && t[0] == '-' && IsDigit(t[1]) && IsDigit(t[2])
    && t[3] == '-' && IsDigit(t[4]) && IsDigit(t[5])
    && t[6] == ' ' && IsDigit(t[7]) && IsDigit(t[8])
    && t[9] == ':' && IsDigit(t[10]) && IsDigit(t[11])
    && t[12] == ':' && IsDigit(t[13]) && IsDigit(t[14])
  }

  /** Whatever the instant and the zone, the text is the year followed by a
      `-MM-DD HH:MM:SS` tail. */
  lemma RenderShape(dt: DateTime)
    requires InRange(dt)
    ensures var y := IntToString(dt.year);
      Render(dt)[..|y|] == y && IsTimeTail(Render(dt)[|y|..])
  {
    var p5 := Piece(":", dt.second, "");
    var p4 := Piece(":", dt.minute, p5);
    var p3 := Piece(" ", dt.hour, p4);
    var p2 := Piece("-", dt.day, p3);
    var p1 := Piece("-", dt.month, p2);
    PieceShape(":", dt.second, "");
    PieceShape(":", dt.minute, p5);
    PieceShape(" ", dt.hour, p4);
    PieceShape("-", dt.day, p3);
    PieceShape("-", dt.month, p2);
    var y := IntToString(dt.year);
    assert Render(dt) == y + p1;
    assert Render(dt)[|y|..] == p1;
    assert p1[3..] == p2 && p2[3..] == p3 && p3[3..] == p4 && p4[3..] == p5;
    assert p1[3] == p2[0] && p1[4] == p2[1] && p1[5] == p2[2];
    assert p1[6] == p3[0] && p1[7] == p3[1] && p1[8] == p3[2];
    assert p1[9] == p4[0] && p1[10] == p4[1] && p1[11] == p4[2];
    assert p1[12] == p5[0] && p1[13] == p5[1] && p1[14] == p5[2];
  }

  /** For a 4-digit local year the normalised text has exactly the shape
      `YYYY-MM-DD HH:MM:SS`, 19 characters. */
  lemma FormatShape(s: int, zone: int)
    requires ValidSeconds(s)
    requires 1000 <= YearAt(s, zone) <= 9999
    ensures IsDateTimeText(FormatDateTimeFromUnix(Int(s), zone))
  {
    UnixText(s, zone);
    var dt := Fields(LocalOfUnix(s, zone));
    RenderShape(dt);
    DigitsShape(dt.year);
    TailJoin(IntToString(dt.year), Render(dt));
  }

  /** Four digits followed by a time tail make a date-time text. */
  lemma TailJoin(y: string, r: string)
    requires |y| == 4 && AllDigits(y) && |r| >= 4
    requires r[..4] == y && IsTimeTail(r[4..])
    ensures IsDateTimeText(r)
  {
    var t := r[4..];
    assert r[0] == y[0] && r[1] == y[1] && r[2] == y[2] && r[3] == y[3];
    assert r[4] == t[0] && r[5] == t[1] && r[6] == t[2] && r[7] == t[3] && r[8] == t[4];
    assert r[9] == t[5] && r[10] == t[6] && r[11] == t[7] && r[12] == t[8] && r[13] == t[9];
    assert r[14] == t[10] && r[15] == t[11] && r[16] == t[12] && r[17] == t[13] && r[18] == t[14];
  }

  /** The text has the `YYYY-MM-DD HH:MM:SS` shape exactly for a valid instant
      whose local year has four digits: the year is not padded, so years 0..999
      give fewer than 19 characters, years from 10000 more, a negative year
      starts with `-`, and an invalid instant gives `NaN` fields. */
  lemma ShapeIffFourDigitYear(s: int, zone: int)
    ensures IsDateTimeText(FormatDateTimeFromUnix(Int(s), zone)) <==> ValidSeconds(s) && 1000 <= YearAt(s, zone) <= 9999
  {
    if !ValidSeconds(s) {
      assert !IsDigit(InvalidText[0]);
    } else if 1000 <= YearAt(s, zone) <= 9999 {
      FormatShape(s, zone);
    } else {
      var dt := Fields(LocalOfUnix(s, zone));
      var y, r := IntToString(dt.year), Render(dt);
      RenderShape(dt);
      assert |r| == |y| + 15 by {
        assert |r[|y|..]| == 15;
      }
      if dt.year < 0 {
        assert r[0] == y[0] == '-';
      } else if dt.year < 1000 {
        DigitsShape(dt.year);
      } else {
        DigitsLong(dt.year);
      }
    }
  }

  // ---------------------------------------------------------------------------
  // Order: later instants render as larger text.

  /** Strict lexicographic order on the calendar fields. */
  predicate Before(a: DateTime, b: DateTime)
  {
    || a.year < b.year
    || (a.year == b.year && a.month < b.month)
    || (a.year == b.year && a.month == b.month && a.day < b.day)
    || (a.year == b.year && a.month == b.month && a.day == b.day && a.hour < b.hour)
    || (a.year == b.year && a.month == b.month && a.day == b.day && a.hour == b.hour && a.minute < b.minute)
    || (a.year == b.year && a.month == b.month && a.day == b.day && a.hour == b.hour && a.minute == b.minute
        && a.second < b.second)
  }

  lemma YearAndDayOrder(d1: int, d2: int)
    requires d1 < d2
    ensures var (y1, n1) := YearAndDay(1970, d1); var (y2, n2) := YearAndDay(1970, d2);
      y1 < y2 || (y1 == y2 && n1 < n2)
  {
    var (y1, n1) := YearAndDay(1970, d1);
    var (y2, n2) := YearAndDay(1970, d2);
    if y1 > y2 {
      YearStartGrows(y2, y1);
    }
  }

  lemma TimeOfDayOrder(s1: int, s2: int)
    requires 0 <= s1 < s2 < SecondsPerDay
    ensures var h1, h2 := s1 / 3600, s2 / 3600;
      var m1, m2 := s1 % 3600 / 60, s2 % 3600 / 60;
      h1 < h2 || (h1 == h2 && m1 < m2) || (h1 == h2 && m1 == m2 && s1 % 60 < s2 % 60)
  {
    var h1, h2 := s1 / 3600, s2 / 3600;
    var r1, r2 := s1 % 3600, s2 % 3600;
    assert s1 == h1 * 3600 + r1 && s2 == h2 * 3600 + r2;
    assert r1 == r1 / 60 * 60 + r1 % 60 && r2 == r2 / 60 * 60 + r2 % 60;
    if h1 == h2 {
      assert r1 < r2;
    }
  }

  /** A later local second gives strictly later calendar fields. */
  lemma FieldsOrder(l1: int, l2: int)
    requires l1 < l2
    ensures Before(Fields(l1), Fields(l2))
  {
    if l1 / SecondsPerDay < l2 / SecondsPerDay {
      LaterDayOrder(l1, l2);
    } else {
      SameDayOrder(l1, l2);
    }
  }

  lemma LaterDayOrder(l1: int, l2: int)
    requires l1 / SecondsPerDay < l2 / SecondsPerDay
    ensures Before(Fields(l1), Fields(l2))
  {
    var d1, d2 := l1 / SecondsPerDay, l2 / SecondsPerDay;
    YearAndDayOrder(d1, d2);
    var (y1, n1) := YearAndDay(1970, d1);
    var (y2, n2) := YearAndDay(1970, d2);
    if y1 == y2 {
      var m1, m2 := MonthOf(y1, n1), MonthOf(y2, n2);
      if m1 > m2 {
        MonthStartGrows(y1, m2 + 1, m1);
      }
    }
  }

  lemma SameDayOrder(l1: int, l2: int)
    requires l1 < l2 && l1 / SecondsPerDay == l2 / SecondsPerDay
    ensures Before(Fields(l1), Fields(l2))
  {
    TimeOfDayOrder(l1 % SecondsPerDay, l2 % SecondsPerDay);
  }

  lemma Pad2Order(a: int, b: int)
    requires 0 <= a < b < 100
    ensures |Pad2(a)| == 2 && |Pad2(b)| == 2 && LexLess(Pad2(a), Pad2(b))
  {
    Pad2Digits(a);
    Pad2Digits(b);
    var pa, pb := Pad2(a), Pad2(b);
    if a / 10 == b / 10 {
      assert pa[0] == pb[0];
      assert pa[1..] == [DigitChar(a % 10)] && pb[1..] == [DigitChar(b % 10)];
    }
  }

  lemma PieceOrder(sep: string, a: int, ra: string, b: int, rb: string)
    requires 0 <= a <= b < 100
    requires a < b || LexLess(ra, rb)
    ensures LexLess(Piece(sep, a, ra), Piece(sep, b, rb))
  {
    Pad2Digits(a);
    Pad2Digits(b);
    assert Piece(sep, a, ra) == (sep + Pad2(a)) + ra;
    assert Piece(sep, b, rb) == (sep + Pad2(b)) + rb;
    if a < b {
      Pad2Order(a, b);
      LexLessConcat(sep, Pad2(a), sep, Pad2(b));
      LexLeRefl(sep);
      assert LexLess(sep + Pad2(a), sep + Pad2(b));
    }
    LexLessConcat(sep + Pad2(a), ra, sep + Pad2(b), rb);
  }

  lemma LexLessConcatSame(sep: string, ra: string, rb: string)
    requires LexLess(ra, rb)
    ensures LexLess(sep + ra, sep + rb)
  {
    LexLessConcat(sep, ra, sep, rb);
  }

  /** Strictly ordered fields with 4-digit years render as strictly ordered text. */
  lemma RenderOrder(a: DateTime, b: DateTime)
    requires InRange(a) && InRange(b)
    requires 1000 <= a.year <= 9999 && 1000 <= b.year <= 9999
    requires Before(a, b)
    ensures LexLess(Render(a), Render(b))
  {
    var s5a, s5b := Piece(":", a.second, []), Piece(":", b.second, []);
    var s4a, s4b := Piece(":", a.minute, s5a), Piece(":", b.minute, s5b);
    var s3a, s3b := Piece(" ", a.hour, s4a), Piece(" ", b.hour, s4b);
    var s2a, s2b := Piece("-", a.day, s3a), Piece("-", b.day, s3b);
    var s1a, s1b := Piece("-", a.month, s2a), Piece("-", b.month, s2b);
    DigitsShape(a.year);
    DigitsShape(b.year);
    if a.year < b.year {
      DigitsOrder(a.year, b.year);
      LexLessConcat(IntToString(a.year), s1a, IntToString(b.year), s1b);
    } else {
      if a.month == b.month && a.day == b.day && a.hour == b.hour && a.minute == b.minute {
        Pad2Digits(a.second);
        Pad2Digits(b.second);
        Pad2Order(a.second, b.second);
        assert s5a == ":" + Pad2(a.second) && s5b == ":" + Pad2(b.second);
        LexLessConcatSame(":", Pad2(a.second), Pad2(b.second));
      }
      if a.month == b.month && a.day == b.day && a.hour == b.hour {
        PieceOrder(":", a.minute, s5a, b.minute, s5b);
      }
      if a.month == b.month && a.day == b.day {
        PieceOrder(" ", a.hour, s4a, b.hour, s4b);
      }
      if a.month == b.month {
        PieceOrder("-", a.day, s3a, b.day, s3b);
      }
      PieceOrder("-", a.month, s2a, b.month, s2b);
      LexLessConcat(IntToString(a.year), s1a, IntToString(b.year), s1b);
    }
  }

  /** A later local second renders as strictly greater text (4-digit years). */
  lemma LocalTextOrder(l1: int, l2: int)
    requires 1000 <= Fields(l1).year <= 9999 && 1000 <= Fields(l2).year <= 9999
    requires l1 < l2
    ensures LexLess(Render(Fields(l1)), Render(Fields(l2)))
  {
    FieldsOrder(l1, l2);
    RenderOrder(Fields(l1), Fields(l2));
  }

  /** Under a fixed zone offset, a strictly later second yields strictly greater
      text (for 4-digit years), so comparing the stored text with `>` compares
      the instants. */
  lemma FormatMonotone(s1: int, s2: int, zone: int)
    requires ValidSeconds(s1) && ValidSeconds(s2)
    requires 1000 <= YearAt(s1, zone) <= 9999 && 1000 <= YearAt(s2, zone) <= 9999
    requires s1 < s2
    ensures LexLess(FormatDateTimeFromUnix(Int(s1), zone), FormatDateTimeFromUnix(Int(s2), zone))
  {
    UnixText(s1, zone);
    UnixText(s2, zone);
    LocalTextOrder(LocalOfUnix(s1, zone), LocalOfUnix(s2, zone));
  }

  lemma EpochFields()
    ensures Fields(0) == DateTime(1970, 1, 1, 0, 0, 0)
    ensures Fields(8 * 3600) == DateTime(1970, 1, 1, 8, 0, 0)
  {
    assert YearAndDay(1970, 0) == (1970, 0);
  }

  lemma EpochYear()
    ensures IntToString(1970) == "1970"
  {
    assert Digits(1) == "1";
    assert Digits(19) == Digits(1) + "9";
    assert Digits(197) == Digits(19) + "7";
    assert Digits(1970) == Digits(197) + "0";
  }

  lemma EpochPads()
    ensures Pad2(0) == "00" && Pad2(1) == "01" && Pad2(8) == "08"
  {
    assert Digits(0) == "0";
    assert Digits(1) == "1";
    assert Digits(8) == "8";
  }

  lemma EpochMidnight()
    ensures Render(DateTime(1970, 1, 1, 0, 0, 0)) == "1970-01-01 00:00:00"
  {
    EpochYear();
    EpochPads();
  }

  lemma EpochEight()
    ensures Render(DateTime(1970, 1, 1, 8, 0, 0)) == "1970-01-01 08:00:00"
  {
    EpochYear();
    EpochPads();
  }

  /** The epoch renders as midnight of 1970-01-01 in UTC; in a zone eight hours
      east of UTC it renders as 08:00 on the same day. */
  lemma EpochText()
    ensures FormatDateTimeFromUnix(Int(0), 0) == "1970-01-01 00:00:00"
    ensures FormatDateTimeFromUnix(Int(0), 8 * 3600) == "1970-01-01 08:00:00"
  {
    UnixText(0, 0);
    UnixText(0, 8 * 3600);
    EpochFields();
    EpochMidnight();
    EpochEight();
  }
}
