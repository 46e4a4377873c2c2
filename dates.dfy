/**
 * The part of the JavaScript `Date` object the calendar code uses, on the
 * proleptic Gregorian calendar: a day number counts days from 1970-01-01
 * (the epoch of JavaScript time values), an instant is an integer number of
 * milliseconds from 1970-01-01T00:00:00Z, and `getDay` is the weekday of a
 * day number, 0 for Sunday.  Local time is UTC shifted by a fixed offset
 * that is passed in; the clock itself is a parameter of every operation
 * that reads it.
 */
module Dates {
  import opened Wrappers
  import opened Strings

  const MsPerSecond: int := 1000
  const MsPerMinute: int := 60_000
  const MsPerHour: int := 3_600_000
  const MsPerDay: int := 86_400_000

  /** The largest magnitude of a valid time value (`TimeClip`). */
  const MaxTimeMs: int := 8_640_000_000_000_000

  const Sunday: int := 0
  const Monday: int := 1
  const Friday: int := 5
  const Saturday: int := 6

  // ---------------------------------------------------------------------
  // Years and months
  // ---------------------------------------------------------------------

  predicate IsLeap(y: int) {
    y % 4 == 0 && (y % 100 != 0 || y % 400 == 0)
  }

  function DaysInYear(y: int): (r: int)
    ensures r == 365 || r == 366
  {
    if IsLeap(y) then 366 else 365
  }

  function DaysInMonth(y: int, m: int): (r: int)
    requires 1 <= m <= 12
    ensures 28 <= r <= 31
  {
    if m == 2 then (if IsLeap(y) then 29 else 28)
    else if m == 4 || m == 6 || m == 9 || m == 11 then 30
    else 31
  }

  /** Days of year `y` that lie before the first of month `m` (month 13: the whole year). */
  function DaysBeforeMonth(y: int, m: int): (r: int)
    requires 1 <= m <= 13
  {
    var common :=
      if m == 1 then 0 else if m == 2 then 31 else if m == 3 then 59
      else if m == 4 then 90 else if m == 5 then 120 else if m == 6 then 151
      else if m == 7 then 181 else if m == 8 then 212 else if m == 9 then 243
      else if m == 10 then 273 else if m == 11 then 304 else if m == 12 then 334
      else 365;
    common + (if m > 2 && IsLeap(y) then 1 else 0)
  }

  lemma MonthStep(y: int, m: int)
    requires 1 <= m <= 12
    ensures DaysBeforeMonth(y, m + 1) == DaysBeforeMonth(y, m) + DaysInMonth(y, m)
    ensures DaysBeforeMonth(y, 13) == DaysInYear(y)
    ensures DaysBeforeMonth(y, 1) == 0
  {
  }

  lemma {:induction false} MonthMono(y: int, a: int, b: int)
    requires 1 <= a < b <= 13
    ensures DaysBeforeMonth(y, a) < DaysBeforeMonth(y, b)
    ensures a <= 12 ==> DaysBeforeMonth(y, a) + DaysInMonth(y, a) <= DaysBeforeMonth(y, b)
    decreases b - a
  {
    MonthStep(y, a);
    if a + 1 < b {
      MonthMono(y, a + 1, b);
    }
  }

  /** Day number of the first of January of year `y`. */
  function YearStart(y: int): int
    decreases if y >= 1970 then y - 1970 else 1970 - y
  {
    if y == 1970 then 0
    else if y > 1970 then YearStart(y - 1) + DaysInYear(y - 1)
    else YearStart(y + 1) - DaysInYear(y)
  }

  lemma YearStep(y: int)
    ensures YearStart(y + 1) == YearStart(y) + DaysInYear(y)
  {
  }

  lemma {:induction false} YearMono(a: int, b: int)
    requires a < b
    ensures YearStart(a + 1) <= YearStart(b)
    decreases b - a
  {
    if a + 1 < b {
      YearMono(a, b - 1);
      YearStep(b - 1);
    }
  }

  /** Leap years up to and including year `x`, counted from an arbitrary origin. */
  function LeapsThrough(x: int): int {
    x / 4 - x / 100 + x / 400
  }

  /** Stepping back one year lowers `x / k` by one exactly when `k` divides `x`. */
  lemma DivStep(x: int, k: int)
    requires k == 4 || k == 100 || k == 400
    ensures x / k - (x - 1) / k == if x % k == 0 then 1 else 0
  {
    if k == 4 {
      assert x / 4 - (x - 1) / 4 == if x % 4 == 0 then 1 else 0;
    } else if k == 100 {
      assert x / 100 - (x - 1) / 100 == if x % 100 == 0 then 1 else 0;
    } else {
      assert x / 400 - (x - 1) / 400 == if x % 400 == 0 then 1 else 0;
    }
  }

  /** A multiple of 400 is a multiple of 100, and a multiple of 100 one of 4. */
  lemma CenturyDivides(x: int)
    ensures x % 400 == 0 ==> x % 100 == 0
    ensures x % 100 == 0 ==> x % 4 == 0
  {
    if x % 100 == 0 {
      var q := x / 100;
      assert x == 4 * (25 * q);
    }
    if x % 400 == 0 {
      var p := x / 400;
      assert x == 100 * (4 * p);
    }
  }

  lemma LeapStep(x: int)
    ensures LeapsThrough(x) - LeapsThrough(x - 1) == if IsLeap(x) then 1 else 0
  {
    DivStep(x, 4);
    DivStep(x, 100);
    DivStep(x, 400);
    CenturyDivides(x);
    var a, b, c := x / 4 - (x - 1) / 4, x / 100 - (x - 1) / 100, x / 400 - (x - 1) / 400;
    assert LeapsThrough(x) - LeapsThrough(x - 1) == a - b + c;
  }

  /** The closed form of `YearStart`. */
  lemma {:induction false} YearStartClosed(y: int)
    ensures YearStart(y) == 365 * (y - 1970) + LeapsThrough(y - 1) - LeapsThrough(1969)
    decreases if y >= 1970 then y - 1970 else 1970 - y
  {
    if y > 1970 {
      YearStartClosed(y - 1);
      LeapStep(y - 1);
    } else if y < 1970 {
      YearStartClosed(y + 1);
      LeapStep(y);
    }
  }

  function FindYearUp(y: int, n: int): (r: int)
    requires YearStart(y) <= n
    ensures YearStart(r) <= n < YearStart(r + 1)
    decreases n - YearStart(y)
  {
    YearStep(y);
    if n < YearStart(y + 1) then y else FindYearUp(y + 1, n)
  }

  function FindYearDown(y: int, n: int): (r: int)
    requires n < YearStart(y + 1)
    ensures YearStart(r) <= n < YearStart(r + 1)
    decreases YearStart(y + 1) - n
  {
    YearStep(y);
    if YearStart(y) <= n then y else FindYearDown(y - 1, n)
  }

  /** The year that contains day number `n`. */
  function YearOf(n: int): (r: int)
    ensures YearStart(r) <= n < YearStart(r + 1)
  {
    if n >= 0 then FindYearUp(1970, n) else FindYearDown(1969, n)
  }

  function FindMonth(y: int, doy: int, m: int): (r: int)
    requires 1 <= m <= 12
    requires DaysBeforeMonth(y, m) <= doy < DaysBeforeMonth(y, 13)
    ensures m <= r <= 12
    ensures DaysBeforeMonth(y, r) <= doy < DaysBeforeMonth(y, r + 1)
    decreases 13 - m
  {
    if doy < DaysBeforeMonth(y, m + 1) then m else FindMonth(y, doy, m + 1)
  }

  // ---------------------------------------------------------------------
  // Civil dates and day numbers
  // ---------------------------------------------------------------------

  datatype Civil = Civil(year: int, month: int, day: int)

  predicate ValidCivil(c: Civil) {
    1 <= c.month <= 12 && 1 <= c.day <= DaysInMonth(c.year, c.month)
  }

  /** Chronological order of civil dates: year, then month, then day. */
  predicate CivilBefore(c1: Civil, c2: Civil) {
    c1.year < c2.year
    || (c1.year == c2.year && c1.month < c2.month)
    || (c1.year == c2.year && c1.month == c2.month && c1.day < c2.day)
  }

  function DayNumber(c: Civil): (n: int)
    requires ValidCivil(c)
    ensures YearStart(c.year) <= n < YearStart(c.year + 1)
  {
    MonthMono(c.year, c.month, 13);
    YearStep(c.year);
    YearStart(c.year) + DaysBeforeMonth(c.year, c.month) + c.day - 1
  }

  /** The civil date of day number `n`. */
  function CivilOf(n: int): (c: Civil)
    ensures ValidCivil(c) && DayNumber(c) == n
  {
    var y := YearOf(n);
    YearStep(y);
    MonthStep(y, 1);
    var doy := n - YearStart(y);
    var m := FindMonth(y, doy, 1);
    MonthStep(y, m);
    Civil(y, m, doy - DaysBeforeMonth(y, m) + 1)
  }

  /** Day numbers and valid civil dates are in one-to-one correspondence. */
  lemma CivilOfDayNumber(c: Civil)
    requires ValidCivil(c)
    ensures CivilOf(DayNumber(c)) == c
  {
    var n := DayNumber(c);
    var c' := CivilOf(n);
    if c'.year < c.year {
      YearMono(c'.year, c.year);
    } else if c'.year > c.year {
      YearMono(c.year, c'.year);
    }
    assert c'.year == c.year;
    if c'.month < c.month {
      MonthMono(c.year, c'.month, c.month);
    } else if c'.month > c.month {
      MonthMono(c.year, c.month, c'.month);
    }
  }

  /** Day numbers run in the chronological order of the dates they number. */
  lemma DayNumberOrder(c1: Civil, c2: Civil)
    requires ValidCivil(c1) && ValidCivil(c2)
    ensures DayNumber(c1) < DayNumber(c2) <==> CivilBefore(c1, c2)
    ensures DayNumber(c1) == DayNumber(c2) <==> c1 == c2
  {
    if c1.year < c2.year {
      YearMono(c1.year, c2.year);
    } else if c2.year < c1.year {
      YearMono(c2.year, c1.year);
    } else if c1.month < c2.month {
      MonthMono(c1.year, c1.month, c2.month);
    } else if c2.month < c1.month {
      MonthMono(c1.year, c2.month, c1.month);
    }
  }

  /** `getDay()` of a day number: 1970-01-01 was a Thursday. */
  function Weekday(n: int): (wd: int)
    ensures 0 <= wd < 7
  {
    (n + 4) % 7
  }

  lemma WeekdayShift(n: int, k: int)
    ensures Weekday(n + k) == (Weekday(n) + k) % 7
  {
  }

  // ---------------------------------------------------------------------
  // Instants
  // ---------------------------------------------------------------------

  /** A time value `TimeClip` keeps; any other is an invalid Date. */
  predicate ValidTime(t: int) {
    -MaxTimeMs <= t <= MaxTimeMs
  }

  /** The UTC day number of an instant (division rounds down). */
  function DayOf(t: int): (n: int)
    ensures n * MsPerDay <= t < n * MsPerDay + MsPerDay
  {
    t / MsPerDay
  }

  /** The day an instant falls in is the only one whose span holds it. */
  lemma DayOfUnique(t: int, n: int)
    requires n * MsPerDay <= t < n * MsPerDay + MsPerDay
    ensures DayOf(t) == n
  {
  }

  /** Milliseconds since midnight UTC. */
  function TimeInDay(t: int): (r: int)
    ensures 0 <= r < MsPerDay && t == DayOf(t) * MsPerDay + r
  {
    t % MsPerDay
  }

  /** The day number of an instant in local time, `offsetMs` ahead of UTC. */
  function LocalDay(t: int, offsetMs: int): int {
    DayOf(t + offsetMs)
  }

  /** The instant of local midnight starting day `n` (`new Date(y, m, d)`). */
  function LocalMidnight(n: int, offsetMs: int): (t: int)
    ensures LocalDay(t, offsetMs) == n
  {
    n * MsPerDay - offsetMs
  }

  // ---------------------------------------------------------------------
  // toISOString
  // ---------------------------------------------------------------------

  /** The year field of `toISOString`: four digits, or a sign and six digits outside 0..9999. */
  function IsoYear(y: int): (r: string)
    ensures 0 <= y <= 9999 ==> r == Digits(y, 4)
  {
    if 0 <= y <= 9999 then Digits(y, 4)
    else if y < 0 then "-" + Digits(-y, 6)
    else "+" + Digits(y, 6)
  }

  /** `YYYY-MM-DD`, the date part of `toISOString`. */
  function IsoDate(c: Civil): (r: string)
    requires ValidCivil(c)
  {
    IsoYear(c.year) + "-" + Digits(c.month, 2) + "-" + Digits(c.day, 2)
  }

  /** `HH:mm:ss.sss` for a number of milliseconds since midnight. */
  function IsoClock(ms: int): string
    requires 0 <= ms < MsPerDay
  {
    Digits(ms / MsPerHour, 2) + ":" + Digits(ms / MsPerMinute % 60, 2) + ":"
    + Digits(ms / MsPerSecond % 60, 2) + "." + Digits(ms % 1000, 3)
  }

  /** `new Date(t).toISOString()`; None where it throws a RangeError. */
  function ToIsoString(t: int): Option<string> {
    if !ValidTime(t) then None
    else Some(IsoDate(CivilOf(DayOf(t))) + "T" + IsoClock(TimeInDay(t)) + "Z")
  }

  /** The date key of a day number, as `toISOString` writes it. */
  function DateKey(n: int): string {
    IsoDate(CivilOf(n))
  }

  /** `toISOString().split('T')[0]`: the UTC date key of an instant. */
  function IsoDatePart(t: int): (r: Option<string>)
    ensures r.Some? <==> ValidTime(t)
    ensures r.Some? ==> r.value == DateKey(DayOf(t))
  {
    match ToIsoString(t)
    case None => None
    case Some(s) =>
      var c := CivilOf(DayOf(t));
      assert 'T' !in IsoYear(c.year) && 'T' !in Digits(c.month, 2) && 'T' !in Digits(c.day, 2);
      BeforeConcat(IsoDate(c), 'T', IsoClock(TimeInDay(t)) + "Z");
      assert s == IsoDate(c) + ['T'] + (IsoClock(TimeInDay(t)) + "Z");
      Some(Before(s, 'T'))
  }

  /** A day whose key has a four-digit year. */
  predicate FourDigitYear(n: int) {
    0 <= CivilOf(n).year <= 9999
  }

  /**
   * With four-digit years, date keys compare as strings exactly as the days
   * they name compare in time.  The string comparisons of the event filters
   * rely on this.
   */
  lemma KeyOrder(a: int, b: int)
    requires FourDigitYear(a) && FourDigitYear(b)
    ensures Compare(DateKey(a), DateKey(b)) == Sign(a - b)
  {
    var c1, c2 := CivilOf(a), CivilOf(b);
    CompareDigits(c1.year, c2.year, 4);
    CompareDigits(c1.month, c2.month, 2);
    CompareDigits(c1.day, c2.day, 2);
    CompareDashed(Digits(c1.year, 4), Digits(c1.month, 2), Digits(c1.day, 2),
                  Digits(c2.year, 4), Digits(c2.month, 2), Digits(c2.day, 2));
    DayNumberOrder(c1, c2);
  }

  /** A four-digit-year key is ten characters long. */
  lemma KeyLength(n: int)
    requires FourDigitYear(n)
    ensures |DateKey(n)| == 10
  {
  }

  // ---------------------------------------------------------------------
  // Parsing `YYYY-MM-DD` and `YYYY-MM-DDTHH:mm:ss`
  // ---------------------------------------------------------------------

  function ParseIsoDate(s: string): (r: Option<Civil>)
    ensures r.Some? ==> ValidCivil(r.value) && 0 <= r.value.year <= 9999
  {
    if |s| != 10 || s[4] != '-' || s[7] != '-'
       || !AllDigits(s[..4]) || !AllDigits(s[5..7]) || !AllDigits(s[8..])
    then None
    else
      var c := Civil(DigitsValue(s[..4]), DigitsValue(s[5..7]), DigitsValue(s[8..]));
      if ValidCivil(c) then Some(c) else None
  }

  /** The key of a four-digit-year date parses back to that date ... */
  lemma ParseIsoDateOfKey(c: Civil)
    requires ValidCivil(c) && 0 <= c.year <= 9999
    ensures ParseIsoDate(IsoDate(c)) == Some(c)
  {
    var s := IsoDate(c);
    assert s[..4] == Digits(c.year, 4) && s[5..7] == Digits(c.month, 2) && s[8..] == Digits(c.day, 2);
    DigitsValueOfDigits(c.year, 4);
    DigitsValueOfDigits(c.month, 2);
    DigitsValueOfDigits(c.day, 2);
  }

  /** ... and a string that parses is the key of the date it names. */
  lemma KeyOfParseIsoDate(s: string)
    requires ParseIsoDate(s).Some?
    ensures IsoDate(ParseIsoDate(s).value) == s
  {
    DigitsOfDigitsValue(s[..4]);
    DigitsOfDigitsValue(s[5..7]);
    DigitsOfDigitsValue(s[8..]);
    assert s == s[..4] + "-" + s[5..7] + "-" + s[8..];
  }

  /**
   * A wall-clock time `HH:MM`, as minutes since midnight.  The date-time
   * string format of ECMAScript admits hours 00 to 24, and `24:00` is the
   * end of the day, the next day's midnight.
   */
  function ParseClock(s: string): (r: Option<int>)
    ensures r.Some? ==> 0 <= r.value <= 24 * 60
  {
    if |s| != 5 || s[2] != ':' || !AllDigits(s[..2]) || !AllDigits(s[3..]) then None
    else
      var h, m := DigitsValue(s[..2]), DigitsValue(s[3..]);
      if (h < 24 && m < 60) || (h == 24 && m == 0) then Some(h * 60 + m) else None
  }

  /** `24:00` is the last minute count; no other time with hour 24 reads. */
  lemma EndOfDayClock()
    ensures ParseClock("24:00") == Some(24 * 60)
    ensures ParseClock("24:01") == None
  {
    assert "24:00"[..2] == "24" && "24:00"[3..] == "00";
    assert "24:01"[..2] == "24" && "24:01"[3..] == "01";
    assert DigitsValue("24") == 24 && DigitsValue("00") == 0 && DigitsValue("01") == 1;
  }

  /** The instant of a local wall-clock moment; None past the `TimeClip` range. */
  function LocalInstant(c: Civil, minutes: int, seconds: int, offsetMs: int): (r: Option<int>)
    requires ValidCivil(c)
    ensures r.Some? ==> ValidTime(r.value)
    ensures r.Some? ==> r.value == LocalMidnight(DayNumber(c), offsetMs) + minutes * MsPerMinute + seconds * MsPerSecond
  {
    var t := DayNumber(c) * MsPerDay + minutes * MsPerMinute + seconds * MsPerSecond - offsetMs;
    if ValidTime(t) then Some(t) else None
  }

  /**
   * `new Date("YYYY-MM-DDTHH:mm:ss")`: a date-time without an offset is read
   * as local time.  None stands for an invalid Date.
   */
  function ParseLocalDateTime(s: string, offsetMs: int): (r: Option<int>)
    ensures r.Some? ==> ValidTime(r.value)
  {
    if |s| != 19 || s[10] != 'T' || s[16] != ':' || !AllDigits(s[17..]) then None
    else
      match (ParseIsoDate(s[..10]), ParseClock(s[11..16]))
      case (Some(c), Some(minutes)) =>
        var sec := DigitsValue(s[17..]);
        if sec < 60 && (minutes < 24 * 60 || sec == 0) then LocalInstant(c, minutes, sec, offsetMs) else None
      case _ => None
  }

  /**
   * `new Date(`${date}T${time}:00`)` for a ten-character date and a
   * five-character time: the local instant of the date at the time when both
   * parse, and an invalid Date otherwise.
   */
  lemma LocalDateTimeOf(date: string, time: string, offsetMs: int)
    requires |date| == 10 && |time| == 5
    ensures ParseLocalDateTime(date + "T" + time + ":00", offsetMs) ==
      match (ParseIsoDate(date), ParseClock(time))
      case (Some(c), Some(minutes)) => LocalInstant(c, minutes, 0, offsetMs)
      case _ => None
  {
    var s := date + "T" + time + ":00";
    assert s[..10] == date && s[10] == 'T' && s[11..16] == time && s[16] == ':' && s[17..] == "00";
    assert DigitsValue(s[17..]) == 0;
  }
}
