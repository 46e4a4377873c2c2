/**
 * The event detail dialog (src/components/calendar/EventDetailModal.tsx):
 * the location it shows, the iCalendar file it offers for download and the
 * parameters of its Google Calendar link.  Dates are read as local time with
 * a fixed offset from UTC, a parameter here.
 */
module EventDetailModal {
  import opened Wrappers
  import opened Strings
  import opened Dates
  import opened Events

  /** The venue shown for Local and Regional events. */
  const Venue: string := "West Midlands Mosque, Birmingham"

  /** `getDisplayLocation`: the venue for Local and Regional events, the event's own location for National ones. */
  function DisplayLocation(e: Event): (r: string)
    ensures e.scope == National ==> r == e.location
    ensures e.scope != National ==> r == Venue
  {
    if e.scope.Local? || e.scope.Regional? then Venue else e.location
  }

  // ---------------------------------------------------------------------
  // Start and end
  // ---------------------------------------------------------------------

  const MsPerTwentyFourHours: int := 24 * 60 * 60 * 1000
  const MsPerOneHour: int := 60 * 60 * 1000

  /** `new Date(`${start_date}T${start_time || '00:00'}:00`)`; None for an invalid Date. */
  function StartInstant(e: Event, offsetMs: int): (r: Option<int>)
    ensures r.Some? ==> ValidTime(r.value)
  {
    ParseLocalDateTime(e.startDate + "T" + OrElse(e.startTime, "00:00") + ":00", offsetMs)
  }

  /** The start is the local moment the event's date and time name, midnight when it has no time. */
  lemma StartInstantOf(e: Event, offsetMs: int, c: Civil, minutes: int)
    requires ParseIsoDate(e.startDate) == Some(c)
    requires ParseClock(OrElse(e.startTime, "00:00")) == Some(minutes)
    ensures StartInstant(e, offsetMs) == LocalInstant(c, minutes, 0, offsetMs)
    ensures !Truthy(e.startTime) ==> minutes == 0
  {
    var time := OrElse(e.startTime, "00:00");
    assert |e.startDate| == 10 && |time| == 5;
    LocalDateTimeOf(e.startDate, time, offsetMs);
    if !Truthy(e.startTime) {
      assert time == "00:00" && time[..2] == "00" && time[3..] == "00";
      assert DigitsValue(time[..2]) == 0 && DigitsValue(time[3..]) == 0;
    }
  }

  /** The end: the event's end date and time when it has both, else an hour or a whole day after the start. */
  function EndInstant(e: Event, offsetMs: int): (r: Option<int>)
    ensures r.Some? ==> ValidTime(r.value)
    ensures Truthy(e.endDate) && Truthy(e.endTime) ==>
      r == ParseLocalDateTime(e.endDate.value + "T" + e.endTime.value + ":00", offsetMs)
    ensures !(Truthy(e.endDate) && Truthy(e.endTime)) && r.Some? ==>
      StartInstant(e, offsetMs).Some?
      && r.value == StartInstant(e, offsetMs).value + (if e.allDay then MsPerDay else MsPerHour)
      && r.value > StartInstant(e, offsetMs).value
    ensures !(Truthy(e.endDate) && Truthy(e.endTime)) && StartInstant(e, offsetMs).None? ==> r.None?
  {
    if Truthy(e.endDate) && Truthy(e.endTime) then
      ParseLocalDateTime(e.endDate.value + "T" + e.endTime.value + ":00", offsetMs)
    else
      match StartInstant(e, offsetMs)
      case None => None
      case Some(t) =>
        var end := t + (if e.allDay then MsPerTwentyFourHours else MsPerOneHour);
        if ValidTime(end) then Some(end) else None
  }

  /**
   * With both an end date and an end time, the end is the local moment they
   * name, whatever the start; a date or a time that does not read gives an
   * invalid Date.
   */
  lemma EndInstantOf(e: Event, offsetMs: int)
    requires Truthy(e.endDate) && Truthy(e.endTime)
    requires |e.endDate.value| == 10 && |e.endTime.value| == 5
    ensures EndInstant(e, offsetMs) ==
      match (ParseIsoDate(e.endDate.value), ParseClock(e.endTime.value))
      case (Some(c), Some(minutes)) => LocalInstant(c, minutes, 0, offsetMs)
      case _ => None
  {
    LocalDateTimeOf(e.endDate.value, e.endTime.value, offsetMs);
  }

  // ---------------------------------------------------------------------
  // formatICSDate
  // ---------------------------------------------------------------------

  /** The characters `/[-:]/g` removes. */
  const IsoSeparators: set<char> := {'-', ':'}

  /** `toISOString().replace(/[-:]/g, '').split('.')[0] + 'Z'`; None where `toISOString` throws. */
  function FormatIcsDate(t: int): (r: Option<string>)
    ensures r.Some? <==> ValidTime(t)
  {
    match ToIsoString(t)
    case None => None
    case Some(iso) => Some(Before(Without(iso, IsoSeparators), '.') + "Z")
  }

  lemma WithoutStep(a: string, b: string, aw: string, bw: string)
    requires Without(a, IsoSeparators) == aw && Without(b, IsoSeparators) == bw
    ensures Without(a + b, IsoSeparators) == aw + bw
  {
    WithoutConcat(a, b, IsoSeparators);
  }

  /** Dropping the dashes of `YYYY-MM-DD`. */
  lemma DatePartWithout(y: string, mo: string, d: string)
    requires AllDigits(y) && AllDigits(mo) && AllDigits(d)
    ensures Without(y + "-" + mo + "-" + d, IsoSeparators) == y + mo + d
  {
    var D := IsoSeparators;
    WithoutNone(y, D); WithoutNone(mo, D); WithoutNone(d, D);
    assert Without("-", D) == [];
    WithoutStep(y, "-", y, []);
    assert y + [] == y;
    WithoutStep(y + "-", mo, y, mo);
    WithoutStep(y + "-" + mo, "-", y + mo, []);
    assert y + mo + [] == y + mo;
    WithoutStep(y + "-" + mo + "-", d, y + mo, d);
  }

  /** Dropping the colons of `HH:mm:ss.sss`. */
  lemma ClockPartWithout(hh: string, mi: string, ss: string, frac: string)
    requires AllDigits(hh) && AllDigits(mi) && AllDigits(ss) && AllDigits(frac)
    ensures Without(hh + ":" + mi + ":" + ss + "." + frac, IsoSeparators) == hh + mi + ss + "." + frac
  {
    var D := IsoSeparators;
    WithoutNone(hh, D); WithoutNone(mi, D); WithoutNone(ss, D); WithoutNone(frac, D);
    assert Without(":", D) == [] && Without(".", D) == ".";
    WithoutStep(hh, ":", hh, []);
    assert hh + [] == hh;
    WithoutStep(hh + ":", mi, hh, mi);
    WithoutStep(hh + ":" + mi, ":", hh + mi, []);
    assert hh + mi + [] == hh + mi;
    WithoutStep(hh + ":" + mi + ":", ss, hh + mi, ss);
    WithoutStep(hh + ":" + mi + ":" + ss, ".", hh + mi + ss, ".");
    WithoutStep(hh + ":" + mi + ":" + ss + ".", frac, hh + mi + ss + ".", frac);
  }

  /** Dropping the separators of `date T clock Z`, part by part. */
  lemma IsoWithout(date: string, dateW: string, clock: string, clockW: string)
    requires Without(date, IsoSeparators) == dateW && Without(clock, IsoSeparators) == clockW
    ensures Without(date + "T" + clock + "Z", IsoSeparators) == dateW + "T" + clockW + "Z"
  {
    var D := IsoSeparators;
    assert Without("T", D) == "T" && Without("Z", D) == "Z";
    WithoutStep(date, "T", dateW, "T");
    WithoutStep(date + "T", clock, dateW + "T", clockW);
    WithoutStep(date + "T" + clock, "Z", dateW + "T" + clockW, "Z");
  }

  /** `split('.')[0]` keeps what comes before the fraction of a second. */
  lemma BeforeFraction(dateW: string, hhmmss: string, frac: string)
    requires forall i :: 0 <= i < |dateW| ==> IsDigit(dateW[i])
    requires forall i :: 0 <= i < |hhmmss| ==> IsDigit(hhmmss[i])
    ensures Before(dateW + "T" + (hhmmss + "." + frac) + "Z", '.') == dateW + "T" + hhmmss
  {
    var head := dateW + "T" + hhmmss;
    assert dateW + "T" + (hhmmss + "." + frac) + "Z" == head + ['.'] + (frac + "Z");
    assert forall i :: 0 <= i < |head| ==> head[i] != '.';
    BeforeConcat(head, '.', frac + "Z");
  }

  /** The UTC form `YYYYMMDDTHHMMSSZ` of section 3.3.5 of RFC 5545, for a date and a time of day. */
  function UtcStamp(c: Civil, ms: int): (r: string)
    requires ValidCivil(c) && 0 <= c.year <= 9999 && 0 <= ms < MsPerDay
    ensures |r| == 16
    ensures '\r' !in r
  {
    var date := Digits(c.year, 4) + Digits(c.month, 2) + Digits(c.day, 2);
    var clock := Digits(ms / MsPerHour, 2) + Digits(ms / MsPerMinute % 60, 2) + Digits(ms / MsPerSecond % 60, 2);
    assert '\r' !in date && '\r' !in clock;
    date + "T" + clock + "Z"
  }

  /**
   * For four-digit years the stamp is the UTC form of the instant: its UTC
   * date and its hour, minute and second, with the milliseconds dropped.
   */
  lemma IcsStampShape(t: int)
    requires ValidTime(t) && FourDigitYear(DayOf(t))
    ensures FormatIcsDate(t) == Some(UtcStamp(CivilOf(DayOf(t)), TimeInDay(t)))
  {
    var c := CivilOf(DayOf(t));
    var ms := TimeInDay(t);
    var y, mo, d := Digits(c.year, 4), Digits(c.month, 2), Digits(c.day, 2);
    var hh, mi, ss, frac := Digits(ms / MsPerHour, 2), Digits(ms / MsPerMinute % 60, 2), Digits(ms / MsPerSecond % 60, 2), Digits(ms % 1000, 3);
    var date, clock := IsoDate(c), IsoClock(ms);
    assert date == y + "-" + mo + "-" + d;
    assert clock == hh + ":" + mi + ":" + ss + "." + frac;
    assert ToIsoString(t) == Some(date + "T" + clock + "Z");
    DatePartWithout(y, mo, d);
    ClockPartWithout(hh, mi, ss, frac);
    IsoWithout(date, y + mo + d, clock, hh + mi + ss + "." + frac);
    BeforeFraction(y + mo + d, hh + mi + ss, frac);
  }

  // ---------------------------------------------------------------------
  // generateICS
  // ---------------------------------------------------------------------

  /** The twelve content lines of the exported file, for the two stamps. */
  function IcsLines(e: Event, dtStart: string, dtEnd: string): (lines: seq<string>)
    ensures |lines| == 12
    ensures lines[0] == "BEGIN:VCALENDAR" && lines[11] == "END:VCALENDAR"
    ensures lines[1] == "VERSION:2.0" && lines[2] == "PRODID:-//West Midlands Mosque//Calendar//EN"
    ensures lines[3] == "BEGIN:VEVENT" && lines[10] == "END:VEVENT"
    ensures lines[4] == "UID:" + e.id + "@westmidlandsmosque.org"
    ensures lines[5] == "DTSTART:" + dtStart && lines[6] == "DTEND:" + dtEnd
    ensures lines[7] == "SUMMARY:" + e.title
    ensures lines[8] == "DESCRIPTION:" + OrElse(e.description, "")
    ensures lines[9] == "LOCATION:" + DisplayLocation(e)
  {
    [ "BEGIN:VCALENDAR",
      "VERSION:2.0",
      "PRODID:-//West Midlands Mosque//Calendar//EN",
      "BEGIN:VEVENT",
      "UID:" + e.id + "@westmidlandsmosque.org",
      "DTSTART:" + dtStart,
      "DTEND:" + dtEnd,
      "SUMMARY:" + e.title,
      "DESCRIPTION:" + OrElse(e.description, ""),
      "LOCATION:" + DisplayLocation(e),
      "END:VEVENT",
      "END:VCALENDAR" ]
  }

  /** The stamps of the start and the end; None where either Date is invalid. */
  function Stamps(e: Event, offsetMs: int): (r: Option<(string, string)>)
    ensures r.Some? <==> StartInstant(e, offsetMs).Some? && EndInstant(e, offsetMs).Some?
  {
    match (StartInstant(e, offsetMs), EndInstant(e, offsetMs))
    case (Some(s), Some(t)) => Some((FormatIcsDate(s).value, FormatIcsDate(t).value))
    case _ => None
  }

  /** The text of the `.ics` file, the lines joined by CR LF; None where `toISOString` throws. */
  function IcsContent(e: Event, offsetMs: int): (r: Option<string>)
    ensures r.Some? <==> Stamps(e, offsetMs).Some?
  {
    match Stamps(e, offsetMs)
    case None => None
    case Some((dtStart, dtEnd)) => Some(Join(IcsLines(e, dtStart, dtEnd), Crlf))
  }

  /** The file opens with BEGIN:VCALENDAR, closes with END:VCALENDAR and has no CR LF after it. */
  lemma IcsFraming(e: Event, dtStart: string, dtEnd: string)
    ensures var content := Join(IcsLines(e, dtStart, dtEnd), Crlf);
      |content| >= 15 && content[..15] == "BEGIN:VCALENDAR"
      && content[|content| - 13..] == "END:VCALENDAR"
  {
    var lines := IcsLines(e, dtStart, dtEnd);
    JoinStartsWithFirst(lines, Crlf);
    JoinEndsWithLast(lines, Crlf);
  }

  /** Lines without a carriage return come back from their CR LF join unchanged. */
  lemma JoinedLinesRecovered(lines: seq<string>)
    requires |lines| >= 1
    requires forall i :: 0 <= i < |lines| ==> '\r' !in lines[i]
    ensures SplitCrlf(Join(lines, Crlf)) == lines
  {
    SplitJoin(lines);
    SplitEachWithoutCr(lines);
  }

  /** None of the fixed lines of the file holds a carriage return ... */
  lemma FixedLinesNoCr()
    ensures '\r' !in "BEGIN:VCALENDAR" && '\r' !in "VERSION:2.0" && '\r' !in "BEGIN:VEVENT"
    ensures '\r' !in "END:VEVENT" && '\r' !in "END:VCALENDAR"
  {
  }

  /** ... nor does the product identifier ... */
  lemma ProdIdNoCr()
    ensures '\r' !in "PRODID:-//West Midlands Mosque//Calendar//EN"
  {
  }

  /** ... nor the fixed text of the other lines ... */
  lemma FieldPrefixesNoCr()
    ensures '\r' !in "UID:" && '\r' !in "DTSTART:" && '\r' !in "DTEND:"
    ensures '\r' !in "SUMMARY:" && '\r' !in "DESCRIPTION:" && '\r' !in "LOCATION:"
  {
  }

  /** ... nor the domain of the identifier and the venue. */
  lemma DomainAndVenueNoCr()
    ensures '\r' !in "@westmidlandsmosque.org" && '\r' !in Venue
  {
  }

  /**
   * When no text field holds a carriage return, splitting the file at CR LF
   * gives back exactly the twelve lines.
   */
  lemma IcsLinesRecovered(e: Event, dtStart: string, dtEnd: string)
    requires '\r' !in e.id && '\r' !in e.title && '\r' !in OrElse(e.description, "") && '\r' !in e.location
    requires '\r' !in dtStart && '\r' !in dtEnd
    ensures SplitCrlf(Join(IcsLines(e, dtStart, dtEnd), Crlf)) == IcsLines(e, dtStart, dtEnd)
  {
    var lines := IcsLines(e, dtStart, dtEnd);
    FixedLinesNoCr();
    ProdIdNoCr();
    FieldPrefixesNoCr();
    DomainAndVenueNoCr();
    assert '\r' !in lines[4] && '\r' !in lines[5] && '\r' !in lines[6];
    assert '\r' !in lines[7] && '\r' !in lines[8] && '\r' !in lines[9];
    JoinedLinesRecovered(lines);
  }

  /**
   * The exported file: for four-digit years and text fields without a
   * carriage return, reading it back line by line yields exactly the twelve
   * lines, with the UTC stamps of the start and the end.
   */
  lemma IcsContentLines(e: Event, offsetMs: int)
    requires Stamps(e, offsetMs).Some?
    requires FourDigitYear(DayOf(StartInstant(e, offsetMs).value)) && FourDigitYear(DayOf(EndInstant(e, offsetMs).value))
    requires '\r' !in e.id && '\r' !in e.title && '\r' !in OrElse(e.description, "") && '\r' !in e.location
    ensures var start, end := StartInstant(e, offsetMs).value, EndInstant(e, offsetMs).value;
      var lines := IcsLines(e, UtcStamp(CivilOf(DayOf(start)), TimeInDay(start)), UtcStamp(CivilOf(DayOf(end)), TimeInDay(end)));
      IcsContent(e, offsetMs) == Some(Join(lines, Crlf)) && SplitCrlf(IcsContent(e, offsetMs).value) == lines
  {
    var start, end := StartInstant(e, offsetMs).value, EndInstant(e, offsetMs).value;
    IcsStampShape(start);
    IcsStampShape(end);
    IcsLinesRecovered(e, UtcStamp(CivilOf(DayOf(start)), TimeInDay(start)), UtcStamp(CivilOf(DayOf(end)), TimeInDay(end)));
  }

  /** A line holding a CR LF splits into at least two pieces. */
  lemma SplitsAtCrlf(s: string, a: string, b: string)
    requires s == a + Crlf + b
    ensures |SplitCrlf(s)| >= 2
  {
    SplitAround(a, b);
  }

  /**
   * Text is passed through unescaped: a CR LF inside the description splits
   * the file into more than twelve lines.
   */
  lemma DescriptionBreaksLines(e: Event, dtStart: string, dtEnd: string, a: string, b: string)
    requires e.description == Some(a + Crlf + b)
    ensures |SplitCrlf(Join(IcsLines(e, dtStart, dtEnd), Crlf))| > 12
  {
    var lines := IcsLines(e, dtStart, dtEnd);
    assert lines[8] == ("DESCRIPTION:" + a) + Crlf + b;
    SplitsAtCrlf(lines[8], "DESCRIPTION:" + a, b);
    JoinedLinesGrow(lines, 8);
  }

  /** A line that holds a CR LF makes the split file longer than the list of lines. */
  lemma JoinedLinesGrow(lines: seq<string>, k: int)
    requires 0 <= k < |lines| && |SplitCrlf(lines[k])| >= 2
    ensures |SplitCrlf(Join(lines, Crlf))| > |lines|
  {
    SplitJoin(lines);
    SplitEachLength(lines);
  }

  // ---------------------------------------------------------------------
  // The file name
  // ---------------------------------------------------------------------

  /**
   * `replace(/[^a-z0-9]/gi, '_')`.  Without the `u` flag the pattern matches
   * UTF-16 code units, so an ASCII letter or digit is kept, any other
   * character of the Basic Multilingual Plane becomes one '_', and a
   * character beyond it, a surrogate pair, becomes two.
   */
  function ReplaceNonAlnum(s: string): (r: string)
    ensures |r| == Utf16Length(s)
    ensures forall i :: 0 <= i < |r| ==> IsAsciiAlnum(r[i]) || r[i] == '_'
    ensures InBmp(s) ==> forall i :: 0 <= i < |s| ==> r[i] == if IsAsciiAlnum(s[i]) then s[i] else '_'
  {
    if s == [] then []
    else
      var head := if IsAsciiAlnum(s[0]) then [s[0]] else Repeat('_', Utf16Units(s[0]));
      var r := head + ReplaceNonAlnum(s[1..]);
      assert InBmp(s) ==> |head| == 1 && InBmp(s[1..]) by {
        if InBmp(s) {
          assert s[0] as int < 0x1_0000;
          forall i | 0 <= i < |s[1..]| ensures s[1..][i] as int < 0x1_0000 {
            assert s[1..][i] == s[i + 1];
          }
        }
      }
      r
  }

  /** The replacement works character by character: it distributes over concatenation. */
  lemma {:induction false} ReplaceNonAlnumConcat(a: string, b: string)
    ensures ReplaceNonAlnum(a + b) == ReplaceNonAlnum(a) + ReplaceNonAlnum(b)
  {
    if a == [] {
      assert a + b == b;
    } else {
      assert (a + b)[0] == a[0] && (a + b)[1..] == a[1..] + b;
      ReplaceNonAlnumConcat(a[1..], b);
    }
  }

  /** The download's name: the slugged, lower-cased title and `.ics`. */
  function FileName(title: string): (r: string)
  {
    LowerAscii(ReplaceNonAlnum(title)) + ".ics"
  }

  /**
   * The name is four code units longer than the title's `length`, ends in
   * `.ics`, and before it holds only lower-case letters, digits and '_'.
   * When the title lies in the Basic Multilingual Plane, each of those
   * characters stands for the title's character at the same place.
   */
  lemma FileNameShape(title: string)
    ensures |FileName(title)| == Utf16Length(title) + 4
    ensures FileName(title)[Utf16Length(title)..] == ".ics"
    ensures forall i :: 0 <= i < Utf16Length(title) ==>
      var c := FileName(title)[i];
      'a' <= c <= 'z' || IsDigit(c) || c == '_'
    ensures InBmp(title) ==> forall i :: 0 <= i < |title| ==>
      var c := FileName(title)[i];
      && (IsAsciiAlnum(title[i]) <==> c != '_')
      && (IsAsciiAlnum(title[i]) ==> c == AsciiLower(title[i]))
  {
  }

  /** A title of one character outside the Basic Multilingual Plane gives two '_', not one. */
  lemma AstralTitleFileName()
    ensures FileName("\U{1F389}") == "__.ics"
  {
    var party := "\U{1F389}";
    assert party[1..] == [];
    assert ReplaceNonAlnum(party) == Repeat('_', 2) + [];
    assert LowerAscii("__") == "__";
  }

  // ---------------------------------------------------------------------
  // addToGoogleCalendar
  // ---------------------------------------------------------------------

  /** The link's parameter list for the given start and end stamps. */
  function LinkParams(e: Event, start: string, end: string): (ps: seq<(string, string)>)
    ensures |ps| == 5
    ensures ps[0] == ("action", "TEMPLATE") && ps[1] == ("text", e.title)
    ensures ps[2] == ("dates", start + "/" + end)
    ensures ps[3] == ("details", OrElse(e.description, "")) && ps[4] == ("location", DisplayLocation(e))
  {
    [("action", "TEMPLATE"), ("text", e.title), ("dates", start + "/" + end),
     ("details", OrElse(e.description, "")), ("location", DisplayLocation(e))]
  }

  /** The query parameters of the Google Calendar link, in order; None where a Date is invalid. */
  function GoogleParams(e: Event, offsetMs: int): (r: Option<seq<(string, string)>>)
    ensures r.Some? <==> Stamps(e, offsetMs).Some?
    ensures r.Some? ==> (|r.value| == 5
      && r.value[0] == ("action", "TEMPLATE")
      && r.value[1] == ("text", e.title)
      && r.value[2] == ("dates", Stamps(e, offsetMs).value.0 + "/" + Stamps(e, offsetMs).value.1)
      && r.value[3] == ("details", OrElse(e.description, ""))
      && r.value[4] == ("location", DisplayLocation(e)))
  {
    var stamps := Stamps(e, offsetMs);
    if stamps.None? then None
    else
      Some(LinkParams(e, stamps.value.0, stamps.value.1))
  }

  /** The link's dates are the stamps of the file's DTSTART and DTEND lines. */
  lemma GoogleDatesMatchIcs(e: Event, offsetMs: int)
    requires Stamps(e, offsetMs).Some?
    ensures var lines := IcsLines(e, Stamps(e, offsetMs).value.0, Stamps(e, offsetMs).value.1);
      GoogleParams(e, offsetMs).value[2].1 == lines[5][|"DTSTART:"|..] + "/" + lines[6][|"DTEND:"|..]
  {
  }
}
