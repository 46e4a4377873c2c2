/**
 * The prayer-timing widget of the calendar page
 * (src/components/calendar/NamazWidget.tsx): today's record looked up by its
 * local date key, the week view of seven slots from Monday, and the
 * conditions that choose what the widget shows.
 */
module NamazWidget {
  import opened Wrappers
  import opened Strings
  import opened Dates
  import opened Events

  /** `toLocalDateKey`: the year as written by `String`, the month and day padded to two digits. */
  function ToLocalDateKey(c: Civil): (r: string)
    requires ValidCivil(c)
  {
    DecimalInt(c.year) + "-" + PadStart(Decimal(c.month), 2, '0') + "-" + PadStart(Decimal(c.day), 2, '0')
  }

  /** The key of a local day number. */
  function LocalKey(n: int): string {
    ToLocalDateKey(CivilOf(n))
  }

  /**
   * For four-digit years the local key is the `YYYY-MM-DD` form: ten
   * characters, and it reads back as the date it was made from.
   */
  lemma LocalKeyIsIsoDate(c: Civil)
    requires ValidCivil(c) && 1000 <= c.year <= 9999
    ensures ToLocalDateKey(c) == IsoDate(c)
    ensures |ToLocalDateKey(c)| == 10
    ensures ParseIsoDate(ToLocalDateKey(c)) == Some(c)
  {
    assert Pow10(3) == 1000 && Pow10(4) == 10000;
    DecimalIsDigits(c.year, 4);
    PadTwoDigits(c.month);
    PadTwoDigits(c.day);
    ParseIsoDateOfKey(c);
  }

  /** Days whose years have four digits have distinct local keys. */
  lemma LocalKeyInjective(a: int, b: int)
    requires FourDigitLocalYear(a) && FourDigitLocalYear(b)
    ensures LocalKey(a) == LocalKey(b) <==> a == b
  {
    LocalKeyIsIsoDate(CivilOf(a));
    LocalKeyIsIsoDate(CivilOf(b));
    KeyOrder(a, b);
  }

  // ---------------------------------------------------------------------
  // Looking a date up
  // ---------------------------------------------------------------------

  /** The index of the first record of the date, or the length when there is none. */
  function FirstIndex(timings: seq<NamazTiming>, key: string): (i: nat)
    ensures i <= |timings|
    ensures forall j :: 0 <= j < i ==> timings[j].date != key
    ensures i < |timings| ==> timings[i].date == key
  {
    if timings == [] then 0
    else if timings[0].date == key then 0
    else 1 + FirstIndex(timings[1..], key)
  }

  /** `timings.find(t => t.date === key)`. */
  function FindByDate(timings: seq<NamazTiming>, key: string): (r: Option<NamazTiming>)
    ensures r.None? <==> forall t :: t in timings ==> t.date != key
    ensures r.Some? ==> r.value == timings[FirstIndex(timings, key)] && r.value.date == key
  {
    var i := FirstIndex(timings, key);
    if i < |timings| then Some(timings[i]) else None
  }

  /** The time a prayer with no record shows. */
  const NoTime: string := "--:--"

  /** The placeholder of a date without a record: every prayer at `--:--`, no jumuah, no notes. */
  function Placeholder(key: string): (t: NamazTiming)
    ensures t.date == key
    ensures t.fajr == NoTime && t.zuhr == NoTime && t.asr == NoTime && t.maghrib == NoTime && t.isha == NoTime
    ensures t.jumuah1.None? && t.jumuah2.None? && t.notes.None?
  {
    NamazTiming(key, NoTime, NoTime, NoTime, NoTime, NoTime, None, None, None)
  }

  /** One slot of the week: the first record of the date, else the placeholder. */
  function Slot(timings: seq<NamazTiming>, key: string): (t: NamazTiming)
    ensures t.date == key
    ensures FindByDate(timings, key).Some? ==> t == FindByDate(timings, key).value
    ensures FindByDate(timings, key).None? ==> t == Placeholder(key)
  {
    match FindByDate(timings, key)
    case Some(found) => found
    case None => Placeholder(key)
  }

  // ---------------------------------------------------------------------
  // The week
  // ---------------------------------------------------------------------

  /** The Monday `getWeekTimings` starts from: the same week's, with Sunday ending its week. */
  function MondayOf(today: int): (monday: int)
    ensures Weekday(monday) == Monday
    ensures monday <= today <= monday + 6
  {
    var day := Weekday(today);
    var diff := today - day + (if day == 0 then -6 else 1);
    WeekdayShift(today, diff - today + 7);
    assert Weekday(diff) == Weekday(today + (diff - today + 7));
    diff
  }

  /**
   * The seven slots of the week view, Monday to Sunday, for a function that
   * names days by their keys.  The widget's function is `LocalKey`; the
   * results below hold for any.
   */
  function WeekRows(timings: seq<NamazTiming>, today: int, dateKey: int -> string): (rows: seq<NamazTiming>)
    ensures |rows| == 7
  {
    seq(7, i => Slot(timings, dateKey(MondayOf(today) + i)))
  }

  /**
   * `getWeekTimings`: the loop collects the keys of the seven days from
   * Monday, and each key becomes its slot.
   */
  method GetWeekTimings(timings: seq<NamazTiming>, today: int, dateKey: int -> string) returns (rows: seq<NamazTiming>)
    ensures rows == WeekRows(timings, today, dateKey)
    ensures forall i :: 0 <= i < 7 ==> rows[i].date == dateKey(MondayOf(today) + i)
    ensures rows[today - MondayOf(today)].date == dateKey(today)
  {
    var startOfWeek := MondayOf(today);
    var weekDates: seq<string> := [];
    for i := 0 to 7
      invariant |weekDates| == i
      invariant forall j :: 0 <= j < i ==> weekDates[j] == dateKey(startOfWeek + j)
    {
      weekDates := weekDates + [dateKey(startOfWeek + i)];
    }
    rows := seq(7, i requires 0 <= i < 7 => Slot(timings, weekDates[i]));
    assert startOfWeek + (today - startOfWeek) == today;
  }

  /** Today's row is in the week view, and it is today's record when there is one. */
  lemma TodayInWeek(timings: seq<NamazTiming>, today: int, dateKey: int -> string)
    ensures var i := today - MondayOf(today);
      0 <= i < 7 && WeekRows(timings, today, dateKey)[i] == Slot(timings, dateKey(today))
    ensures FindByDate(timings, dateKey(today)).Some? ==>
      FindByDate(timings, dateKey(today)).value in WeekRows(timings, today, dateKey)
  {
    var m := MondayOf(today);
    var i := today - m;
    assert m + i == today;
  }

  /** A day whose local key has a four-digit year. */
  predicate FourDigitLocalYear(n: int) {
    1000 <= CivilOf(n).year <= 9999
  }

  /** Row `i` of the week carries the key of the `i`-th day from Monday. */
  lemma RowDate(timings: seq<NamazTiming>, today: int, dateKey: int -> string, i: int)
    requires 0 <= i < 7
    ensures WeekRows(timings, today, dateKey)[i].date == dateKey(MondayOf(today) + i)
  {
  }

  /**
   * When the key function tells the seven days apart, as `LocalKey` does for
   * four-digit years (`LocalKeyInjective`), the rows carry seven different dates.
   */
  lemma WeekDatesDistinct(timings: seq<NamazTiming>, today: int, dateKey: int -> string)
    requires forall a, b :: MondayOf(today) <= a < b < MondayOf(today) + 7 ==> dateKey(a) != dateKey(b)
    ensures forall i, j :: 0 <= i < j < 7 ==>
      WeekRows(timings, today, dateKey)[i].date != WeekRows(timings, today, dateKey)[j].date
  {
    var m := MondayOf(today);
    var rows := WeekRows(timings, today, dateKey);
    forall i, j | 0 <= i < j < 7
      ensures rows[i].date != rows[j].date
    {
      RowDate(timings, today, dateKey, i);
      RowDate(timings, today, dateKey, j);
    }
  }

  // ---------------------------------------------------------------------
  // Formatting and display
  // ---------------------------------------------------------------------

  /**
   * `formatTime`: the placeholder passes through; any other time goes to the
   * locale formatter, which is a parameter here.
   */
  function FormatTime(time: string, localeFormat: string -> string): (r: string)
    ensures time == NoTime ==> r == NoTime
    ensures time != NoTime ==> r == localeFormat(time)
  {
    if time == NoTime then time else localeFormat(time)
  }

  /** Every time of a placeholder row renders as `--:--`, whatever the formatter. */
  lemma PlaceholderRendersBlank(key: string, localeFormat: string -> string)
    ensures var t := Placeholder(key);
      FormatTime(t.fajr, localeFormat) == NoTime && FormatTime(t.zuhr, localeFormat) == NoTime
      && FormatTime(t.asr, localeFormat) == NoTime && FormatTime(t.maghrib, localeFormat) == NoTime
      && FormatTime(t.isha, localeFormat) == NoTime
  {
  }

  /** What the widget shows. */
  datatype View =
    | NoTimingsCard
    | TodayView(timing: NamazTiming, jumuah: bool, secondJumuah: bool)
    | WeekView(rows: seq<NamazTiming>, jumuah: bool, secondJumuah: bool)

  /** The Jumuah block: today's record has a first time, the view is collapsed and today is a Friday. */
  predicate ShowJumuah(todayTiming: Option<NamazTiming>, expanded: bool, weekday: int) {
    todayTiming.Some? && Truthy(todayTiming.value.jumuah1) && !expanded && weekday == Friday
  }

  /** The second Jumuah time, inside the block, when the record has one. */
  predicate ShowSecondJumuah(todayTiming: Option<NamazTiming>, expanded: bool, weekday: int) {
    ShowJumuah(todayTiming, expanded, weekday) && Truthy(todayTiming.value.jumuah2)
  }

  /** The widget for the local day `today` and the `expanded` flag. */
  function WidgetView(timings: seq<NamazTiming>, today: int, expanded: bool): (v: View)
    ensures v.NoTimingsCard? <==> FindByDate(timings, LocalKey(today)).None? && !expanded
    ensures v.TodayView? <==> FindByDate(timings, LocalKey(today)).Some? && !expanded
    ensures v.WeekView? <==> expanded
    ensures v.TodayView? ==> v.timing == FindByDate(timings, LocalKey(today)).value
    ensures v.WeekView? ==> v.rows == WeekRows(timings, today, LocalKey)
    ensures v.TodayView? ==> (v.jumuah <==> Truthy(v.timing.jumuah1) && Weekday(today) == Friday)
    ensures v.TodayView? ==> (v.secondJumuah <==> v.jumuah && Truthy(v.timing.jumuah2))
    ensures v.WeekView? ==> !v.jumuah && !v.secondJumuah
  {
    var todayTiming := FindByDate(timings, LocalKey(today));
    var wd := Weekday(today);
    if todayTiming.None? && !expanded then NoTimingsCard
    else if !expanded then
      TodayView(todayTiming.value, ShowJumuah(todayTiming, expanded, wd), ShowSecondJumuah(todayTiming, expanded, wd))
    else
      WeekView(WeekRows(timings, today, LocalKey), ShowJumuah(todayTiming, expanded, wd), ShowSecondJumuah(todayTiming, expanded, wd))
  }

  /** On a Friday with a first Jumuah time in today's record, the collapsed widget shows the block. */
  lemma FridayShowsJumuah(timings: seq<NamazTiming>, today: int)
    requires Weekday(today) == Friday
    requires FindByDate(timings, LocalKey(today)).Some? && Truthy(FindByDate(timings, LocalKey(today)).value.jumuah1)
    ensures WidgetView(timings, today, false).TodayView? && WidgetView(timings, today, false).jumuah
  {
  }

  /** The `expanded` state of the widget and its toggle button. */
  class WidgetState {
    var expanded: bool

    constructor()
      ensures !expanded
    {
      expanded := false;
    }

    /** `setExpanded(!expanded)`. */
    method Toggle()
      modifies this
      ensures expanded == !old(expanded)
    {
      expanded := !expanded;
    }
  }
}
