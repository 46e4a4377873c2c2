/**
 * The weekend panel of the calendar page
 * (src/components/calendar/WeekendSection.tsx): a Friday-to-Sunday window
 * computed from the local date, and the events of the selections that start
 * inside it, in input order.
 */
module WeekendSection {
  import opened Wrappers
  import opened Strings
  import opened Dates
  import opened Events
  import EventsList

  /**
   * The first day of the window, for the local day `today`.  Exactly like the
   * source, a Sunday fails the `getDay() >= 5` test, so its `-2` branch is
   * never taken and the window is the coming Friday.
   */
  method WindowStart(today: int) returns (start: int)
    ensures Weekday(start) == Friday
    ensures Weekday(today) == Friday ==> start == today
    ensures Weekday(today) == Saturday ==> start == today - 1
    ensures Weekday(today) == Sunday ==> start == today + 5
    ensures Weekday(today) != Saturday ==> today <= start && forall d :: today <= d < start ==> Weekday(d) != Friday
  {
    var wd := Weekday(today);
    var daysToFriday: int;
    if wd >= 5 {
      daysToFriday := if wd == 0 then -2 else 5 - wd;
    } else {
      daysToFriday := 5 - wd;
    }
    start := today + daysToFriday;
    WeekdayShift(today, daysToFriday);
    forall d | today <= d < start ensures Weekday(d) != Friday {
      WeekdayShift(today, d - today);
    }
  }

  /** `endDate.setDate(startDate.getDate() + 2)`: the window is three consecutive local days. */
  function WindowEnd(start: int): (end: int)
    ensures end - start == 2
    ensures Weekday(start) == Friday ==> Weekday(end) == Sunday
  {
    WeekdayShift(start, 2);
    start + 2
  }

  /** `isCurrentWeekend`: the title reads "This Weekend" on Friday, Saturday and Sunday. */
  predicate IsCurrentWeekend(wd: int) {
    wd >= 5 || wd == 0
  }

  /** The key of a local day, `toISOString().split('T')[0]` of its local midnight. */
  function WindowKey(n: int, offsetMs: int): (r: Option<string>)
    ensures r.Some? <==> ValidTime(LocalMidnight(n, offsetMs))
  {
    IsoDatePart(LocalMidnight(n, offsetMs))
  }

  /**
   * For offsets under a day the key is the local day's own key at UTC and
   * west of it, and the key of the day before east of UTC.
   */
  lemma WindowKeyDay(n: int, offsetMs: int)
    requires -MsPerDay < offsetMs < MsPerDay && ValidTime(LocalMidnight(n, offsetMs))
    ensures offsetMs <= 0 ==> WindowKey(n, offsetMs) == Some(DateKey(n))
    ensures offsetMs > 0 ==> WindowKey(n, offsetMs) == Some(DateKey(n - 1))
  {
    var t := LocalMidnight(n, offsetMs);
    if offsetMs <= 0 {
      DayOfUnique(t, n);
    } else {
      DayOfUnique(t, n - 1);
    }
  }

  /** The window's `filter` callback: the list's selections, then start date inside the keys. */
  predicate InWindow(e: Event, f: FilterState, startKey: string, endKey: string) {
    EventsList.MatchesFilters(e, f) && LexLe(startKey, e.startDate) && LexLe(e.startDate, endKey)
  }

  /** The window events among `events`, in input order. */
  function WindowEvents(events: seq<Event>, f: FilterState, startKey: string, endKey: string): (r: seq<Event>)
    ensures forall e :: e in r ==> InWindow(e, f, startKey, endKey)
    ensures forall e {:trigger multiset(r)[e]} :: multiset(r)[e] == if InWindow(e, f, startKey, endKey) then multiset(events)[e] else 0
  {
    if events == [] then []
    else
      var rest := WindowEvents(events[1..], f, startKey, endKey);
      assert events == [events[0]] + events[1..];
      if InWindow(events[0], f, startKey, endKey) then [events[0]] + rest else rest
  }

  /** The filter works event by event: it keeps input order and nothing else. */
  lemma {:induction false} WindowEventsConcat(a: seq<Event>, b: seq<Event>, f: FilterState, startKey: string, endKey: string)
    ensures WindowEvents(a + b, f, startKey, endKey) == WindowEvents(a, f, startKey, endKey) + WindowEvents(b, f, startKey, endKey)
  {
    if a == [] {
      assert a + b == b;
    } else {
      assert (a + b)[1..] == a[1..] + b;
      WindowEventsConcat(a[1..], b, f, startKey, endKey);
    }
  }

  /** When every event is in the window the list is the input itself. */
  lemma {:induction false} WindowEventsAll(events: seq<Event>, f: FilterState, startKey: string, endKey: string)
    requires forall e :: e in events ==> InWindow(e, f, startKey, endKey)
    ensures WindowEvents(events, f, startKey, endKey) == events
  {
    if events != [] {
      assert forall e :: e in events[1..] ==> e in events;
      WindowEventsAll(events[1..], f, startKey, endKey);
    }
  }

  /**
   * `getWeekendEvents` for the clock reading `nowMs` and a fixed local offset;
   * None where `toISOString` throws for a key.
   */
  method GetWeekendEvents(events: seq<Event>, f: FilterState, nowMs: int, offsetMs: int) returns (r: Option<seq<Event>>)
    ensures r.Some? <==>
      (var start := WindowStartDay(LocalDay(nowMs, offsetMs));
       WindowKey(start, offsetMs).Some? && WindowKey(start + 2, offsetMs).Some?)
    ensures r.Some? ==>
      (var start := WindowStartDay(LocalDay(nowMs, offsetMs));
       r.value == WindowEvents(events, f, WindowKey(start, offsetMs).value, WindowKey(start + 2, offsetMs).value))
  {
    var today := LocalDay(nowMs, offsetMs);
    var start := WindowStart(today);
    WindowStartDayIsStart(today, start);
    var end := WindowEnd(start);
    var startStr := WindowKey(start, offsetMs);
    var endStr := WindowKey(end, offsetMs);
    if startStr.None? || endStr.None? {
      return None;
    }
    r := Some(WindowEvents(events, f, startStr.value, endStr.value));
  }

  /** The window start as a function of the local day, for stating results and lemmas. */
  function WindowStartDay(today: int): (start: int)
    ensures Weekday(start) == Friday
  {
    var wd := Weekday(today);
    WeekdayShift(today, if wd == 0 then 5 else 5 - wd);
    today + (if wd == 0 then 5 else 5 - wd)
  }

  /** The method and the function agree. */
  lemma WindowStartDayIsStart(today: int, start: int)
    requires Weekday(start) == Friday
    requires Weekday(today) == Saturday ==> start == today - 1
    requires Weekday(today) != Saturday ==> today <= start && forall d :: today <= d < start ==> Weekday(d) != Friday
    ensures start == WindowStartDay(today)
  {
    var s := WindowStartDay(today);
    var wd := Weekday(today);
    if wd != Saturday {
      WeekdayShift(today, s - today);
      assert today <= s;
      if start < s {
        WeekdayShift(today, start - today);
      }
    }
  }

  /**
   * On Sunday the title says "This Weekend" but the window is the coming
   * Friday to Sunday, which does not contain today; on Friday and Saturday
   * the window contains today, and on Monday to Thursday it lies ahead.
   */
  lemma TitleAndWindow(today: int)
    ensures var start := WindowStartDay(today);
      (IsCurrentWeekend(Weekday(today)) && Weekday(today) != Sunday ==> start <= today <= start + 2)
      && (Weekday(today) == Sunday ==> IsCurrentWeekend(Weekday(today)) && today < start)
      && (!IsCurrentWeekend(Weekday(today)) ==> today < start)
  {
  }

  /**
   * Read chronologically (four-digit years, offset at or west of UTC), the
   * window holds the events of the selections that start on the Friday, the
   * Saturday or the Sunday.
   */
  lemma WindowChronological(e: Event, f: FilterState, start: int, day: int, offsetMs: int)
    requires -MsPerDay < offsetMs <= 0
    requires ValidTime(LocalMidnight(start, offsetMs)) && ValidTime(LocalMidnight(start + 2, offsetMs))
    requires FourDigitYear(start) && FourDigitYear(start + 2) && FourDigitYear(day)
    requires e.startDate == DateKey(day)
    ensures InWindow(e, f, WindowKey(start, offsetMs).value, WindowKey(start + 2, offsetMs).value)
      <==> EventsList.MatchesFilters(e, f) && start <= day <= start + 2
  {
    WindowKeyDay(start, offsetMs);
    WindowKeyDay(start + 2, offsetMs);
    KeyOrder(start, day);
    KeyOrder(day, start + 2);
  }

  /**
   * East of UTC the keys are those of the Thursday and the Saturday, so the
   * panel shows the events from Thursday to Saturday.
   */
  lemma WindowShiftedEast(e: Event, f: FilterState, start: int, day: int, offsetMs: int)
    requires 0 < offsetMs < MsPerDay
    requires ValidTime(LocalMidnight(start, offsetMs)) && ValidTime(LocalMidnight(start + 2, offsetMs))
    requires FourDigitYear(start - 1) && FourDigitYear(start + 1) && FourDigitYear(day)
    requires e.startDate == DateKey(day)
    ensures InWindow(e, f, WindowKey(start, offsetMs).value, WindowKey(start + 2, offsetMs).value)
      <==> EventsList.MatchesFilters(e, f) && start - 1 <= day <= start + 1
  {
    WindowKeyDay(start, offsetMs);
    WindowKeyDay(start + 2, offsetMs);
    KeyOrder(start - 1, day);
    KeyOrder(day, start + 1);
  }
}
