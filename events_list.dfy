/**
 * The upcoming-events list (src/components/calendar/EventsList.tsx):
 * `getFilteredEvents` keeps the events that pass the filter bar's selections
 * and start today or later, and sorts them by start date, then start time.
 */
module EventsList {
  import opened Wrappers
  import opened Strings
  import opened Dates
  import opened Events

  /**
   * `filters.qiadat`: `FilterState` declares no qiadat, so the read is always
   * undefined, which is neither 'All' nor any qiadat.
   */
  const FilterQiadat: Option<Qiadat> := None

  /** The `filter` callback, check by check in the order the source makes them. */
  predicate KeepEvent(e: Event, f: FilterState, today: string) {
    if f.auxiliary != AnyAuxiliary && e.auxiliary != f.auxiliary.auxiliary then false
    else if f.scope != AnyScope && e.scope != f.scope.scope then false
    // `filters.qiadat !== 'All'` holds for undefined, so only the last comparison decides
    else if f.scope == ScopeIs(Local) && e.qiadat != FilterQiadat then false
    else if f.sportsOnly && !e.isSports then false
    else LexLe(today, e.startDate)
  }

  /**
   * The selections of the filter bar an event passes, stated declaratively:
   * the auxiliary and the scope are 'All' or the event's own, under the Local
   * scope the event carries no qiadat, and sports only admits only sports events.
   */
  predicate MatchesFilters(e: Event, f: FilterState) {
    (f.auxiliary == AnyAuxiliary || f.auxiliary == AuxiliaryIs(e.auxiliary))
    && (f.scope == AnyScope || f.scope == ScopeIs(e.scope))
    && !(f.scope == ScopeIs(Local) && e.qiadat.Some?)
    && (f.sportsOnly ==> e.isSports)
  }

  /** The callback keeps an event exactly when it passes the selections and does not start before today. */
  lemma KeepEventIff(e: Event, f: FilterState, today: string)
    ensures KeepEvent(e, f, today) <==> MatchesFilters(e, f) && LexLe(today, e.startDate)
  {
  }

  /**
   * The qiadat check acts only under the Local scope, and there it keeps
   * exactly the events without a qiadat.
   */
  lemma QiadatClause(e: Event, f: FilterState)
    ensures f.scope != ScopeIs(Local) ==>
      (MatchesFilters(e, f) <==> MatchesFilters(e.(qiadat := None), f))
    ensures f.scope == ScopeIs(Local) && e.qiadat.Some? ==> !MatchesFilters(e, f)
    ensures f.scope == ScopeIs(Local) && e.qiadat.None? ==>
      (MatchesFilters(e, f) <==> (f.auxiliary == AnyAuxiliary || f.auxiliary == AuxiliaryIs(e.auxiliary)) && e.scope == Local && (f.sportsOnly ==> e.isSports))
  {
  }

  /** With the initial selections every event passes. */
  lemma InitialPassesAll(e: Event)
    ensures MatchesFilters(e, FilterState(AnyAuxiliary, AnyScope, false))
  {
  }

  /** `Array.prototype.filter` with the callback: the kept events, in input order. */
  function FilterEvents(events: seq<Event>, f: FilterState, today: string): (r: seq<Event>)
    ensures |r| <= |events|
    ensures forall e :: e in r ==> KeepEvent(e, f, today)
    ensures forall e {:trigger multiset(r)[e]} :: multiset(r)[e] == if KeepEvent(e, f, today) then multiset(events)[e] else 0
  {
    if events == [] then []
    else
      var rest := FilterEvents(events[1..], f, today);
      assert events == [events[0]] + events[1..];
      if KeepEvent(events[0], f, today) then [events[0]] + rest else rest
  }

  /** Membership in the filtered list: an input event that the callback keeps. */
  lemma FilterEventsMembers(events: seq<Event>, f: FilterState, today: string, e: Event)
    ensures e in FilterEvents(events, f, today) <==> e in events && KeepEvent(e, f, today)
  {
    var r := FilterEvents(events, f, today);
    assert e in r <==> multiset(r)[e] > 0;
    assert e in events <==> multiset(events)[e] > 0;
  }

  // ---------------------------------------------------------------------
  // The comparator
  // ---------------------------------------------------------------------

  /** The start time the comparator uses: `start_time || '00:00'`. */
  function SortTime(e: Event): string {
    OrElse(e.startTime, "00:00")
  }

  /** The `sort` comparator: start dates first, then start times. */
  function CompareEvents(a: Event, b: Event): (r: int)
    ensures -1 <= r <= 1
    ensures r == 0 <==> a.startDate == b.startDate && SortTime(a) == SortTime(b)
    ensures a.startDate != b.startDate ==> r == Compare(a.startDate, b.startDate)
  {
    var dateCompare := Compare(a.startDate, b.startDate);
    if dateCompare != 0 then dateCompare
    else Compare(SortTime(a), SortTime(b))
  }

  /** The comparator is antisymmetric ... */
  lemma CompareEventsFlip(a: Event, b: Event)
    ensures CompareEvents(b, a) == -CompareEvents(a, b)
  {
    CompareFlip(a.startDate, b.startDate);
    CompareFlip(SortTime(a), SortTime(b));
  }

  /** ... and transitive, so it orders events consistently. */
  lemma CompareEventsTrans(a: Event, b: Event, c: Event)
    requires CompareEvents(a, b) <= 0 && CompareEvents(b, c) <= 0
    ensures CompareEvents(a, c) <= 0
  {
    var d1, d2 := Compare(a.startDate, b.startDate), Compare(b.startDate, c.startDate);
    assert d1 <= 0 && d2 <= 0;
    CompareTrans(a.startDate, b.startDate, c.startDate);
    if d1 == 0 && d2 == 0 {
      CompareTrans(SortTime(a), SortTime(b), SortTime(c));
    }
  }

  /** Ascending under the comparator. */
  predicate SortedByStart(s: seq<Event>) {
    forall i, j :: 0 <= i < j < |s| ==> CompareEvents(s[i], s[j]) <= 0
  }

  /** An event that comes before every event of an ascending list can head it. */
  lemma ConsSorted(x: Event, s: seq<Event>)
    requires SortedByStart(s)
    requires forall y :: y in s ==> CompareEvents(x, y) <= 0
    ensures SortedByStart([x] + s)
  {
    forall i, j | 0 <= i < j < |[x] + s| ensures CompareEvents(([x] + s)[i], ([x] + s)[j]) <= 0 {
      if i == 0 {
        assert ([x] + s)[j] == s[j - 1];
      } else {
        assert ([x] + s)[i] == s[i - 1] && ([x] + s)[j] == s[j - 1];
      }
    }
  }

  /** Dropping the head keeps a list ascending. */
  lemma SortedTail(s: seq<Event>)
    requires SortedByStart(s) && s != []
    ensures SortedByStart(s[1..])
  {
    forall i, j | 0 <= i < j < |s[1..]| ensures CompareEvents(s[1..][i], s[1..][j]) <= 0 {
      assert s[1..][i] == s[i + 1] && s[1..][j] == s[j + 1];
    }
  }

  /** Inserts an event before the first one it does not come after. */
  function Insert(e: Event, s: seq<Event>): (r: seq<Event>)
    requires SortedByStart(s)
    ensures SortedByStart(r)
    ensures multiset(r) == multiset(s) + multiset{e}
  {
    if s == [] then [e]
    else if CompareEvents(e, s[0]) <= 0 then
      InsertFront(e, s);
      [e] + s
    else
      SortedTail(s);
      var rest := Insert(e, s[1..]);
      InsertBehind(e, s, rest);
      assert s == [s[0]] + s[1..];
      [s[0]] + rest
  }

  /** The first case of `Insert`: the event goes in front. */
  lemma InsertFront(e: Event, s: seq<Event>)
    requires SortedByStart(s) && s != [] && CompareEvents(e, s[0]) <= 0
    ensures SortedByStart([e] + s)
  {
    forall y | y in s ensures CompareEvents(e, y) <= 0 {
      var j :| 0 <= j < |s| && s[j] == y;
      if j > 0 { CompareEventsTrans(e, s[0], s[j]); }
    }
    ConsSorted(e, s);
  }

  /** The second case of `Insert`: the head stays in front of the rest with the event inserted. */
  lemma InsertBehind(e: Event, s: seq<Event>, rest: seq<Event>)
    requires SortedByStart(s) && s != [] && CompareEvents(e, s[0]) > 0
    requires SortedByStart(rest) && multiset(rest) == multiset(s[1..]) + multiset{e}
    ensures SortedByStart([s[0]] + rest)
  {
    CompareEventsFlip(e, s[0]);
    forall x | x in rest ensures CompareEvents(s[0], x) <= 0 {
      assert x in multiset(rest);
      if x != e {
        assert x in multiset(s[1..]);
        var j :| 0 <= j < |s[1..]| && s[1..][j] == x;
        assert s[j + 1] == x;
      }
    }
    ConsSorted(s[0], rest);
  }

  /** An insertion sort; the result is ascending and holds the same events. */
  function SortByStart(s: seq<Event>): (r: seq<Event>)
    ensures SortedByStart(r)
    ensures multiset(r) == multiset(s)
  {
    if s == [] then []
    else
      assert s == [s[0]] + s[1..];
      Insert(s[0], SortByStart(s[1..]))
  }

  // ---------------------------------------------------------------------
  // getFilteredEvents
  // ---------------------------------------------------------------------

  /** `now.toISOString().split('T')[0]`; the clock reading is a parameter. */
  function Today(nowMs: int): (r: string)
    requires ValidTime(nowMs)
    ensures r == DateKey(DayOf(nowMs))
  {
    IsoDatePart(nowMs).value
  }

  /**
   * The events of the list: exactly the input events that pass the
   * selections and do not start before today, each as often as in the input,
   * in ascending start order.
   */
  function GetFilteredEvents(events: seq<Event>, f: FilterState, nowMs: int): (r: seq<Event>)
    requires ValidTime(nowMs)
    ensures forall e :: e in r ==> MatchesFilters(e, f) && LexLe(Today(nowMs), e.startDate)
    ensures forall e :: multiset(r)[e] ==
                        (if MatchesFilters(e, f) && LexLe(Today(nowMs), e.startDate) then multiset(events)[e] else 0)
    ensures SortedByStart(r)
  {
    var today := Today(nowMs);
    var kept := FilterEvents(events, f, today);
    forall e ensures KeepEvent(e, f, today) <==> MatchesFilters(e, f) && LexLe(today, e.startDate) {
      KeepEventIff(e, f, today);
    }
    var r := SortByStart(kept);
    assert forall e :: e in r ==> e in multiset(kept);
    r
  }

  /** An event is listed exactly when it is an input event that passes the selections and starts today or later. */
  lemma ListedIff(events: seq<Event>, f: FilterState, nowMs: int, e: Event)
    requires ValidTime(nowMs)
    ensures e in GetFilteredEvents(events, f, nowMs) <==>
      e in events && MatchesFilters(e, f) && LexLe(Today(nowMs), e.startDate)
  {
    var r := GetFilteredEvents(events, f, nowMs);
    assert e in r <==> multiset(r)[e] > 0;
    assert e in events <==> multiset(events)[e] > 0;
  }

  /**
   * For a start date that is the key of a day with a four-digit year, the
   * string cutoff is the chronological one: the event's day is today or later.
   */
  lemma CutoffIsChronological(nowMs: int, day: int)
    requires ValidTime(nowMs) && FourDigitYear(DayOf(nowMs)) && FourDigitYear(day)
    ensures LexLe(Today(nowMs), DateKey(day)) <==> DayOf(nowMs) <= day
  {
    KeyOrder(DayOf(nowMs), day);
  }

  /** On the same start date, an event with a start time is ordered by it; one without counts as midnight. */
  lemma SameDateByTime(a: Event, b: Event)
    requires a.startDate == b.startDate
    ensures CompareEvents(a, b) == Compare(OrElse(a.startTime, "00:00"), OrElse(b.startTime, "00:00"))
  {
  }
}
