/**
 * The fixture events and prayer timings of src/data/mockData.ts, and a few
 * worked examples of the model on them.
 */
module MockData {
  import opened Wrappers
  import opened Strings
  import opened Dates
  import opened Events
  import opened EventsList

  const Evt001 := Event("EVT-001", "Khuddam Tahajjud & Dars", Khuddam, Local, None, false,
    "2025-09-27", Some("05:30"), Some("2025-09-27"), Some("07:00"), false, "Darul Barkaat",
    Some("Early morning prayers and short dars."), None, Qaid, "2025-09-23T10:00:00Z")

  const Evt002 := Event("EVT-002", "Lajna Taleem Class", Lajna, Local, None, false,
    "2025-09-28", Some("11:00"), Some("2025-09-28"), Some("12:30"), false, "Darul Barkaat",
    Some("Weekly taleem class."), Some("RRULE:FREQ=WEEKLY;BYDAY=SU"), MosqueManager, "2025-09-23T10:05:00Z")

  const Evt003 := Event("EVT-003", "Ansar Sports Evening", Ansar, Local, None, true,
    "2025-09-28", Some("19:00"), Some("2025-09-28"), Some("21:00"), false, "Darul Barkaat",
    Some("Indoor sports activities."), None, MosqueManager, "2025-09-23T10:10:00Z")

  const Evt004 := Event("EVT-004", "National Khuddam Ijtema", Khuddam, National, None, false,
    "2025-10-15", Some("09:00"), Some("2025-10-16"), Some("17:00"), false, "Baitul Futuh, London",
    Some("National gathering for Khuddam."), None, Murabbi, "2025-09-23T10:15:00Z")

  const Evt005 := Event("EVT-005", "Atfal Class", Atfal, Local, None, false,
    "2025-09-29", Some("10:00"), Some("2025-09-29"), Some("11:00"), false, "Darul Barkaat",
    Some("Islamic studies for Atfal."), Some("RRULE:FREQ=WEEKLY;BYDAY=SA"), Qaid, "2025-09-23T10:20:00Z")

  const Evt006 := Event("EVT-006", "Regional Lajna Meeting", Lajna, Regional, None, false,
    "2025-10-05", Some("14:00"), Some("2025-10-05"), Some("16:00"), false, "Darul Barkaat",
    Some("Monthly regional meeting."), None, MosqueManager, "2025-09-23T10:25:00Z")

  const MockEvents: seq<Event> := [Evt001, Evt002, Evt003, Evt004, Evt005, Evt006]

  const MockNamazTimings: seq<NamazTiming> := [
    NamazTiming("2025-09-23", "05:45", "13:15", "17:00", "19:00", "20:15", Some("13:30"), Some("14:15"), None),
    NamazTiming("2025-09-24", "05:47", "13:15", "17:00", "18:58", "20:13", None, None, None),
    NamazTiming("2025-09-25", "05:49", "13:14", "16:58", "18:56", "20:11", None, None, None),
    NamazTiming("2025-09-26", "05:51", "13:14", "16:56", "18:54", "20:09", None, None, None),
    NamazTiming("2025-09-27", "05:53", "13:14", "16:54", "18:52", "20:07", Some("13:30"), Some("14:15"), None),
    NamazTiming("2025-09-28", "05:55", "13:13", "16:52", "18:50", "20:05", None, None, None),
    NamazTiming("2025-09-29", "05:57", "13:13", "16:50", "18:48", "20:03", None, None, None)
  ]

  /** The Khuddam selection of the filter bar, all scopes, sports or not. */
  const KhuddamFilter := FilterState(AuxiliaryIs(Khuddam), AnyScope, false)

  /** Filtering distributes over concatenation: each part is filtered on its own. */
  lemma {:induction false} FilterEventsConcat(a: seq<Event>, b: seq<Event>, f: FilterState, today: string)
    ensures FilterEvents(a + b, f, today) == FilterEvents(a, f, today) + FilterEvents(b, f, today)
  {
    if a == [] {
      assert a + b == b;
    } else {
      assert (a + b)[1..] == a[1..] + b;
      FilterEventsConcat(a[1..], b, f, today);
    }
  }

  /** One step of the filter: the head is kept or dropped, then the rest is filtered. */
  lemma FilterStep(e: Event, rest: seq<Event>, f: FilterState, today: string)
    ensures FilterEvents([e] + rest, f, today) ==
      (if KeepEvent(e, f, today) then [e] + FilterEvents(rest, f, today) else FilterEvents(rest, f, today))
  {
    assert ([e] + rest)[1..] == rest;
  }

  /** The Khuddam selection keeps both Khuddam fixtures while the first has not passed ... */
  lemma KhuddamKeeps(today: string)
    requires LexLe(today, "2025-09-27")
    ensures KeepEvent(Evt001, KhuddamFilter, today) && KeepEvent(Evt004, KhuddamFilter, today)
  {
    assert Compare("2025-09-27", "2025-10-15") == -1;
    CompareTrans(today, "2025-09-27", "2025-10-15");
  }

  /** ... and none of the others, whatever the day. */
  lemma KhuddamDrops(today: string)
    ensures !KeepEvent(Evt002, KhuddamFilter, today) && !KeepEvent(Evt003, KhuddamFilter, today)
    ensures !KeepEvent(Evt005, KhuddamFilter, today) && !KeepEvent(Evt006, KhuddamFilter, today)
  {
  }

  /** The last three fixtures filter down to the Ijtema. */
  lemma KhuddamKeptFromFourth(today: string)
    requires LexLe(today, "2025-09-27")
    ensures FilterEvents([Evt004, Evt005, Evt006], KhuddamFilter, today) == [Evt004]
  {
    KhuddamKeeps(today);
    KhuddamDrops(today);
    FilterStep(Evt006, [], KhuddamFilter, today);
    assert [Evt006] + [] == [Evt006];
    FilterStep(Evt005, [Evt006], KhuddamFilter, today);
    assert [Evt005] + [Evt006] == [Evt005, Evt006];
    FilterStep(Evt004, [Evt005, Evt006], KhuddamFilter, today);
    assert [Evt004] + [Evt005, Evt006] == [Evt004, Evt005, Evt006];
  }

  /** The first three fixtures filter down to the Tahajjud. */
  lemma KhuddamKeptToThird(today: string)
    requires LexLe(today, "2025-09-27")
    ensures FilterEvents([Evt001, Evt002, Evt003], KhuddamFilter, today) == [Evt001]
  {
    KhuddamKeeps(today);
    KhuddamDrops(today);
    FilterStep(Evt003, [], KhuddamFilter, today);
    assert [Evt003] + [] == [Evt003];
    FilterStep(Evt002, [Evt003], KhuddamFilter, today);
    assert [Evt002] + [Evt003] == [Evt002, Evt003];
    FilterStep(Evt001, [Evt002, Evt003], KhuddamFilter, today);
    assert [Evt001] + [Evt002, Evt003] == [Evt001, Evt002, Evt003];
  }

  /** The fixture list, cut after its third event. */
  lemma MockEventsHalves()
    ensures MockEvents == [Evt001, Evt002, Evt003] + [Evt004, Evt005, Evt006]
  {
  }

  /** The Khuddam selection keeps the two Khuddam events while neither has passed. */
  lemma KhuddamKept(today: string)
    requires LexLe(today, "2025-09-27")
    ensures FilterEvents(MockEvents, KhuddamFilter, today) == [Evt001, Evt004]
  {
    KhuddamKeptToThird(today);
    KhuddamKeptFromFourth(today);
    MockEventsHalves();
    FilterEventsConcat([Evt001, Evt002, Evt003], [Evt004, Evt005, Evt006], KhuddamFilter, today);
  }

  /**
   * Up to the day of the first Khuddam event, the list under the Khuddam
   * selection is the local Tahajjud and then the national Ijtema.
   */
  lemma KhuddamUpcoming(today: string)
    requires LexLe(today, "2025-09-27")
    ensures SortByStart(FilterEvents(MockEvents, KhuddamFilter, today)) == [Evt001, Evt004]
  {
    KhuddamKept(today);
    assert Compare(Evt001.startDate, Evt004.startDate) == -1;
    assert [Evt001, Evt004][1..] == [Evt004];
    assert SortByStart([Evt004]) == [Evt004];
  }

  /** The calendar of the model agrees with the fixtures: 2025-09-26 is a Friday. */
  lemma CalendarCalibration()
    ensures ValidCivil(Civil(2025, 9, 26))
    ensures DayNumber(Civil(2025, 9, 26)) == 20357
    ensures Weekday(20357) == Friday
  {
    YearStartClosed(2025);
    assert LeapsThrough(2024) == 491 && LeapsThrough(1969) == 477;
    assert YearStart(2025) == 20089;
    assert !IsLeap(2025) && DaysBeforeMonth(2025, 9) == 243;
  }
}
