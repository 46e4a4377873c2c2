/**
 * The prayer-timing editor of the admin panel
 * (src/components/admin/AdminNamazManagement.tsx): an edit buffer that is
 * filled from the stored timings, patched cell by cell, extended by new rows
 * and handed whole to the save.
 */
module AdminNamaz {
  import opened Wrappers
  import opened Dates
  import opened Events

  /** The keys of `NamazTiming` the table edits. */
  datatype TimingField = Date | Fajr | Zuhr | Asr | Maghrib | Isha | Jumuah1 | Jumuah2 | Notes

  /** The value of a field; the optional ones may be absent. */
  function FieldOf(t: NamazTiming, f: TimingField): Option<string> {
    match f
    case Date => Some(t.date)
    case Fajr => Some(t.fajr)
    case Zuhr => Some(t.zuhr)
    case Asr => Some(t.asr)
    case Maghrib => Some(t.maghrib)
    case Isha => Some(t.isha)
    case Jumuah1 => t.jumuah1
    case Jumuah2 => t.jumuah2
    case Notes => t.notes
  }

  /** `{ ...timing, [field]: value }`: the field holds the value, the others are kept. */
  function WithField(t: NamazTiming, f: TimingField, value: string): (r: NamazTiming)
    ensures FieldOf(r, f) == Some(value)
    ensures forall g :: g != f ==> FieldOf(r, g) == FieldOf(t, g)
  {
    match f
    case Date => t.(date := value)
    case Fajr => t.(fajr := value)
    case Zuhr => t.(zuhr := value)
    case Asr => t.(asr := value)
    case Maghrib => t.(maghrib := value)
    case Isha => t.(isha := value)
    case Jumuah1 => t.(jumuah1 := Some(value))
    case Jumuah2 => t.(jumuah2 := Some(value))
    case Notes => t.(notes := Some(value))
  }

  /** Two records with the same fields are the same record. */
  lemma FieldsDetermine(t: NamazTiming, u: NamazTiming)
    requires forall f :: FieldOf(t, f) == FieldOf(u, f)
    ensures t == u
  {
    assert FieldOf(t, Date) == FieldOf(u, Date) && FieldOf(t, Fajr) == FieldOf(u, Fajr);
    assert FieldOf(t, Zuhr) == FieldOf(u, Zuhr) && FieldOf(t, Asr) == FieldOf(u, Asr);
    assert FieldOf(t, Maghrib) == FieldOf(u, Maghrib) && FieldOf(t, Isha) == FieldOf(u, Isha);
    assert FieldOf(t, Jumuah1) == FieldOf(u, Jumuah1) && FieldOf(t, Jumuah2) == FieldOf(u, Jumuah2);
    assert FieldOf(t, Notes) == FieldOf(u, Notes);
  }

  /** A later edit of the same cell replaces an earlier one; edits of different cells commute. */
  lemma WithFieldLaws(t: NamazTiming, f: TimingField, g: TimingField, v: string, w: string)
    ensures WithField(WithField(t, f, v), f, w) == WithField(t, f, w)
    ensures f != g ==> WithField(WithField(t, f, v), g, w) == WithField(WithField(t, g, w), f, v)
  {
    FieldsDetermine(WithField(WithField(t, f, v), f, w), WithField(t, f, w));
    if f != g {
      FieldsDetermine(WithField(WithField(t, f, v), g, w), WithField(WithField(t, g, w), f, v));
    }
  }

  /** The row `addNewTimingRow` appends, with its default times. */
  function NewTimingRow(date: string): (t: NamazTiming)
    ensures t.date == date
    ensures t.fajr == "06:00" && t.zuhr == "12:30" && t.asr == "15:00" && t.maghrib == "17:30" && t.isha == "19:00"
    ensures t.jumuah1 == Some("13:00") && t.jumuah2 == Some("13:45") && t.notes == Some("")
  {
    NamazTiming(date, "06:00", "12:30", "15:00", "17:30", "19:00", Some("13:00"), Some("13:45"), Some(""))
  }

  /** The instant `k` whole days after `t` falls on the UTC day `k` days later. */
  lemma DayOfShift(t: int, k: int)
    ensures DayOf(t + k * MsPerDay) == DayOf(t) + k
  {
    var n := DayOf(t);
    assert n * MsPerDay + k * MsPerDay == (n + k) * MsPerDay;
    DayOfUnique(t + k * MsPerDay, n + k);
  }

  /** The rows the table lists: the buffer while editing, the stored timings otherwise. */
  function RowsShown(stored: seq<NamazTiming>, editing: seq<NamazTiming>, isEditing: bool): (rows: seq<NamazTiming>)
    ensures isEditing ==> rows == editing
    ensures !isEditing ==> rows == stored
  {
    if isEditing then editing else stored
  }

  /** The "No prayer times found" message: nothing stored and not editing. */
  predicate ShowEmptyState(stored: seq<NamazTiming>, isEditing: bool) {
    |stored| == 0 && !isEditing
  }

  /** Whenever the message is not shown, the table lists the rows. */
  lemma EmptyStateOrTable(stored: seq<NamazTiming>, editing: seq<NamazTiming>, isEditing: bool)
    ensures ShowEmptyState(stored, isEditing) <==> !isEditing && RowsShown(stored, editing, isEditing) == []
  {
  }

  /** The editor's state: the edit buffer and the editing flag. */
  class NamazEditor {
    var editing: seq<NamazTiming>
    var isEditing: bool

    constructor()
      ensures editing == [] && !isEditing
    {
      editing := [];
      isEditing := false;
    }

    /** `handleStartEditing`: copy the stored timings into the buffer and start editing. */
    method StartEditing(stored: seq<NamazTiming>)
      modifies this
      ensures editing == stored && isEditing
    {
      editing := stored;
      isEditing := true;
    }

    /** `handleCancelEditing`: drop the buffer and stop editing. */
    method CancelEditing()
      modifies this
      ensures editing == [] && !isEditing
    {
      editing := [];
      isEditing := false;
    }

    /**
     * `handleSaveChanges`: the whole buffer goes to the upsert; editing stops
     * only when it resolves, and a rejection leaves the state as it was.
     */
    method SaveChanges(resolves: bool) returns (batch: seq<NamazTiming>)
      modifies this
      ensures batch == old(editing)
      ensures editing == old(editing)
      ensures isEditing == (old(isEditing) && !resolves)
    {
      batch := editing;
      if resolves {
        isEditing := false;
      }
    }

    /** `updateTiming(index, field, value)`: only that cell of that row changes. */
    method UpdateTiming(index: int, f: TimingField, value: string)
      requires 0 <= index < |editing|
      modifies this
      ensures |editing| == |old(editing)|
      ensures FieldOf(editing[index], f) == Some(value)
      ensures forall g :: g != f ==> FieldOf(editing[index], g) == FieldOf(old(editing)[index], g)
      ensures forall j :: 0 <= j < |editing| && j != index ==> editing[j] == old(editing)[j]
      ensures isEditing == old(isEditing)
    {
      var updated := editing;
      updated := updated[index := WithField(updated[index], f, value)];
      editing := updated;
    }

    /**
     * `addNewTimingRow`: one row dated by `toISOString` of the instant as
     * many days after now as the buffer has rows; earlier rows are kept.
     * Where that instant is past the Date range, `toISOString` throws and
     * nothing is appended.  By `IsoDatePart` and `DayOfShift`, the date is
     * the key of the UTC day that many days after today.
     */
    method AddNewTimingRow(nowMs: int)
      modifies this
      ensures IsoDatePart(nowMs + |old(editing)| * MsPerDay).Some? ==>
        editing == old(editing) + [NewTimingRow(IsoDatePart(nowMs + |old(editing)| * MsPerDay).value)]
      ensures IsoDatePart(nowMs + |old(editing)| * MsPerDay).None? ==> editing == old(editing)
      ensures isEditing == old(isEditing)
    {
      var dateStr := IsoDatePart(nowMs + |editing| * MsPerDay);
      if dateStr.Some? {
        editing := editing + [NewTimingRow(dateStr.value)];
      }
    }
  }
}
