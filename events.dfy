/**
 * The records of the app (src/types/events.ts): the enumerations, the event
 * and prayer-timing records, and the filter state of the calendar page.
 * A TypeScript optional field `x?: T` is an `Option<T>`; the string tags of
 * the enumerations are recovered by the `...Name` functions and read back,
 * at the boundary, by the `Parse...` functions.
 */
module Events {
  import opened Wrappers

  datatype Auxiliary = Atfal | Khuddam | Lajna | Ansar

  datatype Scope = Local | Regional | National

  datatype AdminRole = Sadr | Murabbi | Qaid | MosqueManager

  /**
   * The sub-regions of the Local scope. src/types/events.ts declares neither
   * this type nor the event's `qiadat` field, though the admin form imports
   * the type from there: the seven values are the form's options
   * (src/components/admin/AdminEventManagement.tsx:296-302), and the field is
   * what the form writes (line 49) and the admin list shows (line 164).
   */
  datatype Qiadat = Solihull | South | West | Central | North | Walsall | Wolverhampton

  datatype Event = Event(
    id: string,
    title: string,
    auxiliary: Auxiliary,
    scope: Scope,
    qiadat: Option<Qiadat>,     // not in events.ts; see Qiadat
    isSports: bool,
    startDate: string,          // YYYY-MM-DD
    startTime: Option<string>,  // HH:MM
    endDate: Option<string>,
    endTime: Option<string>,
    allDay: bool,
    location: string,
    description: Option<string>,
    recurrenceRule: Option<string>,
    createdByRole: AdminRole,
    lastUpdated: string)

  datatype NamazTiming = NamazTiming(
    date: string,               // YYYY-MM-DD
    fajr: string,
    zuhr: string,
    asr: string,
    maghrib: string,
    isha: string,
    jumuah1: Option<string>,
    jumuah2: Option<string>,
    notes: Option<string>)

  /** 'All', or one auxiliary. */
  datatype AuxiliaryFilter = AnyAuxiliary | AuxiliaryIs(auxiliary: Auxiliary)

  /** 'All', or one scope. */
  datatype ScopeFilter = AnyScope | ScopeIs(scope: Scope)

  /** The filter selections of the calendar page; there is no qiadat selection. */
  datatype FilterState = FilterState(auxiliary: AuxiliaryFilter, scope: ScopeFilter, sportsOnly: bool)

  // ---------------------------------------------------------------------
  // JavaScript truthiness of an optional string
  // ---------------------------------------------------------------------

  /** `if (x)` for `x?: string`: present and not empty. */
  predicate Truthy(x: Option<string>) {
    x.Some? && x.value != ""
  }

  /** `x || fallback` for `x?: string`. */
  function OrElse(x: Option<string>, fallback: string): (r: string)
    ensures Truthy(x) ==> r == x.value
    ensures !Truthy(x) ==> r == fallback
  {
    if Truthy(x) then x.value else fallback
  }

  // ---------------------------------------------------------------------
  // The string tags, and the database enumerations
  // ---------------------------------------------------------------------

  /** The `auxiliary` enumeration of the database. */
  const AuxiliaryEnum: seq<string> := ["Atfal", "Khuddam", "Lajna", "Ansar"]

  /** The `scope` enumeration of the database. */
  const ScopeEnum: seq<string> := ["Local", "Regional", "National"]

  /** The `admin_role` enumeration of the database. */
  const AdminRoleEnum: seq<string> := ["Sadr", "Murabbi", "Qaid", "Mosque Manager"]

  function AuxiliaryName(a: Auxiliary): string {
    match a
    case Atfal => "Atfal"
    case Khuddam => "Khuddam"
    case Lajna => "Lajna"
    case Ansar => "Ansar"
  }

  function ScopeName(s: Scope): string {
    match s
    case Local => "Local"
    case Regional => "Regional"
    case National => "National"
  }

  function AdminRoleName(r: AdminRole): string {
    match r
    case Sadr => "Sadr"
    case Murabbi => "Murabbi"
    case Qaid => "Qaid"
    case MosqueManager => "Mosque Manager"
  }

  function QiadatName(q: Qiadat): string {
    match q
    case Solihull => "Solihull"
    case South => "South"
    case West => "West"
    case Central => "Central"
    case North => "North"
    case Walsall => "Walsall"
    case Wolverhampton => "Wolverhampton"
  }

  /** The auxiliary a string tag names, if any: exactly the four tags of the database enumeration. */
  function ParseAuxiliary(s: string): (r: Option<Auxiliary>)
    ensures r.Some? <==> s in AuxiliaryEnum
    ensures r.Some? ==> AuxiliaryName(r.value) == s
    ensures forall a :: AuxiliaryName(a) == s ==> r == Some(a)
  {
    if s == "Atfal" then Some(Atfal)
    else if s == "Khuddam" then Some(Khuddam)
    else if s == "Lajna" then Some(Lajna)
    else if s == "Ansar" then Some(Ansar)
    else None
  }

  /** The scope a string tag names, if any: exactly the three tags of the database enumeration. */
  function ParseScope(s: string): (r: Option<Scope>)
    ensures r.Some? <==> s in ScopeEnum
    ensures r.Some? ==> ScopeName(r.value) == s
    ensures forall x :: ScopeName(x) == s ==> r == Some(x)
  {
    if s == "Local" then Some(Local)
    else if s == "Regional" then Some(Regional)
    else if s == "National" then Some(National)
    else None
  }

  /** The admin role a string tag names, if any: exactly the four tags of the database enumeration. */
  function ParseAdminRole(s: string): (r: Option<AdminRole>)
    ensures r.Some? <==> s in AdminRoleEnum
    ensures r.Some? ==> AdminRoleName(r.value) == s
    ensures forall x :: AdminRoleName(x) == s ==> r == Some(x)
  {
    if s == "Sadr" then Some(Sadr)
    else if s == "Murabbi" then Some(Murabbi)
    else if s == "Qaid" then Some(Qaid)
    else if s == "Mosque Manager" then Some(MosqueManager)
    else None
  }

  /** Every enumeration value has a distinct tag, so the tags identify the values. */
  lemma NamesInjective()
    ensures forall a, b :: AuxiliaryName(a) == AuxiliaryName(b) ==> a == b
    ensures forall a, b :: ScopeName(a) == ScopeName(b) ==> a == b
    ensures forall a, b :: AdminRoleName(a) == AdminRoleName(b) ==> a == b
    ensures forall a, b :: QiadatName(a) == QiadatName(b) ==> a == b
  {
  }
}
