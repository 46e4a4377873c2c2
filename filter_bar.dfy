/**
 * The filter bar of the calendar page (src/components/calendar/FilterBar.tsx):
 * every handler builds a new `FilterState` from the current one.
 */
module FilterBar {
  import opened Events

  /** The keys of `FilterState`, the `keyof FilterState` of `updateFilter`. */
  datatype FilterKey = AuxiliaryKey | ScopeKey | SportsOnlyKey

  /** A value handed to `updateFilter`. */
  datatype FilterValue = AuxiliaryValue(auxiliary: AuxiliaryFilter) | ScopeValue(scope: ScopeFilter) | SportsValue(sportsOnly: bool)

  /** The value has the type of the field the key names. */
  predicate Fits(k: FilterKey, v: FilterValue) {
    match k
    case AuxiliaryKey => v.AuxiliaryValue?
    case ScopeKey => v.ScopeValue?
    case SportsOnlyKey => v.SportsValue?
  }

  /** The field of a filter state a key names. */
  function Field(f: FilterState, k: FilterKey): FilterValue {
    match k
    case AuxiliaryKey => AuxiliaryValue(f.auxiliary)
    case ScopeKey => ScopeValue(f.scope)
    case SportsOnlyKey => SportsValue(f.sportsOnly)
  }

  /** `{ ...filters, [key]: value }`: the key's field is the value, every other field is kept. */
  function UpdateFilter(f: FilterState, k: FilterKey, v: FilterValue): (r: FilterState)
    requires Fits(k, v)
    ensures Field(r, k) == v
    ensures forall k' :: k' != k ==> Field(r, k') == Field(f, k')
  {
    match v
    case AuxiliaryValue(a) => f.(auxiliary := a)
    case ScopeValue(s) => f.(scope := s)
    case SportsValue(b) => f.(sportsOnly := b)
  }

  /** Two filter states that agree on every key are equal. */
  lemma FieldsDetermine(f: FilterState, g: FilterState)
    requires forall k :: Field(f, k) == Field(g, k)
    ensures f == g
  {
    assert Field(f, AuxiliaryKey) == Field(g, AuxiliaryKey);
    assert Field(f, ScopeKey) == Field(g, ScopeKey);
    assert Field(f, SportsOnlyKey) == Field(g, SportsOnlyKey);
  }

  /** Writing back a field's own value changes nothing, and a later write to the same key wins. */
  lemma UpdateFilterLaws(f: FilterState, k: FilterKey, v: FilterValue, w: FilterValue)
    requires Fits(k, v) && Fits(k, w)
    ensures UpdateFilter(f, k, Field(f, k)) == f
    ensures UpdateFilter(UpdateFilter(f, k, v), k, w) == UpdateFilter(f, k, w)
  {
  }

  /** The page's initial selections (src/pages/Index.tsx). */
  const InitialFilters: FilterState := FilterState(AnyAuxiliary, AnyScope, false)

  /** `resetFilters`: the selections the page starts with. */
  function ResetFilters(f: FilterState): (r: FilterState)
    ensures r == InitialFilters
    ensures !HasActiveFilters(r)
  {
    FilterState(AnyAuxiliary, AnyScope, false)
  }

  /** `hasActiveFilters`: some selection is not 'All', or sports only is on. */
  predicate HasActiveFilters(f: FilterState) {
    f.auxiliary != AnyAuxiliary || f.scope != AnyScope || f.sportsOnly
  }

  /** A filter is active exactly when the state differs from the initial one. */
  lemma ActiveIffNotInitial(f: FilterState)
    ensures HasActiveFilters(f) <==> f != InitialFilters
  {
  }

  /** The sports button: `updateFilter('sports_only', !filters.sports_only)`. */
  function ToggleSports(f: FilterState): (r: FilterState)
    ensures r.sportsOnly == !f.sportsOnly
    ensures r.auxiliary == f.auxiliary && r.scope == f.scope
  {
    UpdateFilter(f, SportsOnlyKey, SportsValue(!f.sportsOnly))
  }

  /** Pressing the sports button twice restores the state. */
  lemma ToggleSportsTwice(f: FilterState)
    ensures ToggleSports(ToggleSports(f)) == f
  {
  }

  /** The buttons of the auxiliary row: 'All', then the four auxiliaries. */
  const AuxiliaryOptions: seq<AuxiliaryFilter> :=
    [AnyAuxiliary, AuxiliaryIs(Atfal), AuxiliaryIs(Khuddam), AuxiliaryIs(Lajna), AuxiliaryIs(Ansar)]

  /** The buttons of the scope row: 'All', then the three scopes. */
  const ScopeOptions: seq<ScopeFilter> :=
    [AnyScope, ScopeIs(Local), ScopeIs(Regional), ScopeIs(National)]

  /** Every selection has exactly one button. */
  lemma OptionsComplete(a: AuxiliaryFilter, s: ScopeFilter)
    ensures a in AuxiliaryOptions && s in ScopeOptions
    ensures forall i, j :: 0 <= i < j < |AuxiliaryOptions| ==> AuxiliaryOptions[i] != AuxiliaryOptions[j]
    ensures forall i, j :: 0 <= i < j < |ScopeOptions| ==> ScopeOptions[i] != ScopeOptions[j]
  {
    match a {
    case AnyAuxiliary => assert AuxiliaryOptions[0] == a;
    case AuxiliaryIs(Atfal) => assert AuxiliaryOptions[1] == a;
    case AuxiliaryIs(Khuddam) => assert AuxiliaryOptions[2] == a;
    case AuxiliaryIs(Lajna) => assert AuxiliaryOptions[3] == a;
    case AuxiliaryIs(Ansar) => assert AuxiliaryOptions[4] == a;
    }
    match s {
    case AnyScope => assert ScopeOptions[0] == s;
    case ScopeIs(Local) => assert ScopeOptions[1] == s;
    case ScopeIs(Regional) => assert ScopeOptions[2] == s;
    case ScopeIs(National) => assert ScopeOptions[3] == s;
    }
  }
}
