/** The colour tokens of the auxiliaries (src/utils/auxiliaryColors.ts). */
module AuxiliaryColors {
  import opened Strings
  import opened Events

  /** The variant the source falls back to for a value outside the four auxiliaries. */
  const FallbackVariant: string := "auxiliary"

  const InactiveFilterClasses: string := "bg-filter-inactive text-foreground border-divider hover:bg-muted"

  /** The badge variant of an auxiliary: its own name in lower case. */
  function BadgeVariant(a: Auxiliary): (r: string)
    ensures r == LowerAscii(AuxiliaryName(a))
    ensures r != FallbackVariant
  {
    BadgeVariantLowers(a);
    match a
    case Atfal => "atfal"
    case Khuddam => "khuddam"
    case Lajna => "lajna"
    case Ansar => "ansar"
  }

  /** Each variant is the name with its capital letter lowered. */
  lemma BadgeVariantLowers(a: Auxiliary)
    ensures LowerAscii(AuxiliaryName(a)) == match a
      case Atfal => "atfal"
      case Khuddam => "khuddam"
      case Lajna => "lajna"
      case Ansar => "ansar"
  {
    var name := AuxiliaryName(a);
    var lowered := LowerAscii(name);
    assert 'A' <= name[0] <= 'Z';
    assert forall i :: 1 <= i < |name| ==> lowered[i] == name[i];
  }

  /** No two auxiliaries share a badge variant. */
  lemma BadgeVariantInjective(a: Auxiliary, b: Auxiliary)
    ensures BadgeVariant(a) == BadgeVariant(b) ==> a == b
  {
  }

  /**
   * The classes of an auxiliary's filter chip: one shared string while
   * inactive, and the auxiliary's own `bg-auxiliary-<variant>` background and
   * border while active.
   */
  function FilterColor(a: Auxiliary, isActive: bool): (r: string)
    ensures !isActive ==> r == InactiveFilterClasses
    ensures isActive ==>
      r == "bg-auxiliary-" + BadgeVariant(a) + " text-primary-foreground border-auxiliary-" + BadgeVariant(a)
  {
    if !isActive then InactiveFilterClasses
    else
      match a
      case Atfal => "bg-auxiliary-" + "atfal" + " text-primary-foreground border-auxiliary-" + "atfal"
      case Khuddam => "bg-auxiliary-" + "khuddam" + " text-primary-foreground border-auxiliary-" + "khuddam"
      case Lajna => "bg-auxiliary-" + "lajna" + " text-primary-foreground border-auxiliary-" + "lajna"
      case Ansar => "bg-auxiliary-" + "ansar" + " text-primary-foreground border-auxiliary-" + "ansar"
  }

  /** The fifteenth character of an active chip is the second letter of its variant. */
  lemma ActiveChipLetter(a: Auxiliary)
    ensures FilterColor(a, true)[14] == BadgeVariant(a)[1]
  {
    var v := BadgeVariant(a);
    var head := "bg-auxiliary-" + v;
    assert |"bg-auxiliary-"| == 13;
    assert head[14] == v[1];
    assert FilterColor(a, true) == head + (" text-primary-foreground border-auxiliary-" + v);
  }

  /** Active chips of different auxiliaries never look alike. */
  lemma FilterColorDistinguishes(a: Auxiliary, b: Auxiliary)
    ensures FilterColor(a, true) == FilterColor(b, true) ==> a == b
    ensures FilterColor(a, false) == FilterColor(b, false)
  {
    // the second letters of the four variants are t, h, a and n
    ActiveChipLetter(a);
    ActiveChipLetter(b);
  }
}
