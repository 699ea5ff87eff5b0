/**
 * The toolbar's configuration logic (components/Topbar.tsx): which quantity
 * panel is shown, the total it displays, and how typed or clicked numbers
 * are cleaned before they are stored. `parseInt` is given as its result:
 * `None` for NaN, `Some(n)` for a parsed integer.
 */
module Topbar {
  import opened JsText
  import opened Types
  import opened Subtypes

  /** The panel with per-subtype quantities is shown for these modes only. */
  predicate IsConfigurable(tab: TestType, forms: Forms) {
    var isReading := tab == Reading;
    var isCommunication := tab == Communication;
    var isArrangement := tab == Arrangement;
    var isVocabCollocation := tab == Vocabulary && forms.vocabForm == "Collocation";
    var isGrammarReorder := tab == Grammar && forms.grammarTestType == "Reorder sentence";
    var isWordList := tab == WordList;
    (isReading || isCommunication || isArrangement || isVocabCollocation || isGrammarReorder) && !isWordList
  }

  /** `activeSubtypes`: the table of the shown panel, if any. */
  function PanelTable(tab: TestType, forms: Forms): (t: Option<Table>)
    ensures t.Some? <==> IsConfigurable(tab, forms)
    ensures tab == Reading ==> t == Some(ReadingTable(forms.readingForm))
  {
    if tab == Reading then Some(ReadingTable(forms.readingForm))
    else if tab == Communication then Some(CommunicationTable)
    else if tab == Arrangement then Some(ArrangementTable)
    else if tab == Vocabulary && forms.vocabForm == "Collocation" then Some(VocabCollocation)
    else if tab == Grammar && forms.grammarTestType == "Reorder sentence" then Some(GrammarReorder)
    else None
  }

  /** `totalQuantity`: the sum over the shown table's keys only, 0 without a panel. */
  function TotalQuantity(tab: TestType, forms: Forms, configs: Configs): (n: int)
    ensures PanelTable(tab, forms).None? ==> n == 0
    ensures PanelTable(tab, forms).Some? ==>
              var t := PanelTable(tab, forms).value;
              n == Total(Keys(t), ConfigFor(t, configs))
  {
    match PanelTable(tab, forms)
    case None => Total([], configs.reading)
    case Some(t) => Total(Keys(t), ConfigFor(t, configs))
  }

  /** The number of test versions: `Math.max(1, Math.min(5, parseInt(v) || 1))`. */
  function TestsInput(parsed: Option<int>): (n: int)
    ensures 1 <= n <= 5
    ensures parsed.Some? && 1 <= parsed.value <= 5 ==> n == parsed.value
    ensures parsed.None? ==> n == 1
    ensures parsed.Some? && parsed.value > 5 ==> n == 5
    ensures parsed.Some? && parsed.value < 1 ==> n == 1
  {
    var v := if parsed.Some? && parsed.value != 0 then parsed.value else 1;
    if v < 1 then 1 else if v > 5 then 5 else v
  }

  /** The question quantity: `parseInt(v) || 0` (NaN becomes 0). */
  function QuantityInput(parsed: Option<int>): (n: int)
    ensures parsed.None? ==> n == 0
    ensures parsed.Some? ==> n == parsed.value
  {
    match parsed
    case None => 0
    case Some(v) => if v != 0 then v else 0
  }

  /** The minus button: `Math.max(0, qty - 1)`. */
  function Decrement(qty: int): (n: int)
    ensures n >= 0
    ensures qty >= 1 ==> n == qty - 1
    ensures qty <= 0 ==> n == 0
  {
    if qty - 1 > 0 then qty - 1 else 0
  }

  /** The plus button. */
  function Increment(qty: int): (n: int)
    ensures n > qty
    ensures n - qty == 1
  {
    qty + 1
  }

  /** A typed count: NaN becomes 0, a negative number 0. */
  function TypedCount(parsed: Option<int>): (n: int)
    ensures n >= 0
    ensures parsed.Some? && parsed.value >= 0 ==> n == parsed.value
    ensures parsed.None? || parsed.value < 0 ==> n == 0
  {
    match parsed
    case None => 0
    case Some(v) => if v > 0 then v else 0
  }

  /** Minus undoes plus on a count the panel can show. */
  lemma DecrementUndoesIncrement(qty: int)
    requires qty >= 0
    ensures Decrement(Increment(qty)) == qty
  {
  }

  /** The three ways of changing a count the panel offers. */
  datatype CountChange = Minus | Plus | Typed(parsed: Option<int>)

  /** The count a change produces from the shown count `qty`. */
  function Changed(qty: int, c: CountChange): int {
    match c
    case Minus => Decrement(qty)
    case Plus => Increment(qty)
    case Typed(p) => TypedCount(p)
  }

  /** `onConfigChange(subtype, n)`: store `n` in the shown panel's record (no panel, no change). */
  function StoreCount(tab: TestType, forms: Forms, configs: Configs, key: string, n: int): (r: Configs)
    ensures PanelTable(tab, forms).None? ==> r == configs
    ensures PanelTable(tab, forms).Some? ==>
              var t := PanelTable(tab, forms).value;
              ConfigFor(t, r) == Set(ConfigFor(t, configs), key, n)
  {
    match PanelTable(tab, forms)
    case None => configs
    case Some(t) =>
      match t
      case CommunicationTable => configs.(communication := Set(configs.communication, key, n))
      case ArrangementTable => configs.(arrangement := Set(configs.arrangement, key, n))
      case VocabCollocation => configs.(vocabCollocation := Set(configs.vocabCollocation, key, n))
      case GrammarReorder => configs.(grammarReorder := Set(configs.grammarReorder, key, n))
      case _ => configs.(reading := Set(configs.reading, key, n))
  }

  /** Every record holds counts of at least zero. */
  predicate AllNonNegative(c: Configs) {
    NonNegative(c.reading) && NonNegative(c.communication) && NonNegative(c.arrangement) &&
    NonNegative(c.vocabCollocation) && NonNegative(c.grammarReorder)
  }

  /**
   * The panel's changes keep every stored count at least zero, starting from
   * the shown count `Get(record, key)`.
   */
  lemma ChangesKeepCountsNonNegative(tab: TestType, forms: Forms, configs: Configs, key: string, c: CountChange)
    requires AllNonNegative(configs) && PanelTable(tab, forms).Some?
    ensures var t := PanelTable(tab, forms).value;
            var n := Changed(Get(ConfigFor(t, configs), key), c);
            AllNonNegative(StoreCount(tab, forms, configs, key, n))
  {
    var t := PanelTable(tab, forms).value;
    var cfg := ConfigFor(t, configs);
    var n := Changed(Get(cfg, key), c);
    assert n >= 0;
    SetNonNegative(cfg, key, n);
  }

  /**
   * A change to a key of the shown table moves the displayed total by the
   * change in that key's count; the table lists each of its keys once.
   */
  lemma TotalFollowsChange(tab: TestType, forms: Forms, configs: Configs, key: string, n: int)
    requires PanelTable(tab, forms).Some?
    requires Occurrences(Keys(PanelTable(tab, forms).value), key) == 1
    ensures var t := PanelTable(tab, forms).value;
            TotalQuantity(tab, forms, StoreCount(tab, forms, configs, key, n)) ==
            TotalQuantity(tab, forms, configs) - Get(ConfigFor(t, configs), key) + n
  {
    var t := PanelTable(tab, forms).value;
    TotalAfterSet(Keys(t), ConfigFor(t, configs), key, n);
  }

  /** A count stored under a key the shown table does not list leaves the total alone. */
  lemma TotalIgnoresOtherKeys(tab: TestType, forms: Forms, configs: Configs, key: string, n: int)
    requires PanelTable(tab, forms).Some? && key !in Keys(PanelTable(tab, forms).value)
    ensures TotalQuantity(tab, forms, StoreCount(tab, forms, configs, key, n)) == TotalQuantity(tab, forms, configs)
  {
    var t := PanelTable(tab, forms).value;
    TotalOutsideTable(Keys(t), ConfigFor(t, configs), key, n);
  }
}
