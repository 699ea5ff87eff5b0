/**
 * The application shell (App.tsx): the quantity and detail text sent with a
 * generation request, the generate guard and topic fallback, the list
 * toggles, the toolbar's scroll-driven auto-hide, and the generate/refine
 * updates of the generated sections. The AI service calls are not part of
 * this model: a generation or refinement arrives as the text it returned.
 */
module App {
  import opened JsText
  import opened Types
  import opened Subtypes
  import opened Topbar

  // ---------------------------------------------------------------------------
  // Quantity and detail text of a request
  // ---------------------------------------------------------------------------

  /**
   * `calculateEffectiveQuantity`: the word-list count, the total of the
   * active table on a configurable panel, else the question quantity. It is
   * the total the toolbar shows whenever the toolbar shows one.
   */
  function EffectiveQuantity(tab: TestType, forms: Forms, configs: Configs, questionQuantity: int): (n: int)
    ensures tab == WordList ==> n == questionQuantity
    ensures PanelTable(tab, forms).None? ==> n == questionQuantity
    ensures PanelTable(tab, forms).Some? ==> n == TotalQuantity(tab, forms, configs)
  {
    if tab == WordList then questionQuantity
    else if tab == Reading then
      Total(Keys(ReadingTable(forms.readingForm)), configs.reading)
    else if tab == Communication then Total(Keys(CommunicationTable), configs.communication)
    else if tab == Arrangement then Total(Keys(ArrangementTable), configs.arrangement)
    else if tab == Vocabulary && forms.vocabForm == "Collocation" then
      Total(Keys(VocabCollocation), configs.vocabCollocation)
    else if tab == Grammar && forms.grammarTestType == "Reorder sentence" then
      Total(Keys(GrammarReorder), configs.grammarReorder)
    else questionQuantity
  }

  /** `.filter(([type, q]) => q > 0 && <type is a key of the table>)`. */
  function Selected(cfg: Config, keys: seq<string>): (r: Config)
    ensures forall e :: e in r <==> e in cfg && e.count > 0 && e.key in keys
    ensures |r| <= |cfg|
  {
    if cfg == [] then []
    else if cfg[0].count > 0 && cfg[0].key in keys then [cfg[0]] + Selected(cfg[1..], keys)
    else Selected(cfg[1..], keys)
  }

  /** One listed entry: `${type}: ${q} items` (the count is positive). */
  function ItemText(e: Entry): string
    requires e.count > 0
  {
    e.key + ": " + NatToString(e.count) + " items"
  }

  /** The listed entries' texts in record order. */
  function ItemTexts(es: Config): (ts: seq<string>)
    requires forall e :: e in es ==> e.count > 0
    ensures |ts| == |es|
    ensures forall i :: 0 <= i < |es| ==> ts[i] == ItemText(es[i])
  {
    if es == [] then [] else [ItemText(es[0])] + ItemTexts(es[1..])
  }

  /** The detail list of a record for a table: the listed entries joined by `, `. */
  function Details(cfg: Config, keys: seq<string>): string {
    Join(ItemTexts(Selected(cfg, keys)), ", ")
  }

  /** `subTypeInfo`: the form and, on a configurable panel, its detail list. */
  function SubTypeInfo(tab: TestType, forms: Forms, configs: Configs): string {
    if tab == Vocabulary then
      if forms.vocabForm == "Collocation" then
        "Dạng bài: Collocation (Chi tiết: " + Details(configs.vocabCollocation, Keys(VocabCollocation)) + ")"
      else "Dạng bài: " + forms.vocabForm
    else if tab == Grammar then
      if forms.grammarTestType == "Reorder sentence" then
        "Dạng bài: Reorder sentence (Chi tiết: " + Details(configs.grammarReorder, Keys(GrammarReorder)) + ")"
      else "Dạng bài: " + forms.grammarTestType
    else if tab == Reading then
      "Dạng bài: " + forms.readingForm + " (Chi tiết: " +
      Details(configs.reading, Keys(ReadingTable(forms.readingForm))) + ")"
    else if tab == Communication then
      "Dạng bài: Communication (Chi tiết: " + Details(configs.communication, Keys(CommunicationTable)) + ")"
    else if tab == Arrangement then
      "Dạng bài: Arrangement (Chi tiết: " + Details(configs.arrangement, Keys(ArrangementTable)) + ")"
    else ""
  }

  // ---------------------------------------------------------------------------
  // The generate guard and the topic
  // ---------------------------------------------------------------------------

  /** Dictionary, Translate and CEFR Check generate nothing. */
  predicate IsUtility(tab: TestType) {
    tab in {Dictionary, Translate, CefrCheck}
  }

  /** `handleGenerate`'s two early returns, negated. */
  predicate GenerateProceeds(tab: TestType, topic: string, chips: seq<string>) {
    !(topic == "" && (tab != Grammar || |chips| == 0)) && !IsUtility(tab)
  }

  /** `canGenerate`, which enables the Generate button. */
  predicate CanGenerate(tab: TestType, topic: string, chips: seq<string>) {
    (topic != "" || (tab == Grammar && |chips| > 0)) && !IsUtility(tab)
  }

  /** The button is enabled exactly when a click would generate. */
  lemma ButtonMatchesGuard(tab: TestType, topic: string, chips: seq<string>)
    ensures CanGenerate(tab, topic, chips) <==> GenerateProceeds(tab, topic, chips)
  {
  }

  /** `topic || chips.join(', ') || "General Content"`. */
  function EffectiveTopic(topic: string, chips: seq<string>): (t: string)
    ensures topic != "" ==> t == topic
  {
    if topic != "" then topic
    else if |chips| > 0 then Join(chips, ", ")
    else "General Content"
  }

  /** Past the guard the fallback topic is never used: it is the topic or the chips. */
  lemma FallbackTopicUnused(tab: TestType, topic: string, chips: seq<string>)
    requires GenerateProceeds(tab, topic, chips)
    ensures EffectiveTopic(topic, chips) == if topic != "" then topic else Join(chips, ", ")
    ensures topic == "" ==> tab == Grammar && |chips| > 0
  {
  }

  /** What a generation asks the AI service for. */
  datatype Request = Request(tab: TestType, topic: string, level: LevelOption, quantity: int, subTypeInfo: string)

  /** Everything the request is built from besides the tab. */
  datatype Settings = Settings(
    topic: string, chips: seq<string>, forms: Forms, configs: Configs,
    questionQuantity: int, level: LevelOption)

  function RequestFor(tab: TestType, s: Settings): (r: Request)
    ensures r.tab == tab && r.level == s.level
    ensures r.quantity == EffectiveQuantity(tab, s.forms, s.configs, s.questionQuantity)
  {
    Request(tab, EffectiveTopic(s.topic, s.chips), s.level,
            EffectiveQuantity(tab, s.forms, s.configs, s.questionQuantity),
            SubTypeInfo(tab, s.forms, s.configs))
  }

  // ---------------------------------------------------------------------------
  // Toggles
  // ---------------------------------------------------------------------------

  /** `xs.filter(y => y !== x)`. */
  function Without(xs: seq<string>, x: string): (r: seq<string>)
    ensures x !in r
    ensures forall y :: y != x ==> (y in r <==> y in xs)
    ensures x !in xs ==> r == xs
  {
    if xs == [] then []
    else if xs[0] == x then Without(xs[1..], x)
    else [xs[0]] + Without(xs[1..], x)
  }

  /** `xs.includes(x) ? xs.filter(y => y !== x) : [...xs, x]`. */
  function Toggle(xs: seq<string>, x: string): (r: seq<string>)
    ensures x in r <==> x !in xs
    ensures forall y :: y != x ==> (y in r <==> y in xs)
  {
    if x in xs then Without(xs, x) else xs + [x]
  }

  lemma {:induction false} WithoutAppended(xs: seq<string>, x: string)
    requires x !in xs
    ensures Without(xs + [x], x) == xs
  {
    if xs == [] {
      assert [] + [x] == [x];
      assert [x][1..] == [];
    } else {
      assert (xs + [x])[1..] == xs[1..] + [x];
      WithoutAppended(xs[1..], x);
      assert xs == [xs[0]] + xs[1..];
    }
  }

  /** Toggling an item that is not listed, twice, restores the list. */
  lemma ToggleTwice(xs: seq<string>, x: string)
    requires x !in xs
    ensures Toggle(Toggle(xs, x), x) == xs
  {
    assert x in xs + [x];
    WithoutAppended(xs, x);
  }

  /** A listed item toggled twice moves to the end. */
  lemma ToggleTwiceListed(x: string, y: string)
    requires x != y
    ensures Toggle(Toggle([x, y], x), x) == [y, x]
  {
    assert [x, y][1..] == [y];
    assert Without([y], x) == [y] by { assert [y][1..] == []; }
    assert Without([x, y], x) == [y];
  }

  /**
   * `handleSuggestionClick`: on the Grammar tab the suggestion toggles a
   * chip, elsewhere it becomes the topic. Returns the new chips and topic.
   */
  function SuggestionClick(tab: TestType, chips: seq<string>, topic: string, suggestion: string): (r: (seq<string>, string))
    ensures tab == Grammar ==> r.1 == topic && (suggestion in r.0 <==> suggestion !in chips)
    ensures tab != Grammar ==> r.0 == chips && r.1 == suggestion
  {
    if tab == Grammar then (Toggle(chips, suggestion), topic) else (chips, suggestion)
  }

  // ---------------------------------------------------------------------------
  // The toolbar's auto-hide
  // ---------------------------------------------------------------------------

  function Abs(x: int): nat { if x < 0 then -x else x }

  /** The toolbar's expanded flag, its auto-hide switch and the last scroll position acted on. */
  class ScrollBar {
    var expanded: bool
    var autoHide: bool
    var lastScrollY: int

    constructor ()
      ensures expanded && autoHide && lastScrollY == 0
    {
      expanded := true;
      autoHide := true;
      lastScrollY := 0;
    }

    /**
     * `handleContentScroll`: with auto-hide on and a move of at least 10,
     * collapse when scrolling down past 50, otherwise expand, and remember
     * the position; a smaller move changes nothing, not even the position.
     */
    method OnScroll(current: int)
      modifies this
      ensures autoHide == old(autoHide)
      ensures !old(autoHide) || Abs(current - old(lastScrollY)) < 10 ==>
                expanded == old(expanded) && lastScrollY == old(lastScrollY)
      ensures old(autoHide) && Abs(current - old(lastScrollY)) >= 10 ==>
                lastScrollY == current &&
                (expanded <==> !(current > old(lastScrollY) && current > 50))
    {
      if !autoHide {
        return;
      }
      if Abs(current - lastScrollY) < 10 {
        return;
      }
      if current > lastScrollY && current > 50 {
        expanded := false;
      } else {
        expanded := true;
      }
      lastScrollY := current;
    }

    /** The chevron button flips the expanded flag. */
    method ToggleExpand()
      modifies this
      ensures expanded == !old(expanded)
      ensures autoHide == old(autoHide) && lastScrollY == old(lastScrollY)
    {
      expanded := !expanded;
    }

    /** The lock button flips auto-hide. */
    method ToggleAutoHide()
      modifies this
      ensures autoHide == !old(autoHide)
      ensures expanded == old(expanded) && lastScrollY == old(lastScrollY)
    {
      autoHide := !autoHide;
    }
  }

  // ---------------------------------------------------------------------------
  // The generated sections
  // ---------------------------------------------------------------------------

  /** `id` of each section in the initial data. */
  function SectionId(t: TestType): string {
    match t
    case Vocabulary => "vocab"
    case WordList => "wordlist"
    case Grammar => "grammar"
    case Reading => "reading"
    case Rewriting => "rewriting"
    case Arrangement => "arrangement"
    case Communication => "communication"
    case Dictionary => "dict"
    case Translate => "trans"
    case CefrCheck => "cefr"
  }

  /** Every kind has its section, recorded under its own kind. */
  predicate Complete(data: GeneratedTest) {
    (forall t: TestType :: t in data) && (forall t :: t in data ==> data[t].kind == t)
  }

  /** `initialTestData`: an empty, not generated section per kind. */
  function InitialTestData(): (data: GeneratedTest)
    ensures Complete(data)
    ensures forall t :: !data[t].isGenerated && data[t].content == ""
  {
    map t: TestType | true :: TestContent(SectionId(t), t, "", false, None)
  }

  /** A completed generation: the tab's section takes the content and is generated. */
  function WithGenerated(data: GeneratedTest, tab: TestType, content: string): (r: GeneratedTest)
    requires Complete(data)
    ensures Complete(r)
    ensures r[tab].content == content && r[tab].isGenerated
    ensures r[tab].id == data[tab].id && r[tab].vocabularyAnalysis == data[tab].vocabularyAnalysis
    ensures forall t :: t != tab ==> r[t] == data[t]
  {
    data[tab := data[tab].(content := content, isGenerated := true)]
  }

  /** A refinement: content only, and only on a generated section. */
  function WithRefined(data: GeneratedTest, tab: TestType, refined: string): (r: GeneratedTest)
    requires Complete(data)
    ensures Complete(r)
    ensures !data[tab].isGenerated ==> r == data
    ensures data[tab].isGenerated ==> r[tab] == data[tab].(content := refined)
    ensures forall t :: t != tab ==> r[t] == data[t]
  {
    if !data[tab].isGenerated then data
    else data[tab := data[tab].(content := refined)]
  }

  /** Regenerating the same tab keeps only the last content. */
  lemma GenerateOverwrites(data: GeneratedTest, tab: TestType, a: string, b: string)
    requires Complete(data)
    ensures WithGenerated(WithGenerated(data, tab, a), tab, b) == WithGenerated(data, tab, b)
  {
  }

  /** A refinement after a generation always applies. */
  lemma RefineAfterGenerate(data: GeneratedTest, tab: TestType, content: string, refined: string)
    requires Complete(data)
    ensures WithRefined(WithGenerated(data, tab, content), tab, refined) == WithGenerated(data, tab, refined)
  {
  }

  /** The current tab, the generated sections and the busy flag. */
  class Workspace {
    var tab: TestType
    var testData: GeneratedTest
    var isProcessing: bool

    predicate Valid()
      reads this
    {
      Complete(testData)
    }

    constructor ()
      ensures Valid() && tab == Vocabulary && testData == InitialTestData() && !isProcessing
    {
      tab := Vocabulary;
      testData := InitialTestData();
      isProcessing := false;
    }

    method SelectTab(t: TestType)
      requires Valid()
      modifies this
      ensures Valid() && tab == t
      ensures testData == old(testData) && isProcessing == old(isProcessing)
    {
      tab := t;
    }

    /**
     * `handleGenerate`: past the guard, the request built from the settings
     * is sent, and the text that comes back (`content`) replaces the current
     * tab's section; otherwise nothing is sent and nothing changes.
     */
    method Generate(s: Settings, content: string) returns (sent: Option<Request>)
      requires Valid()
      modifies this
      ensures Valid() && tab == old(tab)
      ensures sent == if GenerateProceeds(old(tab), s.topic, s.chips) then Some(RequestFor(old(tab), s)) else None
      ensures sent.None? ==> testData == old(testData) && isProcessing == old(isProcessing)
      ensures sent.Some? ==> testData == WithGenerated(old(testData), old(tab), content) && !isProcessing
    {
      if s.topic == "" && (tab != Grammar || |s.chips| == 0) {
        return None;
      }
      if IsUtility(tab) {
        return None;
      }
      isProcessing := true;
      var quantity := EffectiveQuantity(tab, s.forms, s.configs, s.questionQuantity);
      var topic := EffectiveTopic(s.topic, s.chips);
      var info := SubTypeInfo(tab, s.forms, s.configs);
      sent := Some(Request(tab, topic, s.level, quantity, info));
      testData := testData[tab := testData[tab].(content := content, isGenerated := true)];
      isProcessing := false;
    }

    /** `handleRefine`: only a generated section is refined, and only its content changes. */
    method Refine(refined: string) returns (sent: bool)
      requires Valid()
      modifies this
      ensures Valid() && tab == old(tab)
      ensures sent == old(testData)[old(tab)].isGenerated
      ensures testData == WithRefined(old(testData), old(tab), refined)
      ensures !sent ==> isProcessing == old(isProcessing)
      ensures sent ==> !isProcessing
    {
      var t := tab;
      var section := testData[t];
      if !section.isGenerated {
        return false;
      }
      isProcessing := true;
      testData := testData[t := section.(content := refined)];
      isProcessing := false;
      return true;
    }
  }
}
