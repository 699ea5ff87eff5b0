/**
 * The subtype tables of constants.ts and the per-subtype quantity records the
 * application keeps for them. Only the tables' keys matter to the logic (the
 * descriptions are prompt text), so a table is its list of keys in
 * declaration order. A quantity record (`Record<string, number>`) is a list
 * of entries in insertion order, which is the order `Object.entries` visits.
 */
module Subtypes {
  import opened JsText

  datatype Table =
    | ReadingCloze | ReadingClozeAdvanced | ReadingComp | ReadingMatching
    | ReadingOpenGuided | ReadingMixed | CommunicationTable | ArrangementTable
    | VocabCollocation | GrammarReorder

  /** `Object.keys(<table>)`. */
  function Keys(t: Table): (ks: seq<string>)
    ensures |ks| >= 2
  {
    match t
    case ReadingCloze => ["Quantifiers", "Determiners", "Distributives", "Word Formation", "Word Choice",
                          "Relative Clauses", "Reduced relative clause", "Passive voice", "Phrasal Verbs",
                          "Conjunctions", "Collocations", "Prepositions", "Gerund/Infinitive", "Word Order"]
    case ReadingClozeAdvanced => ["Word Choice", "Collocations", "Phrasal Verbs", "Conjunctions", "Idioms",
                                  "Quantifiers", "Distributives", "Prepositional Phrases"]
    case ReadingComp => ["Main Idea", "Detail", "Factual: TRUE/MENTIONED", "Negative Factual", "Vocabulary",
                         "Inference", "Rhetorical Purpose", "Reference", "Restatement", "Sentence Insertion",
                         "Best Summary (Passage)", "Best Summary (Paragraph)", "Discussion"]
    case ReadingMatching => ["Sentence Insertion", "Grammar & Structure"]
    case ReadingOpenGuided => ["Preposition", "Word Formation", "Conjunction", "Idiom", "Gerund/Infinitive", "Comparison"]
    case ReadingMixed => ["Reading and answer", "Reading True/False"]
    case CommunicationTable => ["Type 1", "Type 2", "Type 3", "Type 4"]
    case ArrangementTable => ["Word Order (Adjectives)", "Dialogue (3 lines)", "Dialogue (5 lines)", "Letter/Email", "Paragraph"]
    case VocabCollocation => ["Verb & Adverb", "Adverb + Adjective", "Verb + Noun"]
    case GrammarReorder => ["Reorder MTC", "Reorder Tự luận"]
  }

  /**
   * The reading form's table: the exact `Reading Cloze Advanced` is tested
   * before the `Reading Cloze` prefix, then the exact Matching,
   * Open-Guided and Answer/True/False names; anything else is Comprehension.
   */
  function ReadingTable(form: string): (t: Table)
    ensures t == ReadingClozeAdvanced <==> form == "Reading Cloze Advanced"
    ensures t == ReadingCloze <==> StartsWith(form, "Reading Cloze") && form != "Reading Cloze Advanced"
    ensures t in {ReadingClozeAdvanced, ReadingCloze, ReadingMatching, ReadingOpenGuided, ReadingMixed, ReadingComp}
  {
    if form == "Reading Cloze Advanced" then ReadingClozeAdvanced
    else if StartsWith(form, "Reading Cloze") then ReadingCloze
    else if form == "Reading Matching" then ReadingMatching
    else if form == "Reading Open-Guided" then ReadingOpenGuided
    else if form == "Reading (Answer/True/False)" then ReadingMixed
    else ReadingComp
  }

  /** The advanced form also starts with the cloze prefix, so the order of the tests matters. */
  lemma AdvancedBeforePrefix(form: string)
    requires form == "Reading Cloze Advanced"
    ensures StartsWith(form, "Reading Cloze") && ReadingTable(form) == ReadingClozeAdvanced
  {
    assert form[..13] == "Reading Cloze";
  }

  // ---------------------------------------------------------------------------
  // Quantity records
  // ---------------------------------------------------------------------------

  datatype Entry = Entry(key: string, count: int)

  /** `Record<string, number>` in insertion order. */
  type Config = seq<Entry>

  function KeyList(cfg: Config): (ks: seq<string>)
    ensures |ks| == |cfg|
    ensures forall i :: 0 <= i < |cfg| ==> ks[i] == cfg[i].key
  {
    if cfg == [] then [] else [cfg[0].key] + KeyList(cfg[1..])
  }

  /** `cfg[k] || 0`: the entry's count, or 0 when there is none. */
  function Get(cfg: Config, k: string): (n: int)
    ensures k !in KeyList(cfg) ==> n == 0
    ensures NonNegative(cfg) ==> n >= 0
  {
    if cfg == [] then 0
    else if cfg[0].key == k then cfg[0].count
    else Get(cfg[1..], k)
  }

  /**
   * `{...cfg, [k]: v}`: an existing key keeps its place and takes the new
   * count, a new key is appended.
   */
  function Set(cfg: Config, k: string, v: int): (r: Config)
    ensures Get(r, k) == v
    ensures forall j :: j != k ==> Get(r, j) == Get(cfg, j)
  {
    if cfg == [] then [Entry(k, v)]
    else if cfg[0].key == k then [Entry(k, v)] + cfg[1..]
    else [cfg[0]] + Set(cfg[1..], k, v)
  }

  /** The record keeps its key order; a new key goes last. */
  lemma {:induction false} SetKeys(cfg: Config, k: string, v: int)
    ensures KeyList(Set(cfg, k, v)) == if k in KeyList(cfg) then KeyList(cfg) else KeyList(cfg) + [k]
  {
    if cfg != [] {
      var tail := cfg[1..];
      assert cfg == [cfg[0]] + tail;
      KeyListCons(cfg[0], tail);
      if cfg[0].key == k {
        KeyListCons(Entry(k, v), tail);
      } else {
        var r := Set(tail, k, v);
        SetKeys(tail, k, v);
        KeyListCons(cfg[0], r);
        assert (k in KeyList(cfg)) == (k in KeyList(tail));
      }
    }
  }

  lemma KeyListCons(e: Entry, cfg: Config)
    ensures KeyList([e] + cfg) == [e.key] + KeyList(cfg)
  {
    assert ([e] + cfg)[1..] == cfg;
  }

  /** Every count is at least zero. */
  predicate NonNegative(cfg: Config) {
    forall i :: 0 <= i < |cfg| ==> cfg[i].count >= 0
  }

  /** Storing a count of at least zero keeps every count at least zero. */
  lemma {:induction false} SetNonNegative(cfg: Config, k: string, v: int)
    requires NonNegative(cfg) && v >= 0
    ensures NonNegative(Set(cfg, k, v))
  {
    if cfg != [] && cfg[0].key != k {
      SetNonNegative(cfg[1..], k, v);
    }
  }

  /** `Object.keys(table).reduce((sum, key) => sum + (cfg[key] || 0), 0)`. */
  function Total(keys: seq<string>, cfg: Config): int {
    if keys == [] then 0 else Get(cfg, keys[0]) + Total(keys[1..], cfg)
  }

  /** With every count at least zero, so is the total. */
  lemma {:induction false} TotalNonNegative(keys: seq<string>, cfg: Config)
    requires NonNegative(cfg)
    ensures Total(keys, cfg) >= 0
  {
    if keys != [] {
      TotalNonNegative(keys[1..], cfg);
    }
  }

  /** How many times `k` is listed in `keys`. */
  function Occurrences(keys: seq<string>, k: string): (n: nat)
    ensures n == 0 <==> k !in keys
  {
    if keys == [] then 0 else (if keys[0] == k then 1 else 0) + Occurrences(keys[1..], k)
  }

  /** A count stored under a key outside the table leaves the total alone. */
  lemma {:induction false} TotalOutsideTable(keys: seq<string>, cfg: Config, k: string, v: int)
    requires k !in keys
    ensures Total(keys, Set(cfg, k, v)) == Total(keys, cfg)
  {
    if keys != [] {
      assert keys[0] != k;
      TotalOutsideTable(keys[1..], cfg, k, v);
    }
  }

  /** Setting the count of a key the table lists once moves the total by the change. */
  lemma {:induction false} TotalAfterSet(keys: seq<string>, cfg: Config, k: string, v: int)
    requires Occurrences(keys, k) == 1
    ensures Total(keys, Set(cfg, k, v)) == Total(keys, cfg) - Get(cfg, k) + v
  {
    if keys[0] == k {
      TotalOutsideTable(keys[1..], cfg, k, v);
    } else {
      TotalAfterSet(keys[1..], cfg, k, v);
    }
  }

  /** An empty record totals 0 over any table. */
  lemma {:induction false} TotalOfEmpty(keys: seq<string>)
    ensures Total(keys, []) == 0
  {
    if keys != [] {
      TotalOfEmpty(keys[1..]);
    }
  }

  /** The quantity records of the five configurable panels. */
  datatype Configs = Configs(
    reading: Config, communication: Config, arrangement: Config,
    vocabCollocation: Config, grammarReorder: Config)

  /** The record that holds the quantities of table `t`. */
  function ConfigFor(t: Table, c: Configs): Config {
    match t
    case CommunicationTable => c.communication
    case ArrangementTable => c.arrangement
    case VocabCollocation => c.vocabCollocation
    case GrammarReorder => c.grammarReorder
    case _ => c.reading
  }

  /** The selections the panels depend on. */
  datatype Forms = Forms(readingForm: string, vocabForm: string, grammarTestType: string)
}
