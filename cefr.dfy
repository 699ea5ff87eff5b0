/**
 * The CEFR checker (components/CefrCheck.tsx): which analysed terms are
 * highlighted and in what order, how a term is escaped for the highlight
 * pattern, how a highlighted part finds its term and colour, the analysis
 * table's order, the word counter and the analyze guard. The analysis itself
 * is an AI call; it arrives here as its result.
 */
module CefrCheck {
  import opened JsText

  datatype AnalyzedWord = AnalyzedWord(
    field: string, word: string, form: string, level: string,
    meaning: string, synonyms: string, antonyms: string)

  // ---------------------------------------------------------------------------
  // A stable insertion sort (`Array.prototype.sort` is stable)
  // ---------------------------------------------------------------------------

  /** `le(a, b)`: `a` may come before `b`; a total relation. */
  ghost predicate Total<T(!new)>(le: (T, T) -> bool) {
    forall a, b :: le(a, b) || le(b, a)
  }

  /** Each element may come before the next. */
  predicate Ordered<T>(s: seq<T>, le: (T, T) -> bool) {
    forall i :: 0 <= i < |s| - 1 ==> le(s[i], s[i + 1])
  }

  /** `x` goes before the first element it may precede, so an earlier equal stays first. */
  function Insert<T>(x: T, s: seq<T>, le: (T, T) -> bool): (r: seq<T>)
    ensures multiset(r) == multiset(s) + multiset{x}
    ensures |r| == |s| + 1
  {
    if s == [] then [x]
    else if le(x, s[0]) then [x] + s
    else
      assert s == [s[0]] + s[1..];
      [s[0]] + Insert(x, s[1..], le)
  }

  function SortBy<T>(xs: seq<T>, le: (T, T) -> bool): (r: seq<T>)
    ensures multiset(r) == multiset(xs)
    ensures |r| == |xs|
  {
    if xs == [] then []
    else
      assert xs == [xs[0]] + xs[1..];
      Insert(xs[0], SortBy(xs[1..], le), le)
  }

  lemma {:induction false} InsertOrdered<T(!new)>(x: T, s: seq<T>, le: (T, T) -> bool)
    requires Total(le) && Ordered(s, le)
    ensures Ordered(Insert(x, s, le), le)
    ensures Insert(x, s, le)[0] == x || (s != [] && Insert(x, s, le)[0] == s[0])
  {
    if s != [] && !le(x, s[0]) {
      var tail := s[1..];
      assert Ordered(tail, le) by {
        forall i | 0 <= i < |tail| - 1 ensures le(tail[i], tail[i + 1]) {
          assert tail[i] == s[i + 1] && tail[i + 1] == s[i + 2];
        }
      }
      InsertOrdered(x, tail, le);
      assert le(s[0], x);
      var r := Insert(x, tail, le);
      assert Insert(x, s, le) == [s[0]] + r;
      if tail != [] {
        assert le(s[0], s[1]);
      }
      OrderedCons(s[0], r, le);
    }
  }

  /** An element that may precede the head of an ordered list keeps it ordered in front. */
  lemma OrderedCons<T>(a: T, r: seq<T>, le: (T, T) -> bool)
    requires Ordered(r, le) && (r != [] ==> le(a, r[0]))
    ensures Ordered([a] + r, le)
  {
    var t := [a] + r;
    forall i | 0 <= i < |t| - 1 ensures le(t[i], t[i + 1]) {
      if i > 0 {
        assert t[i] == r[i - 1] && t[i + 1] == r[i];
      }
    }
  }

  /** A total relation sorts any list into order, as a permutation of it. */
  lemma {:induction false} SortOrdered<T(!new)>(xs: seq<T>, le: (T, T) -> bool)
    requires Total(le)
    ensures Ordered(SortBy(xs, le), le)
  {
    if xs != [] {
      SortOrdered(xs[1..], le);
      InsertOrdered(xs[0], SortBy(xs[1..], le), le);
    }
  }

  // ---------------------------------------------------------------------------
  // Active terms
  // ---------------------------------------------------------------------------

  /** The item's level is highlighted, or its form equals a highlighted entry ignoring case. */
  predicate IsActive(item: AnalyzedWord, highlighted: seq<string>) {
    item.level in highlighted ||
    exists i :: 0 <= i < |highlighted| && ToLower(highlighted[i]) == ToLower(item.form)
  }

  function ActiveOf(data: seq<AnalyzedWord>, highlighted: seq<string>): (r: seq<AnalyzedWord>)
    ensures forall t :: t in r <==> t in data && IsActive(t, highlighted)
    ensures multiset(r) <= multiset(data)
    ensures forall t :: multiset(r)[t] == if IsActive(t, highlighted) then multiset(data)[t] else 0
  {
    if data == [] then []
    else
      assert data == [data[0]] + data[1..];
      if IsActive(data[0], highlighted) then [data[0]] + ActiveOf(data[1..], highlighted)
      else ActiveOf(data[1..], highlighted)
  }

  /** `(a, b) => b.word.length - a.word.length`: longer words first. */
  function LongerFirst(a: AnalyzedWord, b: AnalyzedWord): bool {
    |a.word| >= |b.word|
  }

  /** `activeTerms`: the active items, longest word first. */
  function ActiveTerms(data: seq<AnalyzedWord>, highlighted: seq<string>): seq<AnalyzedWord> {
    SortBy(ActiveOf(data, highlighted), LongerFirst)
  }

  /**
   * The active terms are exactly the active items, each as often as it was
   * analysed, ordered by word length, longest first.
   */
  lemma ActiveTermsSpec(data: seq<AnalyzedWord>, highlighted: seq<string>)
    ensures var r := ActiveTerms(data, highlighted);
            multiset(r) == multiset(ActiveOf(data, highlighted)) &&
            (forall t :: multiset(r)[t] == if IsActive(t, highlighted) then multiset(data)[t] else 0) &&
            (forall t :: t in r <==> t in data && IsActive(t, highlighted)) &&
            forall i :: 0 <= i < |r| - 1 ==> |r[i].word| >= |r[i + 1].word|
  {
    var a := ActiveOf(data, highlighted);
    SortOrdered(a, LongerFirst);
    var r := SortBy(a, LongerFirst);
    forall t ensures t in r <==> t in a {
      assert t in r <==> t in multiset(r);
      assert t in a <==> t in multiset(a);
    }
  }

  /** A rendered piece of the input: plain text, or a term highlighted in its colour. */
  datatype Segment = Text(text: string) | Mark(text: string, item: AnalyzedWord, color: string)

  /**
   * `renderAnalyzedText`: the input as one piece when no term is active;
   * otherwise each of `parts`, the pieces `input.split(regex)` produced at
   * the pattern of the active terms, looked up among those terms.
   */
  function RenderAnalyzed(input: string, data: seq<AnalyzedWord>, highlighted: seq<string>, parts: seq<string>): (r: seq<Segment>)
    ensures ActiveTerms(data, highlighted) != [] ==> |r| == |parts|
    ensures ActiveTerms(data, highlighted) != [] ==>
              forall i :: 0 <= i < |parts| ==>
                r[i].text == parts[i] &&
                (r[i].Mark? <==> exists j :: 0 <= j < |ActiveTerms(data, highlighted)| &&
                                   ToLower(ActiveTerms(data, highlighted)[j].word) == ToLower(parts[i]))
    ensures forall i :: 0 <= i < |r| && r[i].Mark? ==>
              r[i].item in data && IsActive(r[i].item, highlighted) &&
              ToLower(r[i].item.word) == ToLower(r[i].text) && r[i].color == ColorFor(r[i].item)
  {
    var terms := ActiveTerms(data, highlighted);
    ActiveTermsSpec(data, highlighted);
    if terms == [] then [Text(input)]
    else seq(|parts|, i requires 0 <= i < |parts| => SegmentFor(terms, parts[i]))
  }

  /** The texts of the rendered pieces, in order. */
  function TextsOf(r: seq<Segment>): (ts: seq<string>)
    ensures |ts| == |r| && forall i :: 0 <= i < |r| ==> ts[i] == r[i].text
  {
    seq(|r|, i requires 0 <= i < |r| => r[i].text)
  }

  /** No highlighted level or form matches any item: the input is rendered as one plain piece. */
  lemma RenderNothingActive(input: string, data: seq<AnalyzedWord>, highlighted: seq<string>, parts: seq<string>)
    requires forall t :: t in data ==> !IsActive(t, highlighted)
    ensures RenderAnalyzed(input, data, highlighted, parts) == [Text(input)]
  {
    NothingActiveShowsInput(data, highlighted);
  }

  /**
   * Rendering loses and adds no text: the split keeps the matched terms as
   * parts, so the pieces read back as the input.
   */
  lemma RenderKeepsInput(input: string, data: seq<AnalyzedWord>, highlighted: seq<string>, parts: seq<string>)
    requires Concat(parts) == input
    ensures Concat(TextsOf(RenderAnalyzed(input, data, highlighted, parts))) == input
  {
    var r := RenderAnalyzed(input, data, highlighted, parts);
    if ActiveTerms(data, highlighted) == [] {
      assert TextsOf(r) == [input];
      assert Concat([input]) == input + Concat([]);
    } else {
      assert TextsOf(r) == parts;
    }
  }

  /** No highlighted level or form matches any item: the input is shown unchanged. */
  lemma NothingActiveShowsInput(data: seq<AnalyzedWord>, highlighted: seq<string>)
    requires forall t :: t in data ==> !IsActive(t, highlighted)
    ensures ActiveTerms(data, highlighted) == []
  {
    NoneActive(data, highlighted);
  }

  lemma {:induction false} NoneActive(data: seq<AnalyzedWord>, highlighted: seq<string>)
    requires forall t :: t in data ==> !IsActive(t, highlighted)
    ensures ActiveOf(data, highlighted) == []
  {
    if data != [] {
      assert data[0] in data;
      NoneActive(data[1..], highlighted);
    }
  }

  // ---------------------------------------------------------------------------
  // Escaping a term for the pattern
  // ---------------------------------------------------------------------------

  /** `[.*+?^${}()|[\]\\]` */
  predicate IsRegexSpecial(c: char) {
    c in {'.', '*', '+', '?', '^', '$', '{', '}', '(', ')', '|', '[', ']', '\\'}
  }

  /** `word.replace(/[.*+?^${}()|[\]\\]/g, '\\$&')` */
  function Escape(s: string): (r: string)
    ensures |r| >= |s|
    ensures (forall k :: 0 <= k < |s| ==> !IsRegexSpecial(s[k])) ==> r == s
  {
    if s == [] then []
    else if IsRegexSpecial(s[0]) then ['\\', s[0]] + Escape(s[1..])
    else [s[0]] + Escape(s[1..])
  }

  /** Escaping works character by character: it distributes over concatenation. */
  lemma {:induction false} EscapeAppend(s: string, t: string)
    ensures Escape(s + t) == Escape(s) + Escape(t)
  {
    if s == [] {
      assert s + t == t;
    } else {
      assert (s + t)[0] == s[0];
      assert (s + t)[1..] == s[1..] + t;
      EscapeAppend(s[1..], t);
    }
  }

  /** A special character gains a backslash in front; any other stays as it is. */
  lemma EscapeChar(c: char)
    ensures Escape([c]) == if IsRegexSpecial(c) then ['\\', c] else [c]
  {
    assert [c][1..] == [];
  }

  /** Reading an escaped pattern back: a backslash takes the next character literally. */
  function Unescape(r: string): string
    decreases |r|
  {
    if r == [] then []
    else if r[0] == '\\' && |r| >= 2 then [r[1]] + Unescape(r[2..])
    else [r[0]] + Unescape(r[1..])
  }

  /** Escaping loses nothing: the pattern text reads back as the word. */
  lemma {:induction false} EscapeRoundTrip(s: string)
    ensures Unescape(Escape(s)) == s
  {
    if s != [] {
      EscapeRoundTrip(s[1..]);
      var e := Escape(s);
      if IsRegexSpecial(s[0]) {
        assert e == ['\\', s[0]] + Escape(s[1..]);
        assert e[2..] == Escape(s[1..]);
      } else {
        assert e == [s[0]] + Escape(s[1..]);
        assert e[0] != '\\';
        assert e[1..] == Escape(s[1..]);
      }
      assert s == [s[0]] + s[1..];
    }
  }

  /** Every special character of the escaped text follows a backslash. */
  lemma {:induction false} EscapedSpecialsQuoted(s: string, k: nat)
    requires k < |Escape(s)| && IsRegexSpecial(Escape(s)[k]) && Escape(s)[k] != '\\'
    ensures k > 0 && Escape(s)[k - 1] == '\\'
  {
    if IsRegexSpecial(s[0]) {
      if k >= 2 {
        EscapedSpecialsQuoted(s[1..], k - 2);
      }
    } else {
      EscapedSpecialsQuoted(s[1..], k - 1);
    }
  }

  /** `activeTerms.map(t => escape(t.word)).join('|')` */
  function PatternOf(terms: seq<AnalyzedWord>): string {
    Join(EscapedWords(terms), "|")
  }

  function EscapedWords(terms: seq<AnalyzedWord>): (ws: seq<string>)
    ensures |ws| == |terms|
    ensures forall i :: 0 <= i < |terms| ==> ws[i] == Escape(terms[i].word)
  {
    if terms == [] then [] else [Escape(terms[0].word)] + EscapedWords(terms[1..])
  }

  // ---------------------------------------------------------------------------
  // Looking a part up and choosing its colour
  // ---------------------------------------------------------------------------

  /**
   * `termMap.get(part.toLowerCase())`, the map filled in term order with
   * `set(word.toLowerCase(), term)`: the last term whose word matches wins.
   */
  function TermFor(terms: seq<AnalyzedWord>, lower: string): (r: Option<AnalyzedWord>)
    ensures r.None? <==> forall i :: 0 <= i < |terms| ==> ToLower(terms[i].word) != lower
    ensures r.Some? ==> r.value in terms && ToLower(r.value.word) == lower
  {
    if terms == [] then None
    else
      var init := terms[..|terms| - 1];
      var last := terms[|terms| - 1];
      assert forall i :: 0 <= i < |init| ==> init[i] == terms[i];
      if ToLower(last.word) == lower then Some(last)
      else TermFor(init, lower)
  }

  /** The term found is the last one whose word matches. */
  lemma {:induction false} TermForIsLast(terms: seq<AnalyzedWord>, lower: string, i: nat)
    requires i < |terms| && ToLower(terms[i].word) == lower
    requires forall j :: i < j < |terms| ==> ToLower(terms[j].word) != lower
    ensures TermFor(terms, lower) == Some(terms[i])
  {
    if i < |terms| - 1 {
      var init := terms[..|terms| - 1];
      TermForIsLast(init, lower, i);
    }
  }

  /** `CEFR_HIGHLIGHT_COLORS` (constants.ts). */
  const HighlightColors: map<string, string> := map[
    "A1" := "bg-slate-300 text-slate-900",
    "A2" := "bg-sky-300 text-sky-900",
    "B1" := "bg-lime-300 text-lime-900",
    "B2" := "bg-yellow-300 text-yellow-900",
    "C1" := "bg-orange-300 text-orange-900",
    "C2" := "bg-red-300 text-red-900",
    "Collocation" := "bg-pink-300 text-pink-900",
    "Idiom" := "bg-violet-300 text-violet-900",
    "Phrasal Verb" := "bg-teal-300 text-teal-900"]

  const DefaultColor := "bg-yellow-300"

  /** The form's colour, else the level's, else the default. */
  function ColorFor(item: AnalyzedWord): (c: string)
    ensures item.form in HighlightColors ==> c == HighlightColors[item.form]
    ensures item.form !in HighlightColors && item.level in HighlightColors ==> c == HighlightColors[item.level]
    ensures item.form !in HighlightColors && item.level !in HighlightColors ==> c == DefaultColor
    ensures c in HighlightColors.Values || c == DefaultColor
  {
    if item.form in HighlightColors then HighlightColors[item.form]
    else if item.level in HighlightColors then HighlightColors[item.level]
    else DefaultColor
  }

  /** A split part: highlighted with its term's colour when its lower-cased text names a term. */
  function SegmentFor(terms: seq<AnalyzedWord>, part: string): (s: Segment)
    ensures s.text == part
    ensures s.Mark? <==> TermFor(terms, ToLower(part)).Some?
    ensures s.Mark? ==> s.item in terms && ToLower(s.item.word) == ToLower(part) && s.color == ColorFor(s.item)
  {
    match TermFor(terms, ToLower(part))
    case Some(item) => Mark(part, item, ColorFor(item))
    case None => Text(part)
  }

  // ---------------------------------------------------------------------------
  // The analysis table
  // ---------------------------------------------------------------------------

  /** `levelOrder[l] || 0`. */
  function LevelValue(l: string): (v: nat)
    ensures v <= 6
    ensures v > 0 <==> l in {"A1", "A2", "B1", "B2", "C1", "C2"}
  {
    if l == "C2" then 6 else if l == "C1" then 5 else if l == "B2" then 4
    else if l == "B1" then 3 else if l == "A2" then 2 else if l == "A1" then 1 else 0
  }

  /** Code-point order on strings, standing for `localeCompare`. */
  predicate LexLe(a: string, b: string) {
    a == [] || (b != [] && (a[0] < b[0] || (a[0] == b[0] && LexLe(a[1..], b[1..]))))
  }

  lemma {:induction false} LexTotal(a: string, b: string)
    ensures LexLe(a, b) || LexLe(b, a)
  {
    if a != [] && b != [] && a[0] == b[0] {
      LexTotal(a[1..], b[1..]);
    }
  }

  /** The table comparator: higher level first, then by field. */
  function TableBefore(a: AnalyzedWord, b: AnalyzedWord): bool {
    LevelValue(a.level) > LevelValue(b.level) ||
    (LevelValue(a.level) == LevelValue(b.level) && LexLe(a.field, b.field))
  }

  function TableOrder(data: seq<AnalyzedWord>): seq<AnalyzedWord> {
    SortBy(data, TableBefore)
  }

  lemma TableBeforeTotal()
    ensures Total(TableBefore)
  {
    forall a: AnalyzedWord, b: AnalyzedWord ensures TableBefore(a, b) || TableBefore(b, a) {
      LexTotal(a.field, b.field);
    }
  }

  /** Level values never increase along an ordered table, whatever the distance. */
  lemma {:induction false} LevelsDescend(s: seq<AnalyzedWord>, i: nat, j: nat)
    requires Ordered(s, TableBefore) && i <= j < |s|
    ensures LevelValue(s[i].level) >= LevelValue(s[j].level)
    decreases j - i
  {
    if i < j {
      LevelsDescend(s, i + 1, j);
      assert TableBefore(s[i], s[i + 1]);
    }
  }

  /**
   * The table is a permutation of the analysis, its levels in descending
   * value (C2 first, unknown levels last), and neighbours of equal level in
   * field order.
   */
  lemma TableOrderSpec(data: seq<AnalyzedWord>)
    ensures var r := TableOrder(data);
            multiset(r) == multiset(data) &&
            (forall i, j :: 0 <= i <= j < |r| ==> LevelValue(r[i].level) >= LevelValue(r[j].level)) &&
            forall i :: 0 <= i < |r| - 1 && LevelValue(r[i].level) == LevelValue(r[i + 1].level) ==>
              LexLe(r[i].field, r[i + 1].field)
  {
    TableBeforeTotal();
    SortOrdered(data, TableBefore);
    var r := TableOrder(data);
    forall i, j | 0 <= i <= j < |r| ensures LevelValue(r[i].level) >= LevelValue(r[j].level) {
      LevelsDescend(r, i, j);
    }
    forall i | 0 <= i < |r| - 1 && LevelValue(r[i].level) == LevelValue(r[i + 1].level)
      ensures LexLe(r[i].field, r[i + 1].field)
    {
      assert TableBefore(r[i], r[i + 1]);
    }
  }

  // ---------------------------------------------------------------------------
  // The word counter
  // ---------------------------------------------------------------------------

  /** The input with its leading run of whitespace removed. */
  function DropSpaces(s: string): (r: string)
    ensures |r| <= |s| && r == s[|s| - |r|..]
    ensures r == [] || !IsSpace(r[0])
  {
    if s != [] && IsSpace(s[0]) then DropSpaces(s[1..]) else s
  }

  /** `input.split(/\s+/)`: a cut at each maximal run of whitespace. */
  function SplitWs(s: string): (parts: seq<string>)
    ensures |parts| >= 1
    decreases |s|
  {
    if s == [] then [""]
    else if IsSpace(s[0]) then [""] + SplitWs(DropSpaces(s))
    else
      var rest := SplitWs(s[1..]);
      [[s[0]] + rest[0]] + rest[1..]
  }

  function WordCount(input: string): nat {
    |NonEmpty(SplitWs(input))|
  }

  /** The number of places where a word starts: a non-space after a space or at the start. */
  function WordStarts(s: string, afterSpace: bool): nat {
    if s == [] then 0
    else (if !IsSpace(s[0]) && afterSpace then 1 else 0) + WordStarts(s[1..], IsSpace(s[0]))
  }

  /** The words of the split contain no whitespace. */
  lemma {:induction false} SplitWsNoSpaces(s: string)
    ensures forall w, k :: w in SplitWs(s) && 0 <= k < |w| ==> !IsSpace(w[k])
    decreases |s|
  {
    if s != [] {
      if IsSpace(s[0]) {
        SplitWsNoSpaces(DropSpaces(s));
      } else {
        SplitWsNoSpaces(s[1..]);
        var rest := SplitWs(s[1..]);
        assert rest[0] in rest;
        forall w | w in rest[1..] ensures w in rest { }
      }
    }
  }

  lemma {:induction false} NonEmptyAppend(a: seq<string>, b: seq<string>)
    ensures NonEmpty(a + b) == NonEmpty(a) + NonEmpty(b)
  {
    if a != [] {
      assert (a + b)[1..] == a[1..] + b;
      NonEmptyAppend(a[1..], b);
    } else {
      assert a + b == b;
    }
  }

  /** Dropping leading whitespace adds no word starts once a space has been seen. */
  lemma {:induction false} StartsAfterSpaces(s: string)
    ensures WordStarts(s, true) == WordStarts(DropSpaces(s), true)
  {
    if s != [] && IsSpace(s[0]) {
      StartsAfterSpaces(s[1..]);
    }
  }

  /**
   * The counter counts the places where a word starts, so it is the number
   * of maximal runs of non-whitespace characters; the second clause counts
   * the split without its first part, which joins a preceding
   * non-space.
   */
  lemma {:induction false} CountIsWordStarts(s: string)
    ensures |NonEmpty(SplitWs(s))| == WordStarts(s, true)
    ensures |NonEmpty(SplitWs(s)[1..])| == WordStarts(s, false)
    decreases |s|
  {
    if s != [] {
      var parts := SplitWs(s);
      if IsSpace(s[0]) {
        var d := DropSpaces(s);
        CountIsWordStarts(d);
        StartsAfterSpaces(s[1..]);
        assert s[1..] == [] || |DropSpaces(s[1..])| <= |s[1..]|;
        assert DropSpaces(s) == DropSpaces(s[1..]);
        assert parts == [""] + SplitWs(d);
        assert parts[1..] == SplitWs(d);
        NonEmptyAppend([""], SplitWs(d));
      } else {
        CountIsWordStarts(s[1..]);
        var rest := SplitWs(s[1..]);
        assert parts == [[s[0]] + rest[0]] + rest[1..];
        assert parts[1..] == rest[1..];
        NonEmptyAppend([[s[0]] + rest[0]], rest[1..]);
        NonEmptyAppend([rest[0]], rest[1..]);
        assert rest == [rest[0]] + rest[1..];
      }
    }
  }

  /** The word count is the number of words the text begins. */
  lemma WordCountSpec(input: string)
    ensures WordCount(input) == WordStarts(input, true)
    ensures forall w, k :: w in NonEmpty(SplitWs(input)) && 0 <= k < |w| ==> !IsSpace(w[k])
  {
    CountIsWordStarts(input);
    SplitWsNoSpaces(input);
  }

  // ---------------------------------------------------------------------------
  // The analyze action
  // ---------------------------------------------------------------------------

  /** The checker's state: the analysis shown (null when `None`) and whether the input box is open. */
  datatype Checker = Checker(analyzed: Option<seq<AnalyzedWord>>, showInput: bool)

  /**
   * `handleAnalyze` with the service's outcome given (`None` when it threw):
   * a blank input changes nothing; otherwise the analysis is cleared, and a
   * non-empty result is shown with the input box closed.
   */
  function Analyze(input: string, st: Checker, outcome: Option<seq<AnalyzedWord>>): (r: Checker)
    ensures Trim(input) == [] ==> r == st
    ensures Trim(input) != [] && outcome.Some? && outcome.value != [] ==> r == Checker(outcome, false)
    ensures Trim(input) != [] && (outcome.None? || outcome.value == []) ==> r == st.(analyzed := None)
  {
    if Trim(input) == [] then st
    else if outcome.Some? && |outcome.value| > 0 then Checker(outcome, false)
    else st.(analyzed := None)
  }

  /** A shown analysis is never empty. */
  lemma AnalyzedNeverEmpty(input: string, st: Checker, outcome: Option<seq<AnalyzedWord>>)
    requires st.analyzed.Some? ==> st.analyzed.value != []
    ensures var r := Analyze(input, st, outcome); r.analyzed.Some? ==> r.analyzed.value != []
  {
  }
}
