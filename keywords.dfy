/**
 * `highlightKeywords` (components/TestContent.tsx): the text is split at
 * number tokens and capitalised words, and each non-empty part is shown
 * highlighted or plain.
 */
module Keywords {
  import opened JsText
  import opened Spans

  // ---------------------------------------------------------------------------
  // The split regex `(\b\d+(?:[.,]\d+)?(?:st|nd|rd|th)?%?\b|\b[A-Z][a-zA-Z-]*\b)`
  // ---------------------------------------------------------------------------

  predicate IsDecimalSep(c: char) { c == '.' || c == ',' }

  /** `st|nd|rd|th` at `x` (the four start with different letters). */
  predicate OrdinalAt(s: string, x: int) {
    0 <= x && x + 1 < |s| &&
    ((s[x] == 's' && s[x + 1] == 't') || (s[x] == 'n' && s[x + 1] == 'd') ||
     (s[x] == 'r' && s[x + 1] == 'd') || (s[x] == 't' && s[x + 1] == 'h'))
  }

  /** `%?\b` from `y`: the `%` is taken first, and given back if no boundary follows it. */
  function PercentEnd(s: string, y: nat): (r: Option<nat>)
    requires y <= |s|
    ensures r.Some? ==> y <= r.value <= y + 1 && r.value <= |s| && WordBoundary(s, r.value)
  {
    if y < |s| && s[y] == '%' && WordBoundary(s, y + 1) then Some(y + 1)
    else if WordBoundary(s, y) then Some(y)
    else None
  }

  /** `(?:st|nd|rd|th)?%?\b` from `x`: with the suffix first, then without it. */
  function SuffixEnd(s: string, x: nat): (r: Option<nat>)
    requires x <= |s|
    ensures r.Some? ==> x <= r.value <= |s| && WordBoundary(s, r.value)
  {
    if OrdinalAt(s, x) && PercentEnd(s, x + 2).Some? then PercentEnd(s, x + 2) else PercentEnd(s, x)
  }

  /**
   * The number alternative at `q`. Giving back digits of either `\d+` never
   * helps (a digit would follow, which nothing after them accepts and `\b`
   * rejects), so only the decimal part, the suffix and the `%` are tried both
   * ways, in that order of priority.
   */
  function NumberMatchAt(s: string, q: nat): (r: Option<nat>)
    requires q <= |s|
    ensures r.Some? ==> q < r.value <= |s|
  {
    if q < |s| && IsDigit(s[q]) && WordBoundary(s, q) then
      var d := SkipDigits(s, q);
      if d + 1 < |s| && IsDecimalSep(s[d]) && IsDigit(s[d + 1]) && SuffixEnd(s, SkipDigits(s, d + 1)).Some? then
        SuffixEnd(s, SkipDigits(s, d + 1))
      else SuffixEnd(s, d)
    else None
  }

  /** `[a-zA-Z-]` */
  predicate IsWordish(c: char) { IsUpper(c) || IsLower(c) || c == '-' }

  function SkipWordish(s: string, i: nat): (j: nat)
    requires i <= |s|
    ensures i <= j <= |s|
    ensures forall k :: i <= k < j ==> IsWordish(s[k])
    ensures j == |s| || !IsWordish(s[j])
    decreases |s| - i
  {
    if i < |s| && IsWordish(s[i]) then SkipWordish(s, i + 1) else i
  }

  /** The last `k` in `[lo, hi]` with a word boundary: where backtracking `*` stops. */
  function LastBoundary(s: string, lo: nat, hi: nat): (r: Option<nat>)
    requires lo <= hi <= |s|
    ensures r.Some? ==> lo <= r.value <= hi && WordBoundary(s, r.value)
    ensures r.Some? ==> forall k :: r.value < k <= hi ==> !WordBoundary(s, k)
    ensures r.None? ==> forall k :: lo <= k <= hi ==> !WordBoundary(s, k)
    decreases hi - lo
  {
    if WordBoundary(s, hi) then Some(hi)
    else if hi == lo then None
    else LastBoundary(s, lo, hi - 1)
  }

  /** The capitalised-word alternative at `q`: `\b[A-Z][a-zA-Z-]*\b`. */
  function WordMatchAt(s: string, q: nat): (r: Option<nat>)
    requires q <= |s|
    ensures r.Some? ==> q < r.value <= |s|
  {
    if q < |s| && IsUpper(s[q]) && WordBoundary(s, q) then LastBoundary(s, q + 1, SkipWordish(s, q + 1))
    else None
  }

  /** The alternation at `q`: the number first, then the word. */
  function KeywordMatchAt(s: string, q: nat): (r: Option<nat>)
    requires q <= |s|
    ensures r.Some? ==> q < r.value <= |s|
  {
    if NumberMatchAt(s, q).Some? then NumberMatchAt(s, q) else WordMatchAt(s, q)
  }

  /** `split` from `p`, searching at `q`: the piece before each match, then the match. */
  function KeywordSplitFrom(s: string, p: nat, q: nat): (parts: seq<string>)
    requires p <= q <= |s|
    ensures |parts| % 2 == 1
    decreases |s| - q
  {
    if q == |s| then [s[p..]]
    else match KeywordMatchAt(s, q)
      case Some(e) => [s[p..q], s[q..e]] + KeywordSplitFrom(s, e, e)
      case None => KeywordSplitFrom(s, p, q + 1)
  }

  function KeywordParts(s: string): seq<string> {
    KeywordSplitFrom(s, 0, 0)
  }

  // ---------------------------------------------------------------------------
  // The tests each part is put to
  // ---------------------------------------------------------------------------

  /**
   * `/^\d+(?:[.,]\d+)?(?:st|nd|rd|th)?%?$/`: anchored at the end, each
   * optional group is taken when it can be (leaving it out would leave a
   * character nothing later accepts).
   */
  predicate IsNumberToken(t: string) {
    var d := SkipDigits(t, 0);
    var x := if d + 1 < |t| && IsDecimalSep(t[d]) && IsDigit(t[d + 1]) then SkipDigits(t, d + 1) else d;
    var y := if OrdinalAt(t, x) then x + 2 else x;
    var z := if y < |t| && t[y] == '%' then y + 1 else y;
    d > 0 && z == |t|
  }

  /** `/^[A-Z][a-zA-Z-]*$/` */
  predicate IsCapWord(t: string) {
    |t| >= 1 && IsUpper(t[0]) && forall k :: 1 <= k < |t| ==> IsWordish(t[k])
  }

  const StopWords: set<string> := {
    "A", "An", "The", "In", "On", "At", "To", "For", "Of", "With", "By",
    "And", "But", "Or", "So", "Is", "Are", "Was", "Were", "It", "This", "That"}

  /** The two tests under which a part is shown green and bold. */
  predicate Highlighted(t: string) {
    IsNumberToken(t) || (IsCapWord(t) && t !in StopWords && |t| > 1)
  }

  datatype Piece = Piece(text: string, highlighted: bool)

  /** `parts.map`: empty parts render nothing, the others plain or highlighted. */
  function PiecesOf(parts: seq<string>): (ps: seq<Piece>)
    ensures forall k :: 0 <= k < |ps| ==> ps[k].text != [] && (ps[k].highlighted <==> Highlighted(ps[k].text))
  {
    if parts == [] then []
    else if parts[0] == [] then PiecesOf(parts[1..])
    else [Piece(parts[0], Highlighted(parts[0]))] + PiecesOf(parts[1..])
  }

  /** `highlightKeywords(text)` (an empty text renders nothing). */
  function HighlightKeywords(text: string): seq<Piece> {
    if text == [] then [] else PiecesOf(KeywordParts(text))
  }

  function PieceTexts(ps: seq<Piece>): string {
    if ps == [] then "" else ps[0].text + PieceTexts(ps[1..])
  }

  // ---------------------------------------------------------------------------
  // Properties
  // ---------------------------------------------------------------------------

  lemma {:induction false} KeywordSplitConcat(s: string, p: nat, q: nat)
    requires p <= q <= |s|
    ensures Concat(KeywordSplitFrom(s, p, q)) == s[p..]
    decreases |s| - q
  {
    if q < |s| {
      match KeywordMatchAt(s, q)
      case Some(e) =>
        KeywordSplitConcat(s, e, e);
        MatchStepConcat(s, p, q, e, KeywordSplitFrom(s, e, e));
      case None =>
        KeywordSplitConcat(s, p, q + 1);
    }
  }

  lemma {:induction false} PiecesSpell(parts: seq<string>)
    ensures PieceTexts(PiecesOf(parts)) == Concat(parts)
  {
    if parts != [] {
      PiecesSpell(parts[1..]);
      if parts[0] != [] {
        var rest := PiecesOf(parts[1..]);
        assert ([Piece(parts[0], Highlighted(parts[0]))] + rest)[1..] == rest;
      }
    }
  }

  /** The pieces, highlighted or not, spell the text back exactly. */
  lemma KeywordsSpellText(text: string)
    ensures PieceTexts(HighlightKeywords(text)) == text
  {
    if text != [] {
      KeywordSplitConcat(text, 0, 0);
      PiecesSpell(KeywordParts(text));
    }
  }

  /** A number match spans a number token. */
  lemma NumberMatchIsToken(s: string, q: nat)
    requires q <= |s| && NumberMatchAt(s, q).Some?
    ensures IsNumberToken(s[q..NumberMatchAt(s, q).value])
  {
    var e := NumberMatchAt(s, q).value;
    var d := SkipDigits(s, q);
    if d + 1 < |s| && IsDecimalSep(s[d]) && IsDigit(s[d + 1]) && SuffixEnd(s, SkipDigits(s, d + 1)).Some? {
      DecimalToken(s, q, d, e);
    } else {
      PlainToken(s, q, d, e);
    }
  }

  lemma DecimalToken(s: string, q: nat, d: nat, e: nat)
    requires q <= |s| && q < d == SkipDigits(s, q) && d + 1 < |s| && IsDecimalSep(s[d]) && IsDigit(s[d + 1])
    requires SuffixEnd(s, SkipDigits(s, d + 1)) == Some(e)
    ensures IsNumberToken(s[q..e])
  {
    var x := SkipDigits(s, d + 1);
    DecimalShift(s, q, d, x, e);
    SuffixShift(s, q, e, x);
    TokenFromPositions(s[q..e], d - q, x - q);
  }

  /** The two digit runs and the separator of the match, seen inside it. */
  lemma DecimalShift(s: string, q: nat, d: nat, x: nat, e: nat)
    requires q <= |s| && q < d == SkipDigits(s, q) && d + 1 < |s| && IsDecimalSep(s[d]) && IsDigit(s[d + 1])
    requires x == SkipDigits(s, d + 1) && x <= e <= |s|
    ensures var t := s[q..e];
      d - q + 1 < |t| && SkipDigits(t, 0) == d - q && IsDecimalSep(t[d - q]) && IsDigit(t[d - q + 1]) &&
      SkipDigits(t, d - q + 1) == x - q
  {
    var t := s[q..e];
    assert d + 1 < x;
    SkipDigitsShift(s, q, e, 0);
    assert t[d - q] == s[d] && t[d - q + 1] == s[d + 1];
    SkipDigitsShift(s, q, e, d + 1 - q);
  }

  /** The anchored test, given where its digit runs end. */
  lemma TokenFromPositions(t: string, d: nat, x: nat)
    requires 0 < d == SkipDigits(t, 0) && d + 1 < |t| && IsDecimalSep(t[d]) && IsDigit(t[d + 1])
    requires x == SkipDigits(t, d + 1)
    requires SuffixFits(t, x)
    ensures IsNumberToken(t)
  {
  }

  lemma PlainToken(s: string, q: nat, d: nat, e: nat)
    requires q <= |s| && q < d == SkipDigits(s, q)
    requires SuffixEnd(s, d) == Some(e)
    requires !(d + 1 < |s| && IsDecimalSep(s[d]) && IsDigit(s[d + 1]) && SuffixEnd(s, SkipDigits(s, d + 1)).Some?)
    ensures IsNumberToken(s[q..e])
  {
    var t := s[q..e];
    SkipDigitsShift(s, q, e, 0);
    if d + 1 < e {
      assert t[d - q] == s[d];
    }
    SuffixShift(s, q, e, d);
  }

  /** Skipping digits inside the match agrees with skipping them in the text. */
  lemma {:induction false} SkipDigitsShift(s: string, q: nat, e: nat, i: nat)
    requires q + i <= e <= |s|
    requires SkipDigits(s, q + i) <= e
    ensures SkipDigits(s[q..e], i) == SkipDigits(s, q + i) - q
    decreases e - q - i
  {
    var t := s[q..e];
    if q + i < e && IsDigit(s[q + i]) {
      assert t[i] == s[q + i];
      SkipDigitsShift(s, q, e, i + 1);
    } else if q + i < e {
      assert t[i] == s[q + i];
    }
  }

  /** From `x`, the optional ordinal suffix and `%` reach the end of `t`. */
  predicate SuffixFits(t: string, x: nat) {
    var y := if OrdinalAt(t, x) then x + 2 else x;
    (if y < |t| && t[y] == '%' then y + 1 else y) == |t|
  }

  lemma SuffixShift(s: string, q: nat, e: nat, x: nat)
    requires q <= x <= |s| && SuffixEnd(s, x) == Some(e)
    ensures SuffixFits(s[q..e], x - q)
  {
    var t := s[q..e];
    assert forall k :: 0 <= k < |t| ==> t[k] == s[q + k];
    if OrdinalAt(s, x) && PercentEnd(s, x + 2).Some? {
      assert t[x - q] == s[x] && t[x - q + 1] == s[x + 1];
    }
  }

  /** A word match spans a capitalised word. */
  lemma WordMatchIsCapWord(s: string, q: nat)
    requires q <= |s| && WordMatchAt(s, q).Some?
    ensures IsCapWord(s[q..WordMatchAt(s, q).value])
  {
    var e := WordMatchAt(s, q).value;
    var t := s[q..e];
    assert forall k :: 0 <= k < |t| ==> t[k] == s[q + k];
  }

  /** Every captured part of the split is a number token or a capitalised word. */
  lemma {:induction false} CapturedPartsAreKeywords(s: string, p: nat, q: nat, k: nat)
    requires p <= q <= |s| && k < |KeywordSplitFrom(s, p, q)| && k % 2 == 1
    ensures IsNumberToken(KeywordSplitFrom(s, p, q)[k]) || IsCapWord(KeywordSplitFrom(s, p, q)[k])
    decreases |s| - q
  {
    if q == |s| {
      assert false;
    } else {
      match KeywordMatchAt(s, q)
      case Some(e) =>
        assert KeywordSplitFrom(s, p, q) == [s[p..q], s[q..e]] + KeywordSplitFrom(s, e, e);
        if k == 1 {
          if NumberMatchAt(s, q).Some? {
            NumberMatchIsToken(s, q);
          } else {
            WordMatchIsCapWord(s, q);
          }
        } else {
          CapturedPartsAreKeywords(s, e, e, k - 2);
        }
      case None =>
        CapturedPartsAreKeywords(s, p, q + 1, k);
    }
  }

  /** The stop words all start with a letter, so none of them is ever highlighted. */
  lemma StopWordPlain(t: string)
    requires t in StopWords
    ensures !Highlighted(t)
  {
    assert IsUpper(t[0]);
    assert SkipDigits(t, 0) == 0;
  }

  /**
   * The `%` is kept only when a word character follows it (the `\b` after
   * it needs one): in `5%` at the end of a text, only `5` is highlighted.
   */
  lemma PercentLeftOut(s: string)
    requires s == "5%"
    ensures HighlightKeywords(s) == [Piece("5", true), Piece("%", false)]
  {
    assert WordBoundary(s, 0) && !WordBoundary(s, 2) && WordBoundary(s, 1);
    assert SkipDigits(s, 0) == 1;
    assert NumberMatchAt(s, 0) == Some(1);
    assert KeywordMatchAt(s, 1).None?;
    assert KeywordMatchAt(s, 0) == Some(1);
    assert KeywordSplitFrom(s, 1, 2) == ["%"];
    assert KeywordSplitFrom(s, 1, 1) == ["%"];
    assert s[0..0] == "" && s[0..1] == "5";
    assert KeywordParts(s) == ["", "5", "%"];
    assert IsNumberToken("5") by { assert SkipDigits("5", 0) == 1; }
    assert !IsNumberToken("%") by { assert SkipDigits("%", 0) == 0; }
    assert PiecesOf(["%"]) == [Piece("%", false)] by { assert ["%"][1..] == []; }
    assert PiecesOf(["5", "%"]) == [Piece("5", true)] + PiecesOf(["%"]) by { assert ["5", "%"][1..] == ["%"]; }
    assert PiecesOf(["", "5", "%"]) == PiecesOf(["5", "%"]) by { assert ["", "5", "%"][1..] == ["5", "%"]; }
  }
}
