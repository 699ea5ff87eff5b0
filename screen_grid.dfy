/**
 * The inline option grid of the screen's paragraph renderer
 * (components/TestContent.tsx): a paragraph holding `X. ` markers is split at
 * `([*]*[A-D]\.\s+)`, each marker is glued to the text after it, and the grid
 * gets 1, 2 or 4 columns by the longest untrimmed option.
 */
module ScreenGrid {
  import opened JsText
  import opened Formatter
  import opened Spans
  import opened ExportRuns
  import opened ExportLayout

  // ---------------------------------------------------------------------------
  // The marker regex and the split
  // ---------------------------------------------------------------------------

  /** `[A-D]\.\s` at `i`: a letter, a full stop and whitespace. */
  predicate GridMarkAt(s: string, i: int) {
    0 <= i && i + 2 < |s| && IsAtoD(s[i]) && s[i + 1] == '.' && IsSpace(s[i + 2])
  }

  /** `/([*]*[A-D]\.\s+)/.test(text)`: the stars being optional, a marker anywhere. */
  predicate HasGridMarker(s: string) {
    exists i :: 0 <= i < |s| && GridMarkAt(s, i)
  }

  /**
   * The marker regex tried at `q`: the end of the match. `[*]*` cannot give a
   * star back (a letter must follow), and `\s+` is greedy with nothing after it.
   */
  function GridMatchAt(s: string, q: nat): (r: Option<nat>)
    requires q <= |s|
    ensures r.Some? <==> GridMarkAt(s, SkipStars(s, q))
    ensures r.Some? ==> q + 3 <= r.value <= |s|
  {
    var l := SkipStars(s, q);
    if GridMarkAt(s, l) then Some(SkipSpaces(s, l + 2)) else None
  }

  /** `split` from `p`, searching at `q`: the piece before each match, then the match. */
  function GridSplitFrom(s: string, p: nat, q: nat): (parts: seq<string>)
    requires p <= q <= |s|
    ensures |parts| % 2 == 1
    decreases |s| - q
  {
    if q == |s| then [s[p..]]
    else match GridMatchAt(s, q)
      case Some(e) => [s[p..q], s[q..e]] + GridSplitFrom(s, e, e)
      case None => GridSplitFrom(s, p, q + 1)
  }

  /** `textContent.split(/([*]*[A-D]\.\s+)/)` */
  function GridParts(s: string): (parts: seq<string>)
    ensures |parts| % 2 == 1
  {
    GridSplitFrom(s, 0, 0)
  }

  /** `hasOptionsInline`: the regex test and more than two split parts. */
  predicate HasOptionsInline(s: string) {
    HasGridMarker(s) && |GridParts(s)| > 2
  }

  // ---------------------------------------------------------------------------
  // The options: `parts[i] + (parts[i+1] || '')` for odd `i`
  // ---------------------------------------------------------------------------

  /** `parts[i] || ''` */
  function PartOrEmpty(parts: seq<string>, i: nat): string {
    if i < |parts| then parts[i] else ""
  }

  /** The options the loop collects: each marker with the text after it. */
  function GridOptions(parts: seq<string>): (opts: seq<string>)
    ensures |opts| == |parts| / 2
    ensures forall j :: 0 <= j < |opts| ==> opts[j] == parts[2 * j + 1] + PartOrEmpty(parts, 2 * j + 2)
  {
    seq(|parts| / 2, j requires 0 <= j < |parts| / 2 => parts[2 * j + 1] + PartOrEmpty(parts, 2 * j + 2))
  }

  /** The `for (let i = 1; i < parts.length; i += 2)` loop. */
  method CollectOptions(parts: seq<string>) returns (options: seq<string>)
    ensures options == GridOptions(parts)
  {
    options := [];
    var i := 1;
    while i < |parts|
      invariant 1 <= i <= |parts| + 1 && i % 2 == 1
      invariant |options| == (i - 1) / 2
      invariant forall j :: 0 <= j < |options| ==> options[j] == parts[2 * j + 1] + PartOrEmpty(parts, 2 * j + 2)
    {
      options := options + [parts[i] + PartOrEmpty(parts, i + 1)];
      i := i + 2;
    }
  }

  // ---------------------------------------------------------------------------
  // Columns, on the untrimmed options
  // ---------------------------------------------------------------------------

  /** `Math.max(...options.map(o => o.length))`, -1 standing for -Infinity. */
  function MaxLength(opts: seq<string>): (m: int)
    ensures forall k :: 0 <= k < |opts| ==> |opts[k]| <= m
    ensures opts == [] ==> m == -1
    ensures opts != [] ==> exists k :: 0 <= k < |opts| && |opts[k]| == m
  {
    if opts == [] then -1
    else
      var m := MaxLength(opts[1..]);
      assert forall k :: 1 <= k < |opts| ==> opts[k] == opts[1..][k - 1];
      if |opts[0]| >= m then |opts[0]| else m
  }

  /** One column if an option is longer than 35, two if one is longer than 18, else four. */
  function GridColumns(opts: seq<string>): (n: nat)
    ensures n == 1 <==> exists k :: 0 <= k < |opts| && |opts[k]| > 35
    ensures n == 2 <==> (forall k :: 0 <= k < |opts| ==> |opts[k]| <= 35) &&
                        (exists k :: 0 <= k < |opts| && |opts[k]| > 18)
    ensures n == 4 <==> forall k :: 0 <= k < |opts| ==> |opts[k]| <= 18
  {
    var m := MaxLength(opts);
    if m > 35 then 1 else if m > 18 then 2 else 4
  }

  // ---------------------------------------------------------------------------
  // Properties of the split
  // ---------------------------------------------------------------------------

  /** A marker at or after `q` is found by the split, which then has at least three parts. */
  lemma {:induction false} SplitFindsMarker(s: string, p: nat, q: nat, i: nat)
    requires p <= q <= i < |s| && GridMarkAt(s, i)
    ensures |GridSplitFrom(s, p, q)| >= 3
    decreases i - q
  {
    match GridMatchAt(s, q)
    case Some(e) =>
    case None =>
      if q < i {
        SplitFindsMarker(s, p, q + 1, i);
      }
  }

  /** A split with more than one part has found a marker. */
  lemma {:induction false} SplitFoundMarker(s: string, p: nat, q: nat)
    requires p <= q <= |s| && |GridSplitFrom(s, p, q)| > 1
    ensures HasGridMarker(s)
    decreases |s| - q
  {
    if q == |s| {
      assert false;
    } else {
      match GridMatchAt(s, q)
      case Some(e) =>
        var l := SkipStars(s, q);
        assert GridMarkAt(s, l);
      case None =>
        SplitFoundMarker(s, p, q + 1);
    }
  }

  /** The part-count test adds nothing: a paragraph is a grid iff it holds a marker. */
  lemma InlineIffMarker(s: string)
    ensures HasOptionsInline(s) <==> HasGridMarker(s)
  {
    if HasGridMarker(s) {
      var i :| 0 <= i < |s| && GridMarkAt(s, i);
      SplitFindsMarker(s, 0, 0, i);
    }
  }

  /** Every screen grid line is an option line for the export too. */
  lemma GridMarkerIsOptionMarker(s: string)
    requires HasGridMarker(s)
    ensures HasOptionMarker(s)
  {
    var i :| 0 <= i < |s| && GridMarkAt(s, i);
    assert OptionMarkerAt(s, i);
  }

  /** The captured text of a marker: stars, a letter A-D, `.`, whitespace. */
  predicate IsGridMarker(m: string) {
    exists l :: 0 <= l < |m| - 2 && StarsUpTo(m, l) && GridMarkAt(m, l) && SpacesFrom(m, l + 2)
  }

  lemma CaptureIsGridMarker(s: string, q: nat)
    requires q < |s| && GridMatchAt(s, q).Some?
    ensures IsGridMarker(s[q..GridMatchAt(s, q).value])
  {
    var l := SkipStars(s, q);
    var e := SkipSpaces(s, l + 2);
    var m := s[q..e];
    assert forall k :: 0 <= k < l - q ==> m[k] == s[q + k];
    assert forall k :: l - q + 2 <= k < |m| ==> m[k] == s[q + k];
    assert m[l - q] == s[l] && m[l - q + 1] == s[l + 1] && m[l - q + 2] == s[l + 2];
    assert GridMarkAt(m, l - q);
  }

  /** Every odd-numbered part is a captured marker. */
  lemma {:induction false} OddPartsAreGridMarkers(s: string, p: nat, q: nat, k: nat)
    requires p <= q <= |s| && k < |GridSplitFrom(s, p, q)| && k % 2 == 1
    ensures IsGridMarker(GridSplitFrom(s, p, q)[k])
    decreases |s| - q
  {
    if q == |s| {
      assert false;
    } else {
      match GridMatchAt(s, q)
      case Some(e) =>
        var rest := GridSplitFrom(s, e, e);
        assert GridSplitFrom(s, p, q) == [s[p..q], s[q..e]] + rest;
        if k == 1 {
          CaptureIsGridMarker(s, q);
        } else {
          OddPartsAreGridMarkers(s, e, e, k - 2);
        }
      case None =>
        OddPartsAreGridMarkers(s, p, q + 1, k);
    }
  }

  /** One option per marker, and each option opens with its marker. */
  lemma OptionsOpenWithMarkers(s: string, j: nat)
    requires j < |GridOptions(GridParts(s))|
    ensures IsGridMarker(GridParts(s)[2 * j + 1])
    ensures GridOptions(GridParts(s))[j] == GridParts(s)[2 * j + 1] + GridParts(s)[2 * j + 2]
  {
    OddPartsAreGridMarkers(s, 0, 0, 2 * j + 1);
  }

  /** The split loses nothing. */
  lemma {:induction false} GridSplitConcat(s: string, p: nat, q: nat)
    requires p <= q <= |s|
    ensures Concat(GridSplitFrom(s, p, q)) == s[p..]
    decreases |s| - q
  {
    if q < |s| {
      match GridMatchAt(s, q)
      case Some(e) =>
        GridSplitConcat(s, e, e);
        MatchStepConcat(s, p, q, e, GridSplitFrom(s, e, e));
      case None =>
        GridSplitConcat(s, p, q + 1);
    }
  }

  /** Pairing the parts after the first loses nothing either. */
  lemma {:induction false} OptionsConcat(parts: seq<string>)
    requires |parts| % 2 == 1
    ensures Concat(GridOptions(parts)) == Concat(parts[1..])
    decreases |parts|
  {
    if |parts| > 1 {
      var rest := parts[2..];
      OptionsConcat(rest);
      GridOptionsCons(parts);
      ConcatCons(parts[1] + parts[2], GridOptions(rest));
      ConcatSkipTwo(parts);
    } else {
      assert parts[1..] == [];
    }
  }

  /** The first option pairs parts 1 and 2; the others are those of `parts[2..]`. */
  lemma GridOptionsCons(parts: seq<string>)
    requires |parts| >= 3
    ensures GridOptions(parts) == [parts[1] + parts[2]] + GridOptions(parts[2..])
  {
    var rest := parts[2..];
    var opts := GridOptions(parts);
    assert |parts| / 2 == |rest| / 2 + 1;
    forall j | 1 <= j < |opts| ensures opts[j] == GridOptions(rest)[j - 1] {
      assert parts[2 * j + 1] == rest[2 * (j - 1) + 1];
      assert PartOrEmpty(parts, 2 * j + 2) == PartOrEmpty(rest, 2 * (j - 1) + 2);
    }
  }

  lemma ConcatSkipTwo(parts: seq<string>)
    requires |parts| >= 3
    ensures Concat(parts[1..]) == (parts[1] + parts[2]) + Concat(parts[2..][1..])
  {
    assert parts[1..] == [parts[1]] + ([parts[2]] + parts[2..][1..]);
    ConcatCons(parts[1], [parts[2]] + parts[2..][1..]);
    ConcatCons(parts[2], parts[2..][1..]);
  }

  /** The question part and the options spell the paragraph exactly. */
  lemma GridSpellsParagraph(s: string)
    ensures GridParts(s)[0] + Concat(GridOptions(GridParts(s))) == s
  {
    var parts := GridParts(s);
    GridSplitConcat(s, 0, 0);
    OptionsConcat(parts);
    assert parts == [parts[0]] + parts[1..];
    ConcatCons(parts[0], parts[1..]);
  }

  /** The question part is the text before the first marker. */
  lemma {:induction false} QuestionPartBeforeMarker(s: string, q: nat, i: nat)
    requires q <= i < |s| && GridMatchAt(s, i).Some?
    requires forall k :: q <= k < i ==> GridMatchAt(s, k).None?
    ensures GridSplitFrom(s, 0, q)[0] == s[..i]
    decreases i - q
  {
    if q < i {
      QuestionPartBeforeMarker(s, q + 1, i);
    }
  }

  // ---------------------------------------------------------------------------
  // Where the screen and the export disagree
  // ---------------------------------------------------------------------------

  /** `X)` markers make an option line for the export but no grid on screen. */
  lemma ParenMarkerNoGrid(s: string)
    requires s == "A) y"
    ensures HasOptionMarker(s) && !HasOptionsInline(s)
  {
    assert OptionMarkerAt(s, 0);
    forall i | 0 <= i < |s| ensures !GridMarkAt(s, i) { }
  }

  /**
   * The screen measures the marker with its trailing space, the export the
   * trimmed label and text: `A. ` and sixteen letters take two columns on
   * screen and four in the Word file.
   */
  lemma ColumnsDiverge(s: string)
    requires s == "A. " + "abcdefghijklmnop"
    ensures GridParts(s) == ["", "A. ", "abcdefghijklmnop"]
    ensures GridColumns(GridOptions(GridParts(s))) == 2
    ensures Columns(OptionsOf(s)) == 4
  {
    ScreenSplitOf(s);
    var opts := GridOptions(GridParts(s));
    assert |opts| == 1 && opts[0] == "A. " + PartOrEmpty(GridParts(s), 2);
    assert |opts[0]| == 19;
    ExportPairsOf(["A. ", "abcdefghijklmnop"]);
  }

  lemma ScreenSplitOf(s: string)
    requires s == "A. " + "abcdefghijklmnop"
    ensures GridParts(s) == ["", "A. ", "abcdefghijklmnop"]
  {
    assert SkipStars(s, 0) == 0 && SkipSpaces(s, 2) == 3;
    NoGridMarkFrom(s, 3, 3);
    assert GridSplitFrom(s, 0, 0) == [s[0..0], s[0..3]] + GridSplitFrom(s, 3, 3);
    assert s[0..0] == "" && s[0..3] == "A. " && s[3..] == "abcdefghijklmnop";
  }

  /** Past `q`, a text without capital letters A-D has no marker: the split takes the rest. */
  lemma {:induction false} NoGridMarkFrom(s: string, p: nat, q: nat)
    requires p <= q <= |s|
    requires forall k :: q <= k < |s| ==> !IsAtoD(s[k])
    ensures GridSplitFrom(s, p, q) == [s[p..]]
    decreases |s| - q
  {
    if q < |s| {
      assert GridMatchAt(s, q).None?;
      NoGridMarkFrom(s, p, q + 1);
    }
  }

  lemma {:induction false} NoOptMarkFrom(s: string, p: nat, q: nat)
    requires p <= q <= |s|
    requires forall k :: q <= k < |s| ==> !IsAtoD(s[k])
    ensures OptSplitFrom(s, p, q) == [s[p..]]
    decreases |s| - q
  {
    if q < |s| {
      assert OptMatchAt(s, q).None?;
      NoOptMarkFrom(s, p, q + 1);
    }
  }

  lemma ExportSplitOf(s: string)
    requires s == "A. " + "abcdefghijklmnop"
    ensures OptionParts(s) == ["A. ", "abcdefghijklmnop"]
  {
    OptSplitOf(s);
    NonEmptyDropsFirst("A. ", "abcdefghijklmnop");
  }

  /** The export's split: an empty piece before the marker, the marker, the text. */
  lemma OptSplitOf(s: string)
    requires s == "A. " + "abcdefghijklmnop"
    ensures OptSplitFrom(s, 0, 0) == ["", "A. ", "abcdefghijklmnop"]
  {
    OptFirstMatch(s);
    NoOptMarkFrom(s, 3, 3);
    assert s[0..0] == "" && s[0..3] == "A. " && s[3..] == "abcdefghijklmnop";
  }

  lemma OptFirstMatch(s: string)
    requires s == "A. " + "abcdefghijklmnop"
    ensures OptMatchAt(s, 0) == Some(MarkerMatch(0, 3))
  {
    assert SkipSpaces(s, 0) == 0 && SkipStars(s, 0) == 0 && SkipSpaces(s, 2) == 3;
  }

  lemma NonEmptyDropsFirst(a: string, b: string)
    requires a != [] && b != []
    ensures NonEmpty(["", a, b]) == [a, b]
  {
    var raw := ["", a, b];
    assert raw[1..] == [a, b] && [a, b][1..] == [b] && [b][1..] == [];
    assert NonEmpty([b]) == [b] + NonEmpty([]);
    assert NonEmpty([a, b]) == [a] + NonEmpty([b]);
    assert NonEmpty(raw) == NonEmpty([a, b]);
  }

  lemma ExportPairsOf(parts: seq<string>)
    requires parts == ["A. ", "abcdefghijklmnop"]
    ensures Columns(OptionsOf("A. " + "abcdefghijklmnop")) == 4
  {
    var c := Choice("A. ", "abcdefghijklmnop");
    var t := Choice("A.", c.text);
    ExportSplitOf("A. " + "abcdefghijklmnop");
    PairsOf(parts);
    MapSeqOne(TrimChoice, c);
    TrimmedChoiceOf(c);
    assert OptionsOf("A. " + "abcdefghijklmnop") == [t];
    assert Width(t) == 18;
  }

  /** The marker and its text pair up as the one choice. */
  lemma PairsOf(parts: seq<string>)
    requires parts == ["A. ", "abcdefghijklmnop"]
    ensures PairFrom(parts, 0) == [Choice(parts[0], parts[1])]
  {
    assert PairFrom(parts, 2) == [];
    assert PairAt(parts, 0) == [Choice(parts[0], parts[1])];
  }

  /** Trimming drops the space after the marker. */
  lemma TrimmedChoiceOf(c: Choice)
    requires c == Choice("A. ", "abcdefghijklmnop")
    ensures TrimChoice(c) == Choice("A.", c.text)
  {
    var m := "A.";
    assert IsTrimmed(m) && IsTrimmed(c.text);
    TrimOfTrimmed(c.text);
    TrimSpaceAfter(m, ' ');
    assert m + [' '] == c.marker;
  }
}
