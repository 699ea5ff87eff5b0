/**
 * The screen's rendering of a generated section (components/TestContent.tsx):
 * the per-line `trimStart` applied to the whole text before markdown, and the
 * paragraph renderer, which lays a paragraph holding `X. ` markers out as a
 * question line over an option grid, renders question paragraphs with the
 * keyword highlighter when it is switched on, and every other paragraph with
 * the bold/blue styler.
 */
module Screen {
  import opened JsText
  import opened ExportRuns
  import opened ExportLayout
  import opened ScreenRuns
  import opened ScreenGrid
  import opened Keywords

  // ---------------------------------------------------------------------------
  // Per-line trimStart
  // ---------------------------------------------------------------------------

  /** `content.split('\n').map(line => line.trimStart()).join('\n')` */
  function DisplayContent(s: string): string {
    Join(MapSeq(TrimStart, Split(s, '\n')), "\n")
  }

  /** Leading `\s` trimmed off a line without line breaks leaves none either. */
  lemma TrimStartKeepsNoBreak(line: string)
    requires '\n' !in line
    ensures '\n' !in TrimStart(line)
  {
    var t := TrimStart(line);
    forall k | 0 <= k < |t| ensures t[k] != '\n' {
      assert t[k] == line[|line| - |t| + k];
    }
  }

  /**
   * The display text has exactly the lines of the input, each with its
   * leading whitespace removed.
   */
  lemma SplitDisplay(s: string)
    ensures Split(DisplayContent(s), '\n') == MapSeq(TrimStart, Split(s, '\n'))
  {
    var lines := Split(s, '\n');
    var shown := MapSeq(TrimStart, lines);
    forall k | 0 <= k < |shown| ensures '\n' !in shown[k] {
      TrimStartKeepsNoBreak(lines[k]);
    }
    SplitJoin(shown, '\n');
  }

  /** No display line starts with whitespace. */
  lemma DisplayLines(s: string)
    ensures forall line :: line in Split(DisplayContent(s), '\n') ==> line == [] || !IsSpace(line[0])
  {
    SplitDisplay(s);
  }

  /** Trimming the lines a second time changes nothing. */
  lemma DisplayIdempotent(s: string)
    ensures DisplayContent(DisplayContent(s)) == DisplayContent(s)
  {
    var lines := Split(s, '\n');
    var shown := MapSeq(TrimStart, lines);
    SplitDisplay(s);
    var again := MapSeq(TrimStart, shown);
    forall k | 0 <= k < |shown| ensures again[k] == shown[k] {
      assert shown[k] == TrimStart(lines[k]);
      TrimStartFixed(shown[k]);
    }
    assert again == shown;
    assert DisplayContent(DisplayContent(s)) == Join(again, "\n");
  }

  /** A line that starts with no whitespace is left as it is. */
  lemma TrimStartFixed(t: string)
    requires t == [] || !IsSpace(t[0])
    ensures TrimStart(t) == t
  {
  }

  // ---------------------------------------------------------------------------
  // The paragraph renderer
  // ---------------------------------------------------------------------------

  /** Inline content: keyword-highlighted pieces or bold/blue runs. */
  datatype Inline = Highlights(pieces: seq<Piece>) | Styled(runs: seq<Run>)

  /** A rendered paragraph: a head line over an option grid, or a plain one. */
  datatype Paragraph =
    | Grid(head: Inline, columns: nat, options: seq<string>)
    | Plain(body: Inline)

  /** `/^\d+\./`: the text starts with digits followed by a full stop. */
  predicate LeadingNumberDot(t: string) {
    var d := SkipDigits(t, 0);
    0 < d < |t| && t[d] == '.'
  }

  /** `isQuestion`: the text contains `Question` or starts with `n.`. */
  predicate IsQuestion(t: string) {
    Contains(t, "Question") || LeadingNumberDot(t)
  }

  /** The keyword highlighter when it is switched on, else the styler. */
  function Emphasis(t: string, showKeywords: bool): (r: Inline)
    ensures r.Highlights? <==> showKeywords
  {
    if showKeywords then Highlights(HighlightKeywords(t)) else Styled(BoldSpecial(t))
  }

  /** The `p` renderer for a paragraph whose only child is the text `t`. */
  function ParagraphView(t: string, showKeywords: bool): Paragraph {
    if HasOptionsInline(t) then
      var parts := GridParts(t);
      var options := GridOptions(parts);
      Grid(Emphasis(parts[0], showKeywords), GridColumns(options), MapSeq(Trim, options))
    else if IsQuestion(t) then Plain(Emphasis(t, showKeywords))
    else Plain(Styled(BoldSpecial(t)))
  }

  /** The renderer step by step: split, collect the options in a loop, choose columns. */
  method RenderParagraph(t: string, showKeywords: bool) returns (p: Paragraph)
    ensures p == ParagraphView(t, showKeywords)
  {
    if HasOptionsInline(t) {
      var parts := GridParts(t);
      var options := CollectOptions(parts);
      var head: Inline;
      if showKeywords {
        head := Highlights(HighlightKeywords(parts[0]));
      } else {
        var runs := BoldSpecialText(parts[0]);
        head := Styled(runs);
      }
      p := Grid(head, GridColumns(options), MapSeq(Trim, options));
    } else if IsQuestion(t) && showKeywords {
      p := Plain(Highlights(HighlightKeywords(t)));
    } else {
      var runs := BoldSpecialText(t);
      p := Plain(Styled(runs));
    }
  }

  /**
   * A paragraph becomes a grid exactly when it holds an `X. ` marker; the
   * grid then has one option per marker, each opening with its marker, and
   * the head and the untrimmed options spell the paragraph.
   */
  lemma GridIffMarker(t: string, showKeywords: bool)
    ensures ParagraphView(t, showKeywords).Grid? <==> HasGridMarker(t)
    ensures HasGridMarker(t) ==>
              var parts := GridParts(t);
              |ParagraphView(t, showKeywords).options| == |parts| / 2 &&
              parts[0] + Concat(GridOptions(parts)) == t &&
              forall j :: 0 <= j < |parts| / 2 ==> IsGridMarker(parts[2 * j + 1])
  {
    InlineIffMarker(t);
    if HasGridMarker(t) {
      GridSpellsParagraph(t);
      var parts := GridParts(t);
      forall j | 0 <= j < |parts| / 2 ensures IsGridMarker(parts[2 * j + 1]) {
        OptionsOpenWithMarkers(t, j);
      }
    }
  }

  /** The head line of a grid is the text before the first marker. */
  lemma GridHeadBeforeFirstMarker(t: string, i: nat)
    requires i < |t| && GridMatchAt(t, i).Some?
    requires forall k :: 0 <= k < i ==> GridMatchAt(t, k).None?
    ensures GridParts(t)[0] == t[..i]
  {
    QuestionPartBeforeMarker(t, 0, i);
  }

  /** The keyword switch only changes question paragraphs and grid heads. */
  lemma KeywordsOnlyForQuestions(t: string)
    requires !HasOptionsInline(t) && !IsQuestion(t)
    ensures ParagraphView(t, true) == ParagraphView(t, false) == Plain(Styled(BoldSpecial(t)))
  {
  }

  /** With keywords on, a question paragraph's pieces spell the paragraph. */
  lemma HighlightedQuestionSpells(t: string)
    requires !HasOptionsInline(t) && IsQuestion(t)
    ensures ParagraphView(t, true).Plain? && ParagraphView(t, true).body.Highlights?
    ensures PieceTexts(ParagraphView(t, true).body.pieces) == t
  {
    KeywordsSpellText(t);
  }

  /** Without `**` in it, a plain paragraph's runs spell the paragraph. */
  lemma StyledParagraphSpells(t: string)
    requires !HasOptionsInline(t) && !Contains(t, "**")
    ensures ParagraphView(t, false).Plain? && ParagraphView(t, false).body.Styled?
    ensures Concat(Texts(ParagraphView(t, false).body.runs)) == t
  {
    BoldSpecialSpells(t);
  }
}
