/**
 * `boldSpecialText` (components/TestContent.tsx): the screen's twin of the
 * export's run segmentation. The same span split, but the label is looked for
 * in the first part only, its regexes allow leading whitespace, and a bare
 * `n.` also counts as a question label.
 */
module ScreenRuns {
  import opened JsText
  import opened Spans
  import opened ExportRuns

  // ---------------------------------------------------------------------------
  // The three label recognisers (all with the i flag)
  // ---------------------------------------------------------------------------

  /**
   * `/^(\s*(?:Question\s+\d+[:.]?|\d+\.)\s*)/i`: the label's end. The leading
   * `\s*` cannot give back a space (both alternatives start with a non-space),
   * and when `Question` matched the digit alternative cannot, so the choice
   * is deterministic.
   */
  function QuestionEnd(t: string): (r: Option<nat>)
    ensures r.Some? ==> 2 <= r.value <= |t|
  {
    var w := SkipSpaces(t, 0);
    if HasAtCI(t, w, "question") then
      if w + 8 < |t| && IsSpace(t[w + 8]) then
        var a := SkipSpaces(t, w + 8);
        if a < |t| && IsDigit(t[a]) then
          var d := SkipDigits(t, a);
          var x := if d < |t| && IsSep(t[d]) then d + 1 else d;
          Some(SkipSpaces(t, x))
        else None
      else None
    else if w < |t| && IsDigit(t[w]) then
      var d := SkipDigits(t, w);
      if d < |t| && t[d] == '.' then Some(SkipSpaces(t, d + 1)) else None
    else None
  }

  /** `/^(\s*(?:B1|B2|C1|C2)\s*[:.]\s*)/i` */
  function CefrEnd(t: string): (r: Option<nat>)
    ensures r.Some? ==> 3 <= r.value <= |t|
  {
    var w := SkipSpaces(t, 0);
    if w + 1 < |t| && (CharMatchesCI(t[w], 'B') || CharMatchesCI(t[w], 'C')) && (t[w + 1] == '1' || t[w + 1] == '2') then
      var x := SkipSpaces(t, w + 2);
      if x < |t| && IsSep(t[x]) then Some(SkipSpaces(t, x + 1)) else None
    else None
  }

  /** `/^(\s*[a-e]\.\s*)/i` */
  function DialogueEnd(t: string): (r: Option<nat>)
    ensures r.Some? ==> 2 <= r.value <= |t|
  {
    var w := SkipSpaces(t, 0);
    if w + 1 < |t| && 'a' <= ToLowerChar(t[w]) <= 'e' && t[w + 1] == '.' then Some(SkipSpaces(t, w + 2)) else None
  }

  /** The label branch taken for the first part, with the label's end. */
  datatype Label = QuestionLabel(end: nat) | CefrLabel(end: nat) | DialogueLabel(end: nat) | NoLabel

  /** The `if (qMatch) … else if (cefrMatch) … else if (dMatch)` chain. */
  function LabelOf(t: string): (l: Label)
    ensures !l.NoLabel? ==> 2 <= l.end <= |t|
    ensures l.NoLabel? <==> QuestionEnd(t).None? && CefrEnd(t).None? && DialogueEnd(t).None?
    ensures l.DialogueLabel? ==> QuestionEnd(t).None? && CefrEnd(t).None?
  {
    var q := QuestionEnd(t);
    var c := CefrEnd(t);
    var d := DialogueEnd(t);
    if q.Some? then QuestionLabel(q.value)
    else if c.Some? then CefrLabel(c.value)
    else if d.Some? then DialogueLabel(d.value)
    else NoLabel
  }

  /** The label span (blue, or dark and underlined for CEFR) and the rest of the part. */
  function LabelFragment(t: string, l: Label): (rs: seq<Run>)
    requires !l.NoLabel? && l.end <= |t|
    ensures |rs| == 2 && rs[0].text + rs[1].text == t
    ensures rs[0].bold && !rs[1].bold
  {
    var n := l.end;
    assert t[..n] + t[n..] == t;
    [Run(t[..n], true, if l.CefrLabel? then Dark else Blue, l.CefrLabel?), Run(t[n..], false, NoColor, false)]
  }

  // ---------------------------------------------------------------------------
  // The other parts
  // ---------------------------------------------------------------------------

  /**
   * A part that passes one of the four tests is a `<strong>`: `**` removed in
   * bold and quoted parts; blue for brackets and markers, blue for the
   * dialogue character's name, dark otherwise. Any other part is plain text.
   */
  function StyledPart(part: string, nameBlue: bool): (r: Run)
    ensures !r.underline && (r.bold <==> r.color != NoColor)
  {
    var t := Trim(part);
    if IsQuoted(t) || IsBrackets(t) || IsMdBold(t) || IsMarker(t) then
      var clean := if IsMdBold(t) || IsQuoted(t) then RemoveBold(part) else part;
      var color := if IsBrackets(t) || IsMarker(t) then Blue else if IsMdBold(t) && nameBlue then Blue else Dark;
      Run(clean, true, color, false)
    else Run(part, false, NoColor, false)
  }

  /** Every run is a plain text or a coloured `<strong>`, never underlined. */
  predicate Strong(rs: seq<Run>) {
    forall k :: 0 <= k < |rs| ==> !rs[k].underline && (rs[k].bold <==> rs[k].color != NoColor)
  }

  /** The parts in turn, with the `nameAlreadyStyled` flag; empty parts render nothing. */
  function StyledParts(parts: seq<string>, dialogue: bool, styled: bool): seq<Run> {
    if parts == [] then []
    else if parts[0] == [] then StyledParts(parts[1..], dialogue, styled)
    else
      var name := BoldPart(parts[0]) && dialogue && !styled;
      [StyledPart(parts[0], name)] + StyledParts(parts[1..], dialogue, styled || name)
  }

  /** The label the first part gets, if it is non-empty (`i === 0`). */
  function FirstLabel(parts: seq<string>): (l: Label)
    requires parts != []
    ensures !l.NoLabel? ==> 2 <= l.end <= |parts[0]|
  {
    if parts[0] != [] then LabelOf(parts[0]) else NoLabel
  }

  /** The rendered parts, given the label branch the first part took. */
  function RenderParts(parts: seq<string>, l: Label): seq<Run>
    requires parts != [] && (!l.NoLabel? ==> l.end <= |parts[0]|)
  {
    if l.NoLabel? then StyledParts(parts, false, false)
    else LabelFragment(parts[0], l) + StyledParts(parts[1..], l.DialogueLabel?, false)
  }

  /** What `boldSpecialText(text)` renders, as a sequence of runs. */
  function BoldSpecial(text: string): seq<Run> {
    var parts := SplitSpans(text);
    RenderParts(parts, FirstLabel(parts))
  }

  lemma StyledPartsUnroll(parts: seq<string>, dialogue: bool, styled: bool)
    requires parts != []
    ensures parts[0] == [] ==> StyledParts(parts, dialogue, styled) == StyledParts(parts[1..], dialogue, styled)
    ensures parts[0] != [] ==>
      var name := BoldPart(parts[0]) && dialogue && !styled;
      StyledParts(parts, dialogue, styled) == [StyledPart(parts[0], name)] + StyledParts(parts[1..], dialogue, styled || name)
  {
  }

  /** Every part renders as plain text or as a coloured `<strong>`. */
  lemma {:induction false} StyledPartsStrong(parts: seq<string>, dialogue: bool, styled: bool)
    ensures Strong(StyledParts(parts, dialogue, styled))
  {
    if parts != [] {
      StyledPartsUnroll(parts, dialogue, styled);
      if parts[0] != [] {
        var name := BoldPart(parts[0]) && dialogue && !styled;
        var rest := StyledParts(parts[1..], dialogue, styled || name);
        StyledPartsStrong(parts[1..], dialogue, styled || name);
        var r := StyledPart(parts[0], name);
        forall k | 0 < k <= |rest| ensures ([r] + rest)[k] == rest[k - 1] { }
      } else {
        StyledPartsStrong(parts[1..], dialogue, styled);
      }
    }
  }

  /** `boldSpecialText`: the `parts.map` with its two flags. */
  method BoldSpecialText(text: string) returns (runs: seq<Run>)
    ensures runs == BoldSpecial(text)
  {
    var parts := SplitSpans(text);
    runs := MapParts(parts, FirstLabel(parts));
  }

  /** The loop of the `map`; the label, taken at index 0 only, is `lab`. */
  method MapParts(parts: seq<string>, lab: Label) returns (runs: seq<Run>)
    requires parts != [] && (!lab.NoLabel? ==> lab.end <= |parts[0]|)
    requires lab.NoLabel? || parts[0] != []
    ensures runs == RenderParts(parts, lab)
  {
    var isLineDialogue := false;
    var nameAlreadyStyled := false;
    runs := [];
    var i := 0;
    while i < |parts|
      invariant 0 <= i <= |parts|
      invariant i == 0 ==> runs == [] && !isLineDialogue && !nameAlreadyStyled
      invariant i > 0 ==> runs + StyledParts(parts[i..], isLineDialogue, nameAlreadyStyled) == RenderParts(parts, lab)
    {
      var part := parts[i];
      StyledPartsUnroll(parts[i..], isLineDialogue, nameAlreadyStyled);
      assert parts[i..][0] == part;
      assert parts[i..][1..] == parts[i + 1..];
      if part == [] {
        assert i == 0 ==> parts == parts[0..];
      } else if i == 0 && !lab.NoLabel? {
        runs := LabelFragment(part, lab);
        isLineDialogue := lab.DialogueLabel?;
      } else {
        assert i == 0 ==> parts == parts[0..];
        var name := BoldPart(part) && isLineDialogue && !nameAlreadyStyled;
        var rest := StyledParts(parts[i + 1..], isLineDialogue, nameAlreadyStyled || name);
        AppendAssoc(runs, [StyledPart(part, name)], rest);
        runs := runs + [StyledPart(part, name)];
        if name {
          nameAlreadyStyled := true;
        }
      }
      i := i + 1;
    }
    assert parts[i..] == [];
    assert runs + StyledParts([], isLineDialogue, nameAlreadyStyled) == runs;
  }

  // ---------------------------------------------------------------------------
  // Agreement with the export, part by part
  // ---------------------------------------------------------------------------

  /** Same text, same boldness, blue in the same cases; only the non-blue colour differs. */
  predicate SameLook(a: Run, b: Run) {
    a.text == b.text && a.bold == b.bold && (a.color == Blue <==> b.color == Blue)
  }

  predicate AllSameLook(a: seq<Run>, b: seq<Run>) {
    |a| == |b| && forall i :: 0 <= i < |a| ==> SameLook(a[i], b[i])
  }

  lemma StyledPartLikeExport(part: string, nameBlue: bool)
    ensures SameLook(StyledPart(part, nameBlue), PartRun(part, nameBlue))
  {
    PartTestsExclusive(Trim(part));
  }

  lemma ConsSameLook(x: Run, a: seq<Run>, y: Run, b: seq<Run>)
    requires SameLook(x, y) && AllSameLook(a, b)
    ensures AllSameLook([x] + a, [y] + b)
  {
    forall i | 0 < i <= |a| ensures ([x] + a)[i] == a[i - 1] && ([y] + b)[i] == b[i - 1] { }
  }

  /**
   * After the label, the screen styles the parts exactly as the export does:
   * run for run the same text, boldness and blueness.
   */
  lemma {:induction false} StyledPartsLikeExport(parts: seq<string>, dialogue: bool, styled: bool)
    ensures AllSameLook(StyledParts(parts, dialogue, styled), PartRuns(parts, dialogue, styled))
  {
    if parts != [] {
      StyledPartsUnroll(parts, dialogue, styled);
      PartRunsUnroll(parts, dialogue, styled);
      if parts[0] != [] {
        var name := BoldPart(parts[0]) && dialogue && !styled;
        StyledPartsLikeExport(parts[1..], dialogue, styled || name);
        StyledPartLikeExport(parts[0], name);
        ConsSameLook(StyledPart(parts[0], name), StyledParts(parts[1..], dialogue, styled || name),
                     PartRun(parts[0], name), PartRuns(parts[1..], dialogue, styled || name));
      } else {
        StyledPartsLikeExport(parts[1..], dialogue, styled);
      }
    }
  }

  /** On a dialogue line a bold part after another bold part is dark, never blue. */
  lemma LaterBoldDark(parts: seq<string>, i: nat, j: nat)
    requires AllNonEmpty(parts)
    requires i < j < |parts| && BoldPart(parts[i]) && BoldPart(parts[j])
    ensures |StyledParts(parts, true, false)| == |parts|
    ensures StyledParts(parts, true, false)[j] == Run(RemoveBold(parts[j]), true, Dark, false)
  {
    LaterBoldNotBlue(parts, true, i, j);
    StyledPartsLikeExport(parts, true, false);
    var e := PartRuns(parts, true, false)[j];
    OnlyFirstBoldIsName(parts, true, false);
    assert !FirstBold(parts, j);
    assert e == PartRun(parts[j], false);
    assert e.text == RemoveBold(parts[j]) && e.bold;
    var r := StyledParts(parts, true, false)[j];
    assert SameLook(r, e);
    StyledPartsStrong(parts, true, false);
  }

  // ---------------------------------------------------------------------------
  // Nothing is lost
  // ---------------------------------------------------------------------------

  lemma StyledPartText(part: string, nameBlue: bool)
    ensures StyledPart(part, nameBlue).text == Cleaned(part)
  {
  }

  lemma {:induction false} StyledPartsSpell(parts: seq<string>, dialogue: bool, styled: bool)
    ensures Concat(Texts(StyledParts(parts, dialogue, styled))) == CleanedAll(parts)
  {
    if parts != [] {
      if parts[0] == [] {
        StyledPartsSpell(parts[1..], dialogue, styled);
        assert Cleaned(parts[0]) == [];
      } else {
        var name := BoldPart(parts[0]) && dialogue && !styled;
        StyledPartsSpell(parts[1..], dialogue, styled || name);
        var rest := StyledParts(parts[1..], dialogue, styled || name);
        var r := StyledPart(parts[0], name);
        assert StyledParts(parts, dialogue, styled) == [r] + rest;
        StyledPartText(parts[0], name);
        TextsCons(r, rest);
        ConcatCons(r.text, Texts(rest));
      }
    }
  }

  /** The label fragment and the styled rest spell the parts, `**` cleaned after the label. */
  lemma {:induction false} RenderPartsSpell(parts: seq<string>, l: Label)
    requires parts != [] && (!l.NoLabel? ==> l.end <= |parts[0]|)
    ensures Concat(Texts(RenderParts(parts, l))) ==
      if l.NoLabel? then CleanedAll(parts) else parts[0] + CleanedAll(parts[1..])
  {
    if l.NoLabel? {
      StyledPartsSpell(parts, false, false);
    } else {
      var frag := LabelFragment(parts[0], l);
      var styled := StyledParts(parts[1..], l.DialogueLabel?, false);
      StyledPartsSpell(parts[1..], l.DialogueLabel?, false);
      TextsAppend(frag, styled);
      ConcatAppend(Texts(frag), Texts(styled));
      assert Texts(frag) == [frag[0].text, frag[1].text];
      ConcatPair(frag[0].text, frag[1].text);
    }
  }

  lemma TextsAppend(a: seq<Run>, b: seq<Run>)
    ensures Texts(a + b) == Texts(a) + Texts(b)
  {
    assert forall k :: |a| <= k < |a| + |b| ==> (a + b)[k] == b[k - |a|];
  }

  /** With no `**` in any part, the runs spell the parts exactly, label or not. */
  lemma PlainPartsSpell(parts: seq<string>, l: Label)
    requires parts != [] && (!l.NoLabel? ==> l.end <= |parts[0]|)
    requires forall k :: 0 <= k < |parts| ==> !Contains(parts[k], "**")
    ensures Concat(Texts(RenderParts(parts, l))) == Concat(parts)
  {
    CleanedAllPlain(parts);
    RenderPartsSpell(parts, l);
    RemoveBoldNoStars(parts[0]);
    assert CleanedAll(parts) == Cleaned(parts[0]) + CleanedAll(parts[1..]);
  }

  /** Without `**` in the text, the rendered runs spell the text exactly. */
  lemma BoldSpecialSpells(text: string)
    requires !Contains(text, "**")
    ensures Concat(Texts(BoldSpecial(text))) == text
  {
    var parts := SplitSpans(text);
    SplitSpansConcat(text);
    PartsWithoutBold(parts);
    PlainPartsSpell(parts, FirstLabel(parts));
  }

  // ---------------------------------------------------------------------------
  // Where the screen and the export disagree
  // ---------------------------------------------------------------------------

  /**
   * A line starting with a bare `n.` gets a blue question label on screen,
   * while the export's regexes, which need `Question`, see no label at all.
   */
  lemma BareNumberLabelled(text: string)
    requires text == "1. Go"
    ensures FirstLabel(SplitSpans(text)) == QuestionLabel(3)
    ensures BoldSpecial(text) == [Run("1. ", true, Blue, false), Run("Go", false, NoColor, false)]
    ensures LabelLength(text) == 0
  {
    BareNumberParts(text);
    assert !HasAtCI(text, 0, "question") by { assert !CharMatchesCI(text[0], "question"[0]); }
    assert SkipSpaces(text, 0) == 0;
    assert SkipDigits(text, 0) == 1;
    assert SkipSpaces(text, 2) == 3;
    assert QuestionEnd(text) == Some(3);
    assert LabelOf(text) == QuestionLabel(3);
    assert text[..3] == "1. " && text[3..] == "Go";
    assert QuestionLabelEnd(text).None?;
    assert CefrLabelEnd(text).None? && DialogueLabelEnd(text).None?;
  }

  lemma BareNumberParts(text: string)
    requires text == "1. Go"
    ensures SplitSpans(text) == [text]
  {
    assert SplitFrom(text, 0, 5) == [text];
    assert SplitFrom(text, 0, 4) == [text] by { assert SpanAt(text, 4).None?; }
    assert SplitFrom(text, 0, 3) == [text] by { assert SpanAt(text, 3).None?; }
    assert SplitFrom(text, 0, 2) == [text] by { assert SpanAt(text, 2).None?; }
    assert SplitFrom(text, 0, 1) == [text] by { assert SpanAt(text, 1).None?; }
    assert SplitFrom(text, 0, 0) == [text] by { assert SpanAt(text, 0).None?; }
  }
}
