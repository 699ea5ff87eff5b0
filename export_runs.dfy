/**
 * `renderRunsWithBolding` (services/exportService.ts): one line of the Word
 * export becomes a leading label run (question, CEFR or dialogue label) and
 * one run per non-empty span part, bold and coloured by the part's shape.
 */
module ExportRuns {
  import opened JsText
  import opened Spans

  // ---------------------------------------------------------------------------
  // Runs, as the document model sees them
  // ---------------------------------------------------------------------------

  /** No colour, "0000FF" or "111827". */
  datatype Color = NoColor | Blue | Dark

  datatype Run = Run(text: string, bold: bool, color: Color, underline: bool)

  function Texts(runs: seq<Run>): (ts: seq<string>)
    ensures |ts| == |runs|
    ensures forall k :: 0 <= k < |runs| ==> ts[k] == runs[k].text
  {
    if runs == [] then [] else [runs[0].text] + Texts(runs[1..])
  }

  // ---------------------------------------------------------------------------
  // The three label recognisers (all with the i flag); each gives the label's end
  // ---------------------------------------------------------------------------

  /** `/^(Question\s+\d+[:.]?\s*)/i` */
  function QuestionLabelEnd(t: string): (r: Option<nat>)
    ensures r.Some? ==> 10 <= r.value <= |t|
  {
    if HasAtCI(t, 0, "question") && 8 < |t| && IsSpace(t[8]) then
      var a := SkipSpaces(t, 8);
      if a < |t| && IsDigit(t[a]) then
        var d := SkipDigits(t, a);
        var x := if d < |t| && IsSep(t[d]) then d + 1 else d;
        Some(SkipSpaces(t, x))
      else None
    else None
  }

  /** `/^((?:B1|B2|C1|C2)\s*[:.]\s*)/i` */
  function CefrLabelEnd(t: string): (r: Option<nat>)
    ensures r.Some? ==> 3 <= r.value <= |t|
  {
    if |t| >= 2 && (CharMatchesCI(t[0], 'B') || CharMatchesCI(t[0], 'C')) && (t[1] == '1' || t[1] == '2') then
      var w := SkipSpaces(t, 2);
      if w < |t| && IsSep(t[w]) then Some(SkipSpaces(t, w + 1)) else None
    else None
  }

  /** `/^([a-e]\.\s*)/i` */
  function DialogueLabelEnd(t: string): (r: Option<nat>)
    ensures r.Some? ==> 2 <= r.value <= |t|
  {
    if |t| >= 2 && 'a' <= ToLowerChar(t[0]) <= 'e' && t[1] == '.' then Some(SkipSpaces(t, 2)) else None
  }

  /** At most one label recogniser accepts a line, so their order never decides. */
  lemma LabelsExclusive(t: string)
    ensures !(QuestionLabelEnd(t).Some? && CefrLabelEnd(t).Some?)
    ensures !(QuestionLabelEnd(t).Some? && DialogueLabelEnd(t).Some?)
    ensures !(CefrLabelEnd(t).Some? && DialogueLabelEnd(t).Some?)
  {
    if QuestionLabelEnd(t).Some? {
      assert CharMatchesCI(t[0], "question"[0]);
      assert ToLowerChar(t[0]) == 'q';
    }
  }

  /** The label's length: question first, then CEFR, then dialogue; 0 for none. */
  function LabelLength(t: string): (n: nat)
    ensures n <= |t|
  {
    var q := QuestionLabelEnd(t);
    var c := CefrLabelEnd(t);
    var d := DialogueLabelEnd(t);
    if q.Some? then q.value else if c.Some? then c.value else if d.Some? then d.value else 0
  }

  /** The label run, if the line has a label. */
  function LabelRuns(t: string): seq<Run> {
    var n := LabelLength(t);
    if n > 0 then
      var blue := QuestionLabelEnd(t).Some? || DialogueLabelEnd(t).Some?;
      [Run(t[..n], true, if blue then Blue else Dark, CefrLabelEnd(t).Some?)]
    else []
  }

  /** Question and dialogue labels are blue; CEFR labels are dark and underlined. */
  lemma LabelStyle(t: string)
    ensures QuestionLabelEnd(t).Some? ==> LabelRuns(t) == [Run(t[..QuestionLabelEnd(t).value], true, Blue, false)]
    ensures CefrLabelEnd(t).Some? ==> LabelRuns(t) == [Run(t[..CefrLabelEnd(t).value], true, Dark, true)]
    ensures DialogueLabelEnd(t).Some? ==> LabelRuns(t) == [Run(t[..DialogueLabelEnd(t).value], true, Blue, false)]
    ensures QuestionLabelEnd(t).None? && CefrLabelEnd(t).None? && DialogueLabelEnd(t).None? ==> LabelRuns(t) == []
  {
    LabelsExclusive(t);
  }

  // ---------------------------------------------------------------------------
  // Part runs
  // ---------------------------------------------------------------------------

  /**
   * The run of one non-empty part. `nameBlue` says whether this part is the
   * dialogue character's name (the first bold part of a dialogue line).
   */
  function PartRun(part: string, nameBlue: bool): Run {
    var t := Trim(part);
    if IsMdBold(t) then Run(RemoveBold(part), true, if nameBlue then Blue else NoColor, false)
    else if IsQuoted(t) then Run(RemoveBold(part), true, NoColor, false)
    else if IsBrackets(t) || IsMarker(t) then Run(part, true, Blue, false)
    else Run(part, false, NoColor, false)
  }

  /** The part is a `**bold**` span (tested on the trimmed part). */
  predicate BoldPart(part: string) {
    IsMdBold(Trim(part))
  }

  /** Part `i` is bold and no part before it is. */
  predicate FirstBold(parts: seq<string>, i: nat)
    requires i < |parts|
  {
    BoldPart(parts[i]) && forall j :: 0 <= j < i ==> !BoldPart(parts[j])
  }

  /** The `parts.forEach` with its `nameAlreadyStyled` flag, as a value. */
  function PartRuns(parts: seq<string>, dialogue: bool, styled: bool): seq<Run> {
    if parts == [] then []
    else if parts[0] == [] then PartRuns(parts[1..], dialogue, styled)
    else
      var name := BoldPart(parts[0]) && dialogue && !styled;
      [PartRun(parts[0], name)] + PartRuns(parts[1..], dialogue, styled || name)
  }

  /** All the runs of a line. */
  function RunsOf(text: string): seq<Run> {
    var n := LabelLength(text);
    LabelRuns(text) + PartRuns(SplitSpans(text[n..]), DialogueLabelEnd(text).Some?, false)
  }

  lemma PartRunsUnroll(parts: seq<string>, dialogue: bool, styled: bool)
    requires parts != []
    ensures parts[0] == [] ==> PartRuns(parts, dialogue, styled) == PartRuns(parts[1..], dialogue, styled)
    ensures parts[0] != [] ==>
      var name := BoldPart(parts[0]) && dialogue && !styled;
      PartRuns(parts, dialogue, styled) == [PartRun(parts[0], name)] + PartRuns(parts[1..], dialogue, styled || name)
  {
  }

  /** The `parts.forEach` loop: pushes one run per non-empty part after `runs0`. */
  method PushPartRuns(runs0: seq<Run>, parts: seq<string>, dialogue: bool) returns (runs: seq<Run>)
    ensures runs == runs0 + PartRuns(parts, dialogue, false)
  {
    runs := runs0;
    var nameAlreadyStyled := false;
    var i := 0;
    assert parts[0..] == parts;
    while i < |parts|
      invariant 0 <= i <= |parts|
      invariant runs + PartRuns(parts[i..], dialogue, nameAlreadyStyled) == runs0 + PartRuns(parts, dialogue, false)
    {
      var part := parts[i];
      PartRunsUnroll(parts[i..], dialogue, nameAlreadyStyled);
      assert parts[i..][0] == part;
      assert parts[i..][1..] == parts[i + 1..];
      if part != [] {
        var name := BoldPart(part) && dialogue && !nameAlreadyStyled;
        var rest := PartRuns(parts[i + 1..], dialogue, nameAlreadyStyled || name);
        AppendAssoc(runs, [PartRun(part, name)], rest);
        runs := runs + [PartRun(part, name)];
        if name {
          nameAlreadyStyled := true;
        }
      }
      i := i + 1;
    }
    assert parts[i..] == [];
    assert runs + PartRuns([], dialogue, nameAlreadyStyled) == runs;
  }

  /** `renderRunsWithBolding`: the label run, then a run per part. */
  method RenderRunsWithBolding(text: string) returns (runs: seq<Run>)
    ensures runs == RunsOf(text)
  {
    var n := LabelLength(text);
    var labels := LabelRuns(text);
    runs := PushPartRuns(labels, SplitSpans(text[n..]), DialogueLabelEnd(text).Some?);
  }

  // ---------------------------------------------------------------------------
  // Properties
  // ---------------------------------------------------------------------------

  /**
   * Part `i` of a line is rendered as the character's name (blue) exactly when
   * the line is a dialogue line and `i` is its first bold part.
   */
  lemma {:induction false} OnlyFirstBoldIsName(parts: seq<string>, dialogue: bool, styled: bool)
    requires AllNonEmpty(parts)
    ensures |PartRuns(parts, dialogue, styled)| == |parts|
    ensures forall i :: 0 <= i < |parts| ==>
      PartRuns(parts, dialogue, styled)[i] == PartRun(parts[i], dialogue && !styled && FirstBold(parts, i))
  {
    PartRunsLength(parts, dialogue, styled);
    forall i | 0 <= i < |parts|
      ensures PartRuns(parts, dialogue, styled)[i] == PartRun(parts[i], dialogue && !styled && FirstBold(parts, i))
    {
      NameAt(parts, dialogue, styled, i);
    }
  }

  lemma {:induction false} PartRunsLength(parts: seq<string>, dialogue: bool, styled: bool)
    requires AllNonEmpty(parts)
    ensures |PartRuns(parts, dialogue, styled)| == |parts|
  {
    if parts != [] {
      var name := BoldPart(parts[0]) && dialogue && !styled;
      PartRunsUnroll(parts, dialogue, styled);
      PartRunsLength(parts[1..], dialogue, styled || name);
    }
  }

  /** The run of part `i`, by induction on `i`. */
  lemma {:induction false} NameAt(parts: seq<string>, dialogue: bool, styled: bool, i: nat)
    requires AllNonEmpty(parts) && i < |parts|
    ensures |PartRuns(parts, dialogue, styled)| == |parts|
    ensures PartRuns(parts, dialogue, styled)[i] == PartRun(parts[i], dialogue && !styled && FirstBold(parts, i))
  {
    var name := BoldPart(parts[0]) && dialogue && !styled;
    var rest := parts[1..];
    var tail := PartRuns(rest, dialogue, styled || name);
    PartRunsUnroll(parts, dialogue, styled);
    assert parts[0] != [];
    assert PartRuns(parts, dialogue, styled) == [PartRun(parts[0], name)] + tail;
    PartRunsLength(parts, dialogue, styled);
    if i == 0 {
      assert FirstBold(parts, 0) == BoldPart(parts[0]);
    } else {
      assert AllNonEmpty(rest);
      NameAt(rest, dialogue, styled || name, i - 1);
      assert rest[i - 1] == parts[i];
      NameFlagShift(parts, dialogue, styled, i);
      assert PartRuns(parts, dialogue, styled)[i] == tail[i - 1];
    }
  }

  /** The flag a later part sees, given how the first part set `nameAlreadyStyled`. */
  lemma NameFlagShift(parts: seq<string>, dialogue: bool, styled: bool, i: nat)
    requires 0 < i < |parts|
    ensures var name := BoldPart(parts[0]) && dialogue && !styled;
            (dialogue && !(styled || name) && FirstBold(parts[1..], i - 1)) ==
            (dialogue && !styled && FirstBold(parts, i))
  {
    FirstBoldShift(parts, i);
  }

  lemma FirstBoldShift(parts: seq<string>, i: nat)
    requires 0 < i < |parts|
    ensures FirstBold(parts, i) <==> !BoldPart(parts[0]) && FirstBold(parts[1..], i - 1)
  {
    var rest := parts[1..];
    assert parts[i] == rest[i - 1];
    forall j | 0 <= j < i - 1 ensures rest[j] == parts[j + 1] { }
    if !BoldPart(parts[0]) && FirstBold(rest, i - 1) {
      forall j | 0 <= j < i ensures !BoldPart(parts[j]) {
        if j > 0 { assert parts[j] == rest[j - 1]; }
      }
    }
  }

  /** Of two bold parts, the later one is never blue. */
  lemma LaterBoldNotBlue(parts: seq<string>, dialogue: bool, i: nat, j: nat)
    requires AllNonEmpty(parts)
    requires i < j < |parts| && BoldPart(parts[i]) && BoldPart(parts[j])
    ensures |PartRuns(parts, dialogue, false)| == |parts|
    ensures PartRuns(parts, dialogue, false)[j].color == NoColor
  {
    OnlyFirstBoldIsName(parts, dialogue, false);
    assert !FirstBold(parts, j);
  }

  lemma {:induction false} PartRunsSkipEmpty(parts: seq<string>, dialogue: bool, styled: bool)
    ensures PartRuns(parts, dialogue, styled) == PartRuns(NonEmpty(parts), dialogue, styled)
  {
    if parts != [] {
      if parts[0] == [] {
        PartRunsSkipEmpty(parts[1..], dialogue, styled);
      } else {
        var name := BoldPart(parts[0]) && dialogue && !styled;
        PartRunsSkipEmpty(parts[1..], dialogue, styled || name);
        assert ([parts[0]] + NonEmpty(parts[1..]))[1..] == NonEmpty(parts[1..]);
      }
    }
  }

  /** A part's text once `**` is removed inside bold and quoted parts. */
  function Cleaned(part: string): string {
    var t := Trim(part);
    if IsMdBold(t) || IsQuoted(t) then RemoveBold(part) else part
  }

  function CleanedAll(parts: seq<string>): string {
    if parts == [] then "" else Cleaned(parts[0]) + CleanedAll(parts[1..])
  }

  /** The run texts spell the parts, with `**` removed inside bold and quoted parts. */
  lemma {:induction false} PartRunsSpell(parts: seq<string>, dialogue: bool, styled: bool)
    ensures Concat(Texts(PartRuns(parts, dialogue, styled))) == CleanedAll(parts)
  {
    if parts != [] {
      var next := NextStyled(parts[0], dialogue, styled);
      SpellStep(parts, dialogue, styled);
      PartRunsSpell(parts[1..], dialogue, next);
      assert CleanedAll(parts) == Cleaned(parts[0]) + CleanedAll(parts[1..]);
    }
  }

  /** The flag after a part: set once the dialogue name has been styled. */
  function NextStyled(part: string, dialogue: bool, styled: bool): bool {
    styled || (part != [] && BoldPart(part) && dialogue)
  }

  /** The first part contributes its cleaned text, then the rest follow. */
  lemma SpellStep(parts: seq<string>, dialogue: bool, styled: bool)
    requires parts != []
    ensures Concat(Texts(PartRuns(parts, dialogue, styled))) ==
            Cleaned(parts[0]) + Concat(Texts(PartRuns(parts[1..], dialogue, NextStyled(parts[0], dialogue, styled))))
  {
    PartRunsUnroll(parts, dialogue, styled);
    if parts[0] == [] {
      CleanedEmpty();
    } else {
      var name := BoldPart(parts[0]) && dialogue && !styled;
      var rest := PartRuns(parts[1..], dialogue, styled || name);
      var r := PartRun(parts[0], name);
      PartRunText(parts[0], name);
      TextsCons(r, rest);
      ConcatCons(r.text, Texts(rest));
    }
  }

  lemma CleanedEmpty()
    ensures Cleaned([]) == []
  {
    assert Trim([]) == [];
  }

  lemma PartRunText(part: string, nameBlue: bool)
    ensures PartRun(part, nameBlue).text == Cleaned(part)
  {
  }

  lemma TextsCons(r: Run, rest: seq<Run>)
    ensures Texts([r] + rest) == [r.text] + Texts(rest)
  {
    assert ([r] + rest)[1..] == rest;
  }

  lemma ConcatCons(x: string, xs: seq<string>)
    ensures Concat([x] + xs) == x + Concat(xs)
  {
    assert ([x] + xs)[1..] == xs;
  }

  lemma CleanedAllPlain(parts: seq<string>)
    requires forall k :: 0 <= k < |parts| ==> !Contains(parts[k], "**")
    ensures CleanedAll(parts) == Concat(parts)
  {
    CleanedSuffixPlain(parts, 0);
    assert parts[0..] == parts;
  }

  /** The suffix from part `i` on, with the whole list's hypothesis. */
  lemma {:induction false} CleanedSuffixPlain(parts: seq<string>, i: nat)
    requires i <= |parts|
    requires forall k :: 0 <= k < |parts| ==> !Contains(parts[k], "**")
    ensures CleanedAll(parts[i..]) == Concat(parts[i..])
    decreases |parts| - i
  {
    if i < |parts| {
      CleanedSuffixPlain(parts, i + 1);
      RemoveBoldNoStars(parts[i]);
      CleanedEither(parts[i]);
      assert parts[i..][0] == parts[i] && parts[i..][1..] == parts[i + 1..];
    }
  }

  /** A part is shown either as it is or with `**` removed. */
  lemma CleanedEither(part: string)
    ensures Cleaned(part) == part || Cleaned(part) == RemoveBold(part)
  {
    var t := Trim(part);
    if IsMdBold(t) || IsQuoted(t) {
      assert Cleaned(part) == RemoveBold(part);
    } else {
      assert Cleaned(part) == part;
    }
  }

  /** Without `**` in a text, the runs of its parts spell it exactly. */
  lemma PartsSpellText(rem: string, dialogue: bool)
    requires !Contains(rem, "**")
    ensures Concat(Texts(PartRuns(SplitSpans(rem), dialogue, false))) == rem
  {
    var parts := SplitSpans(rem);
    SplitSpansConcat(rem);
    PartsWithoutBold(parts);
    CleanedAllPlain(parts);
    PartRunsSpell(parts, dialogue, false);
  }

  /** The label run, if any, holds exactly the label. */
  lemma LabelSpellsLabel(text: string)
    ensures Concat(Texts(LabelRuns(text))) == text[..LabelLength(text)]
  {
    var n := LabelLength(text);
    if n > 0 {
      assert Texts(LabelRuns(text)) == [text[..n]];
      assert Concat([text[..n]]) == text[..n] + Concat([]);
    }
  }

  /** Without `**` in the line, the run texts spell the line exactly. */
  lemma RunsSpellLine(text: string)
    requires !Contains(text, "**")
    ensures Concat(Texts(RunsOf(text))) == text
  {
    var n := LabelLength(text);
    var rem := text[n..];
    assert text == text[..n] + rem + "";
    NoContainsInfix(text[..n], rem, "", "**");
    var labels := LabelRuns(text);
    var partRuns := PartRuns(SplitSpans(rem), DialogueLabelEnd(text).Some?, false);
    PartsSpellText(rem, DialogueLabelEnd(text).Some?);
    LabelSpellsLabel(text);
    assert RunsOf(text) == labels + partRuns;
    assert Texts(labels + partRuns) == Texts(labels) + Texts(partRuns);
    ConcatAppend(Texts(labels), Texts(partRuns));
  }
}
