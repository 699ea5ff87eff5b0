/**
 * The paragraph layout of the Word export (services/exportService.ts,
 * `exportToWord` and its inner `processContent`): each trimmed line becomes a
 * labelled paragraph, a block of answer options laid out in 1, 2 or 4
 * columns, an answer-key header or a plain paragraph; the document is a title
 * followed by the generated sections in a fixed order.
 */
module ExportLayout {
  import opened JsText
  import opened Types
  import opened Formatter
  import opened ExportRuns

  datatype Align = Left | Center | Justified

  /** A paragraph: alignment, spacing before and after (twips), left tab stops, runs. */
  datatype Paragraph = Paragraph(align: Align, before: nat, after: nat, tabStops: seq<nat>, runs: seq<Run>)

  // ---------------------------------------------------------------------------
  // Splitting an option line: `line.split(/\s*([*]*[A-D][.)]\s+)/g).filter(p => p !== "")`
  // ---------------------------------------------------------------------------

  /** Where a marker match's capture starts and where the match ends. */
  datatype MarkerMatch = MarkerMatch(capture: nat, end: nat)

  /**
   * The option regex tried at `q`: the start of the capture (after the
   * whitespace run) and the end of the match. Neither `\s*` nor `[*]*` can give
   * back characters, since `[A-D]` matches neither a space nor a star.
   */
  function OptMatchAt(s: string, q: nat): (r: Option<MarkerMatch>)
    requires q <= |s|
    ensures r.Some? ==> q <= r.value.capture && r.value.capture + 3 <= r.value.end <= |s|
  {
    var c := SkipSpaces(s, q);
    var l := SkipStars(s, c);
    if l + 2 < |s| && IsAtoD(s[l]) && IsMarkEnd(s[l + 1]) && IsSpace(s[l + 2]) then
      Some(MarkerMatch(c, SkipSpaces(s, l + 2)))
    else None
  }

  /** `split` from `p`, searching at `q`: the piece before each match, then its capture. */
  function OptSplitFrom(s: string, p: nat, q: nat): (parts: seq<string>)
    requires p <= q <= |s|
    ensures |parts| % 2 == 1
    decreases |s| - q
  {
    if q == |s| then [s[p..]]
    else match OptMatchAt(s, q)
      case Some(m) => [s[p..q], s[m.capture..m.end]] + OptSplitFrom(s, m.end, m.end)
      case None => OptSplitFrom(s, p, q + 1)
  }

  /** The captured text of an option marker: stars, a letter A-D, `.` or `)`, whitespace. */
  predicate IsMarkerCapture(m: string) {
    exists l :: 0 <= l < |m| - 2 && StarsUpTo(m, l) && IsAtoD(m[l]) && IsMarkEnd(m[l + 1]) && SpacesFrom(m, l + 2)
  }

  predicate StarsUpTo(m: string, l: int) {
    forall k :: 0 <= k < l && k < |m| ==> m[k] == '*'
  }

  predicate SpacesFrom(m: string, i: int) {
    forall k :: 0 <= i <= k < |m| ==> IsSpace(m[k])
  }

  lemma CaptureIsMarker(s: string, q: nat)
    requires q <= |s| && OptMatchAt(s, q).Some?
    ensures IsMarkerCapture(s[OptMatchAt(s, q).value.capture..OptMatchAt(s, q).value.end])
  {
    var c := SkipSpaces(s, q);
    var l := SkipStars(s, c);
    var e := SkipSpaces(s, l + 2);
    var m := s[c..e];
    assert forall k :: 0 <= k < l - c ==> m[k] == s[c + k];
    assert forall k :: l - c + 2 <= k < |m| ==> m[k] == s[c + k];
    assert m[l - c] == s[l] && m[l - c + 1] == s[l + 1];
  }

  /** Every odd-numbered piece of the split is a captured option marker. */
  lemma {:induction false} OddPartsAreMarkers(s: string, p: nat, q: nat, k: nat)
    requires p <= q <= |s| && k < |OptSplitFrom(s, p, q)| && k % 2 == 1
    ensures IsMarkerCapture(OptSplitFrom(s, p, q)[k])
    decreases |s| - q
  {
    if q == |s| {
      assert false;
    } else {
      match OptMatchAt(s, q)
      case Some(m) =>
        var rest := OptSplitFrom(s, m.end, m.end);
        assert OptSplitFrom(s, p, q) == [s[p..q], s[m.capture..m.end]] + rest;
        if k == 1 {
          CaptureIsMarker(s, q);
        } else {
          OddPartsAreMarkers(s, m.end, m.end, k - 2);
        }
      case None =>
        OddPartsAreMarkers(s, p, q + 1, k);
    }
  }

  function OptionParts(line: string): (parts: seq<string>)
    ensures AllNonEmpty(parts)
  {
    NonEmpty(OptSplitFrom(line, 0, 0))
  }

  // ---------------------------------------------------------------------------
  // Pairing parts into options
  // ---------------------------------------------------------------------------

  /** `{ label, text }`: the label is the marker, e.g. `A.` */
  datatype Choice = Choice(marker: string, text: string)

  /** `/[A-D][.)]/` */
  predicate HasLetterMark(t: string) {
    exists k :: 0 <= k < |t| && LetterMarkAt(t, k)
  }

  predicate LetterMarkAt(t: string, k: int) {
    0 <= k < |t| - 1 && IsAtoD(t[k]) && IsMarkEnd(t[k + 1])
  }

  /**
   * One round of the pairing loop at part `i`, before trimming: a part and its
   * successor make an option; a part without a successor does only if it
   * holds a letter mark.
   */
  function PairAt(parts: seq<string>, i: nat): (r: seq<Choice>)
    requires i < |parts|
    ensures |r| <= 1
  {
    if parts[i] != [] && i + 1 < |parts| && parts[i + 1] != [] then
      [Choice(parts[i], parts[i + 1])]
    else if parts[i] != [] && HasLetterMark(parts[i]) then
      [Choice(parts[i], if i + 1 < |parts| then parts[i + 1] else "")]
    else []
  }

  /** The pairing loop from part `i` on, stepping by two, before trimming. */
  function PairFrom(parts: seq<string>, i: nat): seq<Choice>
    decreases |parts| - i
  {
    if i >= |parts| then [] else PairAt(parts, i) + PairFrom(parts, i + 2)
  }

  /** `{ label: label.trim(), text: text.trim() }` */
  function TrimChoice(c: Choice): Choice {
    Choice(Trim(c.marker), Trim(c.text))
  }

  /** `xs.map(f)` */
  function MapSeq<A, B>(f: A -> B, xs: seq<A>): (r: seq<B>)
    ensures |r| == |xs|
    ensures forall k :: 0 <= k < |xs| ==> r[k] == f(xs[k])
  {
    if xs == [] then [] else [f(xs[0])] + MapSeq(f, xs[1..])
  }

  lemma {:induction false} MapSeqAppend<A, B>(f: A -> B, a: seq<A>, b: seq<A>)
    ensures MapSeq(f, a + b) == MapSeq(f, a) + MapSeq(f, b)
  {
    if a != [] {
      MapSeqAppend(f, a[1..], b);
      assert (a + b)[1..] == a[1..] + b;
    } else {
      assert a + b == b;
    }
  }

  /** `xs.flatMap(f)`, or a loop pushing `...f(x)` for each `x`. */
  function ConcatMap<A, B>(f: A -> seq<B>, xs: seq<A>): seq<B> {
    if xs == [] then [] else f(xs[0]) + ConcatMap(f, xs[1..])
  }

  lemma {:induction false} ConcatMapSnoc<A, B>(f: A -> seq<B>, xs: seq<A>, i: nat)
    requires i < |xs|
    ensures ConcatMap(f, xs[..i + 1]) == ConcatMap(f, xs[..i]) + f(xs[i])
    decreases i
  {
    if i > 0 {
      ConcatMapSnoc(f, xs[1..], i - 1);
      assert xs[..i + 1][1..] == xs[1..][..i];
      assert xs[..i][1..] == xs[1..][..i - 1];
    } else {
      assert xs[..1][1..] == [];
    }
  }

  /** A loop pushing `...f(x)` for each `x` of `xs` in turn. */
  method PushAll<A, B>(f: A -> seq<B>, xs: seq<A>) returns (r: seq<B>)
    ensures r == ConcatMap(f, xs)
  {
    r := [];
    var i := 0;
    while i < |xs|
      invariant 0 <= i <= |xs|
      invariant r == ConcatMap(f, xs[..i])
    {
      ConcatMapSnoc(f, xs, i);
      r := r + f(xs[i]);
      i := i + 1;
    }
    assert xs[..i] == xs;
  }

  function TrimChoices(cs: seq<Choice>): (r: seq<Choice>)
    ensures |r| == |cs|
  {
    MapSeq(TrimChoice, cs)
  }

  function OptionsOf(line: string): seq<Choice> {
    TrimChoices(PairFrom(OptionParts(line), 0))
  }

  /** The `for (let i = 0; i < optionParts.length; i += 2)` loop. */
  method PairOptions(parts: seq<string>) returns (options: seq<Choice>)
    ensures options == TrimChoices(PairFrom(parts, 0))
  {
    options := [];
    var i: nat := 0;
    while i < |parts|
      invariant options + TrimChoices(PairFrom(parts, i)) == TrimChoices(PairFrom(parts, 0))
      decreases |parts| - i
    {
      var trimmed := TrimChoices(PairAt(parts, i));
      PairOptionsStep(parts, i);
      AppendAssoc(options, trimmed, TrimChoices(PairFrom(parts, i + 2)));
      options := options + trimmed;
      i := i + 2;
    }
    NoPairsPastEnd(parts, i);
  }

  lemma NoPairsPastEnd(parts: seq<string>, i: nat)
    requires i >= |parts|
    ensures TrimChoices(PairFrom(parts, i)) == []
  {
  }

  lemma PairOptionsStep(parts: seq<string>, i: nat)
    requires i < |parts|
    ensures TrimChoices(PairFrom(parts, i)) == TrimChoices(PairAt(parts, i)) + TrimChoices(PairFrom(parts, i + 2))
  {
    MapSeqAppend(TrimChoice, PairAt(parts, i), PairFrom(parts, i + 2));
  }


  /** Over non-empty parts, the loop pairs part `i` with part `i + 1` and moves on. */
  lemma PairingStep(parts: seq<string>, i: nat)
    requires AllNonEmpty(parts) && i + 1 < |parts|
    ensures PairFrom(parts, i) == [Choice(parts[i], parts[i + 1])] + PairFrom(parts, i + 2)
  {
    assert parts[i] != [] && parts[i + 1] != [];
  }

  lemma PairingLone(parts: seq<string>, i: nat)
    requires i + 1 == |parts| && parts[i] != []
    ensures |PairFrom(parts, i)| == if HasLetterMark(parts[i]) then 1 else 0
  {
    assert PairFrom(parts, i) == PairAt(parts, i) + PairFrom(parts, i + 2);
  }

  /**
   * Over non-empty parts the pairing is positional: one option per two parts,
   * plus one for a lone last part that holds a letter mark.
   */
  lemma {:induction false} PairingCount(parts: seq<string>, i: nat)
    requires AllNonEmpty(parts) && i <= |parts|
    ensures |PairFrom(parts, i)| ==
      (|parts| - i) / 2 + (if (|parts| - i) % 2 == 1 && HasLetterMark(parts[|parts| - 1]) then 1 else 0)
    decreases |parts| - i
  {
    if i + 1 < |parts| {
      PairingCount(parts, i + 2);
      PairingStep(parts, i);
      HalfStep(|parts| - i);
    } else if i + 1 == |parts| {
      PairingLone(parts, i);
    }
  }

  lemma HalfStep(n: int)
    requires n >= 2
    ensures (n - 2) / 2 == n / 2 - 1 && (n - 2) % 2 == n % 2
  {
  }

  /** Option `k` is made of parts `i + 2k` and `i + 2k + 1`, trimmed. */
  lemma PairingPositional(parts: seq<string>, i: nat, k: nat)
    requires AllNonEmpty(parts) && i + 2 * k + 1 < |parts|
    ensures |TrimChoices(PairFrom(parts, i))| > k
    ensures TrimChoices(PairFrom(parts, i))[k] == Choice(Trim(parts[i + 2 * k]), Trim(parts[i + 2 * k + 1]))
  {
    PairingRaw(parts, i, k);
    assert TrimChoices(PairFrom(parts, i))[k] == TrimChoice(PairFrom(parts, i)[k]);
  }

  /** Every option's marker and text come out trimmed. */
  lemma OptionsTrimmed(line: string, k: nat)
    requires k < |OptionsOf(line)|
    ensures IsTrimmed(OptionsOf(line)[k].marker) && IsTrimmed(OptionsOf(line)[k].text)
  {
    var cs := PairFrom(OptionParts(line), 0);
    assert TrimChoices(cs)[k] == TrimChoice(cs[k]);
  }

  lemma {:induction false} PairingRaw(parts: seq<string>, i: nat, k: nat)
    requires AllNonEmpty(parts) && i + 2 * k + 1 < |parts|
    ensures |PairFrom(parts, i)| > k
    ensures PairFrom(parts, i)[k] == Choice(parts[i + 2 * k], parts[i + 2 * k + 1])
    decreases k
  {
    PairingStep(parts, i);
    if k > 0 {
      PairingRaw(parts, i + 2, k - 1);
      assert i + 2 + 2 * (k - 1) == i + 2 * k;
    }
  }

  // ---------------------------------------------------------------------------
  // Columns and layouts
  // ---------------------------------------------------------------------------

  /** `(o.label + o.text).length` */
  function Width(o: Choice): nat { |o.marker| + |o.text| }

  /** `Math.max(...widths)`, with -1 standing for the -Infinity of no options. */
  function MaxWidth(opts: seq<Choice>): (m: int)
    ensures forall k :: 0 <= k < |opts| ==> Width(opts[k]) <= m
    ensures opts == [] ==> m == -1
    ensures opts != [] ==> exists k :: 0 <= k < |opts| && Width(opts[k]) == m
  {
    if opts == [] then -1
    else
      var m := MaxWidth(opts[1..]);
      assert forall k :: 1 <= k < |opts| ==> opts[k] == opts[1..][k - 1];
      if Width(opts[0]) >= m then Width(opts[0]) else m
  }

  /** One column if an option is wider than 35, two if one is wider than 18, else four. */
  function Columns(opts: seq<Choice>): (n: nat)
    ensures n == 1 <==> exists k :: 0 <= k < |opts| && Width(opts[k]) > 35
    ensures n == 2 <==> (forall k :: 0 <= k < |opts| ==> Width(opts[k]) <= 35) &&
                        (exists k :: 0 <= k < |opts| && Width(opts[k]) > 18)
    ensures n == 4 <==> forall k :: 0 <= k < |opts| ==> Width(opts[k]) <= 18
  {
    var m := MaxWidth(opts);
    if m > 35 then 1 else if m > 18 then 2 else 4
  }

  function OptionText(o: Choice): string { o.marker + " " + o.text }

  function OptionRun(o: Choice): Run { Run(OptionText(o), false, NoColor, false) }

  const TabRun: Run := Run("\t", false, NoColor, false)

  function OptionParagraph(tabs: seq<nat>, runs: seq<Run>): Paragraph {
    Paragraph(Justified, 0, 0, tabs, runs)
  }

  /** One paragraph per option. */
  function OneColumn(opts: seq<Choice>): seq<Paragraph> {
    if opts == [] then []
    else OneColumn(opts[..|opts| - 1]) + [OptionParagraph([], [OptionRun(opts[|opts| - 1])])]
  }

  /** One paragraph per pair, a tab between the two, a stop at 4500. */
  function TwoColumns(opts: seq<Choice>): seq<Paragraph> {
    if opts == [] then []
    else if |opts| == 1 then [OptionParagraph([4500], [OptionRun(opts[0])])]
    else [OptionParagraph([4500], [OptionRun(opts[0]), TabRun, OptionRun(opts[1])])] + TwoColumns(opts[2..])
  }

  /** The runs of the single four-column paragraph: options separated by tabs. */
  function FourColumnRuns(opts: seq<Choice>): seq<Run> {
    if opts == [] then []
    else if |opts| == 1 then [OptionRun(opts[0])]
    else FourColumnRuns(opts[..|opts| - 1]) + [TabRun, OptionRun(opts[|opts| - 1])]
  }

  function OptionParagraphs(opts: seq<Choice>): seq<Paragraph> {
    var n := Columns(opts);
    if n == 1 then OneColumn(opts)
    else if n == 2 then TwoColumns(opts)
    else [OptionParagraph([2200, 4400, 6600], FourColumnRuns(opts))]
  }

  function Rest<T>(s: seq<T>, i: nat): seq<T> {
    if i <= |s| then s[i..] else []
  }

  /** The one-column branch: `options.forEach`. */
  method LayoutOneColumn(opts: seq<Choice>) returns (paras: seq<Paragraph>)
    ensures paras == OneColumn(opts)
  {
    paras := [];
    var i := 0;
    while i < |opts|
      invariant 0 <= i <= |opts|
      invariant paras == OneColumn(opts[..i])
    {
      assert opts[..i + 1][..i] == opts[..i];
      paras := paras + [OptionParagraph([], [OptionRun(opts[i])])];
      i := i + 1;
    }
    assert opts[..i] == opts;
  }

  /** The two-column branch: `for (let i = 0; i < options.length; i += 2)`. */
  method LayoutTwoColumns(opts: seq<Choice>) returns (paras: seq<Paragraph>)
    ensures paras == TwoColumns(opts)
  {
    paras := [];
    var i := 0;
    assert Rest(opts, 0) == opts;
    while i < |opts|
      invariant i <= |opts| + 1
      invariant paras + TwoColumns(Rest(opts, i)) == TwoColumns(opts)
      decreases |opts| - i
    {
      var p := PairParagraph(opts, i);
      TwoColumnsStep(opts, i);
      AppendAssoc(paras, [p], TwoColumns(Rest(opts, i + 2)));
      paras := paras + [p];
      i := i + 2;
    }
    assert Rest(opts, i) == [];
    assert paras + TwoColumns([]) == paras;
  }

  /** The paragraph for the pair starting at option `i`. */
  function PairParagraph(opts: seq<Choice>, i: nat): Paragraph
    requires i < |opts|
  {
    if i + 1 < |opts| then OptionParagraph([4500], [OptionRun(opts[i]), TabRun, OptionRun(opts[i + 1])])
    else OptionParagraph([4500], [OptionRun(opts[i])])
  }

  lemma TwoColumnsStep(opts: seq<Choice>, i: nat)
    requires i < |opts|
    ensures TwoColumns(Rest(opts, i)) == [PairParagraph(opts, i)] + TwoColumns(Rest(opts, i + 2))
  {
    var tail := Rest(opts, i);
    if i + 1 < |opts| {
      assert tail[2..] == Rest(opts, i + 2);
    } else {
      assert Rest(opts, i + 2) == [];
    }
  }

  /** The four-column branch: `options.forEach((opt, idx) => ...)`. */
  method LayoutFourColumns(opts: seq<Choice>) returns (runs: seq<Run>)
    ensures runs == FourColumnRuns(opts)
  {
    runs := [];
    var i := 0;
    while i < |opts|
      invariant 0 <= i <= |opts|
      invariant runs == FourColumnRuns(opts[..i])
    {
      assert opts[..i + 1][..i] == opts[..i];
      if i > 0 {
        runs := runs + [TabRun];
      }
      runs := runs + [OptionRun(opts[i])];
      i := i + 1;
    }
    assert opts[..i] == opts;
  }

  /** The three layout branches. */
  method LayoutOptions(opts: seq<Choice>) returns (paras: seq<Paragraph>)
    ensures paras == OptionParagraphs(opts)
  {
    var n := Columns(opts);
    if n == 1 {
      paras := LayoutOneColumn(opts);
    } else if n == 2 {
      paras := LayoutTwoColumns(opts);
    } else {
      var runs := LayoutFourColumns(opts);
      paras := [OptionParagraph([2200, 4400, 6600], runs)];
    }
  }

  // ---------------------------------------------------------------------------
  // What the layouts show: every option once, in order
  // ---------------------------------------------------------------------------

  /** The texts of the runs other than the separating tabs. */
  function RunTexts(runs: seq<Run>): seq<string> {
    if runs == [] then []
    else (if runs[0] == TabRun then [] else [runs[0].text]) + RunTexts(runs[1..])
  }

  function Shown(paras: seq<Paragraph>): seq<string> {
    if paras == [] then [] else RunTexts(paras[0].runs) + Shown(paras[1..])
  }

  function OptionTexts(opts: seq<Choice>): seq<string> {
    seq(|opts|, k requires 0 <= k < |opts| => OptionText(opts[k]))
  }

  lemma OptionRunNotTab(o: Choice)
    ensures OptionRun(o) != TabRun
  {
    var s := OptionText(o);
    assert s[|o.marker|] == ' ';
    assert |s| != 1 || s[0] == ' ';
  }

  lemma TabThenOption(o: Choice)
    ensures RunTexts([TabRun, OptionRun(o)]) == [OptionText(o)]
  {
    assert [TabRun, OptionRun(o)][1..] == [OptionRun(o)];
    OneRunText(o);
  }

  lemma PairRunTexts(a: Choice, b: Choice)
    ensures RunTexts([OptionRun(a), TabRun, OptionRun(b)]) == [OptionText(a), OptionText(b)]
  {
    OptionRunNotTab(a);
    assert [OptionRun(a), TabRun, OptionRun(b)][1..] == [TabRun, OptionRun(b)];
    TabThenOption(b);
  }

  lemma {:induction false} RunTextsAppend(a: seq<Run>, b: seq<Run>)
    ensures RunTexts(a + b) == RunTexts(a) + RunTexts(b)
  {
    if a != [] {
      RunTextsAppend(a[1..], b);
      assert (a + b)[1..] == a[1..] + b;
    } else {
      assert a + b == b;
    }
  }

  lemma {:induction false} ShownAppend(a: seq<Paragraph>, b: seq<Paragraph>)
    ensures Shown(a + b) == Shown(a) + Shown(b)
  {
    if a != [] {
      ShownAppend(a[1..], b);
      assert (a + b)[1..] == a[1..] + b;
    } else {
      assert a + b == b;
    }
  }

  lemma OptionTextsLast(opts: seq<Choice>)
    requires opts != []
    ensures OptionTexts(opts) == OptionTexts(opts[..|opts| - 1]) + [OptionText(opts[|opts| - 1])]
  {
  }

  lemma OneRunText(o: Choice)
    ensures RunTexts([OptionRun(o)]) == [OptionText(o)]
  {
    OptionRunNotTab(o);
    assert [OptionRun(o)][1..] == [];
  }

  lemma {:induction false} OneColumnShows(opts: seq<Choice>)
    ensures Shown(OneColumn(opts)) == OptionTexts(opts)
    decreases |opts|
  {
    if opts != [] {
      var init := opts[..|opts| - 1];
      var o := opts[|opts| - 1];
      OneColumnShows(init);
      ShownAppend(OneColumn(init), [OptionParagraph([], [OptionRun(o)])]);
      OneRunText(o);
      assert Shown([OptionParagraph([], [OptionRun(o)])]) == RunTexts([OptionRun(o)]) + Shown([]);
      OptionTextsLast(opts);
    }
  }

  lemma {:induction false} TwoColumnsShow(opts: seq<Choice>)
    ensures Shown(TwoColumns(opts)) == OptionTexts(opts)
    decreases |opts|
  {
    if |opts| == 1 {
      OneRunText(opts[0]);
      assert Shown(TwoColumns(opts)) == RunTexts([OptionRun(opts[0])]) + Shown([]);
    } else if |opts| >= 2 {
      TwoColumnsShow(opts[2..]);
      var p := OptionParagraph([4500], [OptionRun(opts[0]), TabRun, OptionRun(opts[1])]);
      PairRunTexts(opts[0], opts[1]);
      assert TwoColumns(opts) == [p] + TwoColumns(opts[2..]);
      assert Shown([p] + TwoColumns(opts[2..])) == RunTexts(p.runs) + Shown(TwoColumns(opts[2..])) by {
        assert ([p] + TwoColumns(opts[2..]))[1..] == TwoColumns(opts[2..]);
      }
      assert OptionTexts(opts) == [OptionText(opts[0]), OptionText(opts[1])] + OptionTexts(opts[2..]);
    }
  }

  lemma {:induction false} FourColumnsShow(opts: seq<Choice>)
    ensures RunTexts(FourColumnRuns(opts)) == OptionTexts(opts)
    decreases |opts|
  {
    if |opts| == 1 {
      OneRunText(opts[0]);
    } else if |opts| >= 2 {
      var init := opts[..|opts| - 1];
      var o := opts[|opts| - 1];
      FourColumnsShow(init);
      RunTextsAppend(FourColumnRuns(init), [TabRun, OptionRun(o)]);
      TabThenOption(o);
      OptionTextsLast(opts);
    }
  }

  /** Whatever the column count, the options show up once each and in order. */
  lemma LayoutShowsEveryOption(opts: seq<Choice>)
    ensures Shown(OptionParagraphs(opts)) == OptionTexts(opts)
  {
    var n := Columns(opts);
    if n == 1 {
      OneColumnShows(opts);
    } else if n == 2 {
      TwoColumnsShow(opts);
    } else {
      FourColumnsShow(opts);
    }
  }

  lemma {:induction false} OneColumnCount(opts: seq<Choice>)
    ensures |OneColumn(opts)| == |opts|
    decreases |opts|
  {
    if opts != [] { OneColumnCount(opts[..|opts| - 1]); }
  }

  lemma {:induction false} TwoColumnsCount(opts: seq<Choice>)
    ensures |TwoColumns(opts)| == (|opts| + 1) / 2
    decreases |opts|
  {
    if |opts| >= 2 { TwoColumnsCount(opts[2..]); }
  }

  /** One paragraph per option, per pair, or a single one. */
  lemma LayoutParagraphCount(opts: seq<Choice>)
    ensures Columns(opts) == 1 ==> |OptionParagraphs(opts)| == |opts|
    ensures Columns(opts) == 2 ==> |OptionParagraphs(opts)| == (|opts| + 1) / 2
    ensures Columns(opts) == 4 ==> |OptionParagraphs(opts)| == 1
  {
    OneColumnCount(opts);
    TwoColumnsCount(opts);
  }

  // ---------------------------------------------------------------------------
  // Lines
  // ---------------------------------------------------------------------------

  /** `/^Answer Key/i || /^Answers/i` */
  predicate IsKeyHeader(line: string) {
    HasAtCI(line, 0, "answer key") || HasAtCI(line, 0, "answers")
  }

  /** A line opening with a question, CEFR or dialogue label. */
  predicate IsLabelled(line: string) {
    QuestionLabelEnd(line).Some? || CefrLabelEnd(line).Some? || DialogueLabelEnd(line).Some?
  }

  /** The branch a trimmed line takes. */
  datatype LineKind = Blank | Labelled(dialogue: bool) | OptionLine | KeyHeaderLine | PlainLine

  /** The tests in their order: blank, labelled, options, key header, anything else. */
  function KindOf(line: string): (k: LineKind)
    ensures k == Blank <==> line == []
    ensures k.Labelled? <==> line != [] && IsLabelled(line)
    ensures k.Labelled? ==> (k.dialogue <==> DialogueLabelEnd(line).Some?)
    ensures k == OptionLine <==> line != [] && !IsLabelled(line) && HasOptionMarker(line)
  {
    if line == [] then Blank
    else if IsLabelled(line) then Labelled(DialogueLabelEnd(line).Some?)
    else if HasOptionMarker(line) then OptionLine
    else if IsKeyHeader(line) then KeyHeaderLine
    else PlainLine
  }

  /** The paragraphs of one raw line. */
  function LineParagraphs(raw: string): seq<Paragraph> {
    var line := Trim(raw);
    match KindOf(line)
    case Blank => []
    case Labelled(dialogue) =>
      [Paragraph(Justified, if dialogue then 40 else 120, if dialogue then 40 else 60, [], RunsOf(line))]
    case OptionLine => OptionParagraphs(OptionsOf(line))
    case KeyHeaderLine => [Paragraph(Left, 240, 60, [], [Run(line, true, NoColor, false)])]
    case PlainLine => [Paragraph(Justified, 0, 0, [], [Run(line, false, NoColor, false)])]
  }

  function ContentParagraphs(text: string): seq<Paragraph> {
    ConcatMap(LineParagraphs, Split(text, '\n'))
  }

  /** `processContent`: split the text into lines and lay each one out. */
  method ProcessContent(text: string) returns (paras: seq<Paragraph>)
    ensures paras == ContentParagraphs(text)
  {
    var lines := Split(text, '\n');
    paras := LayoutLines(lines);
  }

  /** The `lines.forEach` loop, pushing each line's paragraphs. */
  method LayoutLines(lines: seq<string>) returns (paras: seq<Paragraph>)
    ensures paras == ConcatMap(LineParagraphs, lines)
  {
    paras := [];
    var i := 0;
    while i < |lines|
      invariant 0 <= i <= |lines|
      invariant paras == ConcatMap(LineParagraphs, lines[..i])
    {
      ConcatMapSnoc(LineParagraphs, lines, i);
      paras := paras + LineParagraphs(lines[i]);
      i := i + 1;
    }
    assert lines[..i] == lines;
  }

  /** Blank lines vanish; every other line gives at least one paragraph. */
  lemma LineKept(raw: string)
    ensures Trim(raw) == [] <==> LineParagraphs(raw) == []
  {
    var line := Trim(raw);
    if line != [] && !IsLabelled(line) && HasOptionMarker(line) {
      var opts := OptionsOf(line);
      LayoutParagraphCount(opts);
    }
  }

  /**
   * A line with a dialogue label is laid out as a labelled line whether or
   * not it also holds option markers: the label test comes first.
   */
  lemma DialogueLineWins(line: string)
    requires DialogueLabelEnd(line).Some?
    ensures KindOf(line) == Labelled(true)
  {
  }

  /**
   * An option line beginning with `A.` is taken for a dialogue line: the
   * dialogue test ignores case and comes before the option test.
   */
  lemma OptionLineTakenAsDialogue(raw: string)
    requires raw == "A. cat    B. dog"
    ensures HasOptionMarker(raw) && KindOf(raw) == Labelled(true)
  {
    assert OptionMarkerAt(raw, 0);
    assert DialogueLabelEnd(raw).Some?;
    DialogueLineWins(raw);
  }

  /**
   * Pairing is positional, so text before the first marker shifts every
   * option: `x A. y` gives the option `x` / `A.` and loses `y`.
   */
  lemma LeadingTextShiftsPairs(line: string)
    requires line == "x A. y"
    ensures OptionsOf(line) == [Choice("x", "A.")]
  {
    ShiftSplit(line);
    var parts := ["x", "A. ", "y"];
    assert NonEmpty(parts) == parts;
    ShiftPairs(parts);
  }

  lemma ShiftMatches(s: string)
    requires s == "x A. y"
    ensures OptMatchAt(s, 0).None? && OptMatchAt(s, 5).None?
    ensures OptMatchAt(s, 1) == Some(MarkerMatch(2, 5))
  {
    assert SkipSpaces(s, 0) == 0 && SkipStars(s, 0) == 0;
    assert SkipSpaces(s, 2) == 2;
    assert SkipSpaces(s, 1) == 2 && SkipStars(s, 2) == 2;
    assert SkipSpaces(s, 5) == 5;
    assert SkipSpaces(s, 4) == 5;
    assert SkipStars(s, 5) == 5;
  }

  lemma ShiftSplit(s: string)
    requires s == "x A. y"
    ensures OptSplitFrom(s, 0, 0) == ["x", "A. ", "y"]
  {
    ShiftMatches(s);
    assert OptSplitFrom(s, 5, 6) == [s[5..]];
    assert OptSplitFrom(s, 5, 5) == ["y"];
    assert OptSplitFrom(s, 0, 1) == [s[0..1], s[2..5]] + OptSplitFrom(s, 5, 5);
    assert s[0..1] == "x" && s[2..5] == "A. ";
  }

  lemma ShiftPairs(parts: seq<string>)
    requires parts == ["x", "A. ", "y"]
    ensures TrimChoices(PairFrom(parts, 0)) == [Choice("x", "A.")]
  {
    ShiftRawPairs(parts);
    ShiftTrim(Choice("x", "A. "));
  }

  lemma ShiftRawPairs(parts: seq<string>)
    requires parts == ["x", "A. ", "y"]
    ensures PairFrom(parts, 0) == [Choice("x", "A. ")]
  {
    assert !HasLetterMark(parts[2]);
    assert PairAt(parts, 2) == [];
    assert PairFrom(parts, 2) == [];
    assert PairAt(parts, 0) == [Choice("x", "A. ")];
  }

  lemma ShiftTrim(c: Choice)
    requires c == Choice("x", "A. ")
    ensures TrimChoices([c]) == [Choice("x", "A.")]
  {
    ShiftTrimOne(c);
    MapSeqOne(TrimChoice, c);
  }

  lemma ShiftTrimOne(c: Choice)
    requires c == Choice("x", "A. ")
    ensures TrimChoice(c) == Choice("x", "A.")
  {
    TrimOfTrimmed(c.marker);
    assert c.text == "A." + [' '];
    TrimSpaceAfter("A.", ' ');
  }

  lemma MapSeqOne<A, B>(f: A -> B, x: A)
    ensures MapSeq(f, [x]) == [f(x)]
  {
    assert [x][1..] == [];
  }

  // ---------------------------------------------------------------------------
  // The document
  // ---------------------------------------------------------------------------

  /** `ENGLISH TEST: <TOPIC>`, centred, bold and blue. */
  function TitleParagraph(topic: string): Paragraph {
    Paragraph(Center, 0, 400, [], [Run("ENGLISH TEST: " + ToUpper(topic), true, Blue, false)])
  }

  /** The kinds exported, in this order; the dictionary, translation and CEFR tabs never are. */
  const ExportOrder: seq<TestType> := [Vocabulary, WordList, Grammar, Communication, Reading, Rewriting, Arrangement]

  predicate Exported(test: GeneratedTest, t: TestType) {
    t in test && test[t].isGenerated
  }

  function SectionParagraphs(test: GeneratedTest, t: TestType): seq<Paragraph>
    requires t in test
  {
    [Paragraph(Left, 240, 120, [], [Run("--- " + ToUpper(TypeName(t)) + " SECTION ---", true, Blue, false)])] +
    ContentParagraphs(FormatTestContent(test[t].content))
  }

  /** The generated sections among `order`, kept in that order. */
  function ExportedKinds(test: GeneratedTest, order: seq<TestType>): (ks: seq<TestType>)
    ensures forall t :: t in ks <==> t in order && Exported(test, t)
  {
    if order == [] then []
    else (if Exported(test, order[0]) then [order[0]] else []) + ExportedKinds(test, order[1..])
  }

  function SectionsOf(test: GeneratedTest, kinds: seq<TestType>): seq<Paragraph>
    requires forall t :: t in kinds ==> t in test
  {
    if kinds == [] then [] else SectionParagraphs(test, kinds[0]) + SectionsOf(test, kinds[1..])
  }

  /** The section of kind `t` if it was generated, and nothing otherwise. */
  function SectionIfExported(test: GeneratedTest, t: TestType): seq<Paragraph> {
    if Exported(test, t) then SectionParagraphs(test, t) else []
  }

  /** The body of the export loop, as a function of the kind. */
  function SectionStep(test: GeneratedTest): TestType -> seq<Paragraph> {
    t => SectionIfExported(test, t)
  }

  /** The sections along `order`, skipping those not generated. */
  function SectionsAlong(test: GeneratedTest, order: seq<TestType>): seq<Paragraph> {
    ConcatMap(SectionStep(test), order)
  }

  function DocumentParagraphs(test: GeneratedTest, topic: string): seq<Paragraph> {
    [TitleParagraph(topic)] + SectionsAlong(test, ExportOrder)
  }

  /** `topic.replace(/\s+/g, '_')` */
  function Underscored(s: string): (r: string)
    ensures forall k :: 0 <= k < |r| ==> !IsSpace(r[k])
    ensures |r| <= |s|
    decreases |s|
  {
    if s == [] then []
    else if IsSpace(s[0]) then
      var j := SkipSpaces(s, 0);
      "_" + Underscored(s[j..])
    else [s[0]] + Underscored(s[1..])
  }

  /** A topic without whitespace is kept as it is. */
  lemma {:induction false} UnderscoredKeeps(s: string)
    requires forall k :: 0 <= k < |s| ==> !IsSpace(s[k])
    ensures Underscored(s) == s
    decreases |s|
  {
    if s != [] {
      UnderscoredKeeps(s[1..]);
    }
  }

  /** Text, then a whitespace run, then text: the run becomes a single `_`. */
  lemma {:induction false} UnderscoredRun(a: string, w: string, b: string)
    requires forall k :: 0 <= k < |a| ==> !IsSpace(a[k])
    requires w != [] && forall k :: 0 <= k < |w| ==> IsSpace(w[k])
    requires b == [] || !IsSpace(b[0])
    ensures Underscored(a + w + b) == a + "_" + Underscored(b)
    decreases |a|
  {
    var s := a + w + b;
    if a == [] {
      assert s == w + b;
      UnderscoredLeadingRun(w, b);
    } else {
      assert s[0] == a[0];
      assert s[1..] == a[1..] + w + b;
      UnderscoredRun(a[1..], w, b);
    }
  }

  /** A leading whitespace run becomes a single `_`. */
  lemma UnderscoredLeadingRun(w: string, b: string)
    requires w != [] && forall k :: 0 <= k < |w| ==> IsSpace(w[k])
    requires b == [] || !IsSpace(b[0])
    ensures Underscored(w + b) == "_" + Underscored(b)
  {
    var s := w + b;
    assert forall k :: 0 <= k < |w| ==> s[k] == w[k];
    assert |w| == |s| || s[|w|] == b[0];
    assert SkipSpaces(s, 0) == |w|;
    assert s[|w|..] == b;
  }

  function FileName(topic: string): (f: string)
    ensures StartsWith(f, "Test_")
    ensures |f| >= 10 && f[|f| - 5..] == ".docx"
    ensures forall k :: 0 <= k < |f| ==> !IsSpace(f[k])
  {
    "Test_" + Underscored(topic) + ".docx"
  }

  /** `exportToWord`: the title, then each generated section in the export order. */
  method ExportToWord(test: GeneratedTest, topic: string) returns (paras: seq<Paragraph>, fileName: string)
    ensures paras == DocumentParagraphs(test, topic)
    ensures fileName == FileName(topic)
  {
    var sections := PushAll(SectionStep(test), ExportOrder);
    paras := [TitleParagraph(topic)] + sections;
    fileName := FileName(topic);
  }

  /** The sections are exactly those of the exported kinds, in order. */
  lemma {:induction false} SectionsOfExportedKinds(test: GeneratedTest, order: seq<TestType>)
    ensures SectionsAlong(test, order) == SectionsOf(test, ExportedKinds(test, order))
  {
    if order != [] {
      SectionsOfExportedKinds(test, order[1..]);
      SectionsStep(test, order);
      assert SectionsAlong(test, order) == SectionStep(test)(order[0]) + SectionsAlong(test, order[1..]);
    }
  }

  lemma SectionsStep(test: GeneratedTest, order: seq<TestType>)
    requires order != []
    ensures SectionsOf(test, ExportedKinds(test, order)) ==
      SectionIfExported(test, order[0]) + SectionsOf(test, ExportedKinds(test, order[1..]))
  {
    var rest := ExportedKinds(test, order[1..]);
    if Exported(test, order[0]) {
      assert ExportedKinds(test, order) == [order[0]] + rest;
      assert ([order[0]] + rest)[1..] == rest;
    } else {
      assert ExportedKinds(test, order) == rest;
    }
  }

  /** The dictionary, translation and CEFR tabs are never part of the document. */
  lemma ToolsNotExported(test: GeneratedTest)
    ensures Dictionary !in ExportedKinds(test, ExportOrder)
    ensures Translate !in ExportedKinds(test, ExportOrder)
    ensures CefrCheck !in ExportedKinds(test, ExportOrder)
  {
  }

  /** `x` occurs in `order` strictly before an occurrence of `y`. */
  predicate Before(order: seq<TestType>, x: TestType, y: TestType) {
    exists a, b :: 0 <= a < b < |order| && order[a] == x && order[b] == y
  }

  lemma BeforeTail(order: seq<TestType>, x: TestType, y: TestType)
    requires order != [] && Before(order[1..], x, y)
    ensures Before(order, x, y)
  {
    var a, b :| 0 <= a < b < |order[1..]| && order[1..][a] == x && order[1..][b] == y;
    assert order[a + 1] == x && order[b + 1] == y;
  }

  lemma BeforeHead(order: seq<TestType>, y: TestType)
    requires order != [] && y in order[1..]
    ensures Before(order, order[0], y)
  {
    var b :| 0 <= b < |order[1..]| && order[1..][b] == y;
    assert order[b + 1] == y;
  }

  /** The sections exported keep the export order. */
  lemma {:induction false} ExportedInOrder(test: GeneratedTest, order: seq<TestType>, i: nat, j: nat)
    requires i < j < |ExportedKinds(test, order)|
    ensures Before(order, ExportedKinds(test, order)[i], ExportedKinds(test, order)[j])
    decreases |order|
  {
    var ks := ExportedKinds(test, order);
    var rest := ExportedKinds(test, order[1..]);
    if Exported(test, order[0]) {
      assert ks == [order[0]] + rest;
      if i == 0 {
        assert ks[j] == rest[j - 1];
        BeforeHead(order, ks[j]);
      } else {
        ExportedInOrder(test, order[1..], i - 1, j - 1);
        assert ks[i] == rest[i - 1] && ks[j] == rest[j - 1];
        BeforeTail(order, ks[i], ks[j]);
      }
    } else {
      assert ks == rest;
      ExportedInOrder(test, order[1..], i, j);
      BeforeTail(order, ks[i], ks[j]);
    }
  }
}
