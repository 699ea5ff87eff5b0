/**
 * The line half of `formatTestContent` (services/exportService.ts): every
 * line of the body is normalised: question lines rewritten to
 * `Question n. text`, the correct option of an option line starred from the
 * answer key, explanation lines (`=>`) dropped.
 */
module Formatter {
  import opened JsText
  import opened AnswerKey

  // ---------------------------------------------------------------------------
  // ^(\*\*|)(?:Question\s+)?(\d+)(?:[:.]?)\s*(\*\*|)\s*(.*)   with the i flag
  // ---------------------------------------------------------------------------

  /** Where `(?:Question\s+)?(\d+)` tried at `p` puts its digits. */
  function NumberStart(t: string, p: nat): (r: Option<nat>)
    requires p <= |t|
    ensures r.Some? ==> p <= r.value < |t| && IsDigit(t[r.value])
  {
    var viaWord :=
      if HasAtCI(t, p, "question") && p + 8 < |t| && IsSpace(t[p + 8]) then
        var a := SkipSpaces(t, p + 8);
        if a < |t| && IsDigit(t[a]) then Some(a) else None
      else None;
    if viaWord.Some? then viaWord
    else if p < |t| && IsDigit(t[p]) then Some(p)
    else None
  }

  /** Index of the first line terminator at or after `i` (where `.*` stops). */
  function LineEnd(t: string, i: nat): (j: nat)
    requires i <= |t|
    ensures i <= j <= |t|
    ensures forall k :: i <= k < j ==> !IsLineTerminator(t[k])
    ensures j == |t| || IsLineTerminator(t[j])
    decreases |t| - i
  {
    if i == |t| || IsLineTerminator(t[i]) then i else LineEnd(t, i + 1)
  }

  /** The question number (group 2) and the text after it (group 4). */
  datatype QuestionParts = QuestionParts(num: string, rest: string)

  function MatchQuestion(t: string): (r: Option<QuestionParts>)
    ensures r.Some? ==> |r.value.num| >= 1 && IsDigits(r.value.num)
    ensures r.Some? ==> forall k :: 0 <= k < |r.value.rest| ==> !IsLineTerminator(r.value.rest[k])
    ensures r.Some? ==> forall k :: 0 <= k < |r.value.rest| ==> r.value.rest[k] in t
  {
    // `(\*\*|)` tries the two stars first and gives them back if the rest fails
    var start := if HasAt(t, 0, "**") && NumberStart(t, 2).Some? then NumberStart(t, 2) else NumberStart(t, 0);
    match start
    case None => None
    case Some(a) =>
      var d := SkipDigits(t, a);
      var x := if d < |t| && IsSep(t[d]) then d + 1 else d;
      var y := SkipSpaces(t, x);
      var z := if HasAt(t, y, "**") then y + 2 else y;
      var w := SkipSpaces(t, z);
      var e := LineEnd(t, w);
      DigitsSlice(t, a, d);
      NoTerminatorSlice(t, w, e);
      SliceFrom(t, w, e);
      Some(QuestionParts(t[a..d], t[w..e]))
  }

  /** A slice holds only characters of the text. */
  lemma SliceFrom(t: string, i: nat, j: nat)
    requires i <= j <= |t|
    ensures forall k :: 0 <= k < |t[i..j]| ==> t[i..j][k] in t
  {
    forall k | 0 <= k < |t[i..j]| ensures t[i..j][k] in t {
      assert t[i..j][k] == t[i + k];
    }
  }

  /** The normalised question line. */
  function QuestionLine(p: QuestionParts): string {
    "Question " + p.num + ". " + RemoveBold(Trim(p.rest))
  }

  // ---------------------------------------------------------------------------
  // Option lines: `[A-D][.)]\s` anywhere
  // ---------------------------------------------------------------------------

  predicate OptionMarkerAt(t: string, i: int) {
    0 <= i && i + 2 < |t| && IsAtoD(t[i]) && IsMarkEnd(t[i + 1]) && IsSpace(t[i + 2])
  }

  /** `/[A-D][.)]\s/` (the second test of the source, with `[*]*` before it, finds the same lines). */
  predicate HasOptionMarker(t: string) {
    exists i :: 0 <= i < |t| && OptionMarkerAt(t, i)
  }

  // ---------------------------------------------------------------------------
  // Starring the correct option
  // ---------------------------------------------------------------------------

  /** `\*X[.)]` with the i flag: the option is already marked. */
  predicate StarMarkAt(t: string, i: int, x: char) {
    0 <= i && i + 2 < |t| && t[i] == '*' && CharMatchesCI(t[i + 1], x) && IsMarkEnd(t[i + 2])
  }

  predicate HasStarMark(t: string, x: char) {
    exists i :: 0 <= i < |t| && StarMarkAt(t, i, x)
  }

  /**
   * `t.replace(/(^|\s|\t)(X[.)])/g, '$1*$2')`: a `*` before every `X.` or `X)`
   * at the start of the text or after whitespace. `atStart` says whether the
   * previous character allows a marker (the start or whitespace).
   */
  function InsertStars(t: string, x: char, atStart: bool): (u: string)
    ensures |u| >= |t|
    ensures t != [] && !atStart ==> u[0] == t[0]
  {
    if t == [] then []
    else if atStart && t[0] == x && |t| >= 2 && IsMarkEnd(t[1]) then ['*', t[0]] + InsertStars(t[1..], x, false)
    else [t[0]] + InsertStars(t[1..], x, IsSpace(t[0]))
  }

  /** Removes the stars `InsertStars` puts in: the partner of the marking. */
  function DropStars(u: string, x: char, atStart: bool): string {
    if u == [] then []
    else if atStart && |u| >= 3 && u[0] == '*' && u[1] == x && IsMarkEnd(u[2]) then [x] + DropStars(u[2..], x, false)
    else [u[0]] + DropStars(u[1..], x, IsSpace(u[0]))
  }

  /**
   * Whether the global replace puts a star before position `i`: the correct
   * `X.` or `X)` sits there, at the start of the text (if `atStart`) or after
   * whitespace.
   */
  predicate StarBefore(t: string, x: char, atStart: bool, i: int) {
    0 <= i && i + 1 < |t| && (if i == 0 then atStart else IsSpace(t[i - 1])) && t[i] == x && IsMarkEnd(t[i + 1])
  }

  /** How many stars go before the positions below `n`. */
  function StarsBelow(t: string, x: char, atStart: bool, n: nat): nat
    requires n <= |t|
  {
    if n == 0 then 0
    else StarsBelow(t, x, atStart, n - 1) + (if StarBefore(t, x, atStart, n - 1) then 1 else 0)
  }

  /** The single letter A-D the key gives for the current question, if any. */
  function CorrectLetter(answers: Answers, current: Option<string>): (r: Option<char>)
    ensures r.Some? ==> IsAtoD(r.value)
    ensures r.Some? <==> (current.Some? && Lookup(answers, current.value).Some? &&
      |Lookup(answers, current.value).value| == 1 && IsAtoD(ToUpperChar(Lookup(answers, current.value).value[0])))
    ensures r.Some? ==> r.value == ToUpperChar(Lookup(answers, current.value).value[0])
  {
    match current
    case None => None
    case Some(n) =>
      match Lookup(answers, n)
      case None => None
      case Some(v) =>
        if v == [] then None
        else
          var u := ToUpper(v);
          if |u| == 1 && IsAtoD(u[0]) then Some(u[0]) else None
  }

  /** The option line with its correct option starred, unless one is starred already. */
  function MarkCorrect(t: string, letter: Option<char>): string {
    match letter
    case None => t
    case Some(x) => if HasStarMark(t, x) then t else InsertStars(t, x, true)
  }

  // ---------------------------------------------------------------------------
  // One line, and the whole body
  // ---------------------------------------------------------------------------

  /** An explanation line: dropped unless it is a question or option line. */
  predicate IsExplanation(t: string) { StartsWith(t, "=>") }

  /**
   * One line of the `lines.map(...)` callback: what it yields (`None` for a
   * dropped line) and the current question number afterwards.
   */
  function ProcessLine(line: string, current: Option<string>, answers: Answers): (r: (Option<string>, Option<string>))
    ensures r.0.None? ==> r.1 == current
  {
    var t := Trim(line);
    if t == [] then (Some(line), current)
    else
      var q := MatchQuestion(t);
      if q.Some? && !HasOptionMarker(t) then (Some(QuestionLine(q.value)), Some(q.value.num))
      else if HasOptionMarker(t) then (Some(MarkCorrect(t, CorrectLetter(answers, current))), current)
      else if IsExplanation(t) then (None, current)
      else (Some(t), current)
  }

  /** The lines the body yields, front to back, threading the question number. */
  function ProcessLines(lines: seq<string>, current: Option<string>, answers: Answers): seq<string>
    decreases |lines|
  {
    if lines == [] then []
    else
      var (o, next) := ProcessLine(lines[0], current, answers);
      (if o.Some? then [o.value] else []) + ProcessLines(lines[1..], next, answers)
  }

  /** `formatTestContent` as a value. */
  function FormatTestContent(content: string): string {
    if content == [] then []
    else
      var sec := SplitAtHeader(content);
      var answers := AnswersOf(sec.rawKey);
      Trim(Join(ProcessLines(Split(sec.body, '\n'), None, answers), "\n")) + KeyBlock(answers, sec.rawKey)
  }

  /** The first line's contribution, then the rest. */
  lemma ProcessLinesUnroll(lines: seq<string>, current: Option<string>, answers: Answers)
    requires lines != []
    ensures var r := ProcessLine(lines[0], current, answers);
      ProcessLines(lines, current, answers) ==
        (if r.0.Some? then [r.0.value] else []) + ProcessLines(lines[1..], r.1, answers)
  {
  }

  /** Line `i` contributes its output, then the lines after it follow. */
  lemma ProcessStep(lines: seq<string>, i: nat, current: Option<string>, answers: Answers)
    requires i < |lines|
    ensures var r := ProcessLine(lines[i], current, answers);
      ProcessLines(lines[i..], current, answers) ==
        (if r.0.Some? then [r.0.value] else []) + ProcessLines(lines[i + 1..], r.1, answers)
  {
    ProcessLinesUnroll(lines[i..], current, answers);
    assert lines[i..][0] == lines[i];
    assert lines[i..][1..] == lines[i + 1..];
  }

  /** The `map` over the body lines with its mutable `currentQuestionNum`. */
  method FormatLines(lines: seq<string>, answers: Answers) returns (out: seq<string>)
    ensures out == ProcessLines(lines, None, answers)
  {
    out := [];
    var current: Option<string> := None;
    var i := 0;
    assert lines[0..] == lines;
    while i < |lines|
      invariant 0 <= i <= |lines|
      invariant out + ProcessLines(lines[i..], current, answers) == ProcessLines(lines, None, answers)
    {
      var r := ProcessLine(lines[i], current, answers);
      ProcessStep(lines, i, current, answers);
      var emitted := if r.0.Some? then [r.0.value] else [];
      var rest := ProcessLines(lines[i + 1..], r.1, answers);
      AppendAssoc(out, emitted, rest);
      out := out + emitted;
      current := r.1;
      i := i + 1;
    }
    assert lines[i..] == [];
  }

  method Format(content: string) returns (result: string)
    ensures result == FormatTestContent(content)
  {
    if content == [] {
      return [];
    }
    var sec := SplitAtHeader(content);
    var answers := ExtractAnswers(sec.rawKey);
    var lines := Split(sec.body, '\n');
    var processed := FormatLines(lines, answers);
    result := Trim(Join(processed, "\n")) + KeyBlock(answers, sec.rawKey);
  }

  // ---------------------------------------------------------------------------
  // Properties
  // ---------------------------------------------------------------------------

  lemma EmptyContent()
    ensures FormatTestContent("") == ""
  {
  }

  /** With an empty answers record the question number no longer matters. */
  lemma {:induction false} NoKeyIgnoresCurrent(lines: seq<string>, current: Option<string>)
    ensures ProcessLines(lines, current, []) == ProcessLines(lines, None, [])
  {
    if lines != [] {
      var r := ProcessLine(lines[0], current, []);
      var r0 := ProcessLine(lines[0], None, []);
      NoKeyLineIgnoresCurrent(lines[0], current);
      NoKeyIgnoresCurrent(lines[1..], r.1);
      NoKeyIgnoresCurrent(lines[1..], r0.1);
      ProcessLinesUnroll(lines, current, []);
      ProcessLinesUnroll(lines, None, []);
    }
  }

  lemma NoKeyLineIgnoresCurrent(line: string, current: Option<string>)
    ensures ProcessLine(line, current, []).0 == ProcessLine(line, None, []).0
  {
    NoKeyLine(line, current);
    NoKeyLine(line, None);
  }

  /** With an empty answers record a body free of `*` comes out free of `*`: no option is starred. */
  lemma {:induction false} NoHeaderNoStars(lines: seq<string>, current: Option<string>)
    requires forall k :: 0 <= k < |lines| ==> '*' !in lines[k]
    ensures forall k :: 0 <= k < |ProcessLines(lines, current, [])| ==> '*' !in ProcessLines(lines, current, [])[k]
  {
    if lines != [] {
      var r := ProcessLine(lines[0], current, []);
      assert forall k :: 0 <= k < |lines[1..]| ==> '*' !in lines[1..][k] by {
        forall k | 0 <= k < |lines[1..]| ensures '*' !in lines[1..][k] {
          assert lines[1..][k] == lines[k + 1];
        }
      }
      NoHeaderNoStars(lines[1..], r.1);
      NoKeyLineStarFree(lines[0], current);
      ProcessLinesUnroll(lines, current, []);
    }
  }

  /** One line with no answers gains no `*`. */
  lemma NoKeyLineStarFree(line: string, current: Option<string>)
    requires '*' !in line
    ensures var r := ProcessLine(line, current, []); r.0.Some? ==> '*' !in r.0.value
  {
    NoKeyLine(line, current);
    var t := Trim(line);
    TrimKeepsOut(line, '*');
    if t != [] && MatchQuestion(t).Some? {
      QuestionOfStarFree(t);
    }
  }

  /** A question line read from a text without `*` holds none. */
  lemma QuestionOfStarFree(t: string)
    requires '*' !in t && MatchQuestion(t).Some?
    ensures '*' !in QuestionLine(MatchQuestion(t).value)
  {
    var q := MatchQuestion(t).value;
    assert '*' !in q.rest by {
      forall k | 0 <= k < |q.rest| ensures q.rest[k] != '*' {
        assert q.rest[k] in t;
      }
    }
    QuestionLineStarFree(q);
  }

  /** The rewritten question line holds a `*` only if its text did. */
  lemma QuestionLineStarFree(p: QuestionParts)
    requires IsDigits(p.num) && '*' !in p.rest
    ensures '*' !in QuestionLine(p)
  {
    TrimKeepsOut(p.rest, '*');
    var tr := Trim(p.rest);
    assert !Contains(tr, "**") by {
      forall i | 0 <= i <= |tr| - 2 ensures !HasAt(tr, i, "**") {
        assert tr[i] != '*';
      }
    }
    RemoveBoldNoStars(tr);
    assert '*' !in p.num by {
      forall k | 0 <= k < |p.num| ensures p.num[k] != '*' {
        assert IsDigit(p.num[k]);
      }
    }
    assert QuestionLine(p) == "Question " + p.num + ". " + tr;
    assert '*' !in "Question " && '*' !in ". ";
  }

  /** One line with no answers: an option line comes out trimmed and unstarred. */
  lemma NoKeyLine(line: string, current: Option<string>)
    ensures var t := Trim(line);
            var r := ProcessLine(line, current, []);
            if t == [] then r == (Some(line), current)
            else if MatchQuestion(t).Some? && !HasOptionMarker(t) then
              r == (Some(QuestionLine(MatchQuestion(t).value)), Some(MatchQuestion(t).value.num))
            else if !HasOptionMarker(t) && IsExplanation(t) then r == (None, current)
            else r == (Some(t), current)
  {
    assert CorrectLetter([], current).None?;
  }

  /** A character absent from a text is absent from its trimmed form. */
  lemma TrimKeepsOut(s: string, c: char)
    requires c !in s
    ensures c !in Trim(s)
  {
    var u := TrimStart(s);
    assert u == s[|s| - |u|..];
    assert c !in u by {
      forall k | 0 <= k < |u| ensures u[k] != c {
        assert u[k] == s[|s| - |u| + k];
      }
    }
    var v := TrimEnd(u);
    assert v == u[..|v|];
    forall k | 0 <= k < |v| ensures v[k] != c {
      assert v[k] == u[k];
    }
  }

  /** Without a header the lines are processed with an empty answers record and no key block follows. */
  lemma NoHeaderFormat(content: string)
    requires content != [] && FindHeader(content, 0).None?
    ensures FormatTestContent(content) == Trim(Join(ProcessLines(Split(content, '\n'), None, []), "\n"))
  {
    NoHeaderNoKey(content);
  }

  /** Number of explanation lines that are neither option nor question lines. */
  function CountDropped(lines: seq<string>): nat {
    if lines == [] then 0
    else
      var t := Trim(lines[0]);
      (if t != [] && IsExplanation(t) && !HasOptionMarker(t) then 1 else 0) + CountDropped(lines[1..])
  }

  /** Every line yields exactly one output line except the dropped explanations. */
  lemma {:induction false} OnlyExplanationsDropped(lines: seq<string>, current: Option<string>, answers: Answers)
    ensures CountDropped(lines) <= |lines|
    ensures |ProcessLines(lines, current, answers)| == |lines| - CountDropped(lines)
  {
    if lines != [] {
      var r := ProcessLine(lines[0], current, answers);
      OnlyExplanationsDropped(lines[1..], r.1, answers);
      ProcessLinesUnroll(lines, current, answers);
      LineDropped(lines[0], current, answers);
    }
  }

  /** A line yields no output exactly when it is a non-blank `=>` line without option markers. */
  lemma LineDropped(line: string, current: Option<string>, answers: Answers)
    ensures var t := Trim(line);
            ProcessLine(line, current, answers).0.None? <==> t != [] && IsExplanation(t) && !HasOptionMarker(t)
  {
    var t := Trim(line);
    if t != [] && IsExplanation(t) {
      ExplanationIsNotQuestion(t);
    }
  }

  /** A line starting with `=>` can never be read as a question line. */
  lemma ExplanationIsNotQuestion(t: string)
    requires IsExplanation(t)
    ensures MatchQuestion(t).None?
  {
    assert t[0..2] == "=>";
    assert !HasAt(t, 0, "**") by { assert t[0] == '='; }
    assert !HasAtCI(t, 0, "question") by { assert !CharMatchesCI(t[0], "question"[0]); }
  }

  /** One marker is enough: a non-blank line with a marker is treated as an option line. */
  lemma OneMarkerMakesOptionLine(line: string, current: Option<string>, answers: Answers)
    requires Trim(line) != [] && HasOptionMarker(Trim(line))
    ensures ProcessLine(line, current, answers) ==
      (Some(MarkCorrect(Trim(line), CorrectLetter(answers, current))), current)
  {
  }

  /** `Question n. text` parses back into its number and its text. */
  lemma ParseQuestionLine(t: string, n: string, r: string)
    requires |n| >= 1 && IsDigits(n)
    requires r != [] && IsTrimmed(r) && !Contains(r, "**")
    requires forall k :: 0 <= k < |r| ==> !IsLineTerminator(r[k])
    requires t == "Question " + n + ". " + r
    ensures MatchQuestion(t) == Some(QuestionParts(n, r))
  {
    var d := 9 + |n|;
    assert forall k :: 0 <= k < 9 ==> t[k] == "Question "[k];
    assert t[..9] == "Question ";
    assert t[9..d] == n;
    assert t[d] == '.' && t[d + 1] == ' ';
    assert t[d + 2..] == r;
    ParseQuestionAt(t, n, r);
  }

  /** The same parse, from where the pieces sit in the line. */
  lemma ParseQuestionAt(t: string, n: string, r: string)
    requires |n| >= 1 && IsDigits(n)
    requires r != [] && IsTrimmed(r) && !Contains(r, "**")
    requires forall k :: 0 <= k < |r| ==> !IsLineTerminator(r[k])
    requires |t| == 11 + |n| + |r|
    requires t[..9] == "Question " && t[9..9 + |n|] == n
    requires t[9 + |n|] == '.' && t[10 + |n|] == ' ' && t[11 + |n|..] == r
    ensures MatchQuestion(t) == Some(QuestionParts(n, r))
  {
    var d := 9 + |n|;
    assert t[9] == n[0] by { assert t[9] == t[9..d][0]; }
    QuestionHead(t);
    QuestionDigits(t, n);
    QuestionTail(t, d, r);
    MatchQuestionAt(t, 9, d);
  }

  lemma QuestionHead(t: string)
    requires |t| >= 10 && t[..9] == "Question " && IsDigit(t[9])
    ensures !HasAt(t, 0, "**") && NumberStart(t, 0) == Some(9)
  {
    assert forall k :: 0 <= k < 9 ==> t[k] == t[..9][k];
    assert t[0] == 'Q';
    assert HasAtCI(t, 0, "question") by {
      forall k | 0 <= k < 8 ensures CharMatchesCI(t[k], "question"[k]) { }
    }
    assert SkipSpaces(t, 8) == 9 by { assert IsSpace(t[8]); assert !IsSpace(t[9]); }
  }

  lemma QuestionDigits(t: string, n: string)
    requires IsDigits(n) && 10 + |n| <= |t| && t[9..9 + |n|] == n && t[9 + |n|] == '.'
    ensures SkipDigits(t, 9) == 9 + |n|
  {
    forall k | 9 <= k < 9 + |n| ensures IsDigit(t[k]) {
      assert t[k] == t[9..9 + |n|][k - 9];
    }
  }

  lemma QuestionTail(t: string, d: nat, r: string)
    requires r != [] && IsTrimmed(r) && !Contains(r, "**")
    requires forall k :: 0 <= k < |r| ==> !IsLineTerminator(r[k])
    requires d + 2 <= |t| && t[d] == '.' && t[d + 1] == ' ' && t[d + 2..] == r
    ensures IsSep(t[d]) && SkipSpaces(t, d + 1) == d + 2 && SkipSpaces(t, d + 2) == d + 2
    ensures !HasAt(t, d + 2, "**") && LineEnd(t, d + 2) == |t|
  {
    assert t[d + 2] == r[0] && !IsSpace(r[0]);
    assert !HasAt(t, d + 2, "**") by {
      if |r| >= 2 {
        assert t[d + 2..d + 4] == r[0..2];
        assert !HasAt(r, 0, "**");
      }
    }
    forall k | d + 2 <= k < |t| ensures !IsLineTerminator(t[k]) {
      assert t[k] == r[k - d - 2];
    }
    LineEndAll(t, d + 2);
  }

  lemma MatchQuestionAt(t: string, a: nat, d: nat)
    requires a <= |t| && !HasAt(t, 0, "**") && NumberStart(t, 0) == Some(a)
    requires d == SkipDigits(t, a) && d < |t| && IsSep(t[d])
    requires SkipSpaces(t, d + 1) == d + 2 && SkipSpaces(t, d + 2) == d + 2
    requires !HasAt(t, d + 2, "**") && LineEnd(t, d + 2) == |t|
    ensures MatchQuestion(t) == Some(QuestionParts(t[a..d], t[d + 2..]))
  {
    assert LineEnd(t, SkipSpaces(t, d + 2)) == |t|;
    assert t[d + 2..|t|] == t[d + 2..];
  }

  /** A `Question n. text` line with plain, trimmed text is left as it is. */
  lemma QuestionLineFixedPoint(n: string, r: string, current: Option<string>, answers: Answers)
    requires |n| >= 1 && IsDigits(n)
    requires r != [] && IsTrimmed(r) && !Contains(r, "**")
    requires forall k :: 0 <= k < |r| ==> !IsLineTerminator(r[k])
    requires !HasOptionMarker("Question " + n + ". " + r)
    ensures ProcessLine("Question " + n + ". " + r, current, answers) ==
      (Some("Question " + n + ". " + r), Some(n))
  {
    var t := "Question " + n + ". " + r;
    QuestionLineTrimmed(t, n, r);
    ParseQuestionLine(t, n, r);
    QuestionLineOfParts(n, r, t);
    ProcessQuestionLine(t, QuestionParts(n, r), current, answers);
  }

  lemma QuestionLineOfParts(n: string, r: string, t: string)
    requires IsTrimmed(r) && !Contains(r, "**") && t == "Question " + n + ". " + r
    ensures QuestionLine(QuestionParts(n, r)) == t
  {
    PlainTextKept(r);
  }

  lemma ProcessQuestionLine(t: string, p: QuestionParts, current: Option<string>, answers: Answers)
    requires t != [] && Trim(t) == t && MatchQuestion(t) == Some(p) && !HasOptionMarker(t)
    requires QuestionLine(p) == t
    ensures ProcessLine(t, current, answers) == (Some(t), Some(p.num))
  {
  }

  lemma QuestionLineTrimmed(t: string, n: string, r: string)
    requires r != [] && IsTrimmed(r)
    requires t == "Question " + n + ". " + r
    ensures Trim(t) == t
  {
    assert t[0] == 'Q';
    assert t[|t| - 1] == r[|r| - 1];
    TrimOfTrimmed(t);
  }

  lemma PlainTextKept(r: string)
    requires IsTrimmed(r) && !Contains(r, "**")
    ensures RemoveBold(Trim(r)) == r
  {
    TrimOfTrimmed(r);
    RemoveBoldNoStars(r);
  }

  lemma {:induction false} LineEndAll(t: string, i: nat)
    requires i <= |t|
    requires forall k :: i <= k < |t| ==> !IsLineTerminator(t[k])
    ensures LineEnd(t, i) == |t|
    decreases |t| - i
  {
    if i < |t| {
      LineEndAll(t, i + 1);
    }
  }

  /** Removing the inserted stars gives back the line (when none was starred before). */
  lemma {:induction false} StarsRoundTrip(t: string, x: char, atStart: bool)
    requires IsAtoD(x) && !HasStarMark(t, x)
    ensures DropStars(InsertStars(t, x, atStart), x, atStart) == t
    decreases |t|
  {
    if t != [] {
      assert !HasStarMark(t[1..], x) by {
        forall i | StarMarkAt(t[1..], i, x) ensures StarMarkAt(t, i + 1, x) { }
      }
      assert t == [t[0]] + t[1..];
      if atStart && t[0] == x && |t| >= 2 && IsMarkEnd(t[1]) {
        StarsRoundTrip(t[1..], x, false);
        MarkedStep(t, x);
      } else {
        StarsRoundTrip(t[1..], x, IsSpace(t[0]));
        CopiedStep(t, x, atStart);
      }
    }
  }

  /** A marker at the start gets its star, and dropping it gives the marker letter back. */
  lemma MarkedStep(t: string, x: char)
    requires t != [] && t[0] == x && |t| >= 2 && IsMarkEnd(t[1])
    ensures DropStars(InsertStars(t, x, true), x, true) == [x] + DropStars(InsertStars(t[1..], x, false), x, false)
  {
    var rest := InsertStars(t[1..], x, false);
    var u := InsertStars(t, x, true);
    assert u == ['*', x] + rest;
    assert u[2..] == rest;
    assert rest[0] == t[1];
  }

  /** Any other first character is copied, and dropping stars copies it back. */
  lemma CopiedStep(t: string, x: char, atStart: bool)
    requires IsAtoD(x) && !HasStarMark(t, x)
    requires t != [] && !(atStart && t[0] == x && |t| >= 2 && IsMarkEnd(t[1]))
    ensures DropStars(InsertStars(t, x, atStart), x, atStart) ==
            [t[0]] + DropStars(InsertStars(t[1..], x, IsSpace(t[0])), x, IsSpace(t[0]))
  {
    var u := InsertStars(t, x, atStart);
    var rest := InsertStars(t[1..], x, IsSpace(t[0]));
    assert u == [t[0]] + rest;
    assert u[1..] == rest;
    if atStart && |u| >= 3 && u[0] == '*' && u[1] == x && IsMarkEnd(u[2]) {
      // `*` is not whitespace, so the two characters after it are copied as they are
      assert rest[0] == t[1];
      var rest2 := InsertStars(t[2..], x, IsSpace(t[1]));
      assert rest == [t[1]] + rest2;
      assert rest2[0] == t[2];
      assert StarMarkAt(t, 0, x);
      assert false;
    }
  }

  /** If the marking changed the line, the line now holds a starred `X.`/`X)`. */
  lemma {:induction false} InsertedStarIsMark(t: string, x: char, atStart: bool)
    requires IsAtoD(x)
    ensures InsertStars(t, x, atStart) != t ==> HasStarMark(InsertStars(t, x, atStart), x)
    decreases |t|
  {
    if t != [] {
      var u := InsertStars(t, x, atStart);
      if atStart && t[0] == x && |t| >= 2 && IsMarkEnd(t[1]) {
        var rest := InsertStars(t[1..], x, false);
        assert u == ['*', x] + rest;
        assert StarMarkAt(u, 0, x);
      } else {
        var rest := InsertStars(t[1..], x, IsSpace(t[0]));
        InsertedStarIsMark(t[1..], x, IsSpace(t[0]));
        assert u == [t[0]] + rest;
        if rest != t[1..] {
          var i :| 0 <= i < |rest| && StarMarkAt(rest, i, x);
          assert StarMarkAt(u, i + 1, x);
        } else {
          assert u == t;
        }
      }
    }
  }

  /** Marking an option line twice changes nothing more. */
  lemma MarkCorrectIdempotent(t: string, letter: Option<char>)
    requires letter.Some? ==> IsAtoD(letter.value)
    ensures MarkCorrect(MarkCorrect(t, letter), letter) == MarkCorrect(t, letter)
  {
    if letter.Some? && !HasStarMark(t, letter.value) {
      InsertedStarIsMark(t, letter.value, true);
    }
  }

  /** What `atStart` is for the text after its first character. */
  function AfterFirst(t: string, x: char, atStart: bool): bool
    requires t != []
  {
    if StarBefore(t, x, atStart, 0) then false else IsSpace(t[0])
  }

  /** Star positions of the text after its first character are those of the text, one further on. */
  lemma StarBeforeShift(t: string, x: char, atStart: bool, k: nat)
    requires t != []
    ensures StarBefore(t, x, atStart, k + 1) == StarBefore(t[1..], x, AfterFirst(t, x, atStart), k)
  {
    if k == 0 && StarBefore(t, x, atStart, 0) {
      // the marker's own letter is `.` or `)` were it to follow whitespace, and those are not whitespace
      assert !IsSpace(t[1]) by { assert IsMarkEnd(t[1]); }
      assert !StarBefore(t, x, atStart, 1);
    }
  }

  lemma {:induction false} StarsBelowShift(t: string, x: char, atStart: bool, n: nat)
    requires n < |t|
    ensures StarsBelow(t, x, atStart, n + 1) ==
      (if StarBefore(t, x, atStart, 0) then 1 else 0) + StarsBelow(t[1..], x, AfterFirst(t, x, atStart), n)
  {
    if n > 0 {
      StarsBelowShift(t, x, atStart, n - 1);
      StarBeforeShift(t, x, atStart, n - 1);
    }
  }

  /** The first character, starred if it opens a qualifying marker, then the rest. */
  lemma InsertStarsCons(t: string, x: char, atStart: bool)
    requires t != []
    ensures InsertStars(t, x, atStart) ==
      (if StarBefore(t, x, atStart, 0) then ['*', t[0]] else [t[0]]) + InsertStars(t[1..], x, AfterFirst(t, x, atStart))
  {
  }

  lemma {:induction false} InsertStarsLength(t: string, x: char, atStart: bool)
    ensures |InsertStars(t, x, atStart)| == |t| + StarsBelow(t, x, atStart, |t|)
    decreases |t|
  {
    if t != [] {
      InsertStarsCons(t, x, atStart);
      InsertStarsLength(t[1..], x, AfterFirst(t, x, atStart));
      StarsBelowShift(t, x, atStart, |t| - 1);
    }
  }

  /** Where character `i` lands: moved right by the stars before it and its own. */
  function Moved(t: string, x: char, atStart: bool, i: nat): nat
    requires i < |t|
  {
    i + StarsBelow(t, x, atStart, i + 1)
  }

  lemma {:induction false} InsertStarsKeeps(t: string, x: char, atStart: bool, u: string, i: nat)
    requires u == InsertStars(t, x, atStart) && i < |t|
    ensures Moved(t, x, atStart, i) < |u| && u[Moved(t, x, atStart, i)] == t[i]
    decreases i
  {
    var b := AfterFirst(t, x, atStart);
    var c := if StarBefore(t, x, atStart, 0) then 1 else 0;
    var rest := InsertStars(t[1..], x, b);
    InsertStarsCons(t, x, atStart);
    StarsBelowShift(t, x, atStart, i);
    if i == 0 {
      assert u[c] == t[0];
    } else {
      InsertStarsKeeps(t[1..], x, b, rest, i - 1);
      var j := Moved(t[1..], x, b, i - 1);
      assert Moved(t, x, atStart, i) == 1 + c + j;
      assert u[1 + c + j] == rest[j];
      assert t[i] == t[1..][i - 1];
    }
  }

  /** A `*` sits right before every qualifying `X.`/`X)`. */
  lemma {:induction false} InsertStarsStar(t: string, x: char, atStart: bool, u: string, i: nat)
    requires u == InsertStars(t, x, atStart) && StarBefore(t, x, atStart, i)
    ensures 1 <= Moved(t, x, atStart, i) <= |u| && u[Moved(t, x, atStart, i) - 1] == '*'
    decreases i
  {
    InsertStarsCons(t, x, atStart);
    if i == 0 {
      assert StarsBelow(t, x, atStart, 1) == 1;
    } else {
      var b := AfterFirst(t, x, atStart);
      var rest := InsertStars(t[1..], x, b);
      StarBeforeShift(t, x, atStart, i - 1);
      InsertStarsStar(t[1..], x, b, rest, i - 1);
      InsertStarsStarStep(t, x, atStart, u, rest, i);
    }
  }

  /** The star found in the rest of the line sits one head further on in the whole line. */
  lemma InsertStarsStarStep(t: string, x: char, atStart: bool, u: string, rest: string, i: nat)
    requires 0 < i < |t|
    requires rest == InsertStars(t[1..], x, AfterFirst(t, x, atStart))
    requires u == (if StarBefore(t, x, atStart, 0) then ['*', t[0]] else [t[0]]) + rest
    requires var j := Moved(t[1..], x, AfterFirst(t, x, atStart), i - 1); 1 <= j <= |rest| && rest[j - 1] == '*'
    ensures 1 <= Moved(t, x, atStart, i) <= |u| && u[Moved(t, x, atStart, i) - 1] == '*'
  {
    var c := if StarBefore(t, x, atStart, 0) then 1 else 0;
    var j := Moved(t[1..], x, AfterFirst(t, x, atStart), i - 1);
    StarsBelowShift(t, x, atStart, i);
    assert Moved(t, x, atStart, i) == 1 + c + j;
    assert u[c + j] == rest[j - 1];
  }

  /**
   * The replace stars exactly the qualifying markers and changes nothing else:
   * the line grows by one character per star, every character keeps its order
   * and a `*` sits right before every qualifying `X.`/`X)`.
   */
  lemma InsertStarsPlaces(t: string, x: char, atStart: bool, u: string)
    requires u == InsertStars(t, x, atStart)
    ensures |u| == |t| + StarsBelow(t, x, atStart, |t|)
    ensures forall i :: 0 <= i < |t| ==> Moved(t, x, atStart, i) < |u| && u[Moved(t, x, atStart, i)] == t[i]
    ensures forall i :: 0 <= i < |t| && StarBefore(t, x, atStart, i) ==>
      1 <= Moved(t, x, atStart, i) <= |u| && u[Moved(t, x, atStart, i) - 1] == '*'
  {
    InsertStarsLength(t, x, atStart);
    forall i | 0 <= i < |t|
      ensures Moved(t, x, atStart, i) < |u| && u[Moved(t, x, atStart, i)] == t[i]
    {
      InsertStarsKeeps(t, x, atStart, u, i);
    }
    forall i | 0 <= i < |t| && StarBefore(t, x, atStart, i)
      ensures 1 <= Moved(t, x, atStart, i) <= |u| && u[Moved(t, x, atStart, i) - 1] == '*'
    {
      InsertStarsStar(t, x, atStart, u, i);
    }
  }

  /**
   * When the line holds no starred marker yet, marking stars every qualifying
   * `X.`/`X)`, so the line then holds the mark the existence check looks for.
   */
  lemma MarkCorrectStarsMarker(t: string, x: char, i: nat)
    requires !HasStarMark(t, x) && StarBefore(t, x, true, i)
    ensures var u := MarkCorrect(t, Some(x));
      u == InsertStars(t, x, true) && StarMarkAt(u, Moved(t, x, true, i) - 1, x)
  {
    var u := InsertStars(t, x, true);
    InsertStarsStar(t, x, true, u, i);
    InsertStarsKeeps(t, x, true, u, i);
    InsertStarsKeeps(t, x, true, u, i + 1);
    assert !StarBefore(t, x, true, i + 1) by { assert IsMarkEnd(t[i + 1]); }
    assert Moved(t, x, true, i + 1) == Moved(t, x, true, i) + 1;
  }

  /**
   * The rewrite is not idempotent: stars that only partly form a bold marker
   * leave a doubled space that a second pass removes.
   */
  lemma QuestionRewriteNotIdempotent(s: string, t: string)
    requires s == "1. **** x" && t == "Question 1.  x"
    ensures MatchQuestion(s).Some? && QuestionLine(MatchQuestion(s).value) == t
    ensures MatchQuestion(t).Some? && QuestionLine(MatchQuestion(t).value) != t
  {
    FirstPass(s);
    FirstLine("** x");
    SecondPass(t);
    SecondLine("x");
  }

  lemma FirstPass(s: string)
    requires s == "1. **** x"
    ensures MatchQuestion(s) == Some(QuestionParts("1", "** x"))
  {
    assert !HasAt(s, 0, "**") by { assert s[0] == '1'; }
    assert !HasAtCI(s, 0, "question") by { assert !CharMatchesCI(s[0], "question"[0]); }
    assert NumberStart(s, 0) == Some(0);
    assert SkipDigits(s, 1) == 1;
    assert SkipDigits(s, 0) == 1;
    assert SkipSpaces(s, 3) == 3;
    assert SkipSpaces(s, 2) == 3;
    assert HasAt(s, 3, "**") by { assert s[3..5] == "**"; }
    assert SkipSpaces(s, 5) == 5;
    LineEndAll(s, 5);
    assert s[5..9] == "** x";
    assert s[0..1] == "1";
  }

  lemma FirstLine(r: string)
    requires r == "** x"
    ensures QuestionLine(QuestionParts("1", r)) == "Question 1.  x"
  {
    BoldPrefixTrimmed(r);
    BoldPrefixRemoved(r);
    var u := RemoveBold(Trim(r));
    assert u == " x";
    GlueFirst(u);
  }

  lemma GlueFirst(u: string)
    requires u == " x"
    ensures "Question " + "1" + ". " + u == "Question 1.  x"
  {
  }

  lemma BoldPrefixTrimmed(r: string)
    requires r == "** x"
    ensures Trim(r) == r
  {
    TrimOfTrimmed(r);
  }

  lemma BoldPrefixRemoved(r: string)
    requires r == "** x"
    ensures RemoveBold(r) == " x"
  {
    assert r[2..] == " x";
    RemoveBoldNoStars("x");
    assert " x"[1..] == "x";
  }

  lemma SecondPass(t: string)
    requires t == "Question 1.  x"
    ensures MatchQuestion(t) == Some(QuestionParts("1", "x"))
  {
    assert !HasAt(t, 0, "**") by { assert t[0] == 'Q'; }
    assert HasAtCI(t, 0, "question") by {
      forall k | 0 <= k < 8 ensures CharMatchesCI(t[k], "question"[k]) { }
    }
    assert SkipSpaces(t, 9) == 9;
    assert SkipSpaces(t, 8) == 9;
    assert NumberStart(t, 0) == Some(9);
    assert SkipDigits(t, 10) == 10;
    assert SkipDigits(t, 9) == 10;
    assert SkipSpaces(t, 13) == 13;
    assert SkipSpaces(t, 12) == 13;
    assert SkipSpaces(t, 11) == 13;
    assert !HasAt(t, 13, "**");
    LineEndAll(t, 13);
    assert t[13..14] == "x";
    assert t[9..10] == "1";
  }

  lemma SecondLine(r: string)
    requires r == "x"
    ensures QuestionLine(QuestionParts("1", r)) == "Question 1. x"
  {
    PlainTextKept(r);
    var u := RemoveBold(Trim(r));
    assert u == "x";
    GlueSecond(u);
  }

  lemma GlueSecond(u: string)
    requires u == "x"
    ensures "Question " + "1" + ". " + u == "Question 1. x"
  {
  }
}
