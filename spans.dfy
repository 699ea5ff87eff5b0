/**
 * The span splitter shared by the Word export (services/exportService.ts,
 * `renderRunsWithBolding`) and the screen (components/TestContent.tsx,
 * `boldSpecialText`): `text.split(/([“"”][^“”"]*[“"”])|(\([^)]+\))|(\*\*[^*]+\*\*)|(\[[A-D]\])/g)`
 * and the four tests each part is put to.
 */
module Spans {
  import opened JsText

  /** `[“"”]` */
  predicate IsQuoteChar(c: char) { c == '“' || c == '"' || c == '”' }

  /** End of the maximal run of characters that are not quotes, from `i`. */
  function SkipNonQuotes(s: string, i: nat): (j: nat)
    requires i <= |s|
    ensures i <= j <= |s|
    ensures forall k :: i <= k < j ==> !IsQuoteChar(s[k])
    ensures j == |s| || IsQuoteChar(s[j])
    decreases |s| - i
  {
    if i == |s| || IsQuoteChar(s[i]) then i else SkipNonQuotes(s, i + 1)
  }

  /** End of the maximal run of characters other than `c`, from `i`. */
  function SkipUntil(s: string, i: nat, c: char): (j: nat)
    requires i <= |s|
    ensures i <= j <= |s|
    ensures forall k :: i <= k < j ==> s[k] != c
    ensures j == |s| || s[j] == c
    decreases |s| - i
  {
    if i == |s| || s[i] == c then i else SkipUntil(s, i + 1, c)
  }

  /**
   * The span regex tried at `q`: the end of the match. The four alternatives
   * begin with different characters, so at most one can apply, and each has a
   * single way to match.
   */
  function SpanAt(s: string, q: nat): (r: Option<nat>)
    requires q <= |s|
    ensures r.Some? ==> q + 2 <= r.value <= |s|
  {
    if q == |s| then None
    else if IsQuoteChar(s[q]) then
      var j := SkipNonQuotes(s, q + 1);
      if j < |s| then Some(j + 1) else None
    else if s[q] == '(' then
      var j := SkipUntil(s, q + 1, ')');
      if q + 1 < j < |s| then Some(j + 1) else None
    else if HasAt(s, q, "**") then
      var j := SkipUntil(s, q + 2, '*');
      if q + 2 < j && HasAt(s, j, "**") then Some(j + 2) else None
    else if q + 2 < |s| && s[q] == '[' && IsAtoD(s[q + 1]) && s[q + 2] == ']' then Some(q + 3)
    else None
  }

  /**
   * `split` from `p` (start of the pending piece), searching at `q`: the piece
   * before each match, then the match itself (the one capture that took part;
   * the three that did not are `undefined` and skipped by both renderers).
   */
  function SplitFrom(s: string, p: nat, q: nat): (parts: seq<string>)
    requires p <= q <= |s|
    ensures |parts| % 2 == 1
    decreases |s| - q
  {
    if q == |s| then [s[p..]]
    else match SpanAt(s, q)
      case Some(e) => [s[p..q], s[q..e]] + SplitFrom(s, e, e)
      case None => SplitFrom(s, p, q + 1)
  }

  function SplitSpans(s: string): (parts: seq<string>)
    ensures |parts| % 2 == 1
  {
    SplitFrom(s, 0, 0)
  }

  /** The pieces concatenate back to the text: splitting loses nothing. */
  lemma {:induction false} SplitFromConcat(s: string, p: nat, q: nat)
    requires p <= q <= |s|
    ensures Concat(SplitFrom(s, p, q)) == s[p..]
    decreases |s| - q
  {
    if q < |s| {
      var m := SpanAt(s, q);
      SplitFromStep(s, p, q);
      if m.Some? {
        var e := m.value;
        SplitFromConcat(s, e, e);
        MatchStepConcat(s, p, q, e, SplitFrom(s, e, e));
      } else {
        SplitFromConcat(s, p, q + 1);
      }
    } else {
      assert Concat([s[p..]]) == s[p..] + Concat([]);
    }
  }

  /** One search position: a span found at `q` closes the piece, otherwise the search moves on. */
  lemma SplitFromStep(s: string, p: nat, q: nat)
    requires p <= q < |s|
    ensures SpanAt(s, q).Some? ==>
      SplitFrom(s, p, q) == [s[p..q], s[q..SpanAt(s, q).value]] + SplitFrom(s, SpanAt(s, q).value, SpanAt(s, q).value)
    ensures SpanAt(s, q).None? ==> SplitFrom(s, p, q) == SplitFrom(s, p, q + 1)
  {
  }

  lemma MatchStepConcat(s: string, p: nat, q: nat, e: nat, rest: seq<string>)
    requires p <= q <= e <= |s| && Concat(rest) == s[e..]
    ensures Concat([s[p..q], s[q..e]] + rest) == s[p..]
  {
    ConcatAppend([s[p..q], s[q..e]], rest);
    ConcatPair(s[p..q], s[q..e]);
    assert s[p..] == s[p..q] + s[q..e] + s[e..];
  }

  lemma ConcatPair(a: string, b: string)
    ensures Concat([a, b]) == a + b
  {
    assert Concat([b]) == b by { assert [b][1..] == []; assert b + "" == b; }
    assert [a, b][1..] == [b];
  }

  lemma SplitSpansConcat(s: string)
    ensures Concat(SplitSpans(s)) == s
  {
    SplitFromConcat(s, 0, 0);
  }

  /** The text before the first span (the only part the screen looks for a label in). */
  lemma {:induction false} FirstPieceIsPrefix(s: string, p: nat, q: nat)
    requires p <= q <= |s|
    ensures exists e :: p <= e <= |s| && SplitFrom(s, p, q)[0] == s[p..e]
    decreases |s| - q
  {
    if q < |s| {
      match SpanAt(s, q)
      case Some(e) =>
        assert SplitFrom(s, p, q)[0] == s[p..q];
      case None =>
        FirstPieceIsPrefix(s, p, q + 1);
    } else {
      assert SplitFrom(s, p, q)[0] == s[p..|s|];
    }
  }

  // ---------------------------------------------------------------------------
  // The tests each part gets, on `part.trim()`
  // ---------------------------------------------------------------------------

  predicate NoLineTerminator(s: string) {
    forall k :: 0 <= k < |s| ==> !IsLineTerminator(s[k])
  }

  /** `/^[“"”].*[“"”]$/` */
  predicate IsQuoted(t: string) {
    |t| >= 2 && IsQuoteChar(t[0]) && IsQuoteChar(t[|t| - 1]) && NoLineTerminator(t[1..|t| - 1])
  }

  /** `/^\(.*\)$/` */
  predicate IsBrackets(t: string) {
    |t| >= 2 && t[0] == '(' && t[|t| - 1] == ')' && NoLineTerminator(t[1..|t| - 1])
  }

  /** `/^\*\*.*\*\*$/` */
  predicate IsMdBold(t: string) {
    |t| >= 4 && t[0] == '*' && t[1] == '*' && t[|t| - 2] == '*' && t[|t| - 1] == '*' &&
    NoLineTerminator(t[2..|t| - 2])
  }

  /** `/^\[[A-D]\]$/` */
  predicate IsMarker(t: string) {
    |t| == 3 && t[0] == '[' && IsAtoD(t[1]) && t[2] == ']'
  }

  /** The first character decides: a part passes at most one of the four tests. */
  lemma PartTestsExclusive(t: string)
    ensures !(IsQuoted(t) && IsBrackets(t)) && !(IsQuoted(t) && IsMdBold(t)) && !(IsQuoted(t) && IsMarker(t))
    ensures !(IsBrackets(t) && IsMdBold(t)) && !(IsBrackets(t) && IsMarker(t)) && !(IsMdBold(t) && IsMarker(t))
  {
  }

  /** Every part of the split of a text without `**` is free of `**` too. */
  lemma {:induction false} PartsWithoutBold(parts: seq<string>)
    requires !Contains(Concat(parts), "**")
    ensures forall k :: 0 <= k < |parts| ==> !Contains(parts[k], "**")
  {
    if parts != [] {
      assert "" + parts[0] + Concat(parts[1..]) == Concat(parts);
      NoContainsInfix("", parts[0], Concat(parts[1..]), "**");
      assert parts[0] + Concat(parts[1..]) + "" == Concat(parts);
      NoContainsInfix(parts[0], Concat(parts[1..]), "", "**");
      PartsWithoutBold(parts[1..]);
      forall k | 1 <= k < |parts| ensures !Contains(parts[k], "**") {
        assert parts[k] == parts[1..][k - 1];
      }
    }
  }
}
