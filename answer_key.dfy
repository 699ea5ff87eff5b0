/**
 * The answer-key half of `formatTestContent` (services/exportService.ts):
 * locating the `**Answer Key**` / `**Answers**` header, reading the
 * `n: value` / `n. value` entries of the key section into a record, and
 * reassembling the canonical key block.
 */
module AnswerKey {
  import opened JsText

  // ---------------------------------------------------------------------------
  // The header `**(Answer Key|Answers):?**`, case-insensitive
  // ---------------------------------------------------------------------------

  predicate HeaderWordAt(s: string, j: int, w: string) {
    HasAtCI(s, j, w) && (HasAt(s, j + |w|, ":**") || HasAt(s, j + |w|, "**"))
  }

  predicate HeaderAt(s: string, i: int) {
    HasAt(s, i, "**") && (HeaderWordAt(s, i + 2, "Answer Key") || HeaderWordAt(s, i + 2, "Answers"))
  }

  /** `content.search(header)` from position `from`. */
  function FindHeader(s: string, from: nat): (r: Option<nat>)
    requires from <= |s|
    ensures r.Some? ==> from <= r.value < |s| && HeaderAt(s, r.value)
    ensures r.Some? ==> forall k :: from <= k < r.value ==> !HeaderAt(s, k)
    ensures r.None? ==> forall k :: from <= k <= |s| ==> !HeaderAt(s, k)
    decreases |s| - from
  {
    if from == |s| then None
    else if HeaderAt(s, from) then Some(from)
    else FindHeader(s, from + 1)
  }

  /** The text before the header and the raw key section from the header on. */
  datatype Sections = Sections(body: string, rawKey: string)

  function SplitAtHeader(content: string): (r: Sections)
    ensures r.body + r.rawKey == content
    ensures FindHeader(content, 0).None? ==> r.body == content && r.rawKey == ""
    ensures FindHeader(content, 0).Some? ==>
      |r.body| == FindHeader(content, 0).value && StartsWith(r.rawKey, "**")
  {
    match FindHeader(content, 0)
    case None => Sections(content, "")
    case Some(h) =>
      assert content[h..][0..2] == content[h..h + 2];
      Sections(content[..h], content[h..])
  }

  /** A header found in a prefix is a header of the whole text. */
  lemma HeaderAtPrefix(s: string, n: nat, k: int)
    requires n <= |s|
    ensures HeaderAt(s[..n], k) ==> HeaderAt(s, k)
  {
    var p := s[..n];
    if HeaderAt(p, k) {
      HasAtPrefix(s, n, k, "**");
      HasAtCIPrefix(s, n, k + 2, "Answer Key");
      HasAtCIPrefix(s, n, k + 2, "Answers");
      HasAtPrefix(s, n, k + 12, ":**");
      HasAtPrefix(s, n, k + 12, "**");
      HasAtPrefix(s, n, k + 9, ":**");
      HasAtPrefix(s, n, k + 9, "**");
    }
  }

  /** The text before the first header holds no header. */
  lemma BodyHasNoHeader(content: string)
    ensures forall k :: 0 <= k <= |SplitAtHeader(content).body| ==> !HeaderAt(SplitAtHeader(content).body, k)
  {
    var body := SplitAtHeader(content).body;
    assert body == content[..|body|];
    forall k | 0 <= k <= |body| ensures !HeaderAt(body, k) {
      HeaderAtPrefix(content, |body|, k);
    }
  }

  // ---------------------------------------------------------------------------
  // One entry: (\d+)\s*[:.]\s*(.+?)(?=\s+\d+\s*[:.]|$|\r?\n)
  // ---------------------------------------------------------------------------

  /** The lookahead alternative `\s+\d+\s*[:.]` at `e`. */
  predicate NextEntryAhead(s: string, e: nat)
    requires e <= |s|
  {
    e < |s| && IsSpace(s[e]) &&
    var a := SkipSpaces(s, e);
    a < |s| && IsDigit(s[a]) &&
    var w := SkipSpaces(s, SkipDigits(s, a));
    w < |s| && IsSep(s[w])
  }

  /** The whole lookahead: another entry, the end of the input, or `\r?\n`. */
  predicate ValueStops(s: string, e: nat)
    requires e <= |s|
  {
    e == |s| || s[e] == '\n' || HasAt(s, e, "\r\n") || NextEntryAhead(s, e)
  }

  /** The lazy `(.+?)` begun at `v`, already holding `s[v..e]`: the first end the lookahead accepts. */
  function LazyEnd(s: string, v: nat, e: nat): (r: Option<nat>)
    requires v < e <= |s|
    requires forall k :: v <= k < e ==> !IsLineTerminator(s[k])
    ensures r.Some? ==> e <= r.value <= |s| && ValueStops(s, r.value)
    ensures r.Some? ==> forall k :: v <= k < r.value ==> !IsLineTerminator(s[k])
    ensures r.Some? ==> forall k :: e <= k < r.value ==> !ValueStops(s, k)
    ensures r.None? ==> forall k :: e <= k <= |s| && (forall i :: e <= i < k ==> !IsLineTerminator(s[i])) ==> !ValueStops(s, k)
    decreases |s| - e
  {
    if ValueStops(s, e) then Some(e)
    else if e < |s| && !IsLineTerminator(s[e]) then LazyEnd(s, v, e + 1)
    else None
  }

  /** `(.+?)(?=...)` starting at `v`. */
  function ValueFrom(s: string, v: nat): (r: Option<nat>)
    requires v <= |s|
    ensures r.Some? ==> v < r.value <= |s| && ValueStops(s, r.value)
    ensures r.Some? ==> forall k :: v <= k < r.value ==> !IsLineTerminator(s[k])
    ensures r.Some? ==> forall k :: v < k < r.value ==> !ValueStops(s, k)
  {
    if v < |s| && !IsLineTerminator(s[v]) then LazyEnd(s, v, v + 1) else None
  }

  /**
   * The greedy `\s*` after the separator gives back spaces one at a time
   * (`v` from the end of the run down to `lo`) until the value can match.
   */
  function TryValueStarts(s: string, lo: nat, v: nat): (r: Option<(nat, nat)>)
    requires lo <= v <= |s|
    ensures r.Some? ==> lo <= r.value.0 <= v && r.value.0 < r.value.1 <= |s|
    ensures r.Some? ==> ValueFrom(s, r.value.0) == Some(r.value.1)
    ensures r.Some? ==> forall v' :: r.value.0 < v' <= v ==> ValueFrom(s, v').None?
    ensures r.None? ==> forall v' :: lo <= v' <= v ==> ValueFrom(s, v').None?
    decreases v - lo
  {
    match ValueFrom(s, v)
    case Some(e) => Some((v, e))
    case None => if v == lo then None else TryValueStarts(s, lo, v - 1)
  }

  /** A match of the entry regex: the number, the raw value and where the match ends. */
  datatype RawEntry = RawEntry(num: string, value: string, end: nat)

  predicate IsDigits(s: string) { forall k :: 0 <= k < |s| ==> IsDigit(s[k]) }

  /** A slice of a run of digits is all digits. */
  lemma DigitsSlice(s: string, i: nat, j: nat)
    requires i <= j <= |s|
    requires forall k :: i <= k < j ==> IsDigit(s[k])
    ensures IsDigits(s[i..j])
  {
    forall k | 0 <= k < j - i ensures s[i..j][k] == s[i + k] { }
  }

  /** The entry regex anchored at `p` (the first path its backtracking finds). */
  function EntryAt(s: string, p: nat): (r: Option<RawEntry>)
    requires p <= |s|
    ensures r.Some? ==> p < r.value.end <= |s|
    ensures r.Some? ==> |r.value.num| >= 1 && IsDigits(r.value.num) && r.value.value != []
    ensures r.Some? ==> forall k :: 0 <= k < |r.value.value| ==> !IsLineTerminator(r.value.value[k])
  {
    if p < |s| && IsDigit(s[p]) then
      var d := SkipDigits(s, p);
      var w := SkipSpaces(s, d);
      if w < |s| && IsSep(s[w]) then
        match TryValueStarts(s, w + 1, SkipSpaces(s, w + 1))
        case Some((v, e)) =>
          NoTerminatorSlice(s, v, e);
          DigitsSlice(s, p, d);
          Some(RawEntry(s[p..d], s[v..e], e))
        case None => None
      else None
    else None
  }

  /** `rawKey.matchAll(entry)`: scan forward, resume at the end of each match. */
  function MatchEntries(s: string, from: nat): (es: seq<RawEntry>)
    requires from <= |s|
    ensures forall k :: 0 <= k < |es| ==> |es[k].num| >= 1 && IsDigits(es[k].num)
    decreases |s| - from
  {
    if from == |s| then []
    else match EntryAt(s, from)
      case Some(m) => [m] + MatchEntries(s, m.end)
      case None => MatchEntries(s, from + 1)
  }

  /** The empty key section has no entries. */
  lemma NoEntriesInEmpty()
    ensures MatchEntries("", 0) == []
  {
  }

  /** `val.trim()`, then one trailing comma removed, then `trim()` again. */
  function CleanValue(v: string): (r: string)
    ensures |r| <= |v|
    ensures IsTrimmed(r)
  {
    var t := Trim(v);
    var u := if t != [] && t[|t| - 1] == ',' then t[..|t| - 1] else t;
    Trim(u)
  }

  /** Whitespace around a trimmed value without a trailing comma is all that goes. */
  lemma CleanValuePadded(w1: string, x: string, w2: string)
    requires forall k :: 0 <= k < |w1| ==> IsSpace(w1[k])
    requires forall k :: 0 <= k < |w2| ==> IsSpace(w2[k])
    requires IsTrimmed(x) && (x == [] || x[|x| - 1] != ',')
    ensures CleanValue(w1 + x + w2) == x
  {
    TrimPadded(w1, x, w2);
    TrimOfTrimmed(x);
  }

  /** One trailing comma goes, with the whitespace around it and after the text. */
  lemma CleanValueTrailingComma(w1: string, x: string, w2: string)
    requires forall k :: 0 <= k < |w1| ==> IsSpace(w1[k])
    requires forall k :: 0 <= k < |w2| ==> IsSpace(w2[k])
    requires x == [] || !IsSpace(x[0])
    ensures CleanValue(w1 + x + "," + w2) == Trim(x)
  {
    var y := x + ",";
    assert y[0] != ' ' && !IsSpace(y[0]) && !IsSpace(y[|y| - 1]);
    assert w1 + x + "," + w2 == w1 + y + w2;
    TrimPadded(w1, y, w2);
    assert y[..|y| - 1] == x;
  }

  // ---------------------------------------------------------------------------
  // The `answers` record: insertion-ordered, a repeated key keeps its place
  // ---------------------------------------------------------------------------

  type Answers = seq<(string, string)>

  function Keys(a: Answers): set<string> {
    if a == [] then {} else {a[0].0} + Keys(a[1..])
  }

  predicate DistinctKeys(a: Answers) {
    a == [] || (a[0].0 !in Keys(a[1..]) && DistinctKeys(a[1..]))
  }

  /** `answers[k]`. */
  function Lookup(a: Answers, k: string): (r: Option<string>)
    ensures r.Some? <==> k in Keys(a)
  {
    if a == [] then None
    else if a[0].0 == k then Some(a[0].1)
    else Lookup(a[1..], k)
  }

  /** `answers[k] = v`: a new key goes last, an existing one is overwritten in place. */
  function Put(a: Answers, k: string, v: string): (r: Answers)
    ensures Keys(r) == Keys(a) + {k}
    ensures DistinctKeys(a) ==> DistinctKeys(r)
    ensures Lookup(r, k) == Some(v)
    ensures k in Keys(a) ==> |r| == |a|
    ensures k !in Keys(a) ==> r == a + [(k, v)]
    ensures k in Keys(a) ==> forall i :: 0 <= i < |a| ==> r[i].0 == a[i].0
  {
    if a == [] then [(k, v)]
    else if a[0].0 == k then [(k, v)] + a[1..]
    else
      var r := [a[0]] + Put(a[1..], k, v);
      assert r[1..] == Put(a[1..], k, v);
      r
  }

  /** Storing under `k` leaves every other key's value alone. */
  lemma {:induction false} PutOthers(a: Answers, k: string, v: string, k': string)
    requires k' != k
    ensures Lookup(Put(a, k, v), k') == Lookup(a, k')
  {
    if a != [] && a[0].0 != k {
      PutOthers(a[1..], k, v, k');
      var r := Put(a, k, v);
      assert r[1..] == Put(a[1..], k, v);
    }
  }

  /** The record after storing every match in order. */
  function FoldEntries(es: seq<RawEntry>): (a: Answers)
    ensures DistinctKeys(a)
  {
    if es == [] then []
    else Put(FoldEntries(es[..|es| - 1]), es[|es| - 1].num, CleanValue(es[|es| - 1].value))
  }

  /** The record the key section yields. */
  function AnswersOf(rawKey: string): Answers {
    FoldEntries(MatchEntries(rawKey, 0))
  }

  /** Reads the entries of the answer-key text into a record. */
  method ExtractAnswers(rawKey: string) returns (answers: Answers)
    ensures answers == AnswersOf(rawKey)
    ensures DistinctKeys(answers)
  {
    var matches := MatchEntries(rawKey, 0);
    answers := FoldMatches(matches);
  }

  /** The `for (const m of answerMatches)` loop. */
  method FoldMatches(matches: seq<RawEntry>) returns (answers: Answers)
    ensures answers == FoldEntries(matches)
    ensures DistinctKeys(answers)
  {
    answers := [];
    var i := 0;
    while i < |matches|
      invariant 0 <= i <= |matches|
      invariant answers == FoldEntries(matches[..i])
    {
      var m := matches[i];
      var val := CleanValue(m.value);
      FoldStep(matches, i);
      answers := Put(answers, m.num, val);
      i := i + 1;
    }
    assert matches[..|matches|] == matches;
  }

  /** One more match stores its cleaned value under its number. */
  lemma FoldStep(es: seq<RawEntry>, i: nat)
    requires i < |es|
    ensures FoldEntries(es[..i + 1]) == Put(FoldEntries(es[..i]), es[i].num, CleanValue(es[i].value))
  {
    var pre := es[..i + 1];
    assert pre[..|pre| - 1] == es[..i];
    assert pre[|pre| - 1] == es[i];
  }

  /** The record holds exactly the numbers read. */
  lemma {:induction false} FoldKeys(es: seq<RawEntry>)
    ensures forall j :: 0 <= j < |es| ==> es[j].num in Keys(FoldEntries(es))
    ensures forall k :: k in Keys(FoldEntries(es)) ==> exists j :: 0 <= j < |es| && es[j].num == k
  {
    if es != [] {
      var init := es[..|es| - 1];
      FoldKeys(init);
      FoldLastKeys(es);
      KeysOfNums(init, es[|es| - 1], Keys(FoldEntries(init)), Keys(FoldEntries(es)));
      assert es == init + [es[|es| - 1]];
    }
  }

  /** The step of `FoldKeys`, on the key sets alone. */
  lemma KeysOfNums(init: seq<RawEntry>, last: RawEntry, before: set<string>, after: set<string>)
    requires after == before + {last.num}
    requires forall j :: 0 <= j < |init| ==> init[j].num in before
    requires forall k :: k in before ==> exists j :: 0 <= j < |init| && init[j].num == k
    ensures var es := init + [last];
            (forall j :: 0 <= j < |es| ==> es[j].num in after) &&
            (forall k :: k in after ==> exists j :: 0 <= j < |es| && es[j].num == k)
  {
    var es := init + [last];
    forall k | k in after ensures exists j :: 0 <= j < |es| && es[j].num == k {
      if k in before {
        var j :| 0 <= j < |init| && init[j].num == k;
        assert es[j] == init[j];
      } else {
        assert es[|es| - 1].num == k;
      }
    }
    forall j | 0 <= j < |es| ensures es[j].num in after {
      if j < |init| {
        assert es[j] == init[j];
      }
    }
  }

  /** The last entry adds its number to the keys of the others. */
  lemma FoldLastKeys(es: seq<RawEntry>)
    requires es != []
    ensures Keys(FoldEntries(es)) == Keys(FoldEntries(es[..|es| - 1])) + {es[|es| - 1].num}
  {
    var last := es[|es| - 1];
    assert FoldEntries(es) == Put(FoldEntries(es[..|es| - 1]), last.num, CleanValue(last.value));
  }

  /** Every number read maps to the cleaned value of its LAST entry. */
  lemma {:induction false} LastEntryWins(es: seq<RawEntry>, j: nat)
    requires j < |es|
    requires forall j' :: j < j' < |es| ==> es[j'].num != es[j].num
    ensures Lookup(FoldEntries(es), es[j].num) == Some(CleanValue(es[j].value))
  {
    var init := es[..|es| - 1];
    if j < |es| - 1 {
      LastEntryWins(init, j);
      PutOthers(FoldEntries(init), es[|es| - 1].num, CleanValue(es[|es| - 1].value), es[j].num);
    }
  }

  lemma {:induction false} FoldDigitKeys(es: seq<RawEntry>)
    requires forall k :: 0 <= k < |es| ==> IsDigits(es[k].num)
    ensures DigitKeys(FoldEntries(es))
  {
    FoldKeys(es);
    KeysDigits(FoldEntries(es));
  }

  lemma {:induction false} KeysDigits(a: Answers)
    requires forall k :: k in Keys(a) ==> IsDigits(k)
    ensures DigitKeys(a)
  {
    if a != [] {
      KeysDigits(a[1..]);
    }
  }

  // ---------------------------------------------------------------------------
  // Reassembly: Object.entries order, then a stable sort by parseInt(key)
  // ---------------------------------------------------------------------------

  /** An array-index property key: no leading zero and below 2^32 - 1. */
  predicate IsIndexKey(k: string)
    requires IsDigits(k)
  {
    |k| >= 1 && (k == "0" || k[0] != '0') && DigitsValue(k) < 0x1_0000_0000 - 1
  }

  /**
   * Object.entries lists index keys ascending, then other keys in insertion
   * order; the stable sort by numeric value then leaves, among keys of equal
   * value, the index key first. So the final order is the stable sort of the
   * insertion order by this rank. (Keys are always digit strings.)
   */
  function Rank(k: string): nat {
    if IsDigits(k) then 2 * DigitsValue(k) + (if IsIndexKey(k) then 0 else 1) else 0
  }

  predicate DigitKeys(a: Answers) {
    forall i :: 0 <= i < |a| ==> IsDigits(a[i].0)
  }

  predicate SortedByRank(a: Answers) {
    |a| <= 1 || (Rank(a[0].0) <= Rank(a[1].0) && SortedByRank(a[1..]))
  }

  /** Inserts `x` after every leading entry of rank not above its own (stable). */
  function InsertByRank(x: (string, string), a: Answers): (r: Answers)
    requires SortedByRank(a)
    ensures SortedByRank(r)
    ensures multiset(r) == multiset(a) + multiset{x}
    ensures r[0] == x || (a != [] && r[0] == a[0])
  {
    if a == [] || Rank(x.0) < Rank(a[0].0) then [x] + a
    else
      var rest := InsertByRank(x, a[1..]);
      assert a == [a[0]] + a[1..];
      assert ([a[0]] + rest)[1..] == rest;
      [a[0]] + rest
  }

  /** Stable insertion sort by rank: `Object.entries(answers).sort(...)`. */
  function SortByRank(a: Answers): (r: Answers)
    ensures SortedByRank(r)
    ensures multiset(r) == multiset(a)
  {
    if a == [] then []
    else
      assert a == a[..|a| - 1] + [a[|a| - 1]];
      InsertByRank(a[|a| - 1], SortByRank(a[..|a| - 1]))
  }

  lemma {:induction false} SortedPairwise(a: Answers)
    requires SortedByRank(a)
    ensures forall i, j :: 0 <= i < j < |a| ==> Rank(a[i].0) <= Rank(a[j].0)
  {
    if |a| > 1 {
      SortedPairwise(a[1..]);
      forall i, j | 0 <= i < j < |a| ensures Rank(a[i].0) <= Rank(a[j].0) {
        if i > 0 { assert a[i] == a[1..][i - 1] && a[j] == a[1..][j - 1]; }
        else if j > 1 { assert a[1] == a[1..][0] && a[j] == a[1..][j - 1]; }
      }
    }
  }

  predicate HasLongAnswer(a: Answers) {
    exists i :: 0 <= i < |a| && |a[i].1| > 5
  }

  /** `${num}. ${val}` for each entry. */
  function FormatPairs(a: Answers): (r: seq<string>)
    ensures |r| == |a|
    ensures forall i :: 0 <= i < |a| ==> r[i] == a[i].0 + ". " + a[i].1
  {
    if a == [] then [] else [a[0].0 + ". " + a[0].1] + FormatPairs(a[1..])
  }

  /** The key block appended after the body. */
  function KeyBlock(answers: Answers, rawKey: string): string {
    if |answers| > 0 then
      var sep := if HasLongAnswer(answers) then "\n" else "   ";
      "\n\nAnswer Key:\n" + Join(FormatPairs(SortByRank(answers)), sep)
    else if rawKey != "" then "\n\n" + RemoveBold(Trim(rawKey))
    else ""
  }

  /** Without a header there is no key section, so nothing is extracted or appended. */
  lemma NoHeaderNoKey(content: string)
    requires FindHeader(content, 0).None?
    ensures SplitAtHeader(content).body == content
    ensures AnswersOf(SplitAtHeader(content).rawKey) == []
    ensures KeyBlock(AnswersOf(SplitAtHeader(content).rawKey), SplitAtHeader(content).rawKey) == ""
  {
    NoEntriesInEmpty();
  }

  /**
   * With a header but no parsable entry, the raw section is kept, trimmed and
   * without `**`: the key block is never empty.
   */
  lemma FallbackKeepsSection(content: string)
    requires FindHeader(content, 0).Some?
    requires AnswersOf(SplitAtHeader(content).rawKey) == []
    ensures var raw := SplitAtHeader(content).rawKey;
      KeyBlock([], raw) == "\n\n" + RemoveBold(Trim(raw)) && !Contains(RemoveBold(Trim(raw)), "**")
  {
    RemoveBoldStarFree(Trim(SplitAtHeader(content).rawKey));
  }

  /**
   * The reassembled entries are the record's entries, each exactly once, in
   * ascending numeric order.
   */
  lemma ReassemblyOrdered(answers: Answers)
    requires DigitKeys(answers)
    ensures var sorted := SortByRank(answers);
      multiset(sorted) == multiset(answers) && DigitKeys(sorted) &&
      forall i, j :: 0 <= i < j < |sorted| ==> DigitsValue(sorted[i].0) <= DigitsValue(sorted[j].0)
  {
    var sorted := SortByRank(answers);
    SortedPairwise(sorted);
    forall i | 0 <= i < |sorted| ensures IsDigits(sorted[i].0) {
      var j := InAnswers(answers, sorted, i);
    }
  }

  /**
   * When some value is longer than 5 characters and no value holds a newline,
   * the block is the header line followed by one `n. value` line per entry.
   */
  lemma LongAnswersOnePerLine(answers: Answers)
    requires DigitKeys(answers) && |answers| > 0 && HasLongAnswer(answers)
    requires forall i :: 0 <= i < |answers| ==> '\n' !in answers[i].1
    ensures var pairs := FormatPairs(SortByRank(answers));
      KeyBlock(answers, "") == "\n\nAnswer Key:\n" + Join(pairs, "\n") &&
      Split(Join(pairs, "\n"), '\n') == pairs
  {
    var sorted := SortByRank(answers);
    var pairs := FormatPairs(sorted);
    forall k | 0 <= k < |pairs| ensures '\n' !in pairs[k] {
      var j := InAnswers(answers, sorted, k);
      PairHasNoNewline(answers[j]);
    }
    SplitJoin(pairs, '\n');
  }

  /** An entry of a permutation is an entry of the original. */
  lemma InAnswers(a: Answers, b: Answers, i: nat) returns (j: nat)
    requires multiset(b) == multiset(a) && i < |b|
    ensures j < |a| && a[j] == b[i]
  {
    assert b[i] in multiset(b);
    j :| 0 <= j < |a| && a[j] == b[i];
  }

  lemma PairHasNoNewline(p: (string, string))
    requires IsDigits(p.0) && '\n' !in p.1
    ensures '\n' !in p.0 + ". " + p.1
  {
    assert '\n' !in p.0 by {
      forall k | 0 <= k < |p.0| ensures p.0[k] != '\n' { assert IsDigit(p.0[k]); }
    }
  }

  /** With only short values the pairs share one line, three spaces apart. */
  lemma ShortAnswersOneLine(answers: Answers)
    requires |answers| > 0
    requires forall i :: 0 <= i < |answers| ==> |answers[i].1| <= 5
    ensures KeyBlock(answers, "") == "\n\nAnswer Key:\n" + Join(FormatPairs(SortByRank(answers)), "   ")
  {
  }
}
