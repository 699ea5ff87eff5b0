/**
 * The JavaScript string operations the formatting pipeline relies on, written
 * out over `seq<char>`: the `\s` character class (the same set that
 * `String.prototype.trim` removes), the `.` class, `\d`, `\w` and `\b`,
 * ASCII case folding as used by `/i` on ASCII patterns, `trim`/`trimStart`,
 * `split` on one character, `join`, and the global removal of `**` pairs.
 */
module JsText {

  datatype Option<T> = None | Some(value: T)

  /** JavaScript's `\s`: WhiteSpace and LineTerminator code points. */
  predicate IsSpace(c: char) {
    c == ' ' || c == '\t' || c == '\n' || c == '\r' || c == '\U{B}' || c == '\U{C}'
    || c == '\U{A0}' || c == '\U{1680}' || ('\U{2000}' <= c <= '\U{200A}')
    || c == '\U{2028}' || c == '\U{2029}' || c == '\U{202F}' || c == '\U{205F}'
    || c == '\U{3000}' || c == '\U{FEFF}'
  }

  /** The characters `.` does not match (no `s` flag). */
  predicate IsLineTerminator(c: char) {
    c == '\n' || c == '\r' || c == '\U{2028}' || c == '\U{2029}'
  }

  predicate IsDigit(c: char) { '0' <= c <= '9' }

  predicate IsUpper(c: char) { 'A' <= c <= 'Z' }

  predicate IsLower(c: char) { 'a' <= c <= 'z' }

  /** JavaScript's `\w` (no `u` flag). */
  predicate IsWordChar(c: char) { IsUpper(c) || IsLower(c) || IsDigit(c) || c == '_' }

  /** `[A-D]`, the option letters */
  predicate IsAtoD(c: char) { 'A' <= c <= 'D' }

  /** `[.)]`, what follows an option letter */
  predicate IsMarkEnd(c: char) { c == '.' || c == ')' }

  /** `[:.]` */
  predicate IsSep(c: char) { c == ':' || c == '.' }

  function ToUpperChar(c: char): (u: char)
    ensures IsLower(c) ==> IsUpper(u)
    ensures !IsLower(c) ==> u == c
  {
    if IsLower(c) then (c as int - 32) as char else c
  }

  function ToLowerChar(c: char): (l: char)
    ensures IsUpper(c) ==> IsLower(l)
    ensures !IsUpper(c) ==> l == c
  {
    if IsUpper(c) then (c as int + 32) as char else c
  }

  /** `toUpperCase`, restricted to the ASCII letters. */
  function ToUpper(s: string): (u: string)
    ensures |u| == |s|
    ensures forall i :: 0 <= i < |s| ==> u[i] == ToUpperChar(s[i])
  {
    if s == [] then [] else [ToUpperChar(s[0])] + ToUpper(s[1..])
  }

  /** `toLowerCase`, restricted to the ASCII letters. */
  function ToLower(s: string): (l: string)
    ensures |l| == |s|
    ensures forall i :: 0 <= i < |s| ==> l[i] == ToLowerChar(s[i])
  {
    if s == [] then [] else [ToLowerChar(s[0])] + ToLower(s[1..])
  }

  /** Does the pattern character `p` match `c` under the `i` flag? (`p` is ASCII.) */
  predicate CharMatchesCI(c: char, p: char) {
    ToLowerChar(c) == ToLowerChar(p)
  }

  /** `s` has the literal `w` at position `i`. */
  predicate HasAt(s: string, i: int, w: string) {
    0 <= i && i + |w| <= |s| && s[i..i + |w|] == w
  }

  /** `s` has `w` at position `i`, letters compared case-insensitively. */
  predicate HasAtCI(s: string, i: int, w: string) {
    0 <= i && i + |w| <= |s| && forall k :: 0 <= k < |w| ==> CharMatchesCI(s[i + k], w[k])
  }

  predicate StartsWith(s: string, w: string) { HasAt(s, 0, w) }

  predicate Contains(s: string, w: string) {
    exists i :: 0 <= i <= |s| - |w| && HasAt(s, i, w)
  }

  /** A literal found in a prefix is found at the same place in the whole text. */
  lemma HasAtPrefix(s: string, n: nat, i: int, w: string)
    requires n <= |s|
    ensures HasAt(s[..n], i, w) ==> HasAt(s, i, w)
  {
    if HasAt(s[..n], i, w) {
      assert s[..n][i..i + |w|] == s[i..i + |w|];
    }
  }

  lemma HasAtCIPrefix(s: string, n: nat, i: int, w: string)
    requires n <= |s|
    ensures HasAtCI(s[..n], i, w) ==> HasAtCI(s, i, w)
  {
    if HasAtCI(s[..n], i, w) {
      assert forall j :: i <= j < i + |w| ==> s[..n][j] == s[j];
    }
  }

  /** `\b` at position `i`. */
  predicate WordBoundary(s: string, i: int)
    requires 0 <= i <= |s|
  {
    (i > 0 && IsWordChar(s[i - 1])) != (i < |s| && IsWordChar(s[i]))
  }

  // ---------------------------------------------------------------------------
  // Maximal runs (the greedy quantifiers `\s*`, `\d+`, `[*]*`)
  // ---------------------------------------------------------------------------

  /** End of the maximal run of `\s` starting at `i`. */
  function SkipSpaces(s: string, i: nat): (j: nat)
    requires i <= |s|
    ensures i <= j <= |s|
    ensures forall k :: i <= k < j ==> IsSpace(s[k])
    ensures j == |s| || !IsSpace(s[j])
    decreases |s| - i
  {
    if i < |s| && IsSpace(s[i]) then SkipSpaces(s, i + 1) else i
  }

  /** End of the maximal run of `\d` starting at `i`. */
  function SkipDigits(s: string, i: nat): (j: nat)
    requires i <= |s|
    ensures i <= j <= |s|
    ensures forall k :: i <= k < j ==> IsDigit(s[k])
    ensures j == |s| || !IsDigit(s[j])
    decreases |s| - i
  {
    if i < |s| && IsDigit(s[i]) then SkipDigits(s, i + 1) else i
  }

  /** End of the maximal run of `*` starting at `i`. */
  function SkipStars(s: string, i: nat): (j: nat)
    requires i <= |s|
    ensures i <= j <= |s|
    ensures forall k :: i <= k < j ==> s[k] == '*'
    ensures j == |s| || s[j] != '*'
    decreases |s| - i
  {
    if i < |s| && s[i] == '*' then SkipStars(s, i + 1) else i
  }

  // ---------------------------------------------------------------------------
  // trim / trimStart
  // ---------------------------------------------------------------------------

  function TrimStart(s: string): (t: string)
    ensures |t| <= |s| && t == s[|s| - |t|..]
    ensures t == [] || !IsSpace(t[0])
    ensures forall k :: 0 <= k < |s| - |t| ==> IsSpace(s[k])
  {
    if s != [] && IsSpace(s[0]) then TrimStart(s[1..]) else s
  }

  function TrimEnd(s: string): (t: string)
    ensures |t| <= |s| && t == s[..|t|]
    ensures t == [] || !IsSpace(t[|t| - 1])
    ensures forall k :: |t| <= k < |s| ==> IsSpace(s[k])
  {
    if s != [] && IsSpace(s[|s| - 1]) then TrimEnd(s[..|s| - 1]) else s
  }

  function Trim(s: string): (t: string)
    ensures |t| <= |s|
    ensures t == [] || (!IsSpace(t[0]) && !IsSpace(t[|t| - 1]))
  {
    TrimEnd(TrimStart(s))
  }

  predicate IsTrimmed(s: string) {
    s == [] || (!IsSpace(s[0]) && !IsSpace(s[|s| - 1]))
  }

  /** A string that is blank after trimming consists of `\s` only. */
  lemma TrimEmptyIffBlank(s: string)
    ensures Trim(s) == [] <==> forall k :: 0 <= k < |s| ==> IsSpace(s[k])
  {
    var u := TrimStart(s);
    if Trim(s) == [] {
      assert TrimEnd(u) == [];
      assert u == [];
    } else {
      assert u != [] && !IsSpace(u[0]);
      assert s[|s| - |u|] == u[0];
    }
  }

  lemma TrimOfTrimmed(s: string)
    requires IsTrimmed(s)
    ensures Trim(s) == s
  {
  }

  /** `trimStart` drops exactly a leading run of whitespace. */
  lemma {:induction false} TrimStartPadded(w: string, y: string)
    requires forall k :: 0 <= k < |w| ==> IsSpace(w[k])
    requires y == [] || !IsSpace(y[0])
    ensures TrimStart(w + y) == y
  {
    if w == [] {
      assert w + y == y;
    } else {
      assert (w + y)[0] == w[0];
      assert (w + y)[1..] == w[1..] + y;
      TrimStartPadded(w[1..], y);
    }
  }

  /** `trimEnd` drops exactly a trailing run of whitespace. */
  lemma {:induction false} TrimEndPadded(y: string, w: string)
    requires forall k :: 0 <= k < |w| ==> IsSpace(w[k])
    requires y == [] || !IsSpace(y[|y| - 1])
    ensures TrimEnd(y + w) == y
  {
    if w == [] {
      assert y + w == y;
    } else {
      var s := y + w;
      assert s[|s| - 1] == w[|w| - 1];
      assert s[..|s| - 1] == y + w[..|w| - 1];
      TrimEndPadded(y, w[..|w| - 1]);
    }
  }

  /** Trimming a trimmed text padded with whitespace on both sides gives the text back. */
  lemma TrimPadded(w1: string, x: string, w2: string)
    requires forall k :: 0 <= k < |w1| ==> IsSpace(w1[k])
    requires forall k :: 0 <= k < |w2| ==> IsSpace(w2[k])
    requires IsTrimmed(x)
    ensures Trim(w1 + x + w2) == x
  {
    var s := w1 + x + w2;
    if x == [] {
      assert s == w1 + w2;
      assert forall k :: 0 <= k < |s| ==> IsSpace(s[k]) by {
        forall k | 0 <= k < |s| ensures IsSpace(s[k]) {
          if k < |w1| { assert s[k] == w1[k]; } else { assert s[k] == w2[k - |w1|]; }
        }
      }
      TrimEmptyIffBlank(s);
    } else {
      assert s == w1 + (x + w2);
      TrimStartPadded(w1, x + w2);
      TrimEndPadded(x, w2);
    }
  }

  /** Trimming drops one trailing whitespace character after trimmed text. */
  lemma TrimSpaceAfter(u: string, c: char)
    requires u != [] && IsTrimmed(u) && IsSpace(c)
    ensures Trim(u + [c]) == u
  {
    var t := u + [c];
    assert TrimStart(t) == t;
    assert t[..|t| - 1] == u;
    assert TrimEnd(t) == TrimEnd(u);
    TrimOfTrimmed(u);
  }

  // ---------------------------------------------------------------------------
  // the global replace of `**` by the empty string
  // ---------------------------------------------------------------------------

  /** Removes every `**`, scanning left to right without overlap. */
  function RemoveBold(s: string): (r: string)
    ensures |r| <= |s|
    ensures s != [] && s[0] != '*' ==> r != [] && r[0] == s[0]
  {
    if |s| >= 2 && s[0] == '*' && s[1] == '*' then RemoveBold(s[2..])
    else if s == [] then []
    else [s[0]] + RemoveBold(s[1..])
  }

  /** No `**` is left: a kept `*` is never followed by another one. */
  lemma {:induction false} RemoveBoldStarFree(s: string)
    ensures !Contains(RemoveBold(s), "**")
  {
    if |s| >= 2 && s[0] == '*' && s[1] == '*' {
      RemoveBoldStarFree(s[2..]);
    } else if s != [] {
      var rest := RemoveBold(s[1..]);
      RemoveBoldStarFree(s[1..]);
      assert RemoveBold(s) == [s[0]] + rest;
      assert s[0] == '*' ==> (rest == [] || rest[0] != '*');
      forall i | 0 <= i <= |[s[0]] + rest| - 2
        ensures !HasAt([s[0]] + rest, i, "**")
      {
        if i > 0 {
          assert ([s[0]] + rest)[i..i + 2] == rest[i - 1..i + 1];
          assert !HasAt(rest, i - 1, "**");
        } else {
          assert ([s[0]] + rest)[0..2] == [s[0], rest[0]];
        }
      }
    }
  }

  lemma RemoveBoldNoStars(s: string)
    requires !Contains(s, "**")
    ensures RemoveBold(s) == s
  {
    if s != [] {
      assert HasAt(s, 0, "**") <==> |s| >= 2 && s[0] == '*' && s[1] == '*' by {
        if |s| >= 2 { assert s[0..2] == [s[0], s[1]]; }
      }
      assert !Contains(s[1..], "**") by {
        forall i | 0 <= i <= |s[1..]| - 2 ensures !HasAt(s[1..], i, "**") {
          assert !HasAt(s, i + 1, "**");
          assert s[1..][i..i + 2] == s[i + 1..i + 3];
        }
      }
      RemoveBoldNoStars(s[1..]);
    }
  }

  // ---------------------------------------------------------------------------
  // split on one character, join with a separator
  // ---------------------------------------------------------------------------

  /** `s.split(c)` for a one-character separator. */
  function Split(s: string, c: char): (parts: seq<string>)
    ensures |parts| >= 1
    ensures forall k :: 0 <= k < |parts| ==> c !in parts[k]
  {
    if s == [] then [""]
    else
      var rest := Split(s[1..], c);
      if s[0] == c then [""] + rest
      else [[s[0]] + rest[0]] + rest[1..]
  }

  /** A slice of a run without line terminators has none either. */
  lemma NoTerminatorSlice(s: string, i: nat, j: nat)
    requires i <= j <= |s|
    requires forall k :: i <= k < j ==> !IsLineTerminator(s[k])
    ensures forall k :: 0 <= k < |s[i..j]| ==> !IsLineTerminator(s[i..j][k])
  {
    forall k | 0 <= k < |s[i..j]| ensures s[i..j][k] == s[i + k] { }
  }

  /** Sequence concatenation is associative. */
  lemma AppendAssoc<T>(a: seq<T>, b: seq<T>, c: seq<T>)
    ensures a + (b + c) == (a + b) + c
  {
  }

  /** The pieces glued back together. */
  function Concat(parts: seq<string>): string {
    if parts == [] then "" else parts[0] + Concat(parts[1..])
  }

  /** Every piece is non-empty. */
  predicate AllNonEmpty(parts: seq<string>) {
    forall k :: 0 <= k < |parts| ==> parts[k] != []
  }

  /** The pieces with the empty ones left out: `.filter(w => w.length > 0)`, `if (!part) return`. */
  function NonEmpty(parts: seq<string>): (r: seq<string>)
    ensures AllNonEmpty(r)
    ensures forall w :: w in r <==> w in parts && w != []
    ensures Concat(r) == Concat(parts)
  {
    if parts == [] then []
    else if parts[0] == [] then NonEmpty(parts[1..])
    else [parts[0]] + NonEmpty(parts[1..])
  }

  lemma {:induction false} ConcatAppend(a: seq<string>, b: seq<string>)
    ensures Concat(a + b) == Concat(a) + Concat(b)
  {
    if a != [] {
      assert (a + b)[1..] == a[1..] + b;
      ConcatAppend(a[1..], b);
    } else {
      assert a + b == b;
    }
  }

  /** A text without `w` has no piece containing `w`. */
  lemma NoContainsInfix(a: string, b: string, c: string, w: string)
    requires !Contains(a + b + c, w)
    ensures !Contains(b, w)
  {
    forall i | 0 <= i <= |b| - |w| ensures !HasAt(b, i, w) {
      assert !HasAt(a + b + c, |a| + i, w);
      assert (a + b + c)[|a| + i..|a| + i + |w|] == b[i..i + |w|];
    }
  }

  /** `parts.join(sep)`. */
  function Join(parts: seq<string>, sep: string): string {
    if parts == [] then ""
    else if |parts| == 1 then parts[0]
    else parts[0] + sep + Join(parts[1..], sep)
  }

  lemma {:induction false} JoinSplit(s: string, c: char)
    ensures Join(Split(s, c), [c]) == s
  {
    if s != [] {
      JoinSplit(s[1..], c);
      var rest := Split(s[1..], c);
      if s[0] == c {
        assert Split(s, c) == [""] + rest;
        assert Split(s, c)[1..] == rest;
      } else {
        var parts := Split(s, c);
        assert parts[0] == [s[0]] + rest[0];
        assert parts[1..] == rest[1..];
        if |rest| == 1 {
          assert s == [s[0]] + s[1..];
        } else {
          assert Join(rest, [c]) == rest[0] + [c] + Join(rest[1..], [c]);
          assert s == [s[0]] + s[1..];
        }
      }
    }
  }

  lemma {:induction false} SplitJoin(parts: seq<string>, c: char)
    requires |parts| >= 1
    requires forall k :: 0 <= k < |parts| ==> c !in parts[k]
    ensures Split(Join(parts, [c]), c) == parts
  {
    if |parts| == 1 {
      SplitNoSeparator(parts[0], c);
    } else {
      SplitJoin(parts[1..], c);
      SplitAppend(parts[0], Join(parts[1..], [c]), c);
      assert parts == [parts[0]] + parts[1..];
    }
  }

  lemma {:induction false} SplitNoSeparator(s: string, c: char)
    requires c !in s
    ensures Split(s, c) == [s]
  {
    if s != [] {
      assert c !in s[1..];
      SplitNoSeparator(s[1..], c);
      assert s == [s[0]] + s[1..];
    }
  }

  /** Splitting `a + [c] + b`, where `a` holds no `c`, puts `a` first. */
  lemma {:induction false} SplitAppend(a: string, b: string, c: char)
    requires c !in a
    ensures Split(a + [c] + b, c) == [a] + Split(b, c)
  {
    if a == [] {
      assert a + [c] + b == [c] + b;
      assert ([c] + b)[1..] == b;
    } else {
      assert (a + [c] + b)[1..] == a[1..] + [c] + b;
      assert c !in a[1..];
      SplitAppend(a[1..], b, c);
      assert a == [a[0]] + a[1..];
    }
  }

  // ---------------------------------------------------------------------------
  // Numbers
  // ---------------------------------------------------------------------------

  function DigitValue(c: char): nat requires IsDigit(c) { c as int - '0' as int }

  /** The value of a string of decimal digits (the empty string is 0). */
  function DigitsValue(s: string): nat
    requires forall k :: 0 <= k < |s| ==> IsDigit(s[k])
  {
    if s == [] then 0 else DigitsValue(s[..|s| - 1]) * 10 + DigitValue(s[|s| - 1])
  }

  /** Decimal rendering of a natural number, as `${n}` prints it. */
  function NatToString(n: nat): (s: string)
    ensures |s| >= 1
    ensures forall k :: 0 <= k < |s| ==> IsDigit(s[k])
    ensures DigitsValue(s) == n
  {
    var d := ['0' + (n % 10) as char];
    if n < 10 then d
    else
      var r := NatToString(n / 10) + d;
      assert r[..|r| - 1] == NatToString(n / 10);
      r
  }
}
