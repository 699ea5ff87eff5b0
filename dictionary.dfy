/**
 * The dictionary panel (components/Dictionary.tsx): the lookup guard and the
 * plain-text copy of a looked-up entry. The lookup is an AI call; its result
 * arrives here as a value (`None` for `null`). The clipboard write is left
 * out, so the copy produces the text it would write.
 */
module Dictionary {
  import opened JsText
  import opened ExportLayout

  /** An item of one of the optional lists: its English text and its Vietnamese gloss. */
  datatype Gloss = Gloss(text: string, vn: string)

  /**
   * A looked-up entry. A list the service left out is the empty list, since
   * `?.length > 0` treats the two alike.
   */
  datatype Entry = Entry(
    word: string, phonetic: string, partOfSpeech: string, translation: string, definition: string,
    phrases: seq<Gloss>, collocations: seq<Gloss>, idioms: seq<Gloss>)

  // ---------------------------------------------------------------------------
  // The copy text, line by line
  // ---------------------------------------------------------------------------

  /** `- text: vn` */
  function ItemLine(g: Gloss): string {
    "- " + g.text + ": " + g.vn
  }

  /** An optional section: nothing for an empty list, else its title, one line per item and a blank line. */
  function SectionLines(title: string, items: seq<Gloss>): (ls: seq<string>)
    ensures items == [] ==> ls == []
    ensures items != [] ==> |ls| == |items| + 2 && ls[0] == title && ls[|ls| - 1] == "" &&
                            forall k :: 0 <= k < |items| ==> ls[k + 1] == ItemLine(items[k])
  {
    if items == [] then [] else [title] + MapSeq(ItemLine, items) + [""]
  }

  /** The entry's four heading lines, followed by a blank line. */
  function HeadLines(e: Entry): seq<string> {
    [ToUpper(e.word) + " [" + e.phonetic + "]",
     "Part of Speech: " + e.partOfSpeech,
     "Meaning: " + e.translation,
     "Definition: " + e.definition,
     ""]
  }

  /** Every line of the copy, in order: the heading, then phrases, collocations and idioms. */
  function CopyLines(e: Entry): seq<string> {
    HeadLines(e) +
    SectionLines("PREPOSITIONAL PHRASES:", e.phrases) +
    SectionLines("COLLOCATIONS:", e.collocations) +
    SectionLines("IDIOMS:", e.idioms)
  }

  /** Lines each followed by a line break: what `text += line + '\n'` builds. */
  function Terminated(ls: seq<string>): string {
    if ls == [] then "" else ls[0] + "\n" + Terminated(ls[1..])
  }

  /** The text `handleCopyAll` writes for an entry. */
  function CopyText(e: Entry): string {
    Terminated(CopyLines(e))
  }

  lemma {:induction false} TerminatedAppend(a: seq<string>, b: seq<string>)
    ensures Terminated(a + b) == Terminated(a) + Terminated(b)
  {
    if a != [] {
      assert (a + b)[1..] == a[1..] + b;
      TerminatedAppend(a[1..], b);
    } else {
      assert a + b == b;
    }
  }

  // ---------------------------------------------------------------------------
  // handleCopyAll
  // ---------------------------------------------------------------------------

  lemma TerminatedSnoc(ls: seq<string>, x: string)
    ensures Terminated(ls + [x]) == Terminated(ls) + x + "\n"
  {
    TerminatedAppend(ls, [x]);
  }

  /** A non-empty section: its title line, its item lines, a blank line. */
  lemma SectionText(title: string, items: seq<Gloss>)
    requires items != []
    ensures Terminated(SectionLines(title, items)) == title + "\n" + Terminated(MapSeq(ItemLine, items)) + "\n"
  {
    var ls := [title] + MapSeq(ItemLine, items);
    TerminatedSnoc(ls, "");
    assert ls[1..] == MapSeq(ItemLine, items);
  }

  /** One more item adds its line and a line break. */
  lemma ItemsStep(items: seq<Gloss>, i: nat)
    requires i < |items|
    ensures Terminated(MapSeq(ItemLine, items[..i + 1])) ==
            Terminated(MapSeq(ItemLine, items[..i])) + ItemLine(items[i]) + "\n"
  {
    assert items[..i + 1] == items[..i] + [items[i]];
    MapSeqAppend(ItemLine, items[..i], [items[i]]);
    assert MapSeq(ItemLine, [items[i]]) == [ItemLine(items[i])];
    TerminatedSnoc(MapSeq(ItemLine, items[..i]), ItemLine(items[i]));
  }

  /** The items of one list, each appended as its line in a loop. */
  method AppendItems(text: string, items: seq<Gloss>) returns (out: string)
    ensures out == text + Terminated(MapSeq(ItemLine, items))
  {
    out := text;
    var i := 0;
    while i < |items|
      invariant 0 <= i <= |items|
      invariant out == text + Terminated(MapSeq(ItemLine, items[..i]))
    {
      var line := "- " + items[i].text + ": " + items[i].vn;
      ItemsStep(items, i);
      out := out + line + "\n";
      i := i + 1;
    }
    assert items[..i] == items;
  }

  /** One optional section appended to `text`: only for a non-empty list. */
  method AppendSection(text: string, title: string, items: seq<Gloss>) returns (out: string)
    ensures out == text + Terminated(SectionLines(title, items))
  {
    out := text;
    if |items| > 0 {
      var lines := Terminated(MapSeq(ItemLine, items));
      out := AppendItems(out + title + "\n", items);
      assert out == text + title + "\n" + lines;
      out := out + "\n";
      SectionText(title, items);
      assert Terminated(SectionLines(title, items)) == title + "\n" + lines + "\n";
    } else {
      assert SectionLines(title, items) == [];
    }
  }

  /** Terminating one more line of `ls`. */
  lemma TerminatedPrefix(ls: seq<string>, k: nat)
    requires k < |ls|
    ensures Terminated(ls[..k + 1]) == Terminated(ls[..k]) + (ls[k] + "\n")
  {
    assert ls[..k + 1] == ls[..k] + [ls[k]];
    TerminatedSnoc(ls[..k], ls[k]);
  }

  /** `handleCopyAll`: nothing without a result, else the entry's copy text. */
  method CopyAll(result: Option<Entry>) returns (copied: Option<string>)
    ensures result.None? ==> copied.None?
    ensures result.Some? ==> copied == Some(CopyText(result.value))
  {
    if result.None? {
      return None;
    }
    var e := result.value;
    var h := HeadLines(e);
    assert h[..0] == [];
    var text := ToUpper(e.word) + " [" + e.phonetic + "]\n";
    TerminatedPrefix(h, 0);
    assert text == Terminated(h[..1]);
    text := text + ("Part of Speech: " + e.partOfSpeech + "\n");
    TerminatedPrefix(h, 1);
    assert text == Terminated(h[..2]);
    text := text + ("Meaning: " + e.translation + "\n");
    TerminatedPrefix(h, 2);
    assert text == Terminated(h[..3]);
    text := text + ("Definition: " + e.definition + "\n\n");
    TerminatedPrefix(h, 3);
    TerminatedPrefix(h, 4);
    assert text == Terminated(h[..5]);
    assert h[..5] == h;
    var p := SectionLines("PREPOSITIONAL PHRASES:", e.phrases);
    var c := SectionLines("COLLOCATIONS:", e.collocations);
    var d := SectionLines("IDIOMS:", e.idioms);
    text := AppendSection(text, "PREPOSITIONAL PHRASES:", e.phrases);
    text := AppendSection(text, "COLLOCATIONS:", e.collocations);
    text := AppendSection(text, "IDIOMS:", e.idioms);
    TerminatedAppend(HeadLines(e), p);
    TerminatedAppend(HeadLines(e) + p, c);
    TerminatedAppend(HeadLines(e) + p + c, d);
    copied := Some(text);
  }

  // ---------------------------------------------------------------------------
  // What the copy says
  // ---------------------------------------------------------------------------

  /** The text is its lines joined by line breaks, ending with one. */
  lemma {:induction false} TerminatedIsJoin(ls: seq<string>)
    ensures Terminated(ls) == Join(ls + [""], "\n")
  {
    if ls != [] {
      TerminatedIsJoin(ls[1..]);
      assert (ls + [""])[1..] == ls[1..] + [""];
    }
  }

  /** No field of the entry holds a line break. */
  predicate SingleLineFields(e: Entry) {
    '\n' !in e.word && '\n' !in e.phonetic && '\n' !in e.partOfSpeech &&
    '\n' !in e.translation && '\n' !in e.definition &&
    (forall g :: g in e.phrases ==> '\n' !in g.text && '\n' !in g.vn) &&
    (forall g :: g in e.collocations ==> '\n' !in g.text && '\n' !in g.vn) &&
    (forall g :: g in e.idioms ==> '\n' !in g.text && '\n' !in g.vn)
  }

  lemma SectionSingleLines(title: string, items: seq<Gloss>)
    requires '\n' !in title
    requires forall g :: g in items ==> '\n' !in g.text && '\n' !in g.vn
    ensures forall k :: 0 <= k < |SectionLines(title, items)| ==> '\n' !in SectionLines(title, items)[k]
  {
    var ls := SectionLines(title, items);
    forall k | 0 <= k < |ls| ensures '\n' !in ls[k] {
      if 0 < k < |ls| - 1 {
        assert items[k - 1] in items;
      }
    }
  }

  lemma UpperSingleLine(s: string)
    requires '\n' !in s
    ensures '\n' !in ToUpper(s)
  {
    var u := ToUpper(s);
    forall k | 0 <= k < |u| ensures u[k] != '\n' {
      assert s[k] != '\n';
    }
  }

  /**
   * With single-line fields, splitting the copy at line breaks gives back
   * exactly its lines and a final empty piece: the heading, then each
   * non-empty list as its title, one `- text: vn` line per item in order and
   * a blank line, in the order phrases, collocations, idioms.
   */
  lemma CopyTextLines(e: Entry)
    requires SingleLineFields(e)
    ensures Split(CopyText(e), '\n') == CopyLines(e) + [""]
  {
    var ls := CopyLines(e) + [""];
    UpperSingleLine(e.word);
    SectionSingleLines("PREPOSITIONAL PHRASES:", e.phrases);
    SectionSingleLines("COLLOCATIONS:", e.collocations);
    SectionSingleLines("IDIOMS:", e.idioms);
    TerminatedIsJoin(CopyLines(e));
    SplitJoin(ls, '\n');
  }

  /** A list contributes lines exactly when it is non-empty, as many as it has items plus two. */
  lemma SectionsByList(e: Entry)
    ensures |CopyLines(e)| == 5 + Lines(e.phrases) + Lines(e.collocations) + Lines(e.idioms)
    ensures CopyLines(e)[..5] == HeadLines(e)
  {
  }

  /** The number of lines a list contributes. */
  function Lines(items: seq<Gloss>): nat {
    if items == [] then 0 else |items| + 2
  }

  // ---------------------------------------------------------------------------
  // handleLookup
  // ---------------------------------------------------------------------------

  /**
   * `handleLookup` with the service's answer given: a blank word leaves the
   * shown result alone, any other word replaces it with the answer.
   */
  function Lookup(word: string, shown: Option<Entry>, answer: Option<Entry>): (r: Option<Entry>)
    ensures Trim(word) == [] ==> r == shown
    ensures Trim(word) != [] ==> r == answer
  {
    if Trim(word) == [] then shown else answer
  }
}
