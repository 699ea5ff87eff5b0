# Mini-AI exam text pipeline, modelled in Dafny

Mini-AI is a React application. It asks an AI service for English exam sections, shows them on screen and exports them to a Word document. Between the service and the page sits a deterministic text pipeline, and this project models it.

**Export side** (`services/exportService.ts`)
- `formatTestContent` cuts the generated text at its answer-key header. It reads `n: value` entries into a record, walks the body lines while carrying the current question number, and appends a canonical key block. Along the way it:
  - rewrites question lines to `Question n. …`;
  - stars the correct option;
  - drops `=>` explanation lines.
- `renderRunsWithBolding` turns a labelled line into styled runs.
- `processContent` classifies each line and lays option lines out in one, two or four columns.
- `exportToWord` emits the generated sections in a fixed order.

**Screen side** (`components/TestContent.tsx`)
- `boldSpecialText` is the screen's twin of the run styling.
- `highlightKeywords` is a separate keyword tokenizer.
- The option grid is split out of a paragraph, and each display line has its leading whitespace trimmed.

**Small helpers around the pipeline**
- `App.tsx`: the quantity sent with a request, the per-subtype detail text, the generate guard and topic fallback, the list toggles, the toolbar's scroll-driven auto-hide, and the generate/refine updates of the sections.
- `components/Topbar.tsx`: the subtype panel and the numeric input clamps.
- `components/CefrCheck.tsx`: the active-term filter and sort, regex escaping, highlight colour, table order, word count and analyse guard.
- `components/Dictionary.tsx`: the copy-text serialiser and lookup guard.
- `components/LevelSelector.tsx`: the level picker.

## How the model is built

- **Modules.** There is one module per source unit:
  - `Formatter` and `AnswerKey` model `formatTestContent`.
  - `Spans`, `ExportRuns` and `ExportLayout` model the export.
  - `ScreenRuns`, `ScreenGrid`, `Keywords` and `Screen` model `TestContent.tsx`.
  - `App`, `Topbar`, `Subtypes`, `CefrCheck`, `Dictionary` and `LevelSelector` model the other components.
  - `Types` holds the enums; `JsText` holds the JavaScript string built-ins the code relies on.
- **Regular expressions.** Each regex is a hand-written recogniser over `seq<char>`. Where the code calls `split` with a capturing regex, the model builds the pieces and matches exactly as `String.prototype.split` does. Captures that did not take part are left out, as both renderers skip them.
- **Whitespace.** `\s` and `trim` use the JavaScript whitespace set. `.` excludes the line terminators.
- **Imperative parts.** They stay imperative, and each method is proved equal to a specification function. The properties are then proved about those functions:
  - `Formatter.FormatLines` is the line `map` with its mutable question number.
  - `AnswerKey.FoldMatches` is the `for…of` fill of the answers record.
  - `ExportRuns.PushPartRuns` is the `forEach` with `nameAlreadyStyled`.
  - `ExportLayout.LayoutOptions` and its three branches, and `ExportLayout.LayoutLines`.
  - `ScreenRuns.MapParts` and `ScreenGrid.CollectOptions`.
  - `Dictionary.CopyAll` with its `+=` loops.
  - The classes `App.ScrollBar` (the `lastScrollY` ref and expanded flag) and `App.Workspace` (the section state).
- **Answers record.** It is an insertion-ordered association list, because `Object.entries` lists keys in that order. Index-like keys come first in ascending order, then the others in insertion order. The numeric `sort` in the code is stable, so the model sorts by a rank that captures exactly this for keys below 2^53: `AnswerKey.Rank`.
- **AI calls.** Every AI service call becomes a parameter holding what the call returned: the generated section, the refined text, the dictionary entry, the analysis outcome.

Where the code's behaviour differs from what its names or comments suggest, the model follows the code:

- Without an answer-key header, the code extracts no entries, because `rawAnswerKey` is empty. Only a header opens the key section.
- One option marker makes an option line. The header rewrite is tested first and the `=>` discard last (`services/exportService.ts:32-57`).
- The star goes before every `X.`/`X)` of the correct letter at a start or after whitespace, not only the first, because the regex has the `g` flag.
- The dialogue-label test ignores case (`/i`). A line `A. cat  B. dog` is therefore exported as a labelled paragraph, not as options. `ExportLayout.OptionLineTakenAsDialogue` shows this.

## Model

| member | source | states |
|---|---|---|
| Formatter.Format | services/exportService.ts:5-76 | the imperative `formatTestContent` equals its specification `FormatTestContent` |
| Formatter.FormatLines | services/exportService.ts:26-60 | the line map with the mutable current question number yields exactly the specified lines, front to back |
| Formatter.MatchQuestion | services/exportService.ts:32 | a question match has a non-empty all-digit number and a rest without line terminators |
| Formatter.ProcessLine | services/exportService.ts:28-59 | a dropped line leaves the current question number unchanged |
| Formatter.CorrectLetter | services/exportService.ts:44-46 | a letter is chosen exactly when there is a current question whose answer, upper-cased, is one letter A-D, and it is that upper-cased letter |
| Formatter.InsertStarsPlaces | services/exportService.ts:49-50 | the replace adds exactly one `*` per `X.`/`X)` at the start or after whitespace: the line grows by that count, every character keeps its order and a `*` sits right before each such marker |
| Formatter.InsertStarsLength | services/exportService.ts:49-50 | the starred line is longer by the number of qualifying markers |
| Formatter.InsertStarsKeeps | services/exportService.ts:49-50 | character `i` reappears, moved right by the stars put before it and its own |
| Formatter.InsertStarsStar | services/exportService.ts:49-50 | a `*` is put right before every `X.`/`X)` at the start or after whitespace |
| Formatter.MarkCorrectStarsMarker | services/exportService.ts:47-50 | on a line with no starred marker, each qualifying marker comes out as the `*X.`/`*X)` mark the existence check looks for |
| Formatter.EmptyContent | services/exportService.ts:8 | empty content formats to the empty string |
| Formatter.NoHeaderFormat | services/exportService.ts:11-75 | without a header the whole text is processed with an empty answers record and no key block is appended |
| Formatter.NoHeaderNoStars | services/exportService.ts:42-55 | with an empty answers record a body without `*` comes out without `*`: no option is starred |
| Formatter.NoKeyIgnoresCurrent | services/exportService.ts:26-60 | with an empty answers record the output does not depend on the current question number |
| Formatter.NoKeyLineStarFree | services/exportService.ts:28-59 | with an empty answers record a line without `*` yields a line without `*` |
| Formatter.QuestionOfStarFree | services/exportService.ts:32-39 | a question line read from a text without `*` holds none |
| Formatter.QuestionLineStarFree | services/exportService.ts:36-39 | the rewritten question line holds a `*` only if its text did |
| Formatter.NoKeyLine | services/exportService.ts:29-59 | with no answers a line is kept as is if blank, rewritten if a question, trimmed if an option or plain line, dropped if an explanation |
| Formatter.LineDropped | services/exportService.ts:29-60 | a line is dropped iff, trimmed, it is non-blank, starts with `=>` and holds no option marker |
| Formatter.OnlyExplanationsDropped | services/exportService.ts:57-60 | the output has exactly as many lines as the input minus the dropped explanation lines |
| Formatter.ExplanationIsNotQuestion | services/exportService.ts:32-57 | a line starting with `=>` is never read as a question line |
| Formatter.OneMarkerMakesOptionLine | services/exportService.ts:42-55 | a single option marker makes a line an option line, which is returned trimmed or starred |
| Formatter.ParseQuestionLine | services/exportService.ts:32-39 | `Question n. r` parses back to number `n` and rest `r` |
| Formatter.QuestionLineFixedPoint | services/exportService.ts:32-40 | a normalised question line is rewritten to itself and sets the current number to `n` |
| Formatter.QuestionRewriteNotIdempotent | services/exportService.ts:32-39 | `1. **** x` becomes `Question 1.  x`, which a second pass changes to `Question 1. x` |
| Formatter.StarsRoundTrip | services/exportService.ts:49-50 | on a line with no star mark yet, dropping the inserted stars gives the line back |
| Formatter.InsertedStarIsMark | services/exportService.ts:47-50 | if inserting changed the line, the result holds the `*X.`/`*X)` mark the existence check looks for |
| Formatter.MarkCorrectIdempotent | services/exportService.ts:44-53 | starring an option line a second time changes nothing |
| AnswerKey.FindHeader | services/exportService.ts:10-11 | the position found is the first answer-key header at or after the start |
| AnswerKey.SplitAtHeader | services/exportService.ts:11-14 | body and raw key concatenate to the content; with no header the body is everything and the key empty; otherwise the key starts at the first header |
| AnswerKey.BodyHasNoHeader | services/exportService.ts:11-13 | the body holds no header |
| AnswerKey.ValueFrom | services/exportService.ts:17 | the lazy value ends at the first place where the lookahead (next entry, end or line break) holds and not before |
| AnswerKey.TryValueStarts | services/exportService.ts:17 | the separator's whitespace gives back characters, longest first: the value starts at the latest position where one matches, and no match means none matches at any position of the run |
| AnswerKey.EntryAt | services/exportService.ts:17 | an entry match has a non-empty digit number and a non-empty value without line breaks |
| AnswerKey.MatchEntries | services/exportService.ts:17 | every matched entry has a non-empty all-digit number |
| AnswerKey.NoEntriesInEmpty | services/exportService.ts:14-17 | the empty key section yields no entry |
| AnswerKey.CleanValue | services/exportService.ts:20-21 | the cleaned value is trimmed and no longer than the raw one |
| AnswerKey.CleanValuePadded | services/exportService.ts:20-21 | a trimmed value without a trailing comma, padded with whitespace, cleans to itself |
| AnswerKey.CleanValueTrailingComma | services/exportService.ts:20-21 | one trailing comma is removed with the whitespace around it, and the text before it is trimmed |
| AnswerKey.Lookup | services/exportService.ts:22 | a key has a value iff it is stored |
| AnswerKey.Put | services/exportService.ts:22 | storing adds the key, keeps keys distinct and maps the key to the value; a new key goes last, and with an existing key every key stays at its position |
| AnswerKey.PutOthers | services/exportService.ts:22 | storing under one key leaves every other key's value alone |
| AnswerKey.FoldEntries | services/exportService.ts:18-23 | the record built from the matches has distinct keys |
| AnswerKey.ExtractAnswers | services/exportService.ts:16-23 | the extraction equals the specified record of the key section, with distinct keys |
| AnswerKey.FoldMatches | services/exportService.ts:18-23 | the `for…of` loop equals the fold of the matches |
| AnswerKey.FoldKeys | services/exportService.ts:18-23 | the record's keys are exactly the matched numbers |
| AnswerKey.KeysOfNums | services/exportService.ts:18-23 | storing one more match adds exactly its number to the keys |
| AnswerKey.LastEntryWins | services/exportService.ts:18-23 | a repeated number keeps the value of its last entry |
| AnswerKey.FoldDigitKeys | services/exportService.ts:19-22 | every key of the record is a string of digits |
| AnswerKey.InsertByRank | services/exportService.ts:65-66 | insertion keeps the list sorted by rank and adds exactly the one entry |
| AnswerKey.SortByRank | services/exportService.ts:65-66 | the sorted entries are a permutation of the record, sorted by rank |
| AnswerKey.SortedPairwise | services/exportService.ts:65-66 | in a rank-sorted list every earlier entry has rank at most that of every later one |
| AnswerKey.FormatPairs | services/exportService.ts:67 | one `n. value` line per entry, in order |
| AnswerKey.NoHeaderNoKey | services/exportService.ts:62-75 | without a header there are no answers and no key block |
| AnswerKey.FallbackKeepsSection | services/exportService.ts:71-73 | with a header but no parsed entry, the raw section is appended trimmed with every `**` removed |
| AnswerKey.ReassemblyOrdered | services/exportService.ts:63-68 | the reassembled entries are a permutation of the answers, in ascending numeric order |
| AnswerKey.LongAnswersOnePerLine | services/exportService.ts:64-70 | with an answer longer than 5, the key block is the header followed by one `n. value` line per entry |
| AnswerKey.ShortAnswersOneLine | services/exportService.ts:64-70 | with all answers of at most 5 characters, the entries are joined by three spaces |
| Spans.SpanAt | services/exportService.ts:114 | a span match is at least two characters and ends within the text |
| Spans.SplitFrom | services/exportService.ts:114 | the split alternates text and spans, so it has an odd number of pieces |
| Spans.SplitSpans | services/exportService.ts:114 | the split of a line has an odd number of pieces |
| Spans.SplitFromConcat | services/exportService.ts:114 | the pieces concatenate back to the text |
| Spans.SplitSpansConcat | services/exportService.ts:114 | splitting a line loses nothing |
| Spans.FirstPieceIsPrefix | components/TestContent.tsx:51-59 | the first piece, where the screen looks for a label, is a prefix of the text |
| Spans.PartTestsExclusive | services/exportService.ts:119-122 | a part passes at most one of the quoted, brackets, bold and marker tests |
| Spans.PartsWithoutBold | services/exportService.ts:114 | every piece of a text without `**` is free of `**` |
| ExportRuns.QuestionLabelEnd | services/exportService.ts:79 | a question label is at least ten characters long |
| ExportRuns.CefrLabelEnd | services/exportService.ts:80 | a CEFR label is at least three characters long |
| ExportRuns.DialogueLabelEnd | services/exportService.ts:81 | a dialogue label is at least two characters long |
| ExportRuns.LabelsExclusive | services/exportService.ts:83-99 | at most one label recogniser accepts a line |
| ExportRuns.LabelLength | services/exportService.ts:87-99 | the label fits in the line |
| ExportRuns.LabelStyle | services/exportService.ts:103-111 | question and dialogue labels are bold blue; CEFR labels are bold, dark and underlined; no label gives no run |
| ExportRuns.PushPartRuns | services/exportService.ts:115-151 | the `forEach` with `nameAlreadyStyled` appends exactly the specified part runs |
| ExportRuns.RenderRunsWithBolding | services/exportService.ts:78-154 | the method returns the label run followed by the part runs |
| ExportRuns.PartRunsLength | services/exportService.ts:117-151 | one run per non-empty part |
| ExportRuns.OnlyFirstBoldIsName | services/exportService.ts:128-135 | on a dialogue line only the first bold part is blue; any other part is styled as without the flag |
| ExportRuns.NameAt | services/exportService.ts:128-135 | the run of part `i` is the part styled with the name flag iff no earlier part was bold |
| ExportRuns.LaterBoldNotBlue | services/exportService.ts:128-135 | of two bold parts, the later one is never blue |
| ExportRuns.PartRunsSkipEmpty | services/exportService.ts:118 | empty parts contribute nothing |
| ExportRuns.PartRunsSpell | services/exportService.ts:117-151 | the run texts spell the parts with `**` removed inside bold and quoted parts |
| ExportRuns.CleanedEither | services/exportService.ts:124-137 | a part is shown as it is or with `**` removed |
| ExportRuns.PartsSpellText | services/exportService.ts:114-151 | without `**`, the part runs spell the text exactly |
| ExportRuns.LabelSpellsLabel | services/exportService.ts:103-111 | the label run holds exactly the label |
| ExportRuns.RunsSpellLine | services/exportService.ts:83-153 | without `**`, all the runs of a line spell the line |
| ExportLayout.OptMatchAt | services/exportService.ts:187 | an option match captures at least three characters after its leading whitespace |
| ExportLayout.OptSplitFrom | services/exportService.ts:187 | the split has an odd number of pieces |
| ExportLayout.CaptureIsMarker | services/exportService.ts:187 | a capture is a marker: stars, a letter A-D, `.` or `)`, whitespace |
| ExportLayout.OddPartsAreMarkers | services/exportService.ts:187 | every odd-numbered piece is a captured marker |
| ExportLayout.OptionParts | services/exportService.ts:187 | the filtered parts are all non-empty |
| ExportLayout.PairAt | services/exportService.ts:190-196 | one round of the pairing loop makes at most one option |
| ExportLayout.PairOptions | services/exportService.ts:188-196 | the pairing loop equals the specified trimmed pairing |
| ExportLayout.PairingStep | services/exportService.ts:190-192 | over non-empty parts, part `i` pairs with part `i + 1` |
| ExportLayout.PairingLone | services/exportService.ts:193-194 | a last part without a partner makes an option iff it holds a letter mark |
| ExportLayout.PairingCount | services/exportService.ts:190-196 | half the parts (rounded down) pair up, plus one for a lone last part holding a letter mark |
| ExportLayout.PairingPositional | services/exportService.ts:190-196 | option `k` is the trimmed parts `2k` and `2k + 1` |
| ExportLayout.OptionsTrimmed | services/exportService.ts:192-194 | every option's label and text are trimmed |
| ExportLayout.MaxWidth | services/exportService.ts:198 | the maximum bounds every width and is attained; -1 for no option |
| ExportLayout.Columns | services/exportService.ts:198-201 | one column iff some label+text exceeds 35; two iff none does and one exceeds 18; else four |
| ExportLayout.LayoutOneColumn | services/exportService.ts:203-210 | the one-column loop emits one paragraph per option |
| ExportLayout.LayoutTwoColumns | services/exportService.ts:211-223 | the pair loop equals the specified two-column layout |
| ExportLayout.LayoutFourColumns | services/exportService.ts:224-229 | the run loop equals the tab-separated run list |
| ExportLayout.LayoutOptions | services/exportService.ts:203-240 | the branch chosen by the column count yields the specified paragraphs |
| ExportLayout.OneColumnShows | services/exportService.ts:203-210 | one column shows every option once and in order |
| ExportLayout.TwoColumnsShow | services/exportService.ts:211-223 | two columns show every option once and in order |
| ExportLayout.FourColumnsShow | services/exportService.ts:224-239 | four columns show every option once and in order |
| ExportLayout.LayoutShowsEveryOption | services/exportService.ts:203-240 | whatever the column count, every option is shown once and in order |
| ExportLayout.OneColumnCount | services/exportService.ts:203-210 | one paragraph per option |
| ExportLayout.TwoColumnsCount | services/exportService.ts:211-223 | ceil(n/2) paragraphs |
| ExportLayout.LayoutParagraphCount | services/exportService.ts:203-240 | n, ceil(n/2) or 1 paragraphs for 1, 2 or 4 columns |
| ExportLayout.KindOf | services/exportService.ts:169-186 | blank, labelled (dialogue iff a dialogue label), options, answer-key header or plain, tested in this order |
| ExportLayout.ProcessContent | services/exportService.ts:161-256 | the method equals the specified paragraphs of the text's lines |
| ExportLayout.LayoutLines | services/exportService.ts:165-254 | the `forEach` pushes each line's paragraphs in order |
| ExportLayout.LineKept | services/exportService.ts:166-167 | a line gives no paragraph iff it is blank after trimming |
| ExportLayout.DialogueLineWins | services/exportService.ts:171-175 | a line with a dialogue label is labelled, whatever markers it holds |
| ExportLayout.OptionLineTakenAsDialogue | services/exportService.ts:171-186 | `A. cat    B. dog` has option markers but is laid out as a dialogue line |
| ExportLayout.LeadingTextShiftsPairs | services/exportService.ts:187-196 | text before the first marker shifts the pairing: `x A. y` gives the single option `x` / `A.` |
| ExportLayout.ExportedKinds | services/exportService.ts:266-269 | the kinds exported are those of the order that were generated |
| ExportLayout.Underscored | services/exportService.ts:311 | no whitespace is left and the topic never grows |
| ExportLayout.UnderscoredRun | services/exportService.ts:311 | text, a whitespace run, then text not starting with whitespace: the whole run becomes one `_` and the text before it is kept |
| ExportLayout.UnderscoredLeadingRun | services/exportService.ts:311 | a leading whitespace run becomes one `_` |
| ExportLayout.UnderscoredKeeps | services/exportService.ts:311 | a topic without whitespace is kept |
| ExportLayout.FileName | services/exportService.ts:311 | the file name starts with `Test_`, ends with `.docx` and holds no whitespace |
| ExportLayout.ExportToWord | services/exportService.ts:258-311 | the title, then each generated section in the fixed order; the file name from the topic |
| ExportLayout.SectionsOfExportedKinds | services/exportService.ts:266-279 | the sections emitted are exactly those of the exported kinds, in order |
| ExportLayout.ToolsNotExported | services/exportService.ts:266 | the dictionary, translation and CEFR tabs never reach the document |
| ExportLayout.ExportedInOrder | services/exportService.ts:266-279 | exported sections keep the order Vocabulary, WordList, Grammar, Communication, Reading, Rewriting, Arrangement |
| Keywords.PercentEnd | components/TestContent.tsx:37 | `%?\b` ends at a word boundary at most one character on |
| Keywords.SuffixEnd | components/TestContent.tsx:37 | the ordinal suffix and percent end at a word boundary |
| Keywords.NumberMatchAt | components/TestContent.tsx:37 | a number match is non-empty |
| Keywords.LastBoundary | components/TestContent.tsx:37 | the last word boundary of a range, or none there |
| Keywords.WordMatchAt | components/TestContent.tsx:37 | a capitalised-word match is non-empty |
| Keywords.KeywordMatchAt | components/TestContent.tsx:37 | the alternation matches a non-empty token |
| Keywords.KeywordSplitFrom | components/TestContent.tsx:37 | the split has an odd number of pieces |
| Keywords.PiecesOf | components/TestContent.tsx:38-43 | every rendered piece is non-empty and highlighted iff it is a number token or a capitalised non-stop word longer than one |
| Keywords.KeywordSplitConcat | components/TestContent.tsx:37 | the pieces concatenate back to the text |
| Keywords.PiecesSpell | components/TestContent.tsx:38-43 | the rendered pieces spell the parts |
| Keywords.KeywordsSpellText | components/TestContent.tsx:34-43 | the pieces, highlighted or not, spell the text exactly |
| Keywords.NumberMatchIsToken | components/TestContent.tsx:37-40 | a number match passes the anchored number test |
| Keywords.WordMatchIsCapWord | components/TestContent.tsx:37-41 | a word match passes the anchored capitalised-word test |
| Keywords.CapturedPartsAreKeywords | components/TestContent.tsx:37-41 | every captured part is a number token or a capitalised word |
| Keywords.StopWordPlain | components/TestContent.tsx:36-41 | no stop word is ever highlighted |
| Keywords.PercentLeftOut | components/TestContent.tsx:37-40 | in `5%` at the end of a text only `5` is highlighted |
| ScreenRuns.QuestionEnd | components/TestContent.tsx:47 | a question label (`Question n` or a bare `n.`) is at least two characters |
| ScreenRuns.CefrEnd | components/TestContent.tsx:48 | a CEFR label is at least three characters |
| ScreenRuns.DialogueEnd | components/TestContent.tsx:49 | a dialogue label is at least two characters |
| ScreenRuns.LabelOf | components/TestContent.tsx:59-92 | no label iff no regex matches; a dialogue label only when question and CEFR fail |
| ScreenRuns.LabelFragment | components/TestContent.tsx:64-91 | a bold label span followed by the plain remainder, spelling the part |
| ScreenRuns.StyledPart | components/TestContent.tsx:95-118 | a part is bold iff it is coloured, and never underlined |
| ScreenRuns.FirstLabel | components/TestContent.tsx:59-62 | the label of the first part fits in it |
| ScreenRuns.StyledPartsStrong | components/TestContent.tsx:95-118 | every part renders as plain text or as a coloured `<strong>` |
| ScreenRuns.BoldSpecialText | components/TestContent.tsx:46-121 | the method equals the specified rendering |
| ScreenRuns.MapParts | components/TestContent.tsx:56-120 | the `map` with `isLineDialogue` and `nameAlreadyStyled` yields the specified runs |
| ScreenRuns.StyledPartLikeExport | components/TestContent.tsx:95-118 | after the label, a part looks on screen as it does in the export |
| ScreenRuns.StyledPartsLikeExport | components/TestContent.tsx:53-120 | the screen styles the parts exactly as the export does |
| ScreenRuns.LaterBoldDark | components/TestContent.tsx:111-115 | on a dialogue line a bold part after another bold part is dark |
| ScreenRuns.StyledPartsSpell | components/TestContent.tsx:95-119 | the rendered texts spell the parts with `**` removed inside bold and quoted parts |
| ScreenRuns.RenderPartsSpell | components/TestContent.tsx:56-120 | with the label, the rendered texts spell the first part and then the cleaned rest |
| ScreenRuns.PlainPartsSpell | components/TestContent.tsx:56-120 | without `**`, the rendered texts spell the parts |
| ScreenRuns.BoldSpecialSpells | components/TestContent.tsx:46-121 | without `**`, the rendering spells the text |
| ScreenRuns.BareNumberLabelled | components/TestContent.tsx:47-72 | `1. Go` has a blue question label on screen but none in the export |
| ScreenGrid.GridMatchAt | components/TestContent.tsx:202 | a match iff a marker follows the stars; at least three characters |
| ScreenGrid.GridSplitFrom | components/TestContent.tsx:205 | the split has an odd number of pieces |
| ScreenGrid.GridParts | components/TestContent.tsx:205 | the split of a paragraph has an odd number of pieces |
| ScreenGrid.GridOptions | components/TestContent.tsx:208-210 | option `j` is marker `2j+1` followed by part `2j+2`, or nothing |
| ScreenGrid.CollectOptions | components/TestContent.tsx:207-210 | the loop collects exactly the specified options |
| ScreenGrid.MaxLength | components/TestContent.tsx:212 | the maximum bounds every length and is attained; -1 for none |
| ScreenGrid.GridColumns | components/TestContent.tsx:212-215 | one column iff some untrimmed option exceeds 35; two iff none does and one exceeds 18; else four |
| ScreenGrid.SplitFindsMarker | components/TestContent.tsx:202 | a marker in the text makes the split at least three pieces |
| ScreenGrid.SplitFoundMarker | components/TestContent.tsx:202 | a split of more than one piece has found a marker |
| ScreenGrid.InlineIffMarker | components/TestContent.tsx:202 | a paragraph is a grid iff it holds a marker; the count test adds nothing |
| ScreenGrid.GridMarkerIsOptionMarker | components/TestContent.tsx:202 | every screen grid paragraph is an option line for the export |
| ScreenGrid.CaptureIsGridMarker | components/TestContent.tsx:205 | a capture is stars, a letter A-D, `.`, whitespace |
| ScreenGrid.OddPartsAreGridMarkers | components/TestContent.tsx:205 | every odd-numbered piece is a marker |
| ScreenGrid.OptionsOpenWithMarkers | components/TestContent.tsx:205-210 | every option opens with its marker |
| ScreenGrid.GridSplitConcat | components/TestContent.tsx:205 | the split loses nothing |
| ScreenGrid.OptionsConcat | components/TestContent.tsx:208-210 | the options spell the parts after the first |
| ScreenGrid.GridSpellsParagraph | components/TestContent.tsx:205-210 | the question part and the options spell the paragraph |
| ScreenGrid.QuestionPartBeforeMarker | components/TestContent.tsx:205-206 | the question part is the text before the first marker |
| ScreenGrid.ParenMarkerNoGrid | components/TestContent.tsx:202 | `A) y` is an option line for the export but no grid on screen |
| ScreenGrid.ColumnsDiverge | components/TestContent.tsx:212-215 | one option of 19 untrimmed characters gives two columns on screen and four in the export |
| Screen.SplitDisplay | components/TestContent.tsx:188 | the display text has the input's lines, each with its leading whitespace removed |
| Screen.DisplayLines | components/TestContent.tsx:188 | no display line starts with whitespace |
| Screen.DisplayIdempotent | components/TestContent.tsx:188 | trimming the lines a second time changes nothing |
| Screen.Emphasis | components/TestContent.tsx:220-232 | the keyword highlighter iff keywords are switched on |
| Screen.RenderParagraph | components/TestContent.tsx:199-242 | the renderer equals the specified paragraph view |
| Screen.GridIffMarker | components/TestContent.tsx:202-223 | a grid iff a marker; one option per marker, spelling the paragraph after the question part |
| Screen.GridHeadBeforeFirstMarker | components/TestContent.tsx:205-206 | the grid's head is the text before the first marker |
| Screen.KeywordsOnlyForQuestions | components/TestContent.tsx:229-242 | the keyword switch changes only question and grid paragraphs |
| Screen.HighlightedQuestionSpells | components/TestContent.tsx:229-236 | a highlighted question paragraph spells its text |
| Screen.StyledParagraphSpells | components/TestContent.tsx:239-242 | without `**`, a styled paragraph spells its text |
| App.EffectiveQuantity | App.tsx:118-143 | WordList gives the question quantity; a configurable panel gives the total of its table; anything else gives the question quantity |
| App.Selected | App.tsx:156-158 | the listed entries are those with a positive count whose key is in the table |
| App.ItemTexts | App.tsx:158 | one `type: q items` text per listed entry, in record order |
| App.ButtonMatchesGuard | App.tsx:222-223 | the Generate button is enabled exactly when a click would generate |
| App.EffectiveTopic | App.tsx:151 | a non-empty topic is used as it is |
| App.FallbackTopicUnused | App.tsx:146-151 | past the guard the topic is the typed topic or the chips joined by `, `; an empty topic means Grammar with chips |
| App.RequestFor | App.tsx:150-202 | the request carries the tab, the level and the effective quantity |
| App.Without | App.tsx:108 | removes every occurrence and keeps everything else |
| App.Toggle | App.tsx:107-109 | an item ends up listed iff it was not; others are unaffected |
| App.WithoutAppended | App.tsx:108 | removing an appended absent item restores the list |
| App.ToggleTwice | App.tsx:107-109 | toggling an absent item twice restores the list |
| App.ToggleTwiceListed | App.tsx:108 | a listed item toggled twice moves to the end |
| App.SuggestionClick | App.tsx:111-115 | on Grammar the suggestion toggles a chip, elsewhere it becomes the topic |
| App.ScrollBar.constructor | App.tsx:51-53 | the bar starts expanded, with auto-hide on, at position 0 |
| App.ScrollBar.OnScroll | App.tsx:57-64 | no change if auto-hide is off or the move is under 10; otherwise collapse iff scrolling down past 50, and remember the position |
| App.ScrollBar.ToggleExpand | App.tsx:284 | flips the expanded flag only |
| App.ScrollBar.ToggleAutoHide | App.tsx:286 | flips auto-hide only |
| App.InitialTestData | App.tsx:15-26 | every kind has an empty, not generated section |
| App.WithGenerated | App.tsx:203 | only the tab's section changes: its content is set and it is generated |
| App.WithRefined | App.tsx:208-212 | a section that was not generated is unchanged; otherwise only its content changes |
| App.GenerateOverwrites | App.tsx:203 | regenerating a tab keeps only the last content |
| App.RefineAfterGenerate | App.tsx:203-212 | refining after generating is generating the refined text |
| App.Workspace.constructor | App.tsx:29-47 | the Vocabulary tab, the initial data, not processing |
| App.Workspace.SelectTab | App.tsx:231 | the tab changes and nothing else |
| App.Workspace.Generate | App.tsx:145-205 | no request and no change past a failed guard; otherwise the request for the settings is sent and only the tab's section is replaced |
| App.Workspace.Refine | App.tsx:207-214 | only a generated section is refined, and only its content changes |
| Topbar.PanelTable | components/Topbar.tsx:182-229 | a table iff the panel is configurable; Reading uses the reading form's table |
| Topbar.TotalQuantity | components/Topbar.tsx:232 | 0 without a table; otherwise the sum over the table's keys, missing keys counting 0 |
| Topbar.TestsInput | components/Topbar.tsx:358 | the number of tests is clamped to 1..5: a number in range is kept, above 5 gives 5, below 1 gives 1, and non-numeric input gives 1 |
| Topbar.QuantityInput | components/Topbar.tsx:280 | non-numeric input gives 0, a number is kept |
| Topbar.Decrement | components/Topbar.tsx:474 | never below 0: one less from a positive count, 0 from any other |
| Topbar.Increment | components/Topbar.tsx:498 | exactly one more than the shown count |
| Topbar.TypedCount | components/Topbar.tsx:488-489 | a number of at least 0 is kept; non-numeric or negative input gives 0 |
| Topbar.DecrementUndoesIncrement | components/Topbar.tsx:474-498 | minus undoes plus on a count of at least 0 |
| Topbar.StoreCount | App.tsx:253-267 | the new count goes to the shown panel's record; without a panel nothing changes |
| Topbar.ChangesKeepCountsNonNegative | components/Topbar.tsx:449-498 | minus, plus and typing keep every stored count at least 0 |
| Topbar.TotalFollowsChange | components/Topbar.tsx:232 | a change to a key of the shown table moves the total by the change in that key's count |
| Topbar.TotalIgnoresOtherKeys | components/Topbar.tsx:232 | a count stored under a key outside the table leaves the total alone |
| Subtypes.Keys | constants.ts:4-105 | every subtype table has at least two keys |
| Subtypes.ReadingTable | App.tsx:122-127 | `Reading Cloze Advanced` exactly, then the `Reading Cloze` prefix, then Matching, Open-Guided, Answer/True/False, else Comprehension |
| Subtypes.AdvancedBeforePrefix | App.tsx:122-123 | the advanced form also has the cloze prefix, so the test order matters |
| Subtypes.Get | App.tsx:128 | a missing key counts 0; counts of at least 0 give at least 0 |
| Subtypes.Set | App.tsx:253 | the key takes the new count and every other key keeps its count |
| Subtypes.SetKeys | App.tsx:253 | the record keeps its key order and a new key goes last |
| Subtypes.SetNonNegative | App.tsx:253 | storing a count of at least 0 keeps all counts at least 0 |
| Subtypes.TotalNonNegative | App.tsx:128 | with counts of at least 0 the total is at least 0 |
| Subtypes.TotalOutsideTable | App.tsx:128 | a key outside the table does not change the total |
| Subtypes.TotalAfterSet | App.tsx:128 | setting a key listed once changes the total by the change in its count |
| Subtypes.TotalOfEmpty | App.tsx:33-42 | an empty record totals 0 over any table |
| Types.TypeName | types.ts:2-13 | the enum's string value |
| Types.TypeNamesDistinct | types.ts:2-13 | distinct kinds have distinct string values |
| Types.SystemName | types.ts:15-21 | the level system's string value |
| CefrCheck.Insert | components/CefrCheck.tsx:64 | insertion adds exactly the one element |
| CefrCheck.SortBy | components/CefrCheck.tsx:64 | sorting is a permutation |
| CefrCheck.InsertOrdered | components/CefrCheck.tsx:64 | insertion into an ordered list under a total order keeps it ordered |
| CefrCheck.SortOrdered | components/CefrCheck.tsx:64 | a total order sorts any list into order |
| CefrCheck.ActiveOf | components/CefrCheck.tsx:60-63 | a term is kept iff its level is highlighted or its form equals a highlighted entry ignoring case; each active item occurs as often as in the analysis, any other not at all |
| CefrCheck.ActiveTermsSpec | components/CefrCheck.tsx:60-64 | the active terms are exactly the active items, as often as analysed, longest word first |
| CefrCheck.RenderAnalyzed | components/CefrCheck.tsx:66-110 | with active terms, one piece per split part holding its text, highlighted iff an active term's word matches it ignoring case; a highlighted piece carries an active item of the analysis and that item's colour |
| CefrCheck.TextsOf | components/CefrCheck.tsx:82-110 | one text per rendered piece, in order |
| CefrCheck.RenderNothingActive | components/CefrCheck.tsx:60-68 | when no item is active the input is rendered as one plain piece |
| CefrCheck.RenderKeepsInput | components/CefrCheck.tsx:66-110 | when the split parts concatenate to the input, so do the rendered pieces' texts |
| CefrCheck.NothingActiveShowsInput | components/CefrCheck.tsx:60-68 | when no item matches a highlighted level or form there are no active terms |
| CefrCheck.NoneActive | components/CefrCheck.tsx:60-63 | the filter then keeps nothing |
| CefrCheck.Escape | components/CefrCheck.tsx:71 | escaping never shortens the word and leaves a word without special characters alone |
| CefrCheck.EscapeAppend | components/CefrCheck.tsx:71 | escaping distributes over concatenation |
| CefrCheck.EscapeChar | components/CefrCheck.tsx:71 | a special character gains a backslash in front, any other character is kept as it is |
| CefrCheck.EscapeRoundTrip | components/CefrCheck.tsx:71 | the escaped pattern reads back as the word |
| CefrCheck.EscapedSpecialsQuoted | components/CefrCheck.tsx:71 | every special character in the escaped text is preceded by a backslash |
| CefrCheck.EscapedWords | components/CefrCheck.tsx:71 | one escaped word per active term, in order |
| CefrCheck.TermFor | components/CefrCheck.tsx:77-84 | a term is found iff some term's word, lower-cased, equals the part |
| CefrCheck.TermForIsLast | components/CefrCheck.tsx:77-78 | the term found is the last one whose word matches |
| CefrCheck.ColorFor | components/CefrCheck.tsx:88 | the form's colour, else the level's, else the default |
| CefrCheck.SegmentFor | components/CefrCheck.tsx:82-110 | a part keeps its text and is highlighted iff it names a term; a highlighted part carries a matching term and its colour |
| CefrCheck.LevelValue | components/CefrCheck.tsx:119-120 | C2=6 … A1=1, positive exactly for the six levels, unknown 0 |
| CefrCheck.LexTotal | components/CefrCheck.tsx:127 | the field order is total |
| CefrCheck.TableBeforeTotal | components/CefrCheck.tsx:122-128 | the table comparator is total |
| CefrCheck.LevelsDescend | components/CefrCheck.tsx:122-128 | level values never increase along an ordered table |
| CefrCheck.TableOrderSpec | components/CefrCheck.tsx:122-128 | the table is a permutation ordered by level value descending, then by field |
| CefrCheck.SplitWs | components/CefrCheck.tsx:200 | the split always has at least one piece |
| CefrCheck.SplitWsNoSpaces | components/CefrCheck.tsx:200 | the pieces hold no whitespace |
| CefrCheck.CountIsWordStarts | components/CefrCheck.tsx:200 | the non-empty pieces are exactly the places where a word starts |
| CefrCheck.WordCountSpec | components/CefrCheck.tsx:200 | the word count is the number of words the text begins, each free of whitespace |
| CefrCheck.Analyze | components/CefrCheck.tsx:29-49 | blank input changes nothing; a non-empty result is shown and hides the input; otherwise the analysis is cleared |
| CefrCheck.AnalyzedNeverEmpty | components/CefrCheck.tsx:29-49 | a shown analysis is never empty |
| Dictionary.SectionLines | components/Dictionary.tsx:34-48 | nothing for an empty list, else the title, one `- text: vn` line per item in order and a blank line |
| Dictionary.AppendItems | components/Dictionary.tsx:36 | the `forEach` appends one terminated line per item |
| Dictionary.AppendSection | components/Dictionary.tsx:34-38 | a section is appended iff its list is non-empty |
| Dictionary.CopyAll | components/Dictionary.tsx:27-50 | nothing without a result, else the entry's copy text |
| Dictionary.CopyTextLines | components/Dictionary.tsx:29-48 | the copy splits back into the heading lines, then phrases, collocations and idioms sections |
| Dictionary.SectionsByList | components/Dictionary.tsx:34-48 | a list adds its item count plus two lines iff it is non-empty; the heading comes first |
| Dictionary.Lookup | components/Dictionary.tsx:18-25 | a blank word leaves the result alone; any other word shows the service's answer |
| LevelSelector.Levels | components/LevelSelector.tsx:10-16 | every system offers at least four distinct sub-levels |
| LevelSelector.ChooseSystem | components/LevelSelector.tsx:24-26 | the new system with its first sub-level, which is consistent |
| LevelSelector.ChooseSubLevel | components/LevelSelector.tsx:38 | the system is kept; a sub-level from the menu keeps it consistent |
| LevelSelector.ChoicesKeepConsistent | components/LevelSelector.tsx:24-41 | both menus keep the selection consistent when the choice comes from the menu |
| LevelSelector.ReselectResets | components/LevelSelector.tsx:24-26 | re-choosing the current system resets the sub-level to the first |
| JsText.Trim | services/exportService.ts:29 | the result neither starts nor ends with whitespace |
| JsText.TrimEmptyIffBlank | services/exportService.ts:29-30 | a line is blank after trimming iff it holds only whitespace |
| JsText.TrimStart | components/TestContent.tsx:188 | the suffix left after the leading whitespace is removed |
| JsText.TrimStartPadded | services/exportService.ts:20 | `trimStart` drops exactly a leading run of whitespace |
| JsText.TrimEndPadded | services/exportService.ts:20 | `trimEnd` drops exactly a trailing run of whitespace |
| JsText.TrimPadded | services/exportService.ts:20-21 | trimming a trimmed text padded with whitespace gives the text back |
| JsText.RemoveBold | services/exportService.ts:39 | removing `**` never lengthens the text |
| JsText.RemoveBoldStarFree | services/exportService.ts:39 | no `**` is left afterwards |
| JsText.Split | services/exportService.ts:25 | at least one piece, none holding the separator |
| JsText.JoinSplit | services/exportService.ts:25 | joining the pieces with the separator gives the text back |
| JsText.SplitJoin | components/TestContent.tsx:188 | splitting joined separator-free pieces gives them back |

## Left out

- Strings are sequences of Unicode code points, not UTF-16 code units. Length thresholds (35, 18, 5) differ only for characters outside the Basic Multilingual Plane.
- Upper- and lower-casing (`toUpperCase`, `toLowerCase`, the `/i` flag) is modelled on the ASCII letters only.
- `localeCompare` in the CEFR table sort is modelled as code-point order, a total order standing in for the locale's.
- The docx `Document`/`Packer`/`Footer`/`PageNumber` construction and the `FileSaver` call are a foreign library and file I/O. Paragraphs and runs are plain datatypes holding the alignment, spacing, tab stops, text, bold, colour and underline the code sets. Fonts and sizes are not modelled.
- React and ReactMarkdown rendering, which decides what text reaches the `p` renderer, including `getStr`. A paragraph's text is a parameter here.
- AI service calls, `async`/`await`, the 800 ms suggestion debounce, clipboard writes and `alert`. Results arrive as parameters, and a generate or refine is one atomic state change.
- The suggestion-fetching effects (`App.tsx:66-105`) and the subtype description text are prompt plumbing for the AI service.
- The CefrCheck runtime regex `split` of the input at the active terms (`components/CefrCheck.tsx:72-74`). Its parts are a parameter of `CefrCheck.RenderAnalyzed`, and each part is handled by `CefrCheck.SegmentFor`.
- The `termMap` `forEach` fill is modelled functionally by `CefrCheck.TermFor` (the last matching term wins).
- `parseInt` prefix parsing is modelled as an `Option<int>` input, with `None` for `NaN`.
- AnswerKey.Rank: compares answer-key numbers as exact integers. The code subtracts two `parseInt` results, which are IEEE doubles. Numbers above 2^53 can round to equal values, and numbers of more than about 309 digits become `Infinity`, where the comparator gives `NaN` and the order is implementation-defined. The model orders such keys strictly by value, so it matches the code only for keys below 2^53.
- Scroll positions are `int`; the browser's fractional `scrollTop` is not modelled.
- The `READING_ANSWER` and `READING_TRUEFALSE` tables of `constants.ts` are unused by the code and left out.
- AnswerKey.SortByRank: stability is not proved. Distinct keys of equal rank, such as the non-canonical numerals `01` and `001`, keep record order in the code; the model proves only that the result is a rank-sorted permutation.
- Formatter.QuestionLineFixedPoint: idempotence of the question rewrite is proved only when the rest of the line is trimmed and holds no `**`. Formatter.QuestionRewriteNotIdempotent gives a line where a second pass changes the output.
- ExportRuns.RunsSpellLine: states the exact spelling only for lines without `**`. ExportRuns.PartRunsSpell states the general case with `**` removed inside bold and quoted parts.
- ScreenRuns.BoldSpecialSpells: likewise only for text without `**`; ScreenRuns.StyledPartsSpell states the general case.
- Dictionary.CopyTextLines: holds for entries whose fields contain no line break, since a line break inside a field would itself split a line.
- CefrCheck.TableOrderSpec: the tie order by field uses code-point order in place of `localeCompare`.
