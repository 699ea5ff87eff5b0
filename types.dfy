/**
 * The shared vocabulary of the application (types.ts): the kinds of test,
 * the level systems, a generated test section and the whole generated test.
 */
module Types {
  import opened JsText

  datatype TestType =
    | Vocabulary | WordList | Grammar | Reading | Rewriting | Arrangement
    | Communication | Dictionary | Translate | CefrCheck

  /** The enum's string value, which is also the tab's caption. */
  function TypeName(t: TestType): (s: string)
    ensures |s| >= 7
  {
    match t
    case Vocabulary => "Vocabulary"
    case WordList => "WordList"
    case Grammar => "Grammar"
    case Reading => "Reading"
    case Rewriting => "Rewriting"
    case Arrangement => "Arrangement"
    case Communication => "Communication"
    case Dictionary => "Dictionary"
    case Translate => "Translate"
    case CefrCheck => "CEFR Check"
  }

  /** Distinct kinds carry distinct string values. */
  lemma TypeNamesDistinct(a: TestType, b: TestType)
    requires a != b
    ensures TypeName(a) != TypeName(b)
  {
  }

  datatype LevelSystem = GlobalSuccess | Cefr | Ielts | Toefl | Toeic

  function SystemName(s: LevelSystem): (n: string)
    ensures |n| >= 4
  {
    match s
    case GlobalSuccess => "Global Success"
    case Cefr => "CEFR"
    case Ielts => "IELTS"
    case Toefl => "TOEFL"
    case Toeic => "TOEIC"
  }

  datatype LevelOption = LevelOption(system: LevelSystem, subLevel: string)

  /** One section of a test; `vocabularyAnalysis` maps a word to its CEFR level. */
  datatype TestContent = TestContent(
    id: string, kind: TestType, content: string, isGenerated: bool,
    vocabularyAnalysis: Option<map<string, string>>)

  /** `GeneratedTest`: a section per kind. */
  type GeneratedTest = map<TestType, TestContent>
}
