/**
 * The level picker (components/LevelSelector.tsx): a level system and one of
 * that system's sub-levels. Choosing a system selects its first sub-level;
 * choosing a sub-level keeps the system.
 */
module LevelSelector {
  import opened Types

  /** `systems`: the sub-levels each system offers, in menu order. */
  function Levels(s: LevelSystem): (ls: seq<string>)
    ensures |ls| >= 4
    ensures forall i, j :: 0 <= i < j < |ls| ==> ls[i] != ls[j]
  {
    match s
    case GlobalSuccess => ["Grade 10", "Grade 11", "Grade 12", "High School Final Exam"]
    case Cefr => ["A1", "A2", "B1", "B2", "C1", "C2"]
    case Ielts => ["4.0", "5.0", "6.0", "7.0", "8.0", "9.0"]
    case Toefl => ["0-31", "32-59", "60-78", "79-101", "102-120"]
    case Toeic => ["10-180", "185-250", "255-400", "405-600", "605-780", "785-990"]
  }

  /** The selection names a sub-level its system offers. */
  predicate Consistent(v: LevelOption) {
    v.subLevel in Levels(v.system)
  }

  /** The system menu's `onChange`: the new system with its first sub-level. */
  function ChooseSystem(newSystem: LevelSystem): (v: LevelOption)
    ensures Consistent(v) && v.system == newSystem
    ensures forall k :: 0 <= k < |Levels(newSystem)| && Levels(newSystem)[k] == v.subLevel ==> k == 0
  {
    LevelOption(newSystem, Levels(newSystem)[0])
  }

  /** The sub-level menu's `onChange`: `{ ...value, subLevel }`. */
  function ChooseSubLevel(value: LevelOption, subLevel: string): (v: LevelOption)
    ensures v.system == value.system && v.subLevel == subLevel
    ensures subLevel in Levels(value.system) ==> Consistent(v)
  {
    value.(subLevel := subLevel)
  }

  /** Either menu keeps a consistent selection consistent when the choice comes from the menu. */
  lemma ChoicesKeepConsistent(value: LevelOption, s: LevelSystem, k: nat)
    requires Consistent(value) && k < |Levels(value.system)|
    ensures Consistent(ChooseSystem(s))
    ensures Consistent(ChooseSubLevel(value, Levels(value.system)[k]))
    ensures Consistent(ChooseSubLevel(ChooseSystem(s), Levels(s)[k % |Levels(s)|]))
  {
  }

  /** Re-choosing the current system resets the sub-level to the system's first. */
  lemma ReselectResets(value: LevelOption)
    requires Consistent(value)
    ensures ChooseSystem(value.system).subLevel == Levels(value.system)[0]
    ensures ChooseSystem(value.system) == value <==> value.subLevel == Levels(value.system)[0]
  {
  }
}
