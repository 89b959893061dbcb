/** The rule-based mentor endpoint (`ai_mentor`): canned tips keyed by level. */
module Mentor {

  import opened Wrappers
  import opened Text

  const BeginnerTips: seq<string> := [
    "Break problems into small steps and write pseudo-code first.",
    "Practice daily: tiny consistent sessions beat long rare ones.",
    "Read errors carefully; they often tell you exactly what to fix."
  ]

  const IntermediateTips: seq<string> := [
    "Write tests for edge cases before refactoring.",
    "Profile performance before optimizing.",
    "Learn your debugger and step through code."
  ]

  const AdvancedTips: seq<string> := [
    "Design for maintainability; prefer clarity over cleverness.",
    "Document assumptions and invariants in code.",
    "Benchmark with realistic data and environments."
  ]

  /** `tips.get(level, tips["beginner"])`: an unknown level falls back to the beginner tips. */
  function TipsFor(level: string): (tips: seq<string>)
    ensures |tips| == 3
    ensures level == "intermediate" ==> tips == IntermediateTips
    ensures level == "advanced" ==> tips == AdvancedTips
    ensures level != "intermediate" && level != "advanced" ==> tips == BeginnerTips
  {
    if level == "intermediate" then IntermediateTips
    else if level == "advanced" then AdvancedTips
    else BeginnerTips
  }

  /** `x or default` on an optional string: None and "" are both falsy. */
  function OrDefault(x: Option<string>, default: string): (r: string)
    ensures x.Some? && x.value != "" ==> r == x.value
    ensures x.None? || x.value == "" ==> r == default
  {
    if x.Some? && x.value != "" then x.value else default
  }

  /** One bullet per tip, each on its own line after "- ". */
  function Bullets(tips: seq<string>): (r: string)
    decreases |tips|
  {
    if tips == [] then "" else "\n- " + tips[0] + Bullets(tips[1..])
  }

  /** Joining by "\n- " after a leading "\n- " gives one bullet per tip. */
  lemma {:induction false} JoinIsBullets(tips: seq<string>)
    requires tips != []
    ensures "\n- " + Join("\n- ", tips) == Bullets(tips)
    decreases |tips|
  {
    if |tips| > 1 {
      JoinIsBullets(tips[1..]);
    } else {
      assert tips[1..] == [];
    }
  }

  /**
   * `ai_mentor`: a header naming the level and the title-cased language
   * (defaults "beginner" and "programming"), then the level's tips as bullets.
   */
  function AiMentor(question: string, language: Option<string>, level: Option<string>): (answer: string)
    ensures var lvl := OrDefault(level, "beginner");
            answer == "Here are some " + lvl + " tips for " + Title(OrDefault(language, "programming")) + ":"
                      + Bullets(TipsFor(lvl))
  {
    var lang := Title(OrDefault(language, "programming"));
    var lvl := OrDefault(level, "beginner");
    JoinIsBullets(TipsFor(lvl));
    "Here are some " + lvl + " tips for " + lang + ":\n- " + Join("\n- ", TipsFor(lvl))
  }

  /** The question is never inspected. */
  lemma MentorIgnoresQuestion(q1: string, q2: string, language: Option<string>, level: Option<string>)
    ensures AiMentor(q1, language, level) == AiMentor(q2, language, level)
  {
  }

  /** The case the language is written in does not change the answer. */
  lemma MentorLanguageCaseInsensitive(q: string, language: string, level: Option<string>)
    ensures AiMentor(q, Some(Lower(language)), level) == AiMentor(q, Some(language), level)
  {
    TitleOfLower(language);
  }

  /** Without a language, the answer speaks of "Programming". */
  lemma MentorDefaultLanguage(q: string, level: Option<string>)
    ensures AiMentor(q, None, level) == AiMentor(q, Some(""), level)
    ensures AiMentor(q, None, level) == AiMentor(q, Some("programming"), level)
    ensures Title(OrDefault(None, "programming")) == "Programming"
  {
    SameLanguage(q, None, Some(""), level);
    SameLanguage(q, None, Some("programming"), level);
    TitleProgramming();
  }

  /** Two language arguments that default to the same text give the same answer. */
  lemma SameLanguage(q: string, l1: Option<string>, l2: Option<string>, level: Option<string>)
    requires OrDefault(l1, "programming") == OrDefault(l2, "programming")
    ensures AiMentor(q, l1, level) == AiMentor(q, l2, level)
  {
  }

  lemma TitleProgramming()
    ensures Title("programming") == "Programming"
  {
    ProgrammingIsLower();
    TitleOfLowerWord("programming");
    ProgrammingCapitalised();
  }

  lemma ProgrammingIsLower()
    ensures forall i :: 0 <= i < |"programming"| ==> IsLower("programming"[i])
  {
  }

  lemma ProgrammingCapitalised()
    ensures [UpperChar('p')] + "programming"[1..] == "Programming"
  {
  }

  /** Without a level, the answer is the beginner one. */
  lemma MentorDefaultLevel(q: string, language: Option<string>)
    ensures AiMentor(q, language, None) == AiMentor(q, language, Some("beginner"))
    ensures AiMentor(q, language, Some("")) == AiMentor(q, language, Some("beginner"))
  {
    SameLevel(q, language, None, Some("beginner"));
    SameLevel(q, language, Some(""), Some("beginner"));
  }

  /** Two level arguments that default to the same text give the same answer. */
  lemma SameLevel(q: string, language: Option<string>, l1: Option<string>, l2: Option<string>)
    requires OrDefault(l1, "beginner") == OrDefault(l2, "beginner")
    ensures AiMentor(q, language, l1) == AiMentor(q, language, l2)
  {
  }
}
