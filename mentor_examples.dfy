/** The default answer of `ai_mentor`, spelled out one literal step at a time. */
module MentorExamples {

  import opened Wrappers
  import opened Text
  import opened Mentor

  /** The full answer for a missing language and level: the beginner tips, one bullet each. */
  lemma MentorDefaultAnswer(q: string)
    ensures AiMentor(q, None, None) ==
      "Here are some beginner tips for Programming:"
      + "\n- " + BeginnerTips[0] + "\n- " + BeginnerTips[1] + "\n- " + BeginnerTips[2]
  {
    MentorDefaultHeader(q);
    BulletsOfThree("Here are some beginner tips for Programming:", BeginnerTips);
  }

  lemma MentorDefaultHeader(q: string)
    ensures AiMentor(q, None, None) == "Here are some beginner tips for Programming:" + Bullets(BeginnerTips)
  {
    MentorDefaultUnfolded(q);
    TitleProgramming();
    DefaultHeaderText();
  }

  lemma MentorDefaultUnfolded(q: string)
    ensures AiMentor(q, None, None) ==
      "Here are some " + "beginner" + " tips for " + Title("programming") + ":" + Bullets(BeginnerTips)
  {
  }

  lemma DefaultHeaderText()
    ensures "Here are some " + "beginner" + " tips for " + "Programming" + ":"
      == "Here are some beginner tips for Programming:"
  {
  }

  /** Three tips give three bullet lines after any header. */
  lemma BulletsOfThree(header: string, tips: seq<string>)
    requires |tips| == 3
    ensures header + Bullets(tips) ==
      header + "\n- " + tips[0] + "\n- " + tips[1] + "\n- " + tips[2]
  {
    assert tips[1..][1..][1..] == [];
    assert Bullets(tips[1..][1..]) == "\n- " + tips[2];
    assert Bullets(tips[1..]) == "\n- " + tips[1] + "\n- " + tips[2];
    assert Bullets(tips) == "\n- " + tips[0] + "\n- " + tips[1] + "\n- " + tips[2];
  }
}
