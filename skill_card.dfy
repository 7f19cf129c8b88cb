/** The skill card (src/components/cards/SkillCard.tsx): one row per skill
    with its years line and its level badge. */
module SkillCard {
  import opened Wrappers
  import opened Strings
  import opened Catalog
  import opened Utils

  /** The level badge's `variant`: "default" for the two upper levels. */
  function BadgeVariant(level: SkillLevel): (variant: string)
    ensures variant == "default" <==> level == Expert || level == Advanced
    ensures variant == "default" || variant == "secondary"
  {
    if level == Expert || level == Advanced then "default" else "secondary"
  }

  /** The level badge's extra classes: primary for Expert, accent for
      Advanced, none below. */
  function BadgeClass(level: SkillLevel): (cls: string)
    ensures level == Expert ==> cls == "bg-primary text-primary-foreground"
    ensures level == Advanced ==> cls == "bg-accent text-accent-foreground"
    ensures cls == "" <==> level == Beginner || level == Intermediate
  {
    match level
    case Expert => "bg-primary text-primary-foreground"
    case Advanced => "bg-accent text-accent-foreground"
    case _ => ""
  }

  /** What `{skill.yearsOfExperience && (<p>…</p>)}` renders as written:
      nothing for a missing value, but the number itself, as a bare text
      node, for 0, which is falsy but is still rendered by React. */
  datatype YearsSlot = Nothing | BareText(text: string) | YearsParagraph(text: string)

  function YearsSlotAsWritten(years: Option<int>): YearsSlot
  {
    match years
    case None => Nothing
    case Some(y) => if y == 0 then BareText("0") else YearsParagraph(Counted(y, "year"))
  }

  /** The years line as intended: hidden for a missing value and for 0,
      otherwise "n year" for exactly one and "n years" for any other n. */
  function YearsLine(years: Option<int>): Option<string>
  {
    match years
    case None => None
    case Some(y) => if y == 0 then None else Some(Counted(y, "year"))
  }

  /** A shown years line reads back as its number followed by "year"
      exactly when the number is 1, "years" otherwise. */
  lemma YearsLineWords(years: Option<int>)
    ensures YearsLine(years).Some? <==> years.Some? && years.value != 0
    ensures YearsLine(years).Some? ==> var w := Split(YearsLine(years).value, ' ');
      && |w| == 2
      && ParseInt(w[0]) == years
      && (w[1] == "year" <==> years.value == 1)
      && (w[1] == "years" <==> years.value != 1)
  {
    if years.Some? && years.value != 0 {
      CountedWords(years.value, "year");
      IntToStringRoundTrip(years.value);
      assert "year" != "year" + "s" by {
        assert |"year"| != |"year" + "s"|;
      }
    }
  }

  /** As written, a skill with 0 years gets a stray "0" where the intended
      line would render nothing. */
  lemma ZeroYearsRendersStrayZero()
    ensures YearsSlotAsWritten(Some(0)) == BareText("0")
    ensures YearsLine(Some(0)) == None
  {
  }

  /** For every other value the code as written and the intended line agree. */
  lemma YearsSlotAsWrittenAgrees(years: Option<int>)
    requires years != Some(0)
    ensures YearsSlotAsWritten(years) == match YearsLine(years)
      case None => Nothing
      case Some(text) => YearsParagraph(text)
  {
  }

  /** One rendered skill row. */
  datatype SkillRow = SkillRow(name: string, years: Option<string>, variant: string, badgeClass: string)

  function RenderSkill(skill: Skill): SkillRow
  {
    SkillRow(skill.name, YearsLine(skill.yearsOfExperience), BadgeVariant(skill.level), BadgeClass(skill.level))
  }

  /** `category.skills.map(...)`: one row per skill, in the category's order. */
  function RenderSkillCard(category: SkillCategory): (rows: seq<SkillRow>)
    ensures |rows| == |category.skills|
    ensures forall i :: 0 <= i < |rows| ==>
      rows[i].name == category.skills[i].name
      && (rows[i].years.Some? <==> category.skills[i].yearsOfExperience.Some? && category.skills[i].yearsOfExperience.value != 0)
      && (rows[i].variant == "default" <==> category.skills[i].level in {Expert, Advanced})
  {
    seq(|category.skills|, i requires 0 <= i < |category.skills| => RenderSkill(category.skills[i]))
  }
}
