/** The experience card (src/components/cards/ExperienceCard.tsx): the
    company initials (also used by src/components/modals/ExperienceModal.tsx),
    the date range and duration, and the first responsibilities. */
module ExperienceCard {
  import opened Wrappers
  import opened Strings
  import opened Seqs
  import opened Catalog
  import opened Utils
  import opened ProjectCard

  /** `words.map(word => word[0]).join("")`: an empty word's `word[0]` is
      `undefined`, which `join` writes as nothing. */
  function FirstChars(words: seq<string>): string
    decreases |words|
  {
    if words == [] then ""
    else (if words[0] == "" then "" else [words[0][0]]) + FirstChars(words[1..])
  }

  /** The company initials: first characters of the space-separated words,
      at most two. */
  function Initials(company: string): string
  {
    Take(FirstChars(Split(company, ' ')), 2)
  }

  /** An independent reading of the same thing, one character at a time:
      the non-space characters that open the text or follow a space. */
  function WordStartsAfter(s: string, afterSpace: bool): string
    decreases |s|
  {
    if s == [] then ""
    else
      var start := if afterSpace && s[0] != ' ' then [s[0]] else [];
      start + WordStartsAfter(s[1..], s[0] == ' ')
  }

  function WordStarts(s: string): string
  {
    WordStartsAfter(s, true)
  }

  lemma {:induction false} FirstCharsOfSplit(s: string)
    ensures FirstChars(Split(s, ' ')) == WordStartsAfter(s, true)
    ensures FirstChars(Split(s, ' ')[1..]) == WordStartsAfter(s, false)
    decreases |s|
  {
    if s != [] {
      FirstCharsOfSplit(s[1..]);
      var rest := Split(s[1..], ' ');
      if s[0] == ' ' {
        assert Split(s, ' ') == [""] + rest;
        assert FirstChars(Split(s, ' ')) == FirstChars(rest);
      } else {
        assert Split(s, ' ') == [[s[0]] + rest[0]] + rest[1..];
        assert FirstChars(Split(s, ' ')) == [s[0]] + FirstChars(rest[1..]);
      }
    }
  }

  /** The initials are the first two word starts; so repeated, leading or
      trailing spaces contribute nothing, and there are at most two. */
  lemma InitialsAreWordStarts(company: string)
    ensures Initials(company) == Take(WordStarts(company), 2)
    ensures |Initials(company)| <= 2
    ensures forall i :: 0 <= i < |Initials(company)| ==> Initials(company)[i] != ' '
  {
    FirstCharsOfSplit(company);
    NoSpaceInWordStarts(company, true);
  }

  /** A doubled space yields an empty word, which adds no initial. */
  lemma InitialsSkipEmptyWords()
    ensures Initials("Acme  Labs") == "AL"
  {
    InitialsAreWordStarts("Acme  Labs");
    assert WordStarts("Acme  Labs") == "AL";
  }

  lemma {:induction false} NoSpaceInWordStarts(s: string, afterSpace: bool)
    ensures ' ' !in WordStartsAfter(s, afterSpace)
    decreases |s|
  {
    if s != [] {
      NoSpaceInWordStarts(s[1..], s[0] == ' ');
    }
  }

  /** How many responsibilities a card lists at most. */
  const MaxResponsibilities: nat := 3

  /** The listed responsibilities and the "+N more responsibilities" line. */
  datatype ResponsibilityList = ResponsibilityList(items: seq<string>, more: Option<nat>)

  /** The right end of the date range: "Present" or the end date, formatted. */
  datatype EndLabel = Present | Until(date: Option<YearMonth>)

  datatype ExperienceCardView = ExperienceCardView(
    initials: string,
    endLabel: EndLabel,
    duration: string,
    responsibilities: Option<ResponsibilityList>,
    technologies: seq<TechBadge>)

  /** The card for experience `e`, with `now` the current month: "Present"
      exactly for a current position; the duration in months up to the end
      date, or up to now without one (also for a current position that has
      an end date); no list without responsibilities, otherwise the first
      three and a "+N more" line exactly when there are more, the listed
      ones and N adding up to the total; one badge per technology. */
  function RenderExperienceCard(e: Experience, now: YearMonth): (v: ExperienceCardView)
    ensures v.initials == Take(WordStarts(e.company), 2)
    ensures v.endLabel.Present? <==> e.current
    ensures !e.current ==> v.endLabel == Until(e.endDate)
    ensures ParseDuration(v.duration) == Some(MonthsBetween(e.startDate, if e.endDate.Some? then e.endDate.value else now))
    ensures v.duration == DurationText(MonthsBetween(e.startDate, if e.endDate.Some? then e.endDate.value else now))
    ensures v.responsibilities.None? <==> e.responsibilities == []
    ensures v.responsibilities.Some? ==> var r := v.responsibilities.value;
      && |r.items| == Min(MaxResponsibilities, |e.responsibilities|)
      && r.items == e.responsibilities[..|r.items|]
      && (r.more.Some? <==> |e.responsibilities| > MaxResponsibilities)
      && (r.more.Some? ==> |r.items| + r.more.value == |e.responsibilities|)
    ensures |v.technologies| == |e.technologies|
  {
    InitialsAreWordStarts(e.company);
    var resp := e.responsibilities;
    ExperienceCardView(
      Initials(e.company),
      if e.current then Present else Until(e.endDate),
      CalculateDuration(e.startDate, e.endDate, now),
      if |resp| > 0 then
        Some(ResponsibilityList(
          Take(resp, MaxResponsibilities),
          if |resp| > MaxResponsibilities then Some(|resp| - MaxResponsibilities) else None))
      else None,
      TechBadges(e.technologies))
  }
}
