/** The home-page experience section (src/components/sections/Experience.tsx):
    the sort by `order`, the first-three window and its show-all toggle. */
module ExperienceSection {
  import opened Wrappers
  import opened Strings
  import opened Seqs
  import opened Sorting
  import opened Catalog

  /** The comparator as written: `a.order - b.order`. */
  function CompareExperiences(a: Experience, b: Experience): int
  {
    a.order - b.order
  }

  /** The sort key: `order` alone. */
  function ExperienceRank(e: Experience): Rank
  {
    Rank(0, e.order)
  }

  /** The comparator orders two experiences exactly as their ranks do, and
      two experiences tie exactly when their `order`s are equal: `featured`
      plays no part. */
  lemma CompareExperiencesIsRankOrder(a: Experience, b: Experience)
    ensures CompareExperiences(a, b) < 0 <==> RankLt(ExperienceRank(a), ExperienceRank(b))
    ensures CompareExperiences(a, b) == 0 <==> ExperienceRank(a) == ExperienceRank(b)
    ensures CompareExperiences(a, b) > 0 <==> RankLt(ExperienceRank(b), ExperienceRank(a))
    ensures ExperienceRank(a) == ExperienceRank(b) <==> a.order == b.order
  {
  }

  /** `[...experiences].sort((a, b) => a.order - b.order)`. */
  function SortedExperiences(experiences: seq<Experience>): seq<Experience>
  {
    StableSort(experiences, ExperienceRank)
  }

  /** The sorted list is a permutation of the input with `order` never
      decreasing, and experiences with the same `order` keep input order. */
  lemma SortedExperiencesOrdered(experiences: seq<Experience>, order: int)
    ensures var s := SortedExperiences(experiences);
      && multiset(s) == multiset(experiences) && |s| == |experiences|
      && (forall i, j :: 0 <= i < j < |s| ==> s[i].order <= s[j].order)
      && WithRank(s, ExperienceRank, Rank(0, order)) == WithRank(experiences, ExperienceRank, Rank(0, order))
  {
    var s := SortedExperiences(experiences);
    StableSortPermutes(experiences, ExperienceRank);
    StableSortSorted(experiences, ExperienceRank);
    StableSortStable(experiences, ExperienceRank, Rank(0, order));
    forall i, j | 0 <= i < j < |s| ensures s[i].order <= s[j].order {
      assert RankLe(ExperienceRank(s[i]), ExperienceRank(s[j]));
    }
  }

  /** How many experiences are shown before "View All". */
  const InitialCount: nat := 3

  /** The section's state: the experiences and the `showAll` flag. */
  class Section {
    const experiences: seq<Experience>
    var showAll: bool

    constructor (experiences: seq<Experience>)
      ensures this.experiences == experiences && !showAll
    {
      this.experiences := experiences;
      showAll := false;
    }

    /** The button's `onClick`: flips `showAll`. */
    method ToggleShowAll()
      modifies this
      ensures showAll == !old(showAll)
    {
      showAll := !showAll;
    }

    /** The cards shown: the whole sorted list with `showAll`, otherwise its
        first `min(3, n)` entries. */
    method Displayed() returns (shown: seq<Experience>)
      ensures showAll ==> shown == SortedExperiences(experiences)
      ensures !showAll ==> shown == Take(SortedExperiences(experiences), InitialCount)
      ensures !showAll ==> |shown| == Min(InitialCount, |experiences|)
      ensures |experiences| <= InitialCount ==> shown == SortedExperiences(experiences)
    {
      var sorted := SortCopy(experiences, ExperienceRank);
      StableSortPermutes(experiences, ExperienceRank);
      shown := if showAll then sorted else Take(sorted, InitialCount);
    }

    /** The "Show More" button exists exactly when there are more than three. */
    predicate ShowsToggle()
      reads this
    {
      |experiences| > InitialCount
    }

    /** The button's label. */
    function ToggleLabel(): string
      reads this
    {
      if showAll then "Show Less" else "View All (" + NatToString(|experiences|) + ")"
    }

    /** "Show Less" exactly while everything is shown; otherwise the label
        carries the total count, which reads back from between the parentheses. */
    lemma ToggleLabelShape()
      ensures showAll <==> ToggleLabel() == "Show Less"
      ensures !showAll ==> var l := ToggleLabel();
        && l[..10] == "View All (" && l[|l| - 1] == ')'
        && ParseNat(l[10..|l| - 1]) == Some(|experiences|)
    {
      var digits := NatToString(|experiences|);
      NatToStringValue(|experiences|);
      if !showAll {
        var l := ToggleLabel();
        assert l == "View All (" + digits + ")";
        assert l[10..|l| - 1] == digits;
        assert l != "Show Less" by {
          assert l[0] != "Show Less"[0];
        }
      }
    }
  }
}
