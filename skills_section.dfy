/** The skills section (src/components/sections/Skills.tsx): the skill
    categories sorted by `order` (missing counts as 0) and the two figures
    of the stats strip. */
module SkillsSection {
  import opened Wrappers
  import opened Seqs
  import opened Sorting
  import opened Catalog

  /** `category.order || 0`: a missing order counts as 0. */
  function EffectiveOrder(c: SkillCategory): int
  {
    match c.order
    case None => 0
    case Some(o) => o
  }

  /** The comparator as written. */
  function CompareCategories(a: SkillCategory, b: SkillCategory): int
  {
    EffectiveOrder(a) - EffectiveOrder(b)
  }

  function CategoryRank(c: SkillCategory): Rank
  {
    Rank(0, EffectiveOrder(c))
  }

  /** The comparator orders two categories as their ranks do; a missing
      order and an order of 0 tie. */
  lemma CompareCategoriesIsRankOrder(a: SkillCategory, b: SkillCategory)
    ensures CompareCategories(a, b) < 0 <==> RankLt(CategoryRank(a), CategoryRank(b))
    ensures CompareCategories(a, b) == 0 <==> CategoryRank(a) == CategoryRank(b)
    ensures a.order == None && b.order == Some(0) ==> CompareCategories(a, b) == 0
  {
  }

  /** `[...skills.categories].sort(...)`. */
  function SortedCategories(categories: seq<SkillCategory>): seq<SkillCategory>
  {
    StableSort(categories, CategoryRank)
  }

  /** A permutation of the categories with the effective order never
      decreasing; categories of equal effective order keep their order. */
  lemma SortedCategoriesOrdered(categories: seq<SkillCategory>, order: int)
    ensures var s := SortedCategories(categories);
      && multiset(s) == multiset(categories) && |s| == |categories|
      && (forall i, j :: 0 <= i < j < |s| ==> EffectiveOrder(s[i]) <= EffectiveOrder(s[j]))
      && WithRank(s, CategoryRank, Rank(0, order)) == WithRank(categories, CategoryRank, Rank(0, order))
  {
    var s := SortedCategories(categories);
    StableSortPermutes(categories, CategoryRank);
    StableSortSorted(categories, CategoryRank);
    StableSortStable(categories, CategoryRank, Rank(0, order));
    forall i, j | 0 <= i < j < |s| ensures EffectiveOrder(s[i]) <= EffectiveOrder(s[j]) {
      assert RankLe(CategoryRank(s[i]), CategoryRank(s[j]));
    }
  }

  /** The "Technologies" figure: `categories.reduce((acc, cat) => acc + cat.skills.length, 0)`. */
  function TechnologyCount(categories: seq<SkillCategory>): nat
  {
    if categories == [] then 0
    else TechnologyCount(categories[..|categories| - 1]) + |categories[|categories| - 1].skills|
  }

  function SkillListsOf(categories: seq<SkillCategory>): (sss: seq<seq<Skill>>)
    ensures |sss| == |categories| && forall i :: 0 <= i < |categories| ==> sss[i] == categories[i].skills
  {
    seq(|categories|, i requires 0 <= i < |categories| => categories[i].skills)
  }

  lemma {:induction false} TechnologyCountAppend(a: seq<SkillCategory>, b: seq<SkillCategory>)
    ensures TechnologyCount(a + b) == TechnologyCount(a) + TechnologyCount(b)
    decreases |b|
  {
    if b != [] {
      var b' := b[..|b| - 1];
      assert (a + b)[..|a + b| - 1] == a + b';
      TechnologyCountAppend(a, b');
    } else {
      assert a + b == a;
    }
  }

  /** The figure counts every skill of every category: it is the number of
      skill rows the cards render. */
  lemma {:induction false} TechnologyCountIsSkillRows(categories: seq<SkillCategory>)
    ensures TechnologyCount(categories) == |Flatten(SkillListsOf(categories))|
    decreases |categories|
  {
    if categories != [] {
      var rest := categories[1..];
      assert categories == [categories[0]] + rest;
      TechnologyCountAppend([categories[0]], rest);
      assert TechnologyCount([categories[0]]) == |categories[0].skills| by {
        assert [categories[0]][..0] == [];
      }
      TechnologyCountIsSkillRows(rest);
      assert SkillListsOf(categories)[1..] == SkillListsOf(rest);
    }
  }

  lemma {:induction false} TechnologyCountInsertLast(xs: seq<SkillCategory>, x: SkillCategory)
    ensures TechnologyCount(InsertLast(xs, x, CategoryRank)) == TechnologyCount(xs) + |x.skills|
    decreases |xs|
  {
    if xs == [] || RankLe(CategoryRank(xs[|xs| - 1]), CategoryRank(x)) {
      assert (xs + [x])[..|xs|] == xs;
    } else {
      var init := xs[..|xs| - 1];
      TechnologyCountInsertLast(init, x);
      var ins := InsertLast(init, x, CategoryRank);
      assert (ins + [xs[|xs| - 1]])[..|ins|] == ins;
    }
  }

  /** Sorting the categories for display leaves the figure unchanged. */
  lemma {:induction false} TechnologyCountSortInvariant(categories: seq<SkillCategory>)
    ensures TechnologyCount(SortedCategories(categories)) == TechnologyCount(categories)
    decreases |categories|
  {
    if categories != [] {
      var init := categories[..|categories| - 1];
      TechnologyCountSortInvariant(init);
      TechnologyCountInsertLast(StableSort(init, CategoryRank), categories[|categories| - 1]);
    }
  }

  /** The "Skill Categories" figure: the number of categories, which is
      also the number of cards rendered. */
  function CategoryCount(categories: seq<SkillCategory>): (n: nat)
    ensures n == |SortedCategories(categories)|
  {
    StableSortPermutes(categories, CategoryRank);
    |categories|
  }
}
