/** The project catalogue page (src/app/projects/page.tsx): the category
    options, the category-and-search filter, the featured-first sort, and
    the query state with its Clear Filters reset. */
module ProjectsPage {
  import opened Strings
  import opened Seqs
  import opened Sorting
  import opened Catalog

  /** The category option that disables category filtering. */
  const AllCategories: string := "All"

  function CategoriesOf(projects: seq<Project>): (cs: seq<string>)
    ensures |cs| == |projects| && forall i :: 0 <= i < |projects| ==> cs[i] == projects[i].category
  {
    seq(|projects|, i requires 0 <= i < |projects| => projects[i].category)
  }

  /** `["All", ...new Set(projects.map(p => p.category))]`. */
  function CategoryOptions(projects: seq<Project>): seq<string>
  {
    [AllCategories] + Distinct(CategoriesOf(projects))
  }

  /** "All" first, then each category some project has, exactly once, in
      the order in which the projects first use it. */
  lemma CategoryOptionsExact(projects: seq<Project>)
    ensures var opts := CategoryOptions(projects);
      && opts[0] == AllCategories
      && (forall c :: c in opts[1..] <==> exists i :: 0 <= i < |projects| && projects[i].category == c)
      && (forall i, j :: 1 <= i < j < |opts| ==> opts[i] != opts[j])
      && (forall i, j :: 1 <= i < j < |opts| ==>
            FirstIndex(CategoriesOf(projects), opts[i]) < FirstIndex(CategoriesOf(projects), opts[j]))
  {
    var cs := CategoriesOf(projects);
    var opts := CategoryOptions(projects);
    assert opts[1..] == Distinct(cs);
    DistinctFirstSeenOrder(cs);
    forall c ensures c in cs <==> exists i :: 0 <= i < |projects| && projects[i].category == c {
      if c in cs {
        var i :| 0 <= i < |cs| && cs[i] == c;
        assert projects[i].category == c;
      }
    }
    forall i, j | 1 <= i < j < |opts| ensures opts[i] != opts[j] {
      assert opts[i] == Distinct(cs)[i - 1] && opts[j] == Distinct(cs)[j - 1];
    }
    forall i, j | 1 <= i < j < |opts|
      ensures FirstIndex(cs, opts[i]) < FirstIndex(cs, opts[j])
    {
      assert opts[i] == Distinct(cs)[i - 1] && opts[j] == Distinct(cs)[j - 1];
    }
  }

  // --------------------------------------------------------------- filter

  predicate MatchesCategory(p: Project, selected: string)
  {
    selected == AllCategories || p.category == selected
  }

  /** `texts.some(t => t.toLowerCase().includes(needle))`. */
  predicate SomeContains(texts: seq<string>, needle: string)
  {
    exists i :: 0 <= i < |texts| && Contains(Lower(texts[i]), needle)
  }

  /** The search test: an empty query passes; otherwise the lowered query
      must occur in the lowered title, short description or one technology. */
  predicate MatchesSearch(p: Project, query: string)
  {
    query == ""
    || Contains(Lower(p.title), Lower(query))
    || Contains(Lower(p.shortDescription), Lower(query))
    || SomeContains(p.technologies, Lower(query))
  }

  predicate ProjectMatches(p: Project, category: string, query: string)
  {
    MatchesCategory(p, category) && MatchesSearch(p, query)
  }

  function Matcher(category: string, query: string): Project -> bool
  {
    p => ProjectMatches(p, category, query)
  }

  /** `projects.filter(...)` with the category and search tests. */
  function FilterProjects(projects: seq<Project>, category: string, query: string): seq<Project>
  {
    Filter(projects, Matcher(category, query))
  }

  /** The shown projects are the matching ones: every occurrence of a
      matching project and nothing else, in catalogue order; with a
      category other than "All" each has exactly that category. */
  lemma FilterProjectsExact(projects: seq<Project>, category: string, query: string, p: Project)
    ensures var f := FilterProjects(projects, category, query);
      && IsSubsequence(f, projects)
      && |f| <= |projects|
      && (forall i :: 0 <= i < |f| ==> MatchesSearch(f[i], query))
      && (category != AllCategories ==> forall i :: 0 <= i < |f| ==> f[i].category == category)
      && multiset(f)[p] == if ProjectMatches(p, category, query) then multiset(projects)[p] else 0
  {
    FilterIsSubsequence(projects, Matcher(category, query));
    FilterCount(projects, Matcher(category, query), p);
  }

  /** Changing the case of the query never changes the result. */
  lemma SearchIgnoresCase(projects: seq<Project>, category: string, q1: string, q2: string)
    requires Lower(q1) == Lower(q2)
    ensures FilterProjects(projects, category, q1) == FilterProjects(projects, category, q2)
  {
    assert q1 == "" <==> q2 == "" by {
      assert |Lower(q1)| == |q1| && |Lower(q2)| == |q2|;
    }
    FilterSameTest(projects, Matcher(category, q1), Matcher(category, q2));
  }

  /** With no search text and the "All" category every project is shown. */
  lemma UnfilteredShowsAll(projects: seq<Project>)
    ensures FilterProjects(projects, AllCategories, "") == projects
  {
    FilterKeepsAll(projects, Matcher(AllCategories, ""));
  }

  /** The empty state: nothing is shown exactly when no project matches. */
  lemma EmptyIffNoMatch(projects: seq<Project>, category: string, query: string)
    ensures FilterProjects(projects, category, query) == [] <==>
      forall i :: 0 <= i < |projects| ==> !ProjectMatches(projects[i], category, query)
  {
    FilterEmptyIff(projects, Matcher(category, query));
  }

  // ----------------------------------------------------------------- sort

  /** The comparator as written: featured before not featured, then `order`. */
  function CompareProjects(a: Project, b: Project): int
  {
    if a.featured && !b.featured then -1
    else if !a.featured && b.featured then 1
    else a.order - b.order
  }

  /** The sort key: 0 for featured, 1 otherwise, then `order`. */
  function ProjectRank(p: Project): Rank
  {
    Rank(if p.featured then 0 else 1, p.order)
  }

  /** The comparator orders two projects exactly as their ranks do. */
  lemma CompareProjectsIsRankOrder(a: Project, b: Project)
    ensures CompareProjects(a, b) < 0 <==> RankLt(ProjectRank(a), ProjectRank(b))
    ensures CompareProjects(a, b) == 0 <==> ProjectRank(a) == ProjectRank(b)
    ensures CompareProjects(a, b) > 0 <==> RankLt(ProjectRank(b), ProjectRank(a))
  {
  }

  /** Featured projects first; among equally featured ones, `order` never decreases. */
  ghost predicate FeaturedFirst(ps: seq<Project>)
  {
    && (forall i, j :: 0 <= i < j < |ps| ==> ps[i].featured || !ps[j].featured)
    && (forall i, j :: 0 <= i < j < |ps| && ps[i].featured == ps[j].featured ==> ps[i].order <= ps[j].order)
  }

  /** The query result: the filtered projects, sorted stably by rank. */
  function Query(projects: seq<Project>, category: string, query: string): seq<Project>
  {
    StableSort(FilterProjects(projects, category, query), ProjectRank)
  }

  /** The sorted result is a permutation of the filtered projects, featured
      first and then by `order`; projects that tie keep the filter's order;
      "Showing x of y" has x <= y. */
  lemma QuerySortedAndStable(projects: seq<Project>, category: string, query: string, k: Rank)
    ensures var f := FilterProjects(projects, category, query);
      && multiset(Query(projects, category, query)) == multiset(f)
      && FeaturedFirst(Query(projects, category, query))
      && WithRank(Query(projects, category, query), ProjectRank, k) == WithRank(f, ProjectRank, k)
      && |Query(projects, category, query)| <= |projects|
  {
    var f := FilterProjects(projects, category, query);
    var r := Query(projects, category, query);
    StableSortPermutes(f, ProjectRank);
    StableSortSorted(f, ProjectRank);
    StableSortStable(f, ProjectRank, k);
    forall i, j | 0 <= i < j < |r| ensures r[i].featured || !r[j].featured {
      assert RankLe(ProjectRank(r[i]), ProjectRank(r[j]));
    }
    forall i, j | 0 <= i < j < |r| && r[i].featured == r[j].featured
      ensures r[i].order <= r[j].order
    {
      assert RankLe(ProjectRank(r[i]), ProjectRank(r[j]));
    }
  }

  /** Querying an already queried list with the same query changes nothing. */
  lemma QueryIdempotent(projects: seq<Project>, category: string, query: string)
    ensures Query(Query(projects, category, query), category, query) == Query(projects, category, query)
  {
    var f := FilterProjects(projects, category, query);
    var r := Query(projects, category, query);
    StableSortPermutes(f, ProjectRank);
    forall i | 0 <= i < |r| ensures Matcher(category, query)(r[i]) {
      assert r[i] in multiset(r);
      assert r[i] in multiset(f);
      var j :| 0 <= j < |f| && f[j] == r[i];
    }
    FilterKeepsAll(r, Matcher(category, query));
    StableSortIdempotent(f, ProjectRank);
  }

  /** Two featured projects and one other, queried without filters: the
      featured ones first, in `order`, then the other. */
  lemma UnfilteredQueryExample(p1: Project, p2: Project, p3: Project)
    requires p1.featured && p1.order == 2
    requires !p2.featured && p2.order == 1
    requires p3.featured && p3.order == 1
    ensures Query([p1, p2, p3], AllCategories, "") == [p3, p1, p2]
  {
    UnfilteredShowsAll([p1, p2, p3]);
    assert [p1, p2, p3][..2] == [p1, p2] && [p1, p2][..1] == [p1];
    assert StableSort([p1], ProjectRank) == [p1];
    assert StableSort([p1, p2], ProjectRank) == [p1, p2];
    assert InsertLast([p1], p3, ProjectRank) == [p3, p1];
  }

  // ---------------------------------------------------------- query state

  /** The page's state: the catalogue and the two query fields. */
  class QueryState {
    const projects: seq<Project>
    var selectedCategory: string
    var searchQuery: string

    constructor (projects: seq<Project>)
      ensures this.projects == projects
      ensures selectedCategory == AllCategories && searchQuery == ""
    {
      this.projects := projects;
      selectedCategory := AllCategories;
      searchQuery := "";
    }

    /** The projects the filter lets through, in catalogue order. */
    function Filtered(): seq<Project>
      reads this
    {
      FilterProjects(projects, selectedCategory, searchQuery)
    }

    /** The empty-state block is rendered exactly when nothing matches. */
    predicate ShowsEmptyState()
      reads this
    {
      |Filtered()| == 0
    }

    /** The search box's `onChange`. */
    method SetSearchQuery(query: string)
      modifies this
      ensures searchQuery == query && selectedCategory == old(selectedCategory)
    {
      searchQuery := query;
    }

    /** A category button's `onClick`. */
    method SelectCategory(category: string)
      modifies this
      ensures selectedCategory == category && searchQuery == old(searchQuery)
    {
      selectedCategory := category;
    }

    /** "Clear Filters": both fields back to their initial values, after
        which every project is shown. */
    method ClearFilters()
      modifies this
      ensures searchQuery == "" && selectedCategory == AllCategories
      ensures Filtered() == projects
      ensures ShowsEmptyState() <==> projects == []
    {
      searchQuery := "";
      selectedCategory := AllCategories;
      UnfilteredShowsAll(projects);
    }

    /** `[...filteredProjects].sort(...)`: the grid's contents, and the two
        figures of "Showing x of y projects". */
    method SortedProjects() returns (shown: seq<Project>, total: nat)
      ensures shown == Query(projects, selectedCategory, searchQuery)
      ensures multiset(shown) == multiset(Filtered()) && FeaturedFirst(shown)
      ensures total == |projects| && |shown| <= total
    {
      shown := SortCopy(Filtered(), ProjectRank);
      total := |projects|;
      QuerySortedAndStable(projects, selectedCategory, searchQuery, Rank(0, 0));
    }
  }
}
