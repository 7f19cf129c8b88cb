/** The home-page projects section (src/components/sections/Projects.tsx):
    the same category options and sort as the catalogue page, a filter by
    category only, and the unfiltered "View All Projects (n)" count. */
module ProjectsSection {
  import opened Seqs
  import opened Sorting
  import opened Catalog
  import opened ProjectsPage

  function HasCategory(category: string): Project -> bool
  {
    (p: Project) => p.category == category
  }

  /** "All" gives the list itself; any other category filters on equality. */
  function FilterByCategory(projects: seq<Project>, selected: string): seq<Project>
  {
    if selected == AllCategories then projects else Filter(projects, HasCategory(selected))
  }

  /** The section's filter is the catalogue page's filter with an empty search. */
  lemma SectionFilterIsPageFilter(projects: seq<Project>, selected: string)
    ensures FilterByCategory(projects, selected) == FilterProjects(projects, selected, "")
  {
    if selected == AllCategories {
      UnfilteredShowsAll(projects);
    } else {
      FilterSameTest(projects, HasCategory(selected), Matcher(selected, ""));
    }
  }

  /** "All" shows the whole list; another category shows exactly the
      projects of that category, each as often as in the list, in list order. */
  lemma FilterByCategoryExact(projects: seq<Project>, selected: string, p: Project)
    ensures selected == AllCategories ==> FilterByCategory(projects, selected) == projects
    ensures var f := FilterByCategory(projects, selected);
      && IsSubsequence(f, projects)
      && (selected != AllCategories ==>
            && (forall i :: 0 <= i < |f| ==> f[i].category == selected)
            && multiset(f)[p] == if p.category == selected then multiset(projects)[p] else 0)
  {
    SectionFilterIsPageFilter(projects, selected);
    FilterProjectsExact(projects, selected, "", p);
  }

  /** The section's state: the catalogue and the selected category. */
  class Section {
    const projects: seq<Project>
    var selectedCategory: string

    constructor (projects: seq<Project>)
      ensures this.projects == projects && selectedCategory == AllCategories
    {
      this.projects := projects;
      selectedCategory := AllCategories;
    }

    /** The category buttons offered. */
    function Categories(): seq<string>
      reads this
    {
      CategoryOptions(projects)
    }

    function Filtered(): seq<Project>
      reads this
    {
      FilterByCategory(projects, selectedCategory)
    }

    /** "No projects found in this category" is shown exactly when the
        filter yields nothing. */
    predicate ShowsEmptyState()
      reads this
    {
      |Filtered()| == 0
    }

    /** A category button's `onClick`. */
    method SelectCategory(category: string)
      modifies this
      ensures selectedCategory == category
    {
      selectedCategory := category;
    }

    /** The grid's contents: the filtered projects sorted featured first,
        then by `order`, as the catalogue page sorts them. */
    method SortedProjects() returns (shown: seq<Project>)
      ensures shown == Query(projects, selectedCategory, "")
      ensures multiset(shown) == multiset(Filtered()) && FeaturedFirst(shown)
    {
      SectionFilterIsPageFilter(projects, selectedCategory);
      shown := SortCopy(Filtered(), ProjectRank);
      QuerySortedAndStable(projects, selectedCategory, "", Rank(0, 0));
    }

    /** "View All Projects (n)": the size of the whole catalogue, whatever
        category is selected. */
    method ViewAllCount() returns (n: nat)
      ensures n == |projects| && |Filtered()| <= n
    {
      n := |projects|;
    }
  }
}
