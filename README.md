# Portfolio website: list and string logic, modelled in Dafny

The site is a Next.js/React portfolio. Beneath its markup sits a small layer
of list and string logic. This project models that layer and proves what it
does:

- the project catalogue's query pipeline. It derives the category options,
  filters by category and case-insensitive search, sorts a copy
  featured-first and then by `order`, and keeps the query state with a
  "Clear Filters" reset. The home-page section repeats it with a category
  filter only;
- the blog index. It derives the distinct tags, filters by search and by
  exact tag, labels the result count, and resets its filters. It does not
  sort;
- the ordering and windowing of experiences (sort by `order`, first three
  or all, the timeline connectors) and of skill categories (sort by
  `order` with a missing order counted as 0, and the two stats figures);
- the utilities of `src/lib/utils.ts`: `calculateDuration`,
  `truncateText`, `slugify`, `groupBy`, `sortByDate`, `getFeaturedItems`,
  `formatNumber`, `clamp` and `getTechColor`;
- what the project, experience and skill cards derive from their records.

Layout, one module per file:

| module | file | models |
|---|---|---|
| `Wrappers` | wrappers.dfy | `Option` and `Result` |
| `Strings` | strings.dfy | `toLowerCase`, `includes`, `trim`, `split`/`join`, decimal rendering of integers |
| `Seqs` | seqs.dfy | `filter`, `slice(0, n)`, `new Set(...)` order, `flatMap` |
| `Sorting` | sorting.dfy | `Array.prototype.sort` on a copy, as a stable sort by a key |
| `Catalog` | catalog.dfy | the record shapes of `src/types/index.ts` |
| `Utils` | utils.dfy | `src/lib/utils.ts` |
| `ProjectsPage` | projects_page.dfy | `src/app/projects/page.tsx` |
| `ProjectsSection` | projects_section.dfy | `src/components/sections/Projects.tsx` |
| `BlogPage` | blog_page.dfy | `src/app/blog/page.tsx` |
| `ExperienceSection` | experience_section.dfy | `src/components/sections/Experience.tsx` |
| `ExperiencePage` | experience_page.dfy | `src/app/experience/page.tsx` |
| `SkillsSection` | skills_section.dfy | `src/components/sections/Skills.tsx` |
| `ProjectCard` | project_card.dfy | `src/components/cards/ProjectCard.tsx` |
| `ExperienceCard` | experience_card.dfy | `src/components/cards/ExperienceCard.tsx` |
| `SkillCard` | skill_card.dfy | `src/components/cards/SkillCard.tsx` |

How the model is built:

- **Sorting.** Every comparator in the code (featured then `order`;
  `order`; `order || 0`; newest start date) orders items by a pair of
  integers. `Sorting.StableSort` is insertion sort by such a key. Since
  ES2019, `Array.prototype.sort` is stable, and a stable sort by a key has
  exactly one possible result, so `StableSort` describes what the browser
  returns. `Sorting.SortCopy` sorts a fresh array in place. The code's
  `[...xs].sort(...)` calls are modelled by it, and it is proved equal to
  `StableSort`. Each comparator is proved to order items as its key does
  (`CompareProjectsIsRankOrder` and the like).
- **State.** The three pages with query state are classes: `QueryState`,
  `ProjectsSection.Section` and `BlogFilters`. So is the experience
  section with its `showAll` flag. Each has a field per `useState` and a
  method per handler. Re-rendering is a call to the class's functions.
- **Data.** The JSON data files are inputs (`const` fields), never read.
  Dates come in already parsed: a `YearMonth` for `calculateDuration` and
  an integer timestamp for `sortByDate`. "Now" is a parameter.
- **Blog posts.** The code at src/app/blog/page.tsx:67-74 only filters;
  `BlogPage.FilterPostsExact` proves the result keeps the listed order.
- **Experiences.** The comment at src/components/sections/Experience.tsx:16
  mentions featured-first. The comparator uses `order` alone, and so does
  the model.
- **Empty tag.** The blog's tag test is `!selectedTag || ...`. So an empty
  tag string passes every post, as a missing tag does.
- **Shown or not.** The toggle button at
  src/components/sections/Experience.tsx:49, the empty states, and the
  "Featured" and placeholder choices of the cards are predicates
  (`Section.ShowsToggle`, `ShowsEmptyState`) or fields of the card views.
  The lemmas and `ensures` clauses listed below state when each is true.

## Model

| member | source | states |
|---|---|---|
| Strings.Lower | src/app/projects/page.tsx:31-34 | `toLowerCase` keeps the length and turns each ASCII capital into the letter 32 code points above it (its lowercase form), leaving every other character alone |
| Strings.TrimKeepsCore | src/lib/utils.ts:49 | `trim` yields a contiguous slice of its input with only whitespace cut on either side, and the result neither starts nor ends with whitespace |
| Strings.JoinSplit | src/components/cards/ExperienceCard.tsx:30-33 | `split(" ")` loses nothing: joining the parts with the separator restores the text |
| Strings.IntToStringRoundTrip | src/lib/utils.ts:31 | the decimal rendering of an integer in a template string reads back as that integer |
| Seqs.DistinctFirstSeenOrder | src/app/projects/page.tsx:23 | `new Set` keeps first occurrences in first-seen order: each value once, ordered by where it first occurs |
| Sorting.StableSortPermutes | src/app/projects/page.tsx:40-44 | sorting neither adds, drops nor duplicates items: the result is a permutation of the input |
| Sorting.StableSortSorted | src/app/projects/page.tsx:40-44 | the result is ordered by the comparator's key |
| Sorting.StableSortStable | src/app/projects/page.tsx:40-44 | items with equal keys keep their relative order |
| Sorting.StableSortIdempotent | src/app/projects/page.tsx:40-44 | sorting a sorted list changes nothing |
| Sorting.InsertInPlace | src/app/projects/page.tsx:40 | one insertion step on the array: the first i+1 cells become the sorted insertion of cell i, the rest are untouched |
| Sorting.SortCopy | src/app/projects/page.tsx:40 | `[...xs].sort(...)` on a fresh array returns the stable sort of `xs`, which is a sorted permutation of it |
| Utils.CalculateDuration | src/lib/utils.ts:19-44 | the duration text reads back as the month count from start to end, or to now when there is no end date, and it is the only text that reads back as that count |
| Utils.DurationRoundTrip | src/lib/utils.ts:26-43 | the text for m months reads back as m. Below 12 months it is "n month(s)", on whole years "y year(s)", otherwise "y year(s) m month(s)" with m from 1 to 11; each unit is singular exactly when its number is 1 |
| Utils.DurationTextIsOnly | src/lib/utils.ts:26-43 | any text that reads back as m months is the text the function writes for m, so the numbers and unit words are fixed |
| Utils.TruncateTextBounds | src/lib/utils.ts:47-50 | text that fits is unchanged. Longer text is exactly `Trim` of its first `maxLength` characters followed by "...", at most `maxLength + 3` long, with no whitespace at either end of the kept part |
| Utils.SlugifyIsSlug | src/lib/utils.ts:53-59 | the slug holds only lower-case ASCII letters, digits and single dashes, with no dash at either end. So it has no capital, whitespace, underscore or "--" |
| Utils.SlugifyFixesSlugs | src/lib/utils.ts:53-59 | a slug is its own slug |
| Utils.SlugifyIdempotent | src/lib/utils.ts:53-59 | slugifying twice is slugifying once |
| Utils.SlugifyKeepsAlnum | src/lib/utils.ts:53-59 | the slug keeps every ASCII letter and digit of the lowered text, in order |
| Utils.GroupedAppend | src/lib/utils.ts:63-70 | one reduce step appends the item to the group of its key and changes no other group |
| Utils.GroupBy | src/lib/utils.ts:62-71 | the reduce loop builds the intended grouping: one group per key, holding that key's items in input order |
| Utils.GroupedPlacesEachItem | src/lib/utils.ts:62-71 | the keys are exactly the items' keys. Each item lies in the group of its own key, with all its occurrences, and in no other group. Each group is a subsequence of the input |
| Utils.GroupByAsWrittenThrows | src/lib/utils.ts:65-68 | as written, an item keyed by an `Object.prototype` member name ("constructor", "toString", …) makes `push` throw. The intended grouping has a group for it |
| Utils.GroupByAsWrittenAgrees | src/lib/utils.ts:62-71 | when no key is a prototype member name, the code as written returns the intended grouping |
| Utils.SortByDate | src/lib/utils.ts:74-80 | returns a new list: a permutation of the input with start dates never increasing, stable among equal dates |
| Utils.GetFeaturedItemsExact | src/lib/utils.ts:83-87 | exactly the featured items, every occurrence, in input order |
| Utils.FormatNumberRoundTrip | src/lib/utils.ts:119-121 | removing the commas gives the plain decimal string back, and that reads back as the number |
| Utils.FormatNumberGroups | src/lib/utils.ts:119-121 | for a non-negative integer, the first comma group has 1 to 3 digits and every later group has exactly 3 |
| Utils.FormatNumberSmall | src/lib/utils.ts:119-121 | numbers of at most three digits are unchanged |
| Utils.ClampBounds | src/lib/utils.ts:124-126 | a value within range is returned as is. With min ≤ max the result lies in [min, max]. With min > max the result is max |
| Utils.TechColorLookup | src/lib/utils.ts:134-151 | each of the ten listed names gets its own class, none of them the default, and every other string gets the default class |
| Utils.TechColorIsCaseSensitive | src/lib/utils.ts:148-150 | "python" gets the default class, while "Python" gets the blue one |
| Utils.TechColorAsWrittenDiffers | src/lib/utils.ts:148-150 | as written, a prototype member name ("toString", …) yields the inherited member instead of a class string. Any other name agrees with the intended lookup |
| ProjectsPage.CategoryOptionsExact | src/app/projects/page.tsx:23 | "All" first, then each category some project has, exactly once, in first-seen order; the section (src/components/sections/Projects.tsx:22) builds the same options |
| ProjectsPage.FilterProjectsExact | src/app/projects/page.tsx:26-37 | every shown project passes the search. With a category other than "All", it has that category. Every matching occurrence is kept and nothing else is, in catalogue order |
| ProjectsPage.SearchIgnoresCase | src/app/projects/page.tsx:29-35 | two queries that lower to the same text give the same result |
| ProjectsPage.UnfilteredShowsAll | src/app/projects/page.tsx:26-37 | with "All" and an empty query, every project passes |
| ProjectsPage.EmptyIffNoMatch | src/app/projects/page.tsx:122 | the filtered list is empty exactly when no project matches, which is when the empty state shows |
| ProjectsPage.CompareProjectsIsRankOrder | src/app/projects/page.tsx:40-44 | the comparator's sign is the order of the key (featured first, then `order`) |
| ProjectsPage.QuerySortedAndStable | src/app/projects/page.tsx:40-44 | the sorted list is a permutation of the filtered list. Featured projects come first, `order` never decreases among equally featured ones, and ties keep filter order. Its length is at most the catalogue's |
| ProjectsPage.QueryIdempotent | src/app/projects/page.tsx:26-44 | querying a query result again with the same query changes nothing |
| ProjectsPage.UnfilteredQueryExample | src/app/projects/page.tsx:40-44 | two featured projects with orders 2 and 1 and one other come out as the order-1 featured one, then the order-2 one, then the other |
| ProjectsPage.QueryState.constructor | src/app/projects/page.tsx:18-19 | the page starts at category "All" with an empty query |
| ProjectsPage.QueryState.SetSearchQuery | src/app/projects/page.tsx:71 | typing sets the query and leaves the category alone |
| ProjectsPage.QueryState.SelectCategory | src/app/projects/page.tsx:84 | a category button sets the category and leaves the query alone |
| ProjectsPage.QueryState.ClearFilters | src/app/projects/page.tsx:130-133 | resets the query to "" and the category to "All", after which every project is shown |
| ProjectsPage.QueryState.SortedProjects | src/app/projects/page.tsx:40-44 | the grid is the stable featured-first sort of the filtered projects. The "Showing x of y" figures satisfy x ≤ y |
| ProjectsSection.SectionFilterIsPageFilter | src/components/sections/Projects.tsx:25-28 | the section's category filter is the catalogue page's filter with an empty query |
| ProjectsSection.FilterByCategoryExact | src/components/sections/Projects.tsx:25-28 | "All" gives the whole list. Any other category gives exactly its projects, every occurrence, in source order |
| ProjectsSection.Section.constructor | src/components/sections/Projects.tsx:18 | the section starts at "All" |
| ProjectsSection.Section.SelectCategory | src/components/sections/Projects.tsx:65 | a button sets the category |
| ProjectsSection.Section.SortedProjects | src/components/sections/Projects.tsx:31-35 | the grid is a permutation of the filtered projects, featured first and then by `order` |
| ProjectsSection.Section.ViewAllCount | src/components/sections/Projects.tsx:113 | "View All Projects (n)" counts the whole catalogue, whatever the category, and is never below the shown count |
| BlogPage.AllTagsExact | src/app/blog/page.tsx:62-64 | every tag of every post, each exactly once, in first-seen order |
| BlogPage.FilterPostsExact | src/app/blog/page.tsx:67-74 | the result is a subsequence of the posts in listed order, with no sort. It holds exactly the matching posts. With a tag selected, each shown post carries it |
| BlogPage.SearchIgnoresTags | src/app/blog/page.tsx:68-71 | tags are not searched: changing a post's tags never changes its search result |
| BlogPage.SearchIgnoresCase | src/app/blog/page.tsx:68-71 | two queries that lower to the same text give the same result |
| BlogPage.TagIsCaseSensitive | src/app/blog/page.tsx:72 | tag matching is exact: "python" does not select a post tagged "Python", and "Python" does |
| BlogPage.UnfilteredShowsAll | src/app/blog/page.tsx:67-74 | with no query and no tag, every post is shown, in listed order |
| BlogPage.ArticleCountLabelWords | src/app/blog/page.tsx:135-136 | the label is the count (which reads back), then "article" exactly when the count is 1 and "articles" otherwise, then "found" |
| BlogPage.BlogFilters.constructor | src/app/blog/page.tsx:58-59 | the page starts with no query and no tag |
| BlogPage.BlogFilters.SetSearchQuery | src/app/blog/page.tsx:105 | typing sets the query and leaves the tag alone |
| BlogPage.BlogFilters.SelectTag | src/app/blog/page.tsx:111-127 | a tag button (or "All", for no tag) sets the tag and leaves the query alone |
| BlogPage.BlogFilters.ClearFilters | src/app/blog/page.tsx:229-232 | resets the query to "" and the tag to none, after which every post is shown |
| ExperienceSection.CompareExperiencesIsRankOrder | src/components/sections/Experience.tsx:17 | the comparator orders by `order` alone. Two experiences tie exactly when their orders are equal, so `featured` plays no part |
| ExperienceSection.SortedExperiencesOrdered | src/components/sections/Experience.tsx:17 | a permutation of the experiences with `order` never decreasing. Equal orders keep input order |
| ExperienceSection.Section.constructor | src/components/sections/Experience.tsx:13 | the section starts collapsed |
| ExperienceSection.Section.ToggleShowAll | src/components/sections/Experience.tsx:55 | a click flips `showAll` |
| ExperienceSection.Section.Displayed | src/components/sections/Experience.tsx:18-20 | all sorted experiences when expanded, otherwise the first min(3, n). With n ≤ 3 it shows all either way |
| ExperienceSection.Section.ToggleLabelShape | src/components/sections/Experience.tsx:57 | the label is "Show Less" exactly when expanded, otherwise "View All (n)" with n the total |
| ExperiencePage.ConnectorsButLast | src/app/experience/page.tsx:38-40 | with a connector on every row but the last, there is one connector fewer than rows |
| ExperiencePage.TimelineExact | src/app/experience/page.tsx:12-41 | each experience is rendered exactly as often as it occurs, with `order` never decreasing. A connector follows every row but the last: n−1 for n ≥ 1, none for none |
| SkillsSection.CompareCategoriesIsRankOrder | src/components/sections/Skills.tsx:14-16 | the comparator orders by `order || 0`, so a missing order and 0 tie |
| SkillsSection.SortedCategoriesOrdered | src/components/sections/Skills.tsx:14-16 | a permutation of the categories with the effective order never decreasing. Equal orders keep source order |
| SkillsSection.CategoryCount | src/components/sections/Skills.tsx:55 | the "Skill Categories" figure equals the number of cards rendered |
| SkillsSection.TechnologyCountIsSkillRows | src/components/sections/Skills.tsx:63-66 | the "Technologies" figure is the number of skills over all categories |
| SkillsSection.TechnologyCountSortInvariant | src/components/sections/Skills.tsx:63-66 | sorting the categories for display leaves that figure unchanged |
| ProjectCard.TechBadges | src/components/cards/ProjectCard.tsx:73-81 | one badge per technology, in order, coloured by the tech-color lookup |
| ProjectCard.Links | src/components/cards/ProjectCard.tsx:109-156 | a Code, Demo or Paper button exactly for a present, non-empty link, laid out in that order |
| ProjectCard.RenderProjectCard | src/components/cards/ProjectCard.tsx:32-94 | placeholder exactly when the image is missing or empty. "Featured" exactly for featured projects. At most the first four technologies, plus "+N more" exactly when there are more, with shown + N = total. At most the first three metrics, shown whenever a metrics object exists |
| ExperienceCard.FirstCharsOfSplit | src/components/cards/ExperienceCard.tsx:30-33 | the first characters of the space-separated words are the non-space characters that open the text or follow a space |
| ExperienceCard.InitialsAreWordStarts | src/components/cards/ExperienceCard.tsx:30-34 | the initials are the first two word starts. There are at most two, none is a space, and empty words from repeated spaces add nothing; the modal (src/components/modals/ExperienceModal.tsx:35-39) computes the same initials |
| ExperienceCard.InitialsSkipEmptyWords | src/components/cards/ExperienceCard.tsx:30-34 | "Acme  Labs" (two spaces) gives "AL" |
| ExperienceCard.RenderExperienceCard | src/components/cards/ExperienceCard.tsx:30-107 | "Present" exactly for a current position, else the end date. The duration is the unique text that reads back as the months to the end date, or to now without one (see `Utils.DurationTextIsOnly`). There is no list without responsibilities, otherwise the first three, plus "+N more" exactly when there are more, with listed + N = total |
| SkillCard.BadgeVariant | src/components/cards/SkillCard.tsx:36-40 | "default" exactly for Expert and Advanced, otherwise "secondary" |
| SkillCard.BadgeClass | src/components/cards/SkillCard.tsx:41-47 | the primary class for Expert, the accent class for Advanced, empty exactly for Beginner and Intermediate |
| SkillCard.YearsLineWords | src/components/cards/SkillCard.tsx:28-32 | a line shows exactly for a present non-zero value. It reads back as the number, then "year" exactly when it is 1 and "years" otherwise |
| SkillCard.ZeroYearsRendersStrayZero | src/components/cards/SkillCard.tsx:28 | as written, 0 years renders a bare "0" where the intended line renders nothing |
| SkillCard.YearsSlotAsWrittenAgrees | src/components/cards/SkillCard.tsx:28-32 | for every value but 0, the code as written renders the intended line |
| SkillCard.RenderSkillCard | src/components/cards/SkillCard.tsx:21-52 | one row per skill, in source order, with its years line and badge variant |

## Left out

- `cn` (src/lib/utils.ts:5-7) wraps `clsx` and `tailwind-merge`. Neither is part of this model.
- `formatDate` and all `Date` parsing are left out, because they are locale and time-zone formatting. Dates arrive as (year, month) pairs or integer timestamps, and "now" is a parameter. The end label keeps the raw end date.
- `debounce`, `isInViewport`, `scrollToElement` and `copyToClipboard` are left out, because they are timers, DOM and clipboard I/O.
- `generateId` (randomness) and `lerp` (floating point) are left out.
- Metric values are shown with `toFixed(2)`, which is floating-point formatting. Only which metric entries are shown is modelled.
- Utils.FormatNumber: models integer input only. Fractions, NaN, Infinity and exponent notation are left out, because they are floating point.
- Utils.Clamp: integers only. NaN and signed zero are left out.
- Strings.Lower: ASCII only. Unicode case mapping is left out. `trim` and `\s` use the full ECMAScript whitespace set, while `\w` is ASCII, as in JavaScript.
- Character positions are Dafny characters, not UTF-16 code units. So `slice(0, n)`, `word[0]` and lengths can differ from the browser on text outside the Basic Multilingual Plane.
- Utils.GroupBy: the key is an explicit `keyOf` function (standing for `String(item[key])`), and the result is a map. The key order of the returned object is not modelled.
- Utils.CalculateDuration: an empty-string `endDate` counts as "no end date" in the code. The model has only present or absent end dates.
- Utils.TruncateTextBounds: is stated for `maxLength ≥ 0`. `TruncateText` itself follows JavaScript's `slice` for negative values too.
- Sorting: the model takes the sort as stable, as ES2019 requires. An engine's inconsistent-comparator behaviour does not arise, because every comparator here is a key order.
- The modals, animation wrappers, layout, header and footer scroll state, and the JSON data files are not part of this model.

## Findings

| source | as written | input that shows it | evidently intended | confidence | as-written member | corrected member |
|---|---|---|---|---|---|---|
| src/lib/utils.ts:65-68 | `if (!result[groupKey])` on a plain `{}` accumulator finds inherited members | an item whose key is "constructor" or "toString": `result[groupKey].push` throws a TypeError | a new group for every key | not executed | Utils.GroupByAsWrittenThrows | Utils.GroupBy |
| src/lib/utils.ts:148-150 | `colors[tech] \|\| default` on an object literal finds inherited members | `getTechColor("toString")` returns a function, which ends up in the badge's class string | the default class for every unlisted name | not executed | Utils.TechColorAsWrittenDiffers | Utils.TechColorLookup |
| src/components/cards/SkillCard.tsx:28 | `{skill.yearsOfExperience && (...)}` renders the falsy number 0 | `yearsOfExperience: 0` shows a stray "0" under the skill name | no years line for 0 | not executed | SkillCard.ZeroYearsRendersStrayZero | SkillCard.YearsLineWords |
