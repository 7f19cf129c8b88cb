/** The blog index (src/app/blog/page.tsx): the tag buttons, the search
    and tag filter (which keeps the posts in their listed order), the
    result-count label, and the query state with its Clear Filters reset. */
module BlogPage {
  import opened Wrappers
  import opened Strings
  import opened Seqs
  import opened Catalog

  function TagListsOf(posts: seq<BlogPost>): (tss: seq<seq<string>>)
    ensures |tss| == |posts| && forall i :: 0 <= i < |posts| ==> tss[i] == posts[i].tags
  {
    seq(|posts|, i requires 0 <= i < |posts| => posts[i].tags)
  }

  /** `Array.from(new Set(blogPosts.flatMap(post => post.tags)))`. */
  function AllTags(posts: seq<BlogPost>): seq<string>
  {
    Distinct(Flatten(TagListsOf(posts)))
  }

  /** Every tag of every post, each exactly once, in the order in which
      the posts' tag lists first mention it. */
  lemma AllTagsExact(posts: seq<BlogPost>)
    ensures var tags := AllTags(posts);
      && (forall t :: t in tags <==> exists i :: 0 <= i < |posts| && t in posts[i].tags)
      && (forall i, j :: 0 <= i < j < |tags| ==> tags[i] != tags[j])
      && (forall i, j :: 0 <= i < j < |tags| ==>
            FirstIndex(Flatten(TagListsOf(posts)), tags[i]) < FirstIndex(Flatten(TagListsOf(posts)), tags[j]))
  {
    var tss := TagListsOf(posts);
    DistinctFirstSeenOrder(Flatten(tss));
    forall t ensures t in Flatten(tss) <==> exists i :: 0 <= i < |posts| && t in posts[i].tags {
      InFlatten(tss, t);
      if t in Flatten(tss) {
        var i :| 0 <= i < |tss| && t in tss[i];
        assert t in posts[i].tags;
      }
    }
  }

  // --------------------------------------------------------------- filter

  /** The search test: title and excerpt only, never the tags. */
  predicate MatchesSearch(post: BlogPost, query: string)
  {
    query == ""
    || Contains(Lower(post.title), Lower(query))
    || Contains(Lower(post.excerpt), Lower(query))
  }

  /** `!selectedTag || post.tags.includes(selectedTag)`: no tag (or the
      empty, falsy tag) passes every post, otherwise the tag must be one of
      the post's, compared exactly. */
  predicate MatchesTag(post: BlogPost, tag: Option<string>)
  {
    tag.None? || tag.value == "" || tag.value in post.tags
  }

  predicate PostMatches(post: BlogPost, query: string, tag: Option<string>)
  {
    MatchesSearch(post, query) && MatchesTag(post, tag)
  }

  function PostMatcher(query: string, tag: Option<string>): BlogPost -> bool
  {
    post => PostMatches(post, query, tag)
  }

  /** `blogPosts.filter(...)`; nothing sorts the result. */
  function FilterPosts(posts: seq<BlogPost>, query: string, tag: Option<string>): seq<BlogPost>
  {
    Filter(posts, PostMatcher(query, tag))
  }

  /** The shown posts are exactly the matching ones, each as often as it
      is listed, kept in listed order; with a tag selected each carries it. */
  lemma FilterPostsExact(posts: seq<BlogPost>, query: string, tag: Option<string>, post: BlogPost)
    ensures var f := FilterPosts(posts, query, tag);
      && IsSubsequence(f, posts)
      && (forall i :: 0 <= i < |f| ==> MatchesSearch(f[i], query))
      && (tag.Some? && tag.value != "" ==> forall i :: 0 <= i < |f| ==> tag.value in f[i].tags)
      && multiset(f)[post] == if PostMatches(post, query, tag) then multiset(posts)[post] else 0
  {
    FilterIsSubsequence(posts, PostMatcher(query, tag));
    FilterCount(posts, PostMatcher(query, tag), post);
  }

  /** The tags are never searched: two posts that differ only in their
      tags pass or fail the search alike. */
  lemma SearchIgnoresTags(post: BlogPost, tags: seq<string>, query: string)
    ensures MatchesSearch(post.(tags := tags), query) == MatchesSearch(post, query)
  {
  }

  /** Changing the case of the query never changes the result. */
  lemma SearchIgnoresCase(posts: seq<BlogPost>, q1: string, q2: string, tag: Option<string>)
    requires Lower(q1) == Lower(q2)
    ensures FilterPosts(posts, q1, tag) == FilterPosts(posts, q2, tag)
  {
    assert q1 == "" <==> q2 == "" by {
      assert |Lower(q1)| == |q1| && |Lower(q2)| == |q2|;
    }
    FilterSameTest(posts, PostMatcher(q1, tag), PostMatcher(q2, tag));
  }

  /** Tag matching is exact: a post with only "Python" is not shown under "python". */
  lemma TagIsCaseSensitive()
    ensures !MatchesTag(BlogPost("1", "t", "e", ["Python"], false), Some("python"))
    ensures MatchesTag(BlogPost("1", "t", "e", ["Python"], false), Some("Python"))
  {
    assert "python" != "Python" by {
      assert "python"[0] != "Python"[0];
    }
  }

  /** With no query and no tag every post is shown, in listed order. */
  lemma UnfilteredShowsAll(posts: seq<BlogPost>)
    ensures FilterPosts(posts, "", None) == posts
  {
    FilterKeepsAll(posts, PostMatcher("", None));
  }

  // ---------------------------------------------------------- count label

  /** "{n} article{n !== 1 ? "s" : ""} found". */
  function ArticleCountLabel(n: nat): string
  {
    NatToString(n) + " article" + (if n != 1 then "s" else "") + " found"
  }

  /** The label has three words: the count, which reads back as n, then
      "article" exactly when n is 1 and "articles" otherwise, then "found". */
  lemma ArticleCountLabelWords(n: nat)
    ensures var w := Split(ArticleCountLabel(n), ' ');
      && |w| == 3
      && ParseNat(w[0]) == Some(n)
      && (w[1] == "article" <==> n == 1)
      && (w[1] == "articles" <==> n != 1)
      && w[2] == "found"
  {
    var noun := if n != 1 then "articles" else "article";
    assert ArticleCountLabel(n) == NatToString(n) + [' '] + noun + [' '] + "found";
    ThreeWords(NatToString(n), noun, "found");
    NatToStringValue(n);
    assert "article" != "articles" by {
      assert |"article"| != |"articles"|;
    }
  }

  lemma ThreeWords(a: string, b: string, c: string)
    requires ' ' !in a && ' ' !in b && ' ' !in c
    ensures Split(a + [' '] + b + [' '] + c, ' ') == [a, b, c]
  {
    assert a + [' '] + b + [' '] + c == a + [' '] + (b + [' '] + c);
    SplitAppend(a, b + [' '] + c, ' ');
    SplitAppend(b, c, ' ');
    SplitNoSep(a, ' ');
    SplitNoSep(b, ' ');
    SplitNoSep(c, ' ');
  }

  // ---------------------------------------------------------- query state

  /** The page's state: the posts and the two query fields. */
  class BlogFilters {
    const posts: seq<BlogPost>
    var searchQuery: string
    var selectedTag: Option<string>

    constructor (posts: seq<BlogPost>)
      ensures this.posts == posts && searchQuery == "" && selectedTag == None
    {
      this.posts := posts;
      searchQuery := "";
      selectedTag := None;
    }

    function Filtered(): seq<BlogPost>
      reads this
    {
      FilterPosts(posts, searchQuery, selectedTag)
    }

    /** "No articles found matching your criteria" is shown exactly when
        nothing passes. */
    predicate ShowsEmptyState()
      reads this
    {
      |Filtered()| == 0
    }

    /** The label above the grid. */
    function CountLabel(): string
      reads this
    {
      ArticleCountLabel(|Filtered()|)
    }

    /** The search box's `onChange`. */
    method SetSearchQuery(query: string)
      modifies this
      ensures searchQuery == query && selectedTag == old(selectedTag)
    {
      searchQuery := query;
    }

    /** A tag button's `onClick` (`None` for the "All" button). */
    method SelectTag(tag: Option<string>)
      modifies this
      ensures selectedTag == tag && searchQuery == old(searchQuery)
    {
      selectedTag := tag;
    }

    /** "Clear Filters": no query and no tag, after which every post is shown. */
    method ClearFilters()
      modifies this
      ensures searchQuery == "" && selectedTag == None
      ensures Filtered() == posts
      ensures ShowsEmptyState() <==> posts == []
    {
      searchQuery := "";
      selectedTag := None;
      UnfilteredShowsAll(posts);
    }
  }
}
