/** `createBlogs`: the blog post pages, the paginated blog listing and the
    tag pages. The two environment switches are parameters. */
module CreateBlogs {
  import opened JsValue
  import opened PagePlan

  const PostsPerPage: nat := 10
  const LastTen: nat := 10

  /** `posts`: `edges.slice(0, 10)` when ONLY_LAST_TEN_BLOGS is set, else every edge. */
  function SelectPosts(onlyLastTen: bool, edges: seq<Edge>): (posts: seq<Edge>)
    ensures !onlyLastTen ==> posts == edges
    ensures onlyLastTen ==> |posts| == (if |edges| < LastTen then |edges| else LastTen)
    ensures posts == edges[..|posts|]
  {
    if onlyLastTen && |edges| > LastTen then edges[..LastTen] else edges
  }

  /** `Math.ceil(n / postsPerPage)`. */
  function NumPages(n: nat): (pages: nat)
    ensures pages * PostsPerPage >= n
    ensures pages > 0 ==> (pages - 1) * PostsPerPage < n
    ensures pages == 0 <==> n == 0
  {
    (n + PostsPerPage - 1) / PostsPerPage
  }

  /** `/blog` for the first listing page, `/blog/${i + 1}` for the others. */
  function ListingPath(i: nat): (p: string)
    ensures |p| >= 5 && p[..5] == "/blog"
    ensures i == 0 <==> p == "/blog"
  {
    if i == 0 then "/blog" else "/blog/" + Decimal(i + 1)
  }

  function ListingPage(i: nat, numPages: nat): (p: Page)
    ensures p.component == BlogListTemplate && (p.path == "/blog" <==> i == 0)
    ensures p.context.ListContext? && p.context.skip == i * PostsPerPage && p.context.currentPage == i + 1
  {
    Page(ListingPath(i), BlogListTemplate, ListContext(PostsPerPage, i * PostsPerPage, numPages, i + 1))
  }

  function ListingPages(n: nat): (r: seq<Page>)
    ensures |r| == NumPages(n)
  {
    seq(NumPages(n), i requires 0 <= i < NumPages(n) => ListingPage(i, NumPages(n)))
  }

  /** Listing page `i` is at `/blog` for the first page and `/blog/${i + 1}`
      otherwise, shows 10 posts from `i * 10`, and knows the page count and
      its own 1-based number. */
  lemma ListingPageAt(n: nat, i: nat)
    requires i < NumPages(n)
    ensures var p := ListingPages(n)[i];
            && p.path == (if i == 0 then "/blog" else "/blog/" + Decimal(i + 1))
            && p.component == BlogListTemplate
            && p.context == ListContext(PostsPerPage, i * PostsPerPage, NumPages(n), i + 1)
            && (p.path == "/blog" <==> i == 0)
  {
  }

  /** The listing windows `[skip, skip + limit)` partition the posts: each
      post index falls in exactly one listing page, and no page is empty. */
  lemma ListingWindowsPartition(n: nat, k: nat, i: nat)
    requires k < n && i < NumPages(n)
    ensures var c := ListingPages(n)[i].context;
            && c.skip < n
            && (c.skip <= k < c.skip + c.limit <==> i == k / PostsPerPage)
            && k / PostsPerPage < NumPages(n)
  {
    var c := ListingPages(n)[i].context;
    assert c.skip == i * PostsPerPage && c.limit == PostsPerPage;
    assert (i - 1) * PostsPerPage < n || i == 0;
  }

  /** Distinct listing pages have distinct paths. */
  lemma ListingPathsDistinct(i: nat, j: nat)
    requires i != j
    ensures ListingPath(i) != ListingPath(j)
  {
    if i != 0 && j != 0 {
      if ListingPath(i) == ListingPath(j) {
        var p := "/blog/";
        assert ListingPath(i)[|p|..] == Decimal(i + 1);
        assert ListingPath(j)[|p|..] == Decimal(j + 1);
        DecimalInjective(i + 1, j + 1);
      }
    } else if i == 0 {
      assert |ListingPath(j)| > |"/blog"|;
    } else {
      assert |ListingPath(i)| > |"/blog"|;
    }
  }

  /** Every `createPage` call of a resolved run, in order. */
  function BlogPlan(onlyLastTen: bool, edges: seq<Edge>, kebabCase: string -> string): (r: seq<Page>)
    ensures var posts := SelectPosts(onlyLastTen, edges);
            |r| == |posts| + NumPages(|posts|) + |CollectTags(posts)|
  {
    var posts := SelectPosts(onlyLastTen, edges);
    PostPages(posts, true) + ListingPages(|posts|) + TagPages(kebabCase, CollectTags(posts))
  }

  /** The plan's shape: a page per post, then the listing, then a page per
      tag occurrence; with no posts there are no pages at all. */
  lemma BlogPlanShape(onlyLastTen: bool, edges: seq<Edge>, kebabCase: string -> string)
    ensures var posts := SelectPosts(onlyLastTen, edges);
            |BlogPlan(onlyLastTen, edges, kebabCase)| == |posts| + NumPages(|posts|) + TagOccurrences(posts)
    ensures edges == [] ==> BlogPlan(onlyLastTen, edges, kebabCase) == []
  {
    CollectTagsCount(SelectPosts(onlyLastTen, edges));
  }

  /** Page `i` of the plan: the post pages come first in post order, then
      listing page `i - |posts|`, then the tag page of each tag occurrence
      in the order the tags were collected. */
  lemma BlogPlanAt(onlyLastTen: bool, edges: seq<Edge>, kebabCase: string -> string, i: nat)
    requires i < |BlogPlan(onlyLastTen, edges, kebabCase)|
    ensures var posts := SelectPosts(onlyLastTen, edges);
            var plan := BlogPlan(onlyLastTen, edges, kebabCase);
            && (i < |posts| ==> plan[i] == PostPage(posts[i], true))
            && (|posts| <= i < |posts| + NumPages(|posts|) ==>
                  plan[i] == ListingPage(i - |posts|, NumPages(|posts|)))
            && (|posts| + NumPages(|posts|) <= i ==>
                  plan[i] == TagPage(kebabCase, CollectTags(posts)[i - |posts| - NumPages(|posts|)]))
  {
    var posts := SelectPosts(onlyLastTen, edges);
    var front := PostPages(posts, true) + ListingPages(|posts|);
    var plan := BlogPlan(onlyLastTen, edges, kebabCase);
    assert plan == front + TagPages(kebabCase, CollectTags(posts));
    if i < |front| {
      assert plan[i] == front[i];
    }
  }

  /** `Array.from({ length: numPages }).forEach((_, i) => createPage(...))`. */
  method CreateListingPages(n: nat) returns (pages: seq<Page>)
    ensures pages == ListingPages(n)
  {
    var numPages := NumPages(n);
    pages := [];
    var i := 0;
    while i < numPages
      invariant 0 <= i <= numPages
      invariant pages == ListingPages(n)[..i]
    {
      pages := pages + [Page(if i == 0 then "/blog" else "/blog/" + Decimal(i + 1), BlogListTemplate,
                             ListContext(PostsPerPage, i * PostsPerPage, numPages, i + 1))];
      assert ListingPages(n)[..i + 1] == ListingPages(n)[..i] + [ListingPage(i, numPages)];
      i := i + 1;
    }
    assert ListingPages(n)[..i] == ListingPages(n);
  }

  /** `createBlogs({ actions, graphql })` once the query has settled with
      `result`; the `createPage` calls of the three loops, in order. */
  method CreateBlogs(disableBlog: bool, onlyLastTenBlogs: bool, result: QueryResult, kebabCase: string -> string)
    returns (settlement: Settlement, pages: seq<Page>)
    ensures disableBlog ==> settlement == NotQueried && pages == []
    ensures !disableBlog && result.hasErrors ==> settlement == Rejected && pages == []
    ensures !disableBlog && !result.hasErrors ==>
      settlement == Resolved && pages == BlogPlan(onlyLastTenBlogs, result.edges, kebabCase)
  {
    pages := [];
    if disableBlog {
      return NotQueried, pages;
    }
    if result.hasErrors {
      return Rejected, pages;
    }
    var posts := if onlyLastTenBlogs && |result.edges| > LastTen then result.edges[..LastTen] else result.edges;
    var postPages := CreatePostPages(posts, true);
    var listingPages := CreateListingPages(|posts|);
    var tags := GatherTags(posts);
    var tagPages := CreateTagPages(kebabCase, tags);
    pages := postPages + listingPages + tagPages;
    settlement := Resolved;
  }
}
