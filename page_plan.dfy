/** What the site's page-creation hooks read from the post query and what
    they hand to `createPage`, shared by the blog pages and the markdown
    pages. */
module PagePlan {
  import opened JsValue

  /** `next` or `previous` of a query edge: null, or the neighbouring post. */
  datatype Neighbour = NoPost | Post(path: string, title: string)

  /** The frontmatter fields the hooks read; `tags` is None when null or absent. */
  datatype Frontmatter = Frontmatter(path: string, tags: Option<seq<string>>)

  /** One query edge: the post (its id and frontmatter) and its neighbours. */
  datatype Edge = Edge(id: string, frontmatter: Frontmatter, next: Neighbour, previous: Neighbour)

  /** The settled query: whether `result.errors` is truthy, and the edges. */
  datatype QueryResult = QueryResult(hasErrors: bool, edges: seq<Edge>)

  datatype Template = BlogPostTemplate | BlogListTemplate | TagTemplate

  datatype Context =
    | PostContext(id: Option<string>, next: Neighbour, previous: Neighbour, commentsSearch: string)
    | ListContext(limit: nat, skip: nat, numPages: nat, currentPage: nat)
    | TagContext(tag: string)

  /** The argument of one `createPage` call. */
  datatype Page = Page(path: string, component: Template, context: Context)

  /** How a page hook ends: returning without querying, with a rejected
      promise, or with a resolved one. */
  datatype Settlement = NotQueried | Rejected | Resolved

  const CommentsSearchPrefix: string := "repo:malcolm-kee/malcolm-kee label:comment "
  const CommentsSearchSuffix: string := " in:title sort:created-asc"

  /** The comment-issue search string of a post. */
  function CommentsSearch(path: string): (s: string)
    ensures |s| == |CommentsSearchPrefix| + |path| + |CommentsSearchSuffix|
    ensures s[..|CommentsSearchPrefix|] == CommentsSearchPrefix
    ensures s[|CommentsSearchPrefix|..|CommentsSearchPrefix| + |path|] == path
    ensures s[|CommentsSearchPrefix| + |path|..] == CommentsSearchSuffix
  {
    CommentsSearchPrefix + path + CommentsSearchSuffix
  }

  /** The page of one post. `next` and `previous` are swapped because both
      queries sort by date descending; `createBlogs` puts the post id in the
      context (`withId`), `createPages` does not. */
  function PostPage(e: Edge, withId: bool): (p: Page)
    ensures p.path == e.frontmatter.path && p.component == BlogPostTemplate
    ensures p.context.PostContext? && p.context.next == e.previous && p.context.previous == e.next
  {
    Page(e.frontmatter.path, BlogPostTemplate,
         PostContext(if withId then Some(e.id) else None, e.previous, e.next, CommentsSearch(e.frontmatter.path)))
  }

  /** `posts.forEach(... createPage ...)` for the post pages. */
  function PostPages(posts: seq<Edge>, withId: bool): (r: seq<Page>)
    ensures |r| == |posts|
  {
    seq(|posts|, i requires 0 <= i < |posts| => PostPage(posts[i], withId))
  }

  /** One page per post, at the post's path, with its neighbours swapped. */
  lemma PostPagesSwapNeighbours(posts: seq<Edge>, withId: bool, i: nat)
    requires i < |posts|
    ensures var p := PostPages(posts, withId)[i];
            && p.path == posts[i].frontmatter.path
            && p.component == BlogPostTemplate
            && p.context.PostContext?
            && p.context.next == posts[i].previous && p.context.previous == posts[i].next
            && p.context.commentsSearch == CommentsSearch(posts[i].frontmatter.path)
            && (p.context.id.Some? <==> withId)
            && (withId ==> p.context.id.value == posts[i].id)
  {
  }

  /** A post's tags when `_.get(edge, 'node.frontmatter.tags')` is truthy
      (an array, even an empty one), else nothing. */
  function EdgeTags(e: Edge): seq<string> {
    if e.frontmatter.tags.Some? then e.frontmatter.tags.value else []
  }

  /** The `tags` accumulator after `_.each(posts, ...)`: every post's tags
      concatenated in post order, duplicates kept. */
  function CollectTags(posts: seq<Edge>): seq<string> {
    if posts == [] then []
    else CollectTags(posts[..|posts| - 1]) + EdgeTags(posts[|posts| - 1])
  }

  /** Collecting distributes over the posts: order kept, nothing merged. */
  lemma {:induction false} CollectTagsAppend(a: seq<Edge>, b: seq<Edge>)
    ensures CollectTags(a + b) == CollectTags(a) + CollectTags(b)
  {
    if b == [] {
      assert a + b == a;
    } else {
      assert (a + b)[..|a + b| - 1] == a + b[..|b| - 1];
      CollectTagsAppend(a, b[..|b| - 1]);
    }
  }

  /** Number of tag occurrences over all posts. */
  function TagOccurrences(posts: seq<Edge>): nat {
    if posts == [] then 0 else |EdgeTags(posts[0])| + TagOccurrences(posts[1..])
  }

  /** One collected tag per occurrence: duplicates are kept. */
  lemma {:induction false} CollectTagsCount(posts: seq<Edge>)
    ensures |CollectTags(posts)| == TagOccurrences(posts)
  {
    if posts != [] {
      CollectTagsAppend([posts[0]], posts[1..]);
      assert [posts[0]] + posts[1..] == posts;
      CollectTagsCount(posts[1..]);
      assert CollectTags([posts[0]]) == CollectTags([]) + EdgeTags(posts[0]);
    }
  }

  /** A tag is collected iff some post carries it. */
  lemma {:induction false} CollectTagsMembers(posts: seq<Edge>, tag: string)
    ensures tag in CollectTags(posts) <==> exists i :: 0 <= i < |posts| && tag in EdgeTags(posts[i])
  {
    if posts != [] {
      var init := posts[..|posts| - 1];
      CollectTagsMembers(init, tag);
      assert forall i :: 0 <= i < |init| ==> init[i] == posts[i];
    }
  }

  /** The page of one tag occurrence. */
  function TagPage(kebabCase: string -> string, tag: string): (p: Page)
    ensures p.component == TagTemplate && p.context == TagContext(tag)
    ensures |p.path| >= 5 && p.path[..5] == "tags/" && p.path[5..] == kebabCase(tag)
  {
    Page("tags/" + kebabCase(tag), TagTemplate, TagContext(tag))
  }

  /** `tags.forEach(tag => createPage(...))`. */
  function TagPages(kebabCase: string -> string, tags: seq<string>): (r: seq<Page>)
    ensures |r| == |tags|
  {
    seq(|tags|, i requires 0 <= i < |tags| => TagPage(kebabCase, tags[i]))
  }

  // ---------------------------------------------------------------------
  // The loops shared by both page hooks

  /** `posts.forEach(({ node, next, previous }) => createPage(...))`: the
      post pages, in post order. */
  method CreatePostPages(posts: seq<Edge>, withId: bool) returns (pages: seq<Page>)
    ensures pages == PostPages(posts, withId)
  {
    pages := [];
    var i := 0;
    while i < |posts|
      invariant 0 <= i <= |posts|
      invariant pages == PostPages(posts[..i], withId)
    {
      var e := posts[i];
      assert PostPages(posts[..i + 1], withId) == PostPages(posts[..i], withId) + [PostPage(e, withId)];
      pages := pages + [Page(e.frontmatter.path, BlogPostTemplate,
                             PostContext(if withId then Some(e.id) else None, e.previous, e.next,
                                         CommentsSearch(e.frontmatter.path)))];
      i := i + 1;
    }
    assert posts[..i] == posts;
  }

  /** `_.each` over the posts: each post's truthy `tags` array is
      concatenated onto the `tags` accumulator. */
  method GatherTags(posts: seq<Edge>) returns (tags: seq<string>)
    ensures tags == CollectTags(posts)
  {
    tags := [];
    var i := 0;
    while i < |posts|
      invariant 0 <= i <= |posts|
      invariant tags == CollectTags(posts[..i])
    {
      assert posts[..i + 1][..i] == posts[..i];
      if posts[i].frontmatter.tags.Some? {
        tags := tags + posts[i].frontmatter.tags.value;
      }
      i := i + 1;
    }
    assert posts[..i] == posts;
  }

  /** `tags.forEach(tag => createPage(...))`. */
  method CreateTagPages(kebabCase: string -> string, tags: seq<string>) returns (pages: seq<Page>)
    ensures pages == TagPages(kebabCase, tags)
  {
    pages := [];
    var i := 0;
    while i < |tags|
      invariant 0 <= i <= |tags|
      invariant pages == TagPages(kebabCase, tags[..i])
    {
      pages := pages + [Page("tags/" + kebabCase(tags[i]), TagTemplate, TagContext(tags[i]))];
      assert TagPages(kebabCase, tags[..i + 1]) == TagPages(kebabCase, tags[..i]) + [TagPage(kebabCase, tags[i])];
      i := i + 1;
    }
    assert tags[..i] == tags;
  }
}
