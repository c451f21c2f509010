/** The site's `gatsby-node` hooks: `createPages` (post pages and tag pages
    of the markdown posts) and `onCreatePage` (the root-page rewrite). */
module GatsbyNode {
  import opened JsValue
  import opened PagePlan

  /** Every `createPage` call of a resolved run, in order. */
  function MarkdownPlan(edges: seq<Edge>, kebabCase: string -> string): (r: seq<Page>)
    ensures |r| == |edges| + |CollectTags(edges)|
    ensures forall i :: |edges| <= i < |r| ==> r[i].component == TagTemplate
  {
    PostPages(edges, false) + TagPages(kebabCase, CollectTags(edges))
  }

  /** Exactly one page per edge, in edge order, at the post's path, with the
      neighbours swapped and the post's path inside the comment search. */
  lemma MarkdownPostPage(edges: seq<Edge>, kebabCase: string -> string, i: nat)
    requires i < |edges|
    ensures var p := MarkdownPlan(edges, kebabCase)[i];
            && p.path == edges[i].frontmatter.path
            && p.component == BlogPostTemplate
            && p.context == PostContext(None, edges[i].previous, edges[i].next,
                                        CommentsSearch(edges[i].frontmatter.path))
  {
  }

  /** After the post pages comes one tag page per tag occurrence, in order;
      an edge whose tags are null, absent or an empty array adds none. */
  lemma {:induction false} MarkdownTagPages(edges: seq<Edge>, kebabCase: string -> string, e: Edge)
    requires EdgeTags(e) == []
    ensures MarkdownPlan(edges + [e], kebabCase)[|edges| + 1..] == MarkdownPlan(edges, kebabCase)[|edges|..]
    ensures |MarkdownPlan(edges, kebabCase)| == |edges| + TagOccurrences(edges)
  {
    CollectTagsAppend(edges, [e]);
    assert CollectTags([e]) == CollectTags([]) + EdgeTags(e);
    CollectTagsCount(edges);
  }

  /** `createPages({ actions, graphql })` once the query has settled with
      `result`; the `createPage` calls of its two loops, in order. */
  method CreatePages(result: QueryResult, kebabCase: string -> string) returns (settlement: Settlement, pages: seq<Page>)
    ensures result.hasErrors ==> settlement == Rejected && pages == []
    ensures !result.hasErrors ==> settlement == Resolved && pages == MarkdownPlan(result.edges, kebabCase)
  {
    pages := [];
    if result.hasErrors {
      return Rejected, pages;
    }
    var posts := result.edges;
    var postPages := CreatePostPages(posts, false);
    var tags := GatherTags(posts);
    var tagPages := CreateTagPages(kebabCase, tags);
    pages := postPages + tagPages;
    settlement := Resolved;
  }

  // ---------------------------------------------------------------------
  // onCreatePage

  /** A page's `context` object; pages may share one. */
  class PageContext {
    var entries: map<string, Value>

    constructor (entries: map<string, Value>)
      ensures this.entries == entries
    {
      this.entries := entries;
    }
  }

  /** A page object as `onCreatePage` receives it; `others` holds its
      remaining own properties. */
  class GatsbyPage {
    var path: string
    var others: map<string, Value>
    var context: PageContext

    constructor (path: string, others: map<string, Value>, context: PageContext)
      ensures this.path == path && this.others == others && this.context == context
    {
      this.path := path;
      this.others := others;
      this.context := context;
    }

    /** `Object.assign({}, page)`: a new page with the same properties; the
        context object is shared, not copied. */
    constructor ShallowCopy(page: GatsbyPage)
      ensures path == page.path && others == page.others && context == page.context
    {
      path := page.path;
      others := page.others;
      context := page.context;
    }
  }

  /** One `deletePage` or `createPage` call, with the page object passed. */
  datatype PageAction = DeletePage(page: GatsbyPage) | CreatePage(page: GatsbyPage)

  /** `onCreatePage({ page, actions })`. */
  method OnCreatePage(page: GatsbyPage) returns (actions: seq<PageAction>)
    modifies page.context
    ensures page.path != "/" ==> actions == [] && page.context.entries == old(page.context.entries)
    ensures page.path == "/" ==>
      && page.context.entries == old(page.context.entries)["isRoot" := Bool(true)]
      && |actions| == 2
      && actions[0].DeletePage? && actions[1] == CreatePage(page)
      && fresh(actions[0].page) && actions[0].page != page
      && actions[0].page.path == page.path && actions[0].page.others == page.others
      && actions[0].page.context == page.context
      && actions[0].page.context.entries["isRoot"] == Bool(true)
  {
    var oldPage := new GatsbyPage.ShallowCopy(page);
    actions := [];
    if page.path == "/" {
      page.context.entries := page.context.entries["isRoot" := Bool(true)];
      actions := actions + [DeletePage(oldPage)];
      actions := actions + [CreatePage(page)];
    }
  }
}
