# Site build logic of malcolm-kee, in Dafny

This project models the non-visual logic of the malcolm-kee site and proves properties about it:

- **MySQL source plugin, row-to-node pass** (`createMysqlNodes`, `mapSqlResults`, `reduceChildFields`). It finds an entity's child entities and adds child-link fields to each fetched row: all ids for `OneToMany`, only the first id otherwise. It adds the parent-link field, merges the derived fields over the raw row, and sends each node and then its image nodes to `createNode`.
- **`createBufferFileNode`**: builds the file-node record of an image buffer.
- **Page plans** of `createBlogs` and of `gatsby-node`'s `createPages`: post pages with the neighbours swapped, paginated blog listing pages, and tag pages. Also `onCreatePage`, which rewrites the root page.
- **Code editor logic**: `shallowConcat`, highlight-marker detection and line filtering, the `sanitize` log formatter, and the choice between live editor, snippet and plain code.

JavaScript values are the datatype `JsValue.Value`. Strict equality compares primitives by tag and payload. Object identity is not modelled: an object-valued operand (a Buffer, an array, a record) is never strictly equal to anything, even to itself.

Library calls are opaque function-typed fields of `Library.Lib` or parameters. These are `generateNodeId`, the node factory, `pluralize`, `image-type`, `pretty-bytes`, `createContentDigest`, string coercion of non-strings, `_.kebabCase` and `JSON.stringify`.

A thrown exception is a `Throw` completion or a `completed == false` flag. The `createNode` and `createPage` callbacks become the sequence of their arguments, in call order. `process.env` switches become boolean parameters.

Modules:

- `JsValue` (js_value.dfy): values and decimal rendering.
- `Library` (library.dfy): the opaque collaborators.
- `MysqlNodes` (create_mysql_nodes.dfy)
- `FileNode` (create_file_node.dfy)
- `PagePlan` (page_plan.dfy): page shapes and tag collection, shared by the two page hooks.
- `CreateBlogs` (create_blogs.dfy)
- `GatsbyNode` (gatsby_node.dfy)
- `CodeEditor` (code_editor.dfy)

`reduceChildFields`, `createMysqlNodes` with its inner image loop, and the `forEach` loops of `createBlogs` and `createPages` are methods with loops. Each is proved equal to a specification function, and the properties are proved about that function. `shallowConcat` is a method over arrays whose ensures states the new array's contents directly: the old elements, then the item. `onCreatePage` mutates `page.context` in place and is a method over the classes `GatsbyPage` and `PageContext`.

Four facts about the code shape the MySQL part of the model:

- `idFieldName` is read but never checked: a missing id field gives the node an undefined id (create-mysql-nodes.js:44).
- The child filter only compares `parentName` with the entity's name, so an entity naming itself as parent is its own child (create-mysql-nodes.js:76-78).
- The parent-link field is `${parentName}___NODE` as given, with no `pluralize` call (create-mysql-nodes.js:48).
- An image buffer that `imageType` does not recognise makes the destructuring throw, which ends the pass (create-mysql-nodes.js:97).

## Model

| member | source | states |
|---|---|---|
| MysqlNodes.ChildEntities | plugins/gatsby-source-mysql/src/create-mysql-nodes.js:76-78 | an entity is a child exactly when it is in the list and its parentName is truthy and equals the entity's name |
| MysqlNodes.ChildEntitiesAppend | plugins/gatsby-source-mysql/src/create-mysql-nodes.js:76-78 | the child filter keeps list order (distributes over concatenation) |
| MysqlNodes.SelfParentIsChild | plugins/gatsby-source-mysql/src/create-mysql-nodes.js:76-78 | an entity naming itself as parent is not excluded: it is its own child |
| MysqlNodes.MatchingRows | plugins/gatsby-source-mysql/src/create-mysql-nodes.js:24-25 | the filter returns no more rows than it is given |
| MysqlNodes.MatchingRowsMembers | plugins/gatsby-source-mysql/src/create-mysql-nodes.js:24-25 | a child row is kept exactly when its foreign key is strictly equal to the node id |
| MysqlNodes.MatchingRowsAppend | plugins/gatsby-source-mysql/src/create-mysql-nodes.js:24-25 | matching child rows keep the child rows' order |
| MysqlNodes.FirstMatchLeads | plugins/gatsby-source-mysql/src/create-mysql-nodes.js:24-25 | the first matching child row is the first filtered row |
| MysqlNodes.ChildIds | plugins/gatsby-source-mysql/src/create-mysql-nodes.js:24-26 | one generated id per matching child row |
| MysqlNodes.ChildFieldNameSuffix | plugins/gatsby-source-mysql/src/create-mysql-nodes.js:28-32 | every child-link field name, plural or singular, ends in `___NODE` |
| MysqlNodes.ChildFieldValue | plugins/gatsby-source-mysql/src/create-mysql-nodes.js:21-32 | with cardinality absent or 'OneToMany' the field is an array; with any other cardinality it is one id string or undefined |
| MysqlNodes.ChildFieldBranches | plugins/gatsby-source-mysql/src/create-mysql-nodes.js:28-32 | OneToMany writes plural(childName)___NODE with every id; otherwise singular(childName)___NODE with the first id, or undefined when there is none |
| MysqlNodes.OneToManyIdsAppend | plugins/gatsby-source-mysql/src/create-mysql-nodes.js:24-29 | the OneToMany id list follows the child rows in order, distributing over concatenation |
| MysqlNodes.OneToManyField | plugins/gatsby-source-mysql/src/create-mysql-nodes.js:21-29 | with cardinality absent or 'OneToMany', the field is an array with one id per matching row, each generated from the child name and that row's id field |
| MysqlNodes.SingleFieldFirstMatch | plugins/gatsby-source-mysql/src/create-mysql-nodes.js:28-32 | any other cardinality keeps only the id of the first matching row |
| MysqlNodes.SingleFieldNoMatch | plugins/gatsby-source-mysql/src/create-mysql-nodes.js:28-32 | with another cardinality and no matching row, the field is undefined |
| MysqlNodes.NoMatchIsEmpty | plugins/gatsby-source-mysql/src/create-mysql-nodes.js:24-25 | when no child row matches, the filter result is empty |
| MysqlNodes.ChildFieldsThrows | plugins/gatsby-source-mysql/src/create-mysql-nodes.js:13-37 | the child fields throw exactly when some child entity's result is not an array |
| MysqlNodes.ChildFieldsStep | plugins/gatsby-source-mysql/src/create-mysql-nodes.js:16-33 | each child entity either throws or writes its one field over the fields so far |
| MysqlNodes.ChildFieldsLastWriter | plugins/gatsby-source-mysql/src/create-mysql-nodes.js:28-32 | a field holds the value of the last child entity writing that name |
| MysqlNodes.ChildFieldsLastKey | plugins/gatsby-source-mysql/src/create-mysql-nodes.js:28-32 | each child entity adds its field name to the names written before it |
| MysqlNodes.ChildFieldsKeys | plugins/gatsby-source-mysql/src/create-mysql-nodes.js:28-32 | the child-field names are exactly the names the child entities write |
| MysqlNodes.AddChildField | plugins/gatsby-source-mysql/src/create-mysql-nodes.js:24-32 | one turn of the forEach writes the child's field over the local object |
| MysqlNodes.ReduceChildFields | plugins/gatsby-source-mysql/src/create-mysql-nodes.js:13-37 | the forEach that fills a local object computes the child fields |
| MysqlNodes.ParentField | plugins/gatsby-source-mysql/src/create-mysql-nodes.js:45-53 | the parent field `${parentName}___NODE` (not singularised) exists only when parentName and foreignKey are both truthy, and holds generateNodeId(parentName, row[foreignKey]) |
| MysqlNodes.MergeRow | plugins/gatsby-source-mysql/src/create-mysql-nodes.js:43-65 | merging one row throws exactly when some child entity's result is not an array |
| MysqlNodes.MergePrecedence | plugins/gatsby-source-mysql/src/create-mysql-nodes.js:44-65 | merged keys are the union; precedence from low to high is raw row, id (= the raw row[idFieldName]), parent field, child fields |
| MysqlNodes.MapSqlResults | plugins/gatsby-source-mysql/src/create-mysql-nodes.js:39-67 | one merged record per row in row order, throwing exactly when there is a row and a non-array child result |
| MysqlNodes.ImageNodeFields | plugins/gatsby-source-mysql/src/create-mysql-nodes.js:98-105 | the image-node object has exactly the keys id, extension, parent and internal; parent is resultNode.id, extension is ext and internal holds mediaType mime |
| MysqlNodes.ImageCalls | plugins/gatsby-source-mysql/src/create-mysql-nodes.js:93-108 | every image call carries id `${resultNode.id} >> Image` and parent resultNode.id whatever the field; a finished pass makes one call per Buffer field; the pass finishes exactly when imageType recognises every Buffer field |
| MysqlNodes.ImageCallsStep | plugins/gatsby-source-mysql/src/create-mysql-nodes.js:93-107 | each field adds nothing (no Buffer), throws (unrecognised Buffer) or adds one image call |
| MysqlNodes.BufferFields | plugins/gatsby-source-mysql/src/create-mysql-nodes.js:93-96 | the fields that hold a Buffer, one per Buffer field, each one of the image field names |
| MysqlNodes.ImageCallFields | plugins/gatsby-source-mysql/src/create-mysql-nodes.js:93-106 | image call k comes from the k-th Buffer field: imageType recognised its bytes, and the call's extension and media type are the ones imageType reported |
| MysqlNodes.ImageCallsLength | plugins/gatsby-source-mysql/src/create-mysql-nodes.js:93-108 | no more image calls than Buffer fields, and exactly as many when the pass finishes |
| MysqlNodes.NodeBlock | plugins/gatsby-source-mysql/src/create-mysql-nodes.js:89-108 | a node's block is the node first, then only image nodes of it; a missing imageFieldNames throws right after the node |
| MysqlNodes.EmitNodes | plugins/gatsby-source-mysql/src/create-mysql-nodes.js:89-109 | no nodes give no calls and no throw; a pass that finishes makes at least one call per node |
| MysqlNodes.EmitNodesStep | plugins/gatsby-source-mysql/src/create-mysql-nodes.js:89-109 | while nothing has thrown, each node appends its own block |
| MysqlNodes.ImageCallsHalted | plugins/gatsby-source-mysql/src/create-mysql-nodes.js:93-108 | after an image throw, later fields add no calls |
| MysqlNodes.EmitNodesHalted | plugins/gatsby-source-mysql/src/create-mysql-nodes.js:89-109 | after a throw, later nodes add no calls |
| MysqlNodes.MysqlNodesPlan | plugins/gatsby-source-mysql/src/create-mysql-nodes.js:80-110 | a non-array result or an empty row list gives no createNode call and no throw; any call implies a non-empty array of rows |
| MysqlNodes.NodeCallsAppend | plugins/gatsby-source-mysql/src/create-mysql-nodes.js:89-109 | the row-node calls of a concatenated log are the concatenation of the row-node calls |
| MysqlNodes.NodeCallsOfBlock | plugins/gatsby-source-mysql/src/create-mysql-nodes.js:89-108 | a block contributes exactly its own node to the row-node calls |
| MysqlNodes.NoNodeCalls | plugins/gatsby-source-mysql/src/create-mysql-nodes.js:98-106 | image calls are never row-node calls |
| MysqlNodes.RowCallsStep | plugins/gatsby-source-mysql/src/create-mysql-nodes.js:89-91 | the expected row-node calls extend node by node |
| MysqlNodes.NodesEmittedInOrder | plugins/gatsby-source-mysql/src/create-mysql-nodes.js:89-91 | the nodes reach createNode once each, in row order; a throw only cuts the sequence short |
| MysqlNodes.EmissionCount | plugins/gatsby-source-mysql/src/create-mysql-nodes.js:89-109 | a pass that returns makes one call per node plus one per image Buffer |
| MysqlNodes.EmitImageNodes | plugins/gatsby-source-mysql/src/create-mysql-nodes.js:93-108 | the inner forEach over imageFieldNames makes exactly the image calls of the specification, stopping at the throw |
| MysqlNodes.EmitNode | plugins/gatsby-source-mysql/src/create-mysql-nodes.js:89-108 | one turn of the outer forEach makes exactly the node's block of calls |
| MysqlNodes.CreateMysqlNodes | plugins/gatsby-source-mysql/src/create-mysql-nodes.js:69-111 | the createNode log and the outcome are those of the specification; when the result is not an array, createNode is never called |
| FileNode.CreateBufferFileNode | plugins/gatsby-source-mysql/src/create-file-node.js:7-32 | null exactly for a non-Buffer; throws exactly for an unrecognised Buffer; otherwise size, prettySize, type 'MysqlImage', digest of the bytes, the media type, extension, empty children, null parent, id and name as built from parentId and fieldName |
| FileNode.FileNodeIdIndependent | plugins/gatsby-source-mysql/src/create-file-node.js:21 | the id depends on parentId alone, not on the field name or the bytes |
| FileNode.DigestDependsOnBytesOnly | plugins/gatsby-source-mysql/src/create-file-node.js:16 | identical buffers give identical digests under any owner and field |
| FileNode.FallbackOnlyForEmptyMime | plugins/gatsby-source-mysql/src/create-file-node.js:14-18 | as written, when the sniffer reports a mime type for every recognised image, the media type is always the sniffed one |
| FileNode.EmptyBufferThrows | plugins/gatsby-source-mysql/src/create-file-node.js:13-14 | an empty buffer, which the sniffer does not recognise, throws instead of getting the fallback media type |
| FileNode.CreateBufferFileNodeIntended | plugins/gatsby-source-mysql/src/create-file-node.js:13-31 | the corrected version never throws: an unrecognised buffer gets 'application/octet-stream' and no extension |
| FileNode.IntendedAgreesWhereWrittenReturns | plugins/gatsby-source-mysql/src/create-file-node.js:13-31 | wherever the written version returns, the corrected one returns the same |
| PagePlan.CommentsSearch | gatsby-node.js:53-55 | the comment search embeds the post path between `label:comment ` and ` in:title sort:created-asc` |
| PagePlan.PostPage | gatsby/create-blogs.js:74-85 | a post page is at the post's path, uses the post template, and has next and previous swapped |
| PagePlan.PostPages | gatsby-node.js:46-58 | one post page per post |
| PagePlan.PostPagesSwapNeighbours | gatsby/create-blogs.js:74-85 | page i is at post i's path, with next = previous and previous = next, the path in the comment search, and the post id exactly in the createBlogs variant |
| PagePlan.CreatePostPages | gatsby/create-blogs.js:74-85 | the post-page loop issues exactly the post pages, in post order |
| PagePlan.GatherTags | gatsby-node.js:60-66 | the `_.each` loop over the posts leaves exactly the collected tag list in the accumulator |
| PagePlan.CreateTagPages | gatsby-node.js:68-76 | the tag-page loop issues exactly one tag page per tag, in order |
| PagePlan.CollectTagsAppend | gatsby/create-blogs.js:103-109 | the tag list is collected in post order, by concatenation |
| PagePlan.CollectTagsCount | gatsby/create-blogs.js:103-109 | one tag per occurrence: duplicates are kept |
| PagePlan.CollectTagsMembers | gatsby/create-blogs.js:103-109 | a tag is collected exactly when some post carries it |
| PagePlan.TagPage | gatsby/create-blogs.js:111-119 | a tag page is at `tags/` followed by kebabCase(tag), uses the tag template, and carries the tag |
| PagePlan.TagPages | gatsby/create-blogs.js:111-119 | one tag page per tag occurrence |
| CreateBlogs.SelectPosts | gatsby/create-blogs.js:70-72 | the first ten edges when ONLY_LAST_TEN_BLOGS is set, otherwise every edge |
| CreateBlogs.NumPages | gatsby/create-blogs.js:87-88 | the page count is the ceiling of n / 10, and zero exactly for no posts |
| CreateBlogs.ListingPath | gatsby/create-blogs.js:92 | every listing path starts with `/blog`, and it is `/blog` itself exactly for the first page |
| CreateBlogs.ListingPage | gatsby/create-blogs.js:90-101 | listing page i uses the list template, skips i * 10 posts, is page i + 1, and is at `/blog` exactly when i is 0 |
| CreateBlogs.ListingPageAt | gatsby/create-blogs.js:90-101 | listing page i is at `/blog` or `/blog/<i + 1>`, with limit 10, skip i * 10, the page count and currentPage i + 1 |
| CreateBlogs.ListingPages | gatsby/create-blogs.js:90-101 | there are NumPages listing pages |
| CreateBlogs.CreateListingPages | gatsby/create-blogs.js:87-101 | the listing loop issues exactly the listing pages, in order |
| CreateBlogs.ListingWindowsPartition | gatsby/create-blogs.js:90-101 | listing windows [skip, skip + 10) partition the posts: each post is in exactly one window, and no window is empty |
| CreateBlogs.ListingPathsDistinct | gatsby/create-blogs.js:92 | distinct listing pages have distinct paths |
| JsValue.DecimalInjective | gatsby/create-blogs.js:92 | distinct page numbers render as distinct decimal strings |
| CreateBlogs.BlogPlan | gatsby/create-blogs.js:74-119 | one page per selected post, per listing page and per collected tag |
| CreateBlogs.BlogPlanShape | gatsby/create-blogs.js:74-119 | the page count is one per post, one per listing page and one per tag occurrence; no posts means no pages, not even /blog |
| CreateBlogs.BlogPlanAt | gatsby/create-blogs.js:74-119 | page i is post i's page while i < number of posts; then listing page i - posts; then the tag page of collected tag i - posts - listing pages |
| CreateBlogs.CreateBlogs | gatsby/create-blogs.js:25-121 | DISABLE_BLOG creates nothing without querying; errors reject with no pages; otherwise the pages are exactly the plan, in order |
| GatsbyNode.MarkdownPlan | gatsby-node.js:46-76 | one page per edge and per collected tag; every page after the post pages is a tag page |
| GatsbyNode.MarkdownPostPage | gatsby-node.js:46-58 | page i is edge i's page at its path, with no id, next/previous swapped and the path in the comment search |
| GatsbyNode.MarkdownTagPages | gatsby-node.js:60-76 | an edge whose tags are null, absent or an empty array adds no tag page; there is a page per edge plus a page per tag occurrence |
| GatsbyNode.CreatePages | gatsby-node.js:6-78 | errors reject with no pages; otherwise the pages are exactly the post pages followed by the tag pages |
| GatsbyNode.PageContext.constructor | gatsby-node.js:80-90 | a context object holds the given entries |
| GatsbyNode.GatsbyPage.constructor | gatsby-node.js:80-90 | a page object holds the given path, properties and context |
| GatsbyNode.GatsbyPage.ShallowCopy | gatsby-node.js:83 | the shallow copy has the same properties and shares the context object |
| GatsbyNode.OnCreatePage | gatsby-node.js:80-90 | no effect unless the path is '/'; for the root it sets context.isRoot, deletes the old copy and then creates the page; the deleted copy shares the context, so it carries isRoot too |
| CodeEditor.ShallowConcat | src/components/code-editor.jsx:24-30 | a non-array comes back unchanged; an array gives a fresh array holding the input's elements followed by item |
| CodeEditor.SomeMarker | src/components/code-editor.jsx:34-37 | the scan finds a marker exactly when some token's first type is 'comment' and its content is '// highlight-next-line' |
| CodeEditor.IsHighlightNextLine | src/components/code-editor.jsx:32-37 | a line is a marker exactly when it exists and one of its tokens is the `// highlight-next-line` comment |
| CodeEditor.Annotate | src/components/code-editor.jsx:136-139 | one entry per line, and the first line is not highlighted |
| CodeEditor.DropMarkerLines | src/components/code-editor.jsx:140 | the filter never adds lines |
| CodeEditor.DropMarkerLinesMembers | src/components/code-editor.jsx:140 | a rendered line is kept exactly when it was in the input and its line is not a highlight marker |
| CodeEditor.RenderLines | src/components/code-editor.jsx:135-140 | never more rendered lines than token lines |
| CodeEditor.MarkerCount | src/components/code-editor.jsx:140 | the number of marker lines is at most the number of lines |
| CodeEditor.MarkerCountZero | src/components/code-editor.jsx:140 | no line is counted exactly when no line is a marker |
| CodeEditor.RenderLinesStep | src/components/code-editor.jsx:135-140 | rendering one more line adds it, unless it is a marker, highlighted exactly when the line before is a marker |
| CodeEditor.RenderedLinePosition | src/components/code-editor.jsx:135-140 | a non-marker line i is rendered at position i minus the markers before it, highlighted exactly when line i - 1 is a marker |
| CodeEditor.RenderedLength | src/components/code-editor.jsx:140 | the rendered lines are the lines minus the marker lines |
| CodeEditor.NoMarkerRendered | src/components/code-editor.jsx:140 | no marker line is rendered |
| CodeEditor.FirstLineNotHighlighted | src/components/code-editor.jsx:138 | the first line is never highlighted |
| CodeEditor.JoinText | src/components/code-editor.jsx:14 | `join` writes a string as itself and undefined or null as empty text |
| CodeEditor.JoinComma | src/components/code-editor.jsx:14 | no parts join to the empty string; one part joins to itself; more parts join to the join of all but the last, then a comma, then the last part |
| CodeEditor.ErrorText | src/components/code-editor.jsx:16 | an Error prints as `name: message`, or as the one of them that is not empty |
| CodeEditor.Sanitize | src/components/code-editor.jsx:12-22 | arrays print as `[...]`; a string s prints as `"s"`; undefined, booleans and numbers come back unchanged; null, objects and buffers print as JSON.stringify's text; an Error prints as its toString |
| CodeEditor.SanitizeArrayAppend | src/components/code-editor.jsx:14 | an array prints its sanitised elements, comma-separated, in order |
| CodeEditor.SanitizedSingle | src/components/code-editor.jsx:14 | a one-element array prints its one sanitised element |
| CodeEditor.SanitizedPair | src/components/code-editor.jsx:14 | a two-element array prints both elements joined by a comma |
| CodeEditor.SanitizedOneString | src/components/code-editor.jsx:14-20 | an array of one string prints as the string in double quotes, between brackets |
| CodeEditor.SanitizedTwoStrings | src/components/code-editor.jsx:14-20 | an array of two strings prints both quoted, separated by a comma, between brackets |
| CodeEditor.SanitizeDoesNotEscape | src/components/code-editor.jsx:14-20 | strings are not escaped, so `['a","b']` and `['a', 'b']` print identically |
| CodeEditor.LastSegment | src/components/code-editor.jsx:84 | the language is the suffix after the last '-': it contains no '-' and is preceded by '-' unless it is the whole name |
| CodeEditor.DashBeforeLastSegment | src/components/code-editor.jsx:84 | a last segment shorter than the name is preceded by the '-' it was split at |
| CodeEditor.LastSegmentAfterDash | src/components/code-editor.jsx:84 | the text after a '-' that no later '-' follows is the last segment |
| CodeEditor.LastSegmentOfJsSuffix | src/components/code-editor.jsx:84 | a class name ending in `-js` has the language 'js' |
| CodeEditor.JsSuffixOfLastSegment | src/components/code-editor.jsx:84 | a class name other than 'js' with the language 'js' ends in `-js` |
| CodeEditor.Language | src/components/code-editor.jsx:84 | a language exists exactly when a class name is given, and it contains no '-' |
| CodeEditor.ChooseRenderer | src/components/code-editor.jsx:90-96 | a snippet is chosen only for a class name, and is highlighted as its last segment, which is neither empty nor 'js' |
| CodeEditor.SnippetIffOtherLanguage | src/components/code-editor.jsx:84-96 | a snippet in language l is chosen exactly when l is the last segment and l is neither empty nor 'js' |
| CodeEditor.LiveEditorIffJs | src/components/code-editor.jsx:84-91 | the live editor is chosen exactly for 'js' and class names ending in '-js' |
| CodeEditor.PlainCodeIffNoLanguage | src/components/code-editor.jsx:84-96 | plain code is chosen exactly when the class name is absent, empty or ends with '-' |

## Left out

- React rendering: the JSX of the code editor, the themes, the clipboard button and the live preview are not modelled.
- `wrapWithJsCode`, and the console wrapper that feeds `shallowConcat` and `sanitize`, are not modelled.
- `console.log` in `createMysqlNodes` is left out because it is output only.
- The Promise plumbing and GraphQL execution are left out. A query's settled result is a parameter.
- `process.env` reads are left out. `DISABLE_BLOG` and `ONLY_LAST_TEN_BLOGS` are boolean parameters.
- Library internals (node-id hashing, the node factory, pluralisation, image-type sniffing, byte pretty-printing, the content digest, `kebabCase`, `JSON.stringify`) are left out. They are opaque functions.
- JavaScript number formatting is left out. Numbers are integers, with no floats or NaN.
- Object key order and prototype properties are left out. Records are maps.
- The immutability of `mapSqlResults`' input rows is implicit, because records are values.
- MysqlNodes.CreateNodeCall records the argument given to the node factory, not the node object the factory returns. Only the returned `id` is used, as an opaque function of that argument.
- CodeEditor.ShallowConcat allocates the copy once at its final length. `slice` followed by `push` is not modelled as a resizing step.
- CodeEditor.Sanitize covers the Error case through `Error.prototype.toString` on a name and a message. A custom `toString` is not modelled.
- MysqlNodes.SqlResult: an array result is modelled as rows that are records. Array elements that are not objects are not modelled.
- JsValue.StrictEquals treats an object-valued operand as unequal to everything, itself included, because object identity is not modelled. MysqlNodes.MatchingRows inherits this: when an entity is its own parent and its `foreignKey` is its `idFieldName`, a row whose id is a Buffer is compared with itself, `===` is true in the source, and the model drops the row.
- PagePlan.CollectTags models a truthy `tags` value as an array of strings. A truthy non-array `tags` value, which `concat` would append as one element, is not modelled.

## Findings

| source | as written | input that shows it | evidently intended | confidence | as-written member | corrected member |
|---|---|---|---|---|---|---|
| plugins/gatsby-source-mysql/src/create-file-node.js:14-18 | `imageType(buffer)` is destructured without a null check, so an unrecognised buffer throws before the `application/octet-stream` fallback can apply | an empty Buffer (`image-type` returns null) | an unrecognised buffer gets a record with media type `application/octet-stream` and no extension | not executed | FileNode.EmptyBufferThrows | FileNode.CreateBufferFileNodeIntended |
