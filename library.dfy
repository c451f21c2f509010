/** The third-party collaborators the modelled code calls. Their insides are
    not modelled: each is a function-typed field of `Lib`, so all the model
    relies on is that it is a function (the same inputs give the same
    output). */
module Library {
  import opened JsValue

  /** What `image-type` reports for a recognised image. */
  datatype ImageInfo = ImageInfo(ext: string, mime: string)

  datatype Lib = Lib(
    /** `generateNodeId(type, id)` of gatsby-node-helpers. */
    generateNodeId: (string, Value) -> string,
    /** `createNodeFactory(type)(fields)` of gatsby-node-helpers, for the
        helpers created with type prefix `typePrefix`: the node it builds. */
    nodeFactory: (string, string, Record) -> Record,
    /** `pluralize.plural` and `pluralize.singular`. */
    plural: string -> string,
    singular: string -> string,
    /** `imageType(buffer)`: null (None) when the bytes are not a known image. */
    imageType: seq<bv8> -> Option<ImageInfo>,
    /** `prettyBytes(n)`. */
    prettyBytes: nat -> string,
    /** `createContentDigest(buffer)`. */
    createContentDigest: seq<bv8> -> string,
    /** `String(v)` for a value that is not a string (template literals). */
    toText: Value -> string
  )

  /** The text a template literal `${v}` produces. */
  function TemplateText(lib: Lib, v: Value): (t: string)
    ensures v.Str? ==> t == v.s
  {
    if v.Str? then v.s else lib.toText(v)
  }
}
