/** `createBufferFileNode`: the standalone record built for one image buffer. */
module FileNode {
  import opened JsValue
  import opened Library

  const FallbackMediaType: string := "application/octet-stream"
  const FileNodeType: string := "MysqlImage"

  /** The `internal` part of the record. */
  datatype Internal = Internal(contentDigest: string, nodeType: string, mediaType: string)

  datatype FileNodeRecord = FileNodeRecord(
    id: string,
    name: string,
    children: seq<string>,
    parent: Value,
    internal: Internal,
    extension: Value,
    size: nat,
    prettySize: string)

  /** The record shared by both versions below, once the image type is known. */
  function BuildRecord(lib: Lib, bytes: seq<bv8>, createNodeId: string -> string, fieldName: Value, parentId: Value,
                       extension: Value, mime: Value): FileNodeRecord
  {
    FileNodeRecord(
      id := createNodeId(TemplateText(lib, parentId) + "-Image"),
      name := TemplateText(lib, parentId) + "-" + TemplateText(lib, fieldName),
      children := [],
      parent := Null,
      internal := Internal(lib.createContentDigest(bytes), FileNodeType,
                           if mime.Truthy() && mime.Str? then mime.s else FallbackMediaType),
      extension := extension,
      size := |bytes|,
      prettySize := lib.prettyBytes(|bytes|))
  }

  /** `createBufferFileNode({ buffer, createNodeId, fieldName, parentId })` as
      written: `Normal(None)` is the `null` result, `Throw` the TypeError of
      destructuring `imageType(buffer)` when it returns null. */
  function CreateBufferFileNode(lib: Lib, buffer: Value, createNodeId: string -> string, fieldName: Value, parentId: Value)
    : (r: Completion<Option<FileNodeRecord>>)
    ensures r == Normal(None) <==> !buffer.Buffer?
    ensures r.Throw? <==> buffer.Buffer? && lib.imageType(buffer.bytes).None?
    ensures r.Normal? && r.value.Some? ==>
      var n := r.value.value;
      var info := lib.imageType(buffer.bytes).value;
      && n.size == |buffer.bytes|
      && n.prettySize == lib.prettyBytes(|buffer.bytes|)
      && n.internal.nodeType == FileNodeType
      && n.internal.contentDigest == lib.createContentDigest(buffer.bytes)
      && n.internal.mediaType == (if info.mime != "" then info.mime else FallbackMediaType)
      && n.extension == Str(info.ext)
      && n.children == [] && n.parent == Null
      && n.id == createNodeId(TemplateText(lib, parentId) + "-Image")
      && n.name == TemplateText(lib, parentId) + "-" + TemplateText(lib, fieldName)
  {
    if buffer.Truthy() && buffer.Buffer? then
      match lib.imageType(buffer.bytes)
      case None => Throw
      case Some(info) =>
        Normal(Some(BuildRecord(lib, buffer.bytes, createNodeId, fieldName, parentId, Str(info.ext), Str(info.mime))))
    else Normal(None)
  }

  /** The id depends on the parent id alone: not on the field name, not on the bytes. */
  lemma FileNodeIdIndependent(lib: Lib, b1: Value, b2: Value, createNodeId: string -> string,
                              f1: Value, f2: Value, parentId: Value)
    requires CreateBufferFileNode(lib, b1, createNodeId, f1, parentId).Normal?
    requires CreateBufferFileNode(lib, b2, createNodeId, f2, parentId).Normal?
    requires CreateBufferFileNode(lib, b1, createNodeId, f1, parentId).value.Some?
    requires CreateBufferFileNode(lib, b2, createNodeId, f2, parentId).value.Some?
    ensures CreateBufferFileNode(lib, b1, createNodeId, f1, parentId).value.value.id
         == CreateBufferFileNode(lib, b2, createNodeId, f2, parentId).value.value.id
  {
  }

  /** The digest depends on the bytes alone: equal buffers under different
      owners and fields get equal digests. */
  lemma DigestDependsOnBytesOnly(lib: Lib, bytes: seq<bv8>, c1: string -> string, c2: string -> string,
                                 f1: Value, f2: Value, p1: Value, p2: Value)
    requires CreateBufferFileNode(lib, Buffer(bytes), c1, f1, p1).Normal?
    requires CreateBufferFileNode(lib, Buffer(bytes), c2, f2, p2).Normal?
    ensures CreateBufferFileNode(lib, Buffer(bytes), c1, f1, p1).value.value.internal.contentDigest
         == CreateBufferFileNode(lib, Buffer(bytes), c2, f2, p2).value.value.internal.contentDigest
  {
  }

  /** As written, the fallback media type is reachable only through an
      empty `mime`: with a library that always reports a mime type for an
      image it recognises, a built record never carries the fallback unless
      that is the sniffed type itself. */
  lemma FallbackOnlyForEmptyMime(lib: Lib, buffer: Value, createNodeId: string -> string, fieldName: Value, parentId: Value)
    requires forall b :: lib.imageType(b).Some? ==> lib.imageType(b).value.mime != ""
    requires CreateBufferFileNode(lib, buffer, createNodeId, fieldName, parentId).Normal?
    requires CreateBufferFileNode(lib, buffer, createNodeId, fieldName, parentId).value.Some?
    ensures CreateBufferFileNode(lib, buffer, createNodeId, fieldName, parentId).value.value.internal.mediaType
         == lib.imageType(buffer.bytes).value.mime
  {
  }

  /** The counterexample: an empty buffer, which `image-type` does not
      recognise, makes the call throw instead of producing a record with the
      fallback media type. */
  lemma EmptyBufferThrows(lib: Lib, createNodeId: string -> string, fieldName: Value, parentId: Value)
    requires lib.imageType([]) == None
    ensures CreateBufferFileNode(lib, Buffer([]), createNodeId, fieldName, parentId) == Throw
  {
  }

  /** The evidently intended version: an unrecognised buffer yields a record
      with no extension and the fallback media type. */
  function CreateBufferFileNodeIntended(lib: Lib, buffer: Value, createNodeId: string -> string, fieldName: Value, parentId: Value)
    : (r: Completion<Option<FileNodeRecord>>)
    ensures r.Normal?
    ensures r.value.None? <==> !buffer.Buffer?
    ensures buffer.Buffer? && lib.imageType(buffer.bytes).None? ==>
      && r.value.value.internal.mediaType == FallbackMediaType
      && r.value.value.extension == Undefined
      && r.value.value.size == |buffer.bytes|
  {
    if buffer.Truthy() && buffer.Buffer? then
      var info := lib.imageType(buffer.bytes);
      var ext := if info.Some? then Str(info.value.ext) else Undefined;
      var mime := if info.Some? then Str(info.value.mime) else Undefined;
      Normal(Some(BuildRecord(lib, buffer.bytes, createNodeId, fieldName, parentId, ext, mime)))
    else Normal(None)
  }

  /** The intended version changes nothing where the written one returns. */
  lemma IntendedAgreesWhereWrittenReturns(lib: Lib, buffer: Value, createNodeId: string -> string, fieldName: Value, parentId: Value)
    requires CreateBufferFileNode(lib, buffer, createNodeId, fieldName, parentId).Normal?
    ensures CreateBufferFileNodeIntended(lib, buffer, createNodeId, fieldName, parentId)
         == CreateBufferFileNode(lib, buffer, createNodeId, fieldName, parentId)
  {
  }
}
