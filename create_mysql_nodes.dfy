/** The MySQL source plugin's row-to-node pass: child discovery, child-link
    and parent-link fields, the merge of derived fields over each raw row,
    and the order in which nodes and image nodes reach `createNode`. */
module MysqlNodes {
  import opened JsValue
  import opened Library

  /** `__sqlResult` of one query entry: the fetched rows, or something that
      is not an array. */
  datatype SqlResult = Rows(rows: seq<Record>) | NotArray(other: NonArrayValue)

  /** One entry of `allSqlResults`. Properties the entry does not set are
      `None` (or `Undefined` for `cardinality`, whose value is compared as is). */
  datatype Entity = Entity(
    name: string,
    sqlResult: SqlResult,
    idFieldName: Option<string>,
    parentName: Option<string>,
    foreignKey: Option<string>,
    cardinality: Value,
    imageFieldNames: Option<seq<string>>)

  /** Type prefixes of the two node-helper instances. */
  const NodeTypePrefix: string := "mysql"
  const ImageTypePrefix: string := "mysqlImage"

  /** Suffix that marks a field as a link to other nodes. */
  const LinkSuffix: string := "___NODE"

  /** One `createNode(factory(typeName)(fields))` call, where `factory` is the
      `createNodeFactory` of the helpers built with `typePrefix`. */
  datatype CreateNodeCall = CreateNodeCall(typePrefix: string, typeName: string, fields: Record)

  /** What `createNode` received, and whether the pass returned (true) or
      threw (false) after those calls. */
  datatype Emission = Emission(calls: seq<CreateNodeCall>, completed: bool)

  // ---------------------------------------------------------------------
  // Child discovery

  /** `!!parentName && parentName === name` */
  predicate IsChildOf(d: Entity, name: string) {
    PresentText(d.parentName) && d.parentName.value == name
  }

  /** `allSqlResults.filter(...)`: the entries that name `name` as parent. */
  function ChildEntities(all: seq<Entity>, name: string): (r: seq<Entity>)
    ensures forall d :: d in r <==> d in all && IsChildOf(d, name)
    ensures |r| <= |all|
  {
    if all == [] then []
    else (if IsChildOf(all[0], name) then [all[0]] else []) + ChildEntities(all[1..], name)
  }

  /** The filter keeps the entries' order: it distributes over concatenation. */
  lemma {:induction false} ChildEntitiesAppend(a: seq<Entity>, b: seq<Entity>, name: string)
    ensures ChildEntities(a + b, name) == ChildEntities(a, name) + ChildEntities(b, name)
  {
    if a != [] {
      assert (a + b)[0] == a[0];
      assert (a + b)[1..] == a[1..] + b;
      ChildEntitiesAppend(a[1..], b, name);
    } else {
      assert a + b == b;
    }
  }

  /** An entry whose parent is itself is one of its own children. */
  lemma SelfParentIsChild(all: seq<Entity>, d: Entity)
    requires d in all && d.parentName == Some(d.name) && d.name != ""
    ensures d in ChildEntities(all, d.name)
  {
  }

  // ---------------------------------------------------------------------
  // Child-link fields

  /** `child[foreignKey] === nodeId` */
  predicate Matches(row: Record, foreignKey: string, nodeId: Value) {
    StrictEquals(Get(row, foreignKey), nodeId)
  }

  /** `__sqlResult.filter(child => child[foreignKey] === nodeId)` */
  function MatchingRows(rows: seq<Record>, foreignKey: string, nodeId: Value): (r: seq<Record>)
    ensures |r| <= |rows|
  {
    if rows == [] then []
    else (if Matches(rows[0], foreignKey, nodeId) then [rows[0]] else [])
         + MatchingRows(rows[1..], foreignKey, nodeId)
  }

  /** A child row is kept exactly when its foreign key is strictly equal to the node id. */
  lemma {:induction false} MatchingRowsMembers(rows: seq<Record>, foreignKey: string, nodeId: Value)
    ensures forall x :: x in MatchingRows(rows, foreignKey, nodeId) <==> x in rows && Matches(x, foreignKey, nodeId)
  {
    if rows != [] {
      MatchingRowsMembers(rows[1..], foreignKey, nodeId);
      assert forall x :: x in rows <==> x == rows[0] || x in rows[1..];
    }
  }

  /** The matching rows keep the child rows' order. */
  lemma {:induction false} MatchingRowsAppend(a: seq<Record>, b: seq<Record>, foreignKey: string, nodeId: Value)
    ensures MatchingRows(a + b, foreignKey, nodeId)
         == MatchingRows(a, foreignKey, nodeId) + MatchingRows(b, foreignKey, nodeId)
  {
    if a != [] {
      assert (a + b)[0] == a[0];
      assert (a + b)[1..] == a[1..] + b;
      MatchingRowsAppend(a[1..], b, foreignKey, nodeId);
    } else {
      assert a + b == b;
    }
  }

  /** The first matching row leads the filtered sequence. */
  lemma {:induction false} FirstMatchLeads(rows: seq<Record>, foreignKey: string, nodeId: Value, i: nat)
    requires i < |rows| && Matches(rows[i], foreignKey, nodeId)
    requires forall j :: 0 <= j < i ==> !Matches(rows[j], foreignKey, nodeId)
    ensures MatchingRows(rows, foreignKey, nodeId) != []
    ensures MatchingRows(rows, foreignKey, nodeId)[0] == rows[i]
  {
    if i > 0 {
      FirstMatchLeads(rows[1..], foreignKey, nodeId, i - 1);
    }
  }

  /** `.map(child => generateNodeId(childName, child[childIdFieldName]))`
      over the rows of `child` that point at `nodeId`. */
  function ChildIds(lib: Lib, child: Entity, rows: seq<Record>, nodeId: Value): (r: seq<string>)
    ensures |r| == |MatchingRows(rows, PropertyKey(child.foreignKey), nodeId)|
  {
    var matching := MatchingRows(rows, PropertyKey(child.foreignKey), nodeId);
    seq(|matching|, k requires 0 <= k < |matching| =>
      lib.generateNodeId(child.name, Get(matching[k], PropertyKey(child.idFieldName))))
  }

  /** An array of node ids as a JavaScript array of strings. */
  function StrArray(ids: seq<string>): Value {
    Arr(seq(|ids|, k requires 0 <= k < |ids| => Str(ids[k])))
  }

  /** `cardinality = 'OneToMany'` as a destructuring default (it replaces
      only an absent value), then `cardinality === 'OneToMany'`. */
  predicate IsOneToMany(cardinality: Value) {
    cardinality == Undefined || StrictEquals(cardinality, Str("OneToMany"))
  }

  /** Name of the field that links to the child entity's nodes. */
  function ChildFieldName(lib: Lib, child: Entity): (r: string)
  {
    (if IsOneToMany(child.cardinality) then lib.plural(child.name) else lib.singular(child.name)) + LinkSuffix
  }

  /** Every child-link field name ends in `___NODE`. */
  lemma ChildFieldNameSuffix(lib: Lib, child: Entity)
    ensures var name := ChildFieldName(lib, child);
            |name| >= |LinkSuffix| && name[|name| - |LinkSuffix|..] == LinkSuffix
  {
  }

  /** Value of that field: every id, or `childIds[0]` (undefined when empty). */
  function ChildFieldValue(lib: Lib, child: Entity, rows: seq<Record>, nodeId: Value): (r: Value)
    ensures IsOneToMany(child.cardinality) ==> r.Arr?
    ensures !IsOneToMany(child.cardinality) ==> r.Str? || r.Undefined?
  {
    var ids := ChildIds(lib, child, rows, nodeId);
    if IsOneToMany(child.cardinality) then StrArray(ids)
    else if |ids| > 0 then Str(ids[0]) else Undefined
  }

  /** A OneToMany child field lists the id of every child row pointing at
      `nodeId`, in the child rows' order: it distributes over the rows. */
  lemma {:induction false} OneToManyIdsAppend(lib: Lib, child: Entity, a: seq<Record>, b: seq<Record>, nodeId: Value)
    ensures ChildIds(lib, child, a + b, nodeId) == ChildIds(lib, child, a, nodeId) + ChildIds(lib, child, b, nodeId)
  {
    MatchingRowsAppend(a, b, PropertyKey(child.foreignKey), nodeId);
  }

  /** A OneToMany child field holds one id per matching row, and each id is
      generated from the child's name and that row's natural key. */
  lemma OneToManyField(lib: Lib, child: Entity, rows: seq<Record>, nodeId: Value, k: nat)
    requires IsOneToMany(child.cardinality)
    requires k < |MatchingRows(rows, PropertyKey(child.foreignKey), nodeId)|
    ensures ChildFieldValue(lib, child, rows, nodeId).Arr?
    ensures |ChildFieldValue(lib, child, rows, nodeId).elems| == |MatchingRows(rows, PropertyKey(child.foreignKey), nodeId)|
    ensures ChildFieldValue(lib, child, rows, nodeId).elems[k]
         == Str(lib.generateNodeId(child.name,
              Get(MatchingRows(rows, PropertyKey(child.foreignKey), nodeId)[k], PropertyKey(child.idFieldName))))
  {
  }

  /** Any other cardinality keeps the id of the first matching row only. */
  lemma SingleFieldFirstMatch(lib: Lib, child: Entity, rows: seq<Record>, nodeId: Value, i: nat)
    requires !IsOneToMany(child.cardinality)
    requires i < |rows| && Matches(rows[i], PropertyKey(child.foreignKey), nodeId)
    requires forall j :: 0 <= j < i ==> !Matches(rows[j], PropertyKey(child.foreignKey), nodeId)
    ensures ChildFieldValue(lib, child, rows, nodeId)
         == Str(lib.generateNodeId(child.name, Get(rows[i], PropertyKey(child.idFieldName))))
  {
    FirstMatchLeads(rows, PropertyKey(child.foreignKey), nodeId, i);
  }

  /** ... and is undefined when no row matches. */
  lemma SingleFieldNoMatch(lib: Lib, child: Entity, rows: seq<Record>, nodeId: Value)
    requires !IsOneToMany(child.cardinality)
    requires forall j :: 0 <= j < |rows| ==> !Matches(rows[j], PropertyKey(child.foreignKey), nodeId)
    ensures ChildFieldValue(lib, child, rows, nodeId) == Undefined
  {
    NoMatchIsEmpty(rows, PropertyKey(child.foreignKey), nodeId);
  }

  lemma {:induction false} NoMatchIsEmpty(rows: seq<Record>, foreignKey: string, nodeId: Value)
    requires forall j :: 0 <= j < |rows| ==> !Matches(rows[j], foreignKey, nodeId)
    ensures MatchingRows(rows, foreignKey, nodeId) == []
  {
    if rows != [] {
      assert forall j :: 0 <= j < |rows[1..]| ==> rows[1..][j] == rows[j + 1];
      NoMatchIsEmpty(rows[1..], foreignKey, nodeId);
    }
  }

  /** The child fields of one row, written child entity by child entity;
      throws at the first child whose `__sqlResult` has no `filter`. */
  function ChildFields(lib: Lib, children: seq<Entity>, nodeId: Value): Completion<Record> {
    if children == [] then Normal(map[])
    else
      var init := children[..|children| - 1];
      var c := children[|children| - 1];
      match ChildFields(lib, init, nodeId)
      case Throw => Throw
      case Normal(fields) =>
        if c.sqlResult.NotArray? then Throw
        else Normal(fields[ChildFieldName(lib, c) := ChildFieldValue(lib, c, c.sqlResult.rows, nodeId)])
  }

  /** The child fields throw exactly when some child entity's result is not an array. */
  lemma {:induction false} ChildFieldsThrows(lib: Lib, children: seq<Entity>, nodeId: Value)
    ensures ChildFields(lib, children, nodeId).Throw?
        <==> exists i :: 0 <= i < |children| && children[i].sqlResult.NotArray?
  {
    if children != [] {
      var init := children[..|children| - 1];
      ChildFieldsThrows(lib, init, nodeId);
      assert forall i :: 0 <= i < |init| ==> init[i] == children[i];
    }
  }

  /** A child field holds what the LAST child entity writing that name put there. */
  lemma {:induction false} ChildFieldsLastWriter(lib: Lib, children: seq<Entity>, nodeId: Value, i: nat)
    requires ChildFields(lib, children, nodeId).Normal?
    requires i < |children|
    requires forall j :: i < j < |children| ==> ChildFieldName(lib, children[j]) != ChildFieldName(lib, children[i])
    ensures children[i].sqlResult.Rows?
    ensures ChildFieldName(lib, children[i]) in ChildFields(lib, children, nodeId).value
    ensures ChildFields(lib, children, nodeId).value[ChildFieldName(lib, children[i])]
         == ChildFieldValue(lib, children[i], children[i].sqlResult.rows, nodeId)
  {
    var n := |children|;
    var init := children[..n - 1];
    var c := children[n - 1];
    var prev := ChildFields(lib, init, nodeId);
    assert prev.Normal? && c.sqlResult.Rows?;
    var fields := prev.value;
    assert ChildFields(lib, children, nodeId).value
        == fields[ChildFieldName(lib, c) := ChildFieldValue(lib, c, c.sqlResult.rows, nodeId)];
    if i < n - 1 {
      assert init[i] == children[i];
      forall j | i < j < |init|
        ensures ChildFieldName(lib, init[j]) != ChildFieldName(lib, init[i])
      {
        assert init[j] == children[j];
      }
      ChildFieldsLastWriter(lib, init, nodeId, i);
      assert ChildFieldName(lib, c) != ChildFieldName(lib, children[i]);
    }
  }

  /** The last child entity adds its field name to the previous ones. */
  lemma ChildFieldsLastKey(lib: Lib, children: seq<Entity>, nodeId: Value)
    requires children != [] && ChildFields(lib, children, nodeId).Normal?
    ensures ChildFields(lib, children[..|children| - 1], nodeId).Normal?
    ensures ChildFields(lib, children, nodeId).value.Keys
         == ChildFields(lib, children[..|children| - 1], nodeId).value.Keys + {ChildFieldName(lib, children[|children| - 1])}
  {
  }

  /** The child fields are exactly the names the child entities write. */
  lemma {:induction false} ChildFieldsKeys(lib: Lib, children: seq<Entity>, nodeId: Value, key: string)
    requires ChildFields(lib, children, nodeId).Normal?
    ensures key in ChildFields(lib, children, nodeId).value
        <==> exists i :: 0 <= i < |children| && ChildFieldName(lib, children[i]) == key
  {
    if children != [] {
      var init := children[..|children| - 1];
      var last := children[|children| - 1];
      ChildFieldsLastKey(lib, children, nodeId);
      ChildFieldsKeys(lib, init, nodeId, key);
      if key == ChildFieldName(lib, last) {
        assert ChildFieldName(lib, children[|children| - 1]) == key;
      } else if key in ChildFields(lib, init, nodeId).value {
        var i :| 0 <= i < |init| && ChildFieldName(lib, init[i]) == key;
        assert children[i] == init[i];
      } else {
        forall i | 0 <= i < |children|
          ensures ChildFieldName(lib, children[i]) != key
        {
          if i < |init| {
            assert children[i] == init[i];
          }
        }
      }
    }
  }

  /** One more child entity: a throw, or one more field written over the previous ones. */
  lemma ChildFieldsStep(lib: Lib, children: seq<Entity>, nodeId: Value, i: nat)
    requires i < |children| && ChildFields(lib, children[..i], nodeId).Normal?
    ensures var c := children[i];
            var fields := ChildFields(lib, children[..i], nodeId).value;
            ChildFields(lib, children[..i + 1], nodeId)
            == if c.sqlResult.NotArray? then Throw
               else Normal(fields[ChildFieldName(lib, c) := ChildFieldValue(lib, c, c.sqlResult.rows, nodeId)])
  {
    assert children[..i + 1][..i] == children[..i];
  }

  /** The two branches of the loop body write the child field's name and value. */
  lemma ChildFieldBranches(lib: Lib, c: Entity, rows: seq<Record>, nodeId: Value)
    ensures var ids := ChildIds(lib, c, rows, nodeId);
            if IsOneToMany(c.cardinality)
            then ChildFieldName(lib, c) == lib.plural(c.name) + LinkSuffix
                 && ChildFieldValue(lib, c, rows, nodeId) == StrArray(ids)
            else ChildFieldName(lib, c) == lib.singular(c.name) + LinkSuffix
                 && ChildFieldValue(lib, c, rows, nodeId) == (if |ids| > 0 then Str(ids[0]) else Undefined)
  {
  }

  /** The body of the `forEach` for a child whose result is an array: the
      plural or singular link field, written over `childFields`. */
  method AddChildField(lib: Lib, c: Entity, rows: seq<Record>, nodeId: Value, childFields: Record)
    returns (r: Record)
    ensures r == childFields[ChildFieldName(lib, c) := ChildFieldValue(lib, c, rows, nodeId)]
  {
    var childIds := ChildIds(lib, c, rows, nodeId);
    ChildFieldBranches(lib, c, rows, nodeId);
    if IsOneToMany(c.cardinality) {
      r := childFields[lib.plural(c.name) + LinkSuffix := StrArray(childIds)];
    } else {
      r := childFields[lib.singular(c.name) + LinkSuffix :=
        if |childIds| > 0 then Str(childIds[0]) else Undefined];
    }
  }

  /** `reduceChildFields(childEntities, nodeId)`: the `forEach` that fills a
      local `childFields` object. */
  method ReduceChildFields(lib: Lib, children: seq<Entity>, nodeId: Value) returns (r: Completion<Record>)
    ensures r == ChildFields(lib, children, nodeId)
  {
    var childFields: Record := map[];
    var i := 0;
    while i < |children|
      invariant 0 <= i <= |children|
      invariant ChildFields(lib, children[..i], nodeId) == Normal(childFields)
    {
      var c := children[i];
      ChildFieldsStep(lib, children, nodeId, i);
      if c.sqlResult.NotArray? {
        // `__sqlResult.filter` is not a function
        ChildFieldsThrows(lib, children, nodeId);
        return Throw;
      }
      childFields := AddChildField(lib, c, c.sqlResult.rows, nodeId, childFields);
      i := i + 1;
    }
    assert children[..i] == children;
    return Normal(childFields);
  }

  // ---------------------------------------------------------------------
  // Parent link and row merge

  /** `${parentName}___NODE: generateNodeId(parentName, row[foreignKey])`
      when both `parentName` and `foreignKey` are truthy, else nothing. */
  function ParentField(lib: Lib, e: Entity, row: Record): (r: Record)
    ensures r.Keys == if PresentText(e.parentName) && PresentText(e.foreignKey)
                      then {e.parentName.value + LinkSuffix} else {}
    ensures forall k :: k in r ==>
      (PresentText(e.parentName) && PresentText(e.foreignKey) &&
       r[k] == Str(lib.generateNodeId(e.parentName.value, Get(row, e.foreignKey.value))))
  {
    if PresentText(e.parentName) && PresentText(e.foreignKey) then
      map[e.parentName.value + LinkSuffix := Str(lib.generateNodeId(e.parentName.value, Get(row, e.foreignKey.value)))]
    else map[]
  }

  /** `Object.assign({}, row, {id: nodeId}, parentField, childFields)`. */
  function MergeRow(lib: Lib, e: Entity, children: seq<Entity>, row: Record): (r: Completion<Record>)
    ensures r.Throw? <==> exists i :: 0 <= i < |children| && children[i].sqlResult.NotArray?
  {
    var nodeId := Get(row, PropertyKey(e.idFieldName));
    ChildFieldsThrows(lib, children, nodeId);
    match ChildFields(lib, children, nodeId)
    case Throw => Throw
    case Normal(childFields) => Normal(row + map["id" := nodeId] + ParentField(lib, e, row) + childFields)
  }

  /** Merge precedence, lowest first: raw row, `id`, parent field, child
      fields; a later source overwrites a key of the same name. */
  lemma MergePrecedence(lib: Lib, e: Entity, children: seq<Entity>, row: Record, key: string)
    requires MergeRow(lib, e, children, row).Normal?
    ensures var nodeId := Get(row, PropertyKey(e.idFieldName));
            var childFields := ChildFields(lib, children, nodeId).value;
            var parentField := ParentField(lib, e, row);
            var merged := MergeRow(lib, e, children, row).value;
            && (key in merged <==> key in row || key == "id" || key in parentField || key in childFields)
            && (key in childFields ==> merged[key] == childFields[key])
            && (key !in childFields && key in parentField ==> merged[key] == parentField[key])
            && (key !in childFields && key !in parentField && key == "id" ==> merged[key] == nodeId)
            && (key !in childFields && key !in parentField && key != "id" && key in row ==> merged[key] == row[key])
  {
  }

  /** `__sqlResult.map(...)`: one merged record per row, in row order. */
  function MapSqlResults(lib: Lib, rows: seq<Record>, e: Entity, children: seq<Entity>): (r: Completion<seq<Record>>)
    ensures r.Throw? <==> |rows| > 0 && exists i :: 0 <= i < |children| && children[i].sqlResult.NotArray?
    ensures r.Normal? ==> |r.value| == |rows|
    ensures r.Normal? ==> forall i :: 0 <= i < |rows| ==> MergeRow(lib, e, children, rows[i]) == Normal(r.value[i])
  {
    if rows == [] then Normal([])
    else
      match MergeRow(lib, e, children, rows[0])
      case Throw => Throw
      case Normal(node) =>
        match MapSqlResults(lib, rows[1..], e, children)
        case Throw => Throw
        case Normal(nodes) => Normal([node] + nodes)
  }

  // ---------------------------------------------------------------------
  // Emission

  /** `resultNode.id`: the id the node factory gives the node built from `node`. */
  function OwnerId(lib: Lib, name: string, node: Record): Value {
    Get(lib.nodeFactory(NodeTypePrefix, name, node), "id")
  }

  /** The object handed to the image node factory. */
  function ImageNodeFields(lib: Lib, ownerId: Value, info: ImageInfo): (r: Record)
    ensures r.Keys == {"id", "extension", "parent", "internal"}
    ensures r["parent"] == ownerId && r["extension"] == Str(info.ext)
    ensures r["internal"] == Obj(map["mediaType" := Str(info.mime)])
  {
    map["id" := Str(TemplateText(lib, ownerId) + " >> Image"),
        "extension" := Str(info.ext),
        "parent" := ownerId,
        "internal" := Obj(map["mediaType" := Str(info.mime)])]
  }

  /** An image node of the node whose id is `ownerId`. */
  predicate IsImageNodeOf(lib: Lib, call: CreateNodeCall, name: string, ownerId: Value) {
    && call.typePrefix == ImageTypePrefix
    && call.typeName == name
    && Get(call.fields, "id") == Str(TemplateText(lib, ownerId) + " >> Image")
    && Get(call.fields, "parent") == ownerId
  }

  /** How many of `fields` hold a Buffer in `node`. */
  function BufferCount(node: Record, fields: seq<string>): nat {
    if fields == [] then 0
    else BufferCount(node, fields[..|fields| - 1]) + (if Get(node, fields[|fields| - 1]).Buffer? then 1 else 0)
  }

  /** The image calls for one node, field by field. A field whose value is
      a Buffer that `imageType` does not recognise throws. */
  function ImageCalls(lib: Lib, name: string, node: Record, fields: seq<string>): (r: Emission)
    ensures |r.calls| <= |fields|
    ensures forall k :: 0 <= k < |r.calls| ==> IsImageNodeOf(lib, r.calls[k], name, OwnerId(lib, name, node))
    ensures r.completed ==> |r.calls| == BufferCount(node, fields)
    ensures r.completed <==>
      forall f :: f in fields && Get(node, f).Buffer? ==> lib.imageType(Get(node, f).bytes).Some?
  {
    if fields == [] then Emission([], true)
    else
      var prev := ImageCalls(lib, name, node, fields[..|fields| - 1]);
      var field := fields[|fields| - 1];
      var image := Get(node, field);
      if !prev.completed then prev
      else if !image.Buffer? then prev
      else match lib.imageType(image.bytes)
        case None => Emission(prev.calls, false)
        case Some(info) =>
          Emission(prev.calls + [CreateNodeCall(ImageTypePrefix, name, ImageNodeFields(lib, OwnerId(lib, name, node), info))], true)
  }

  /** One more field: nothing, a throw, or one more image call. */
  lemma ImageCallsStep(lib: Lib, name: string, node: Record, fields: seq<string>, j: nat)
    requires j < |fields| && ImageCalls(lib, name, node, fields[..j]).completed
    ensures var prev := ImageCalls(lib, name, node, fields[..j]).calls;
            var image := Get(node, fields[j]);
            ImageCalls(lib, name, node, fields[..j + 1])
            == if !image.Buffer? then Emission(prev, true)
               else match lib.imageType(image.bytes)
                 case None => Emission(prev, false)
                 case Some(info) =>
                   Emission(prev + [CreateNodeCall(ImageTypePrefix, name, ImageNodeFields(lib, OwnerId(lib, name, node), info))], true)
  {
    assert fields[..j + 1][..j] == fields[..j];
  }

  /** The fields of `fields` that hold a Buffer in `node`, in order. */
  function BufferFields(node: Record, fields: seq<string>): (r: seq<string>)
    ensures |r| == BufferCount(node, fields)
    ensures forall k :: 0 <= k < |r| ==> r[k] in fields && Get(node, r[k]).Buffer?
  {
    if fields == [] then []
    else
      var field := fields[|fields| - 1];
      BufferFields(node, fields[..|fields| - 1]) + (if Get(node, field).Buffer? then [field] else [])
  }

  /** Image call `k` is built from the `k`-th Buffer field: its extension and
      media type are what `imageType` reports for that field's bytes. */
  lemma {:induction false} ImageCallFields(lib: Lib, name: string, node: Record, fields: seq<string>, k: nat)
    requires k < |ImageCalls(lib, name, node, fields).calls|
    ensures k < |BufferFields(node, fields)|
    ensures var field := BufferFields(node, fields)[k];
            && lib.imageType(Get(node, field).bytes).Some?
            && ImageCalls(lib, name, node, fields).calls[k]
               == CreateNodeCall(ImageTypePrefix, name,
                    ImageNodeFields(lib, OwnerId(lib, name, node), lib.imageType(Get(node, field).bytes).value))
  {
    var init := fields[..|fields| - 1];
    var prev := ImageCalls(lib, name, node, init);
    if k < |prev.calls| {
      ImageCallFields(lib, name, node, init, k);
    } else {
      ImageCallsLength(lib, name, node, init);
    }
  }

  /** Every call so far came from a Buffer field, and one was made per Buffer
      field unless the pass threw. */
  lemma {:induction false} ImageCallsLength(lib: Lib, name: string, node: Record, fields: seq<string>)
    ensures |ImageCalls(lib, name, node, fields).calls| <= |BufferFields(node, fields)|
    ensures ImageCalls(lib, name, node, fields).completed ==>
      |ImageCalls(lib, name, node, fields).calls| == |BufferFields(node, fields)|
  {
    if fields != [] {
      ImageCallsLength(lib, name, node, fields[..|fields| - 1]);
    }
  }

  /** One node's block: the node itself, then its image nodes. A missing
      `imageFieldNames` throws right after the node. */
  function NodeBlock(lib: Lib, name: string, imageFieldNames: Option<seq<string>>, node: Record): (r: Emission)
    ensures |r.calls| >= 1 && r.calls[0] == CreateNodeCall(NodeTypePrefix, name, node)
    ensures forall k :: 1 <= k < |r.calls| ==> IsImageNodeOf(lib, r.calls[k], name, OwnerId(lib, name, node))
    ensures imageFieldNames.None? ==> r == Emission([CreateNodeCall(NodeTypePrefix, name, node)], false)
    ensures imageFieldNames.Some? && r.completed ==> |r.calls| == 1 + BufferCount(node, imageFieldNames.value)
  {
    var call := CreateNodeCall(NodeTypePrefix, name, node);
    match imageFieldNames
    case None => Emission([call], false)
    case Some(fields) =>
      var images := ImageCalls(lib, name, node, fields);
      Emission([call] + images.calls, images.completed)
  }

  /** The blocks of `nodes` in order, up to the first throw. */
  function EmitNodes(lib: Lib, name: string, imageFieldNames: Option<seq<string>>, nodes: seq<Record>): (r: Emission)
    ensures nodes == [] ==> r == Emission([], true)
    ensures r.completed ==> |r.calls| >= |nodes|
  {
    if nodes == [] then Emission([], true)
    else
      var prev := EmitNodes(lib, name, imageFieldNames, nodes[..|nodes| - 1]);
      if !prev.completed then prev
      else
        var block := NodeBlock(lib, name, imageFieldNames, nodes[|nodes| - 1]);
        Emission(prev.calls + block.calls, block.completed)
  }

  /** Once an image buffer has thrown, later fields add nothing. */
  lemma {:induction false} ImageCallsHalted(lib: Lib, name: string, node: Record, fields: seq<string>, k: nat)
    requires k <= |fields| && !ImageCalls(lib, name, node, fields[..k]).completed
    ensures ImageCalls(lib, name, node, fields) == ImageCalls(lib, name, node, fields[..k])
    decreases |fields| - k
  {
    if k < |fields| {
      var init := fields[..|fields| - 1];
      assert init[..k] == fields[..k];
      ImageCallsHalted(lib, name, node, init, k);
    } else {
      assert fields[..k] == fields;
    }
  }

  /** A pass that has not thrown yet appends the next node's block. */
  lemma EmitNodesStep(lib: Lib, name: string, imageFieldNames: Option<seq<string>>, nodes: seq<Record>, i: nat)
    requires i < |nodes| && EmitNodes(lib, name, imageFieldNames, nodes[..i]).completed
    ensures var block := NodeBlock(lib, name, imageFieldNames, nodes[i]);
            EmitNodes(lib, name, imageFieldNames, nodes[..i + 1])
            == Emission(EmitNodes(lib, name, imageFieldNames, nodes[..i]).calls + block.calls, block.completed)
  {
    assert nodes[..i + 1][..i] == nodes[..i];
  }

  /** Once the pass has thrown, later nodes add nothing. */
  lemma {:induction false} EmitNodesHalted(lib: Lib, name: string, imageFieldNames: Option<seq<string>>, nodes: seq<Record>, k: nat)
    requires k <= |nodes| && !EmitNodes(lib, name, imageFieldNames, nodes[..k]).completed
    ensures EmitNodes(lib, name, imageFieldNames, nodes) == EmitNodes(lib, name, imageFieldNames, nodes[..k])
    decreases |nodes| - k
  {
    if k < |nodes| {
      var init := nodes[..|nodes| - 1];
      assert init[..k] == nodes[..k];
      EmitNodesHalted(lib, name, imageFieldNames, init, k);
    } else {
      assert nodes[..k] == nodes;
    }
  }

  /** What a call of `createMysqlNodes(entity, allSqlResults, createNode)` does. */
  function MysqlNodesPlan(lib: Lib, e: Entity, all: seq<Entity>): (r: Emission)
    ensures e.sqlResult.NotArray? ==> r == Emission([], true)
    ensures e.sqlResult.Rows? && e.sqlResult.rows == [] ==> r == Emission([], true)
    ensures r.calls != [] ==> e.sqlResult.Rows? && e.sqlResult.rows != []
  {
    if e.sqlResult.NotArray? then Emission([], true)
    else
      match MapSqlResults(lib, e.sqlResult.rows, e, ChildEntities(all, e.name))
      case Throw => Emission([], false)
      case Normal(nodes) => EmitNodes(lib, e.name, e.imageFieldNames, nodes)
  }

  /** The calls made with the row-node prefix, in order. */
  function NodeCalls(calls: seq<CreateNodeCall>): seq<CreateNodeCall> {
    if calls == [] then []
    else NodeCalls(calls[..|calls| - 1])
         + (if calls[|calls| - 1].typePrefix == NodeTypePrefix then [calls[|calls| - 1]] else [])
  }

  lemma {:induction false} NodeCallsAppend(a: seq<CreateNodeCall>, b: seq<CreateNodeCall>)
    ensures NodeCalls(a + b) == NodeCalls(a) + NodeCalls(b)
  {
    if b == [] {
      assert a + b == a;
    } else {
      assert (a + b)[..|a + b| - 1] == a + b[..|b| - 1];
      NodeCallsAppend(a, b[..|b| - 1]);
    }
  }

  /** A block contributes exactly its own node to the row-node calls. */
  lemma NodeCallsOfBlock(lib: Lib, name: string, imageFieldNames: Option<seq<string>>, node: Record)
    ensures NodeCalls(NodeBlock(lib, name, imageFieldNames, node).calls) == [CreateNodeCall(NodeTypePrefix, name, node)]
  {
    var calls := NodeBlock(lib, name, imageFieldNames, node).calls;
    NodeCallsAppend([calls[0]], calls[1..]);
    assert [calls[0]] + calls[1..] == calls;
    NoNodeCalls(lib, name, node, calls[1..]);
    assert NodeCalls([calls[0]]) == NodeCalls([]) + [calls[0]];
  }

  lemma {:induction false} NoNodeCalls(lib: Lib, name: string, node: Record, calls: seq<CreateNodeCall>)
    requires forall k :: 0 <= k < |calls| ==> IsImageNodeOf(lib, calls[k], name, OwnerId(lib, name, node))
    ensures NodeCalls(calls) == []
  {
    if calls != [] {
      NoNodeCalls(lib, name, node, calls[..|calls| - 1]);
    }
  }

  /** The row-node calls a pass over `nodes` makes when nothing throws. */
  function RowCalls(name: string, nodes: seq<Record>): (r: seq<CreateNodeCall>)
    ensures |r| == |nodes|
  {
    seq(|nodes|, i requires 0 <= i < |nodes| => CreateNodeCall(NodeTypePrefix, name, nodes[i]))
  }

  lemma RowCallsStep(name: string, nodes: seq<Record>)
    requires nodes != []
    ensures RowCalls(name, nodes) == RowCalls(name, nodes[..|nodes| - 1]) + [CreateNodeCall(NodeTypePrefix, name, nodes[|nodes| - 1])]
  {
  }

  /** Every node reaches `createNode` once, in row order; a throw cuts the
      sequence short but never reorders it. */
  lemma {:induction false} NodesEmittedInOrder(lib: Lib, name: string, imageFieldNames: Option<seq<string>>, nodes: seq<Record>)
    ensures var e := EmitNodes(lib, name, imageFieldNames, nodes);
            && |NodeCalls(e.calls)| <= |nodes|
            && NodeCalls(e.calls) == RowCalls(name, nodes)[..|NodeCalls(e.calls)|]
            && (e.completed ==> NodeCalls(e.calls) == RowCalls(name, nodes))
  {
    if nodes != [] {
      var init := nodes[..|nodes| - 1];
      var last := nodes[|nodes| - 1];
      NodesEmittedInOrder(lib, name, imageFieldNames, init);
      RowCallsStep(name, nodes);
      var prev := EmitNodes(lib, name, imageFieldNames, init);
      var m := |NodeCalls(prev.calls)|;
      assert RowCalls(name, nodes)[..m] == RowCalls(name, init)[..m];
      if prev.completed {
        var block := NodeBlock(lib, name, imageFieldNames, last);
        assert EmitNodes(lib, name, imageFieldNames, nodes) == Emission(prev.calls + block.calls, block.completed);
        NodeCallsAppend(prev.calls, block.calls);
        NodeCallsOfBlock(lib, name, imageFieldNames, last);
        assert NodeCalls(prev.calls + block.calls) == RowCalls(name, nodes);
      } else {
        assert EmitNodes(lib, name, imageFieldNames, nodes) == prev;
      }
    }
  }

  /** Total number of buffers over all nodes. */
  function TotalBuffers(nodes: seq<Record>, fields: seq<string>): nat {
    if nodes == [] then 0
    else TotalBuffers(nodes[..|nodes| - 1], fields) + BufferCount(nodes[|nodes| - 1], fields)
  }

  /** A pass that returns made one call per node plus one per image buffer. */
  lemma {:induction false} EmissionCount(lib: Lib, name: string, fields: seq<string>, nodes: seq<Record>)
    requires EmitNodes(lib, name, Some(fields), nodes).completed
    ensures |EmitNodes(lib, name, Some(fields), nodes).calls| == |nodes| + TotalBuffers(nodes, fields)
  {
    if nodes != [] {
      EmissionCount(lib, name, fields, nodes[..|nodes| - 1]);
    }
  }

  /** `imageFieldNames.forEach(...)` for one node: its image nodes, field by field. */
  method EmitImageNodes(lib: Lib, name: string, node: Record, fields: seq<string>)
    returns (calls: seq<CreateNodeCall>, completed: bool)
    ensures Emission(calls, completed) == ImageCalls(lib, name, node, fields)
  {
    var resultId := OwnerId(lib, name, node);
    calls := [];
    var j := 0;
    while j < |fields|
      invariant 0 <= j <= |fields|
      invariant ImageCalls(lib, name, node, fields[..j]) == Emission(calls, true)
    {
      ImageCallsStep(lib, name, node, fields, j);
      var image := Get(node, fields[j]);
      if image.Buffer? {
        var info := lib.imageType(image.bytes);
        if info.None? {
          // destructuring `{ ext, mime }` of null throws
          ImageCallsHalted(lib, name, node, fields, j + 1);
          return calls, false;
        }
        calls := calls + [CreateNodeCall(ImageTypePrefix, name, ImageNodeFields(lib, resultId, info.value))];
      }
      j := j + 1;
    }
    assert fields[..j] == fields;
    completed := true;
  }

  /** One turn of the outer `forEach`: `createNode` for the row node, then
      its image nodes. */
  method EmitNode(lib: Lib, name: string, imageFieldNames: Option<seq<string>>, node: Record)
    returns (calls: seq<CreateNodeCall>, completed: bool)
    ensures Emission(calls, completed) == NodeBlock(lib, name, imageFieldNames, node)
  {
    var call := CreateNodeCall(NodeTypePrefix, name, node);
    if imageFieldNames.None? {
      // `imageFieldNames.forEach` on undefined throws
      return [call], false;
    }
    var images, imagesDone := EmitImageNodes(lib, name, node, imageFieldNames.value);
    return [call] + images, imagesDone;
  }

  /** `createMysqlNodes`: node emission through an appended call log. */
  method CreateMysqlNodes(lib: Lib, e: Entity, all: seq<Entity>) returns (log: seq<CreateNodeCall>, completed: bool)
    ensures Emission(log, completed) == MysqlNodesPlan(lib, e, all)
    ensures e.sqlResult.NotArray? ==> log == [] && completed
  {
    var children := ChildEntities(all, e.name);
    log, completed := [], true;
    if e.sqlResult.NotArray? {
      return;
    }
    var mapped := MapSqlResults(lib, e.sqlResult.rows, e, children);
    if mapped.Throw? {
      completed := false;
      return;
    }
    var nodes := mapped.value;
    assert MysqlNodesPlan(lib, e, all) == EmitNodes(lib, e.name, e.imageFieldNames, nodes);
    var i := 0;
    while i < |nodes|
      invariant 0 <= i <= |nodes|
      invariant EmitNodes(lib, e.name, e.imageFieldNames, nodes[..i]) == Emission(log, true)
    {
      var calls, done := EmitNode(lib, e.name, e.imageFieldNames, nodes[i]);
      EmitNodesStep(lib, e.name, e.imageFieldNames, nodes, i);
      log := log + calls;
      if !done {
        EmitNodesHalted(lib, e.name, e.imageFieldNames, nodes, i + 1);
        completed := false;
        return;
      }
      i := i + 1;
    }
    assert nodes[..i] == nodes;
  }
}
