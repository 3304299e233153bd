/**
 * The parsed explorer tree the explorer components receive: a node map
 * from field key to field node, where a node carries either a scalar value
 * or children (one node map, or a list of node maps whose slots may be null).
 * Building these maps is not part of this model; the components only read them.
 */
module ExplorerAst {
  import opened Wrappers
  import opened Js

  datatype FieldNode = FieldNode(
    id: string,                    // `_id`
    name: string,
    args: JsValue,                 // the argument map, or undefined
    value: JsValue,                // the scalar value, or undefined
    children: Children,
    cacheOutcome: Option<string>)  // "hit", "partial", "miss", or undefined

  /** `node.children`: undefined, a node map, or an array of node maps and nulls. */
  datatype Children =
    | NoChildren
    | NodeMap(fields: seq<Field>)
    | NodeList(slots: seq<Slot>)

  /** One element of a node-map array: null, or a node map. */
  datatype Slot = NullSlot | MapSlot(fields: seq<Field>)

  /** One entry of a node map, in the map's insertion order. */
  datatype Field = Field(key: string, node: FieldNode)

  /** `Object.values(nodeMap)`. */
  function Values(fields: seq<Field>): (ns: seq<FieldNode>)
    ensures |ns| == |fields| && forall i :: 0 <= i < |fields| ==> ns[i] == fields[i].node
  {
    seq(|fields|, i requires 0 <= i < |fields| => fields[i].node)
  }

  /** A field node as the JavaScript object it is at run time. */
  function EncodeNode(n: FieldNode): (v: JsValue)
    ensures v.Obj?
    ensures Lookup(v.props, "value") == n.value
    ensures Lookup(v.props, "children") == EncodeChildren(n.children)
    decreases n, 2
  {
    var props := [
      Prop("_id", Str(n.id)),
      Prop("name", Str(n.name)),
      Prop("args", n.args),
      Prop("value", n.value),
      Prop("children", EncodeChildren(n.children)),
      Prop("cacheOutcome", match n.cacheOutcome case None => Undefined case Some(s) => Str(s))];
    assert props[3].key == "value" && props[4].key == "children";
    Obj(props)
  }

  /** `node.children` as a JavaScript value: undefined, an object, or an array. */
  function EncodeChildren(c: Children): (v: JsValue)
    ensures c.NoChildren? <==> v.Undefined?
    ensures c.NodeMap? <==> v.Obj?
    ensures c.NodeList? <==> v.Arr?
    decreases c, 1
  {
    match c
    case NoChildren => Undefined
    case NodeMap(fields) => EncodeMap(fields, c)
    case NodeList(slots) =>
      Arr(seq(|slots|, i requires 0 <= i < |slots| =>
        match slots[i]
        case NullSlot => Null
        case MapSlot(fields) => EncodeMap(fields, c)))
  }

  /** A node map as a JavaScript object: one property per field, in order. */
  function EncodeMap(fields: seq<Field>, ghost parent: Children): (v: JsValue)
    requires forall i :: 0 <= i < |fields| ==> (parent decreases to fields[i].node)
    ensures v.Obj? && KeysOf(v.props) == seq(|fields|, i requires 0 <= i < |fields| => fields[i].key)
    ensures |v.props| == |fields|
    ensures forall i :: 0 <= i < |fields| ==> v.props[i] == Prop(fields[i].key, EncodeNode(fields[i].node))
    decreases parent, 0
  {
    Obj(seq(|fields|, i requires 0 <= i < |fields| => Prop(fields[i].key, EncodeNode(fields[i].node))))
  }
}
