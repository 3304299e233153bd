/**
 * The explorer's detail view: `gatherChildValues`, which folds a node map
 * into the plain value it stands for, the cache-outcome descriptions, and
 * which sections the view shows for the selected node.
 */
module DetailView {
  import opened Wrappers
  import opened Text
  import opened Js
  import opened ExplorerAst

  /** The keys `Object.entries` gives an array of length n: "0", "1", ... */
  function IndexKeys(n: nat): (ks: seq<string>)
    ensures |ks| == n && forall i :: 0 <= i < n ==> ks[i] == NatToString(i)
  {
    seq(n, i requires 0 <= i < n => NatToString(i))
  }

  function ValuesOf(props: seq<Prop>): (vs: seq<JsValue>)
    ensures |vs| == |props| && forall i :: 0 <= i < |props| ==> vs[i] == props[i].val
  {
    seq(|props|, i requires 0 <= i < |props| => props[i].val)
  }

  /** The reduce over `Object.entries`: a TypeError from any entry propagates, otherwise one property per entry. */
  function Collect(keys: seq<string>, results: seq<Completion<JsValue>>): (r: Completion<JsValue>)
    requires |keys| == |results|
    ensures r.ThrowTypeError? <==> exists i :: 0 <= i < |results| && results[i].ThrowTypeError?
    ensures r.Normal? ==> r.value.Obj? && KeysOf(r.value.props) == keys
    ensures r.Normal? ==> forall i :: 0 <= i < |keys| ==> r.value.props[i] == Prop(keys[i], results[i].value)
  {
    if exists i :: 0 <= i < |results| && results[i].ThrowTypeError? then ThrowTypeError
    else Normal(Obj(seq(|keys|, i requires 0 <= i < |keys| => Prop(keys[i], results[i].value))))
  }

  /** `childValue.map(gatherChildValues)`: a TypeError from any element propagates. */
  function CollectArray(results: seq<Completion<JsValue>>): (r: Completion<JsValue>)
    ensures r.ThrowTypeError? <==> exists i :: 0 <= i < |results| && results[i].ThrowTypeError?
    ensures r.Normal? ==> r.value.Arr? && |r.value.items| == |results|
    ensures r.Normal? ==> forall i :: 0 <= i < |results| ==> r.value.items[i] == results[i].value
  {
    if exists i :: 0 <= i < |results| && results[i].ThrowTypeError? then ThrowTypeError
    else Normal(Arr(seq(|results|, i requires 0 <= i < |results| => results[i].value)))
  }

  /**
   * Where an entry's child value lives: the index of its `value` property
   * when that is defined, otherwise of its `children` property (-1: absent).
   */
  function ChildIndex(props: seq<Prop>): (k: int)
    ensures -1 <= k < |props|
  {
    var vi := IndexOfKey(props, "value");
    if vi >= 0 && props[vi].val != Undefined then vi else IndexOfKey(props, "children")
  }

  /** `value.value !== undefined ? value.value : value.children`, as JavaScript evaluates it. */
  function ChildValue(e: JsValue): (r: Completion<JsValue>)
    ensures r.ThrowTypeError? <==> e.Undefined? || e.Null?
  {
    match Member(e, "value")
    case ThrowTypeError => ThrowTypeError
    case Normal(v) => if v != Undefined then Normal(v) else Member(e, "children")
  }

  /** `gatherChildValues(values)`. */
  function Gather(v: JsValue): Completion<JsValue>
    decreases v, 1
  {
    if !Truthy(v) then Normal(Null)
    else
      match v
      case Arr(items) =>
        Collect(IndexKeys(|items|), seq(|items|, i requires 0 <= i < |items| => GatherEntry(items[i])))
      case Obj(props) =>
        Collect(KeysOf(props), seq(|props|, i requires 0 <= i < |props| => GatherEntry(props[i].val)))
      case _ => Normal(v)
  }

  /** A falsy input gathers to null, and any other value that is neither an array nor an object is returned as it is. */
  lemma GatherScalars(v: JsValue)
    ensures !Truthy(v) ==> Gather(v) == Normal(Null)
    ensures Truthy(v) && !v.Arr? && !v.Obj? ==> Gather(v) == Normal(v)
    ensures Truthy(v) <==> Gather(v) != Normal(Null) || v.Arr? || v.Obj?
  {
  }

  /** An array or object gathers to an object with the same keys, in the same order. */
  lemma GatherKeepsKeys(v: JsValue)
    requires v.Arr? || v.Obj?
    requires Gather(v).Normal?
    ensures Gather(v).value.Obj?
    ensures v.Arr? ==> KeysOf(Gather(v).value.props) == IndexKeys(|v.items|)
    ensures v.Obj? ==> KeysOf(Gather(v).value.props) == KeysOf(v.props)
  {
  }

  /** The reduce callback's value for one entry, `acc[key]`. */
  function GatherEntry(e: JsValue): (r: Completion<JsValue>)
    decreases e, 0
  {
    match e
    case Undefined => ThrowTypeError
    case Null => ThrowTypeError
    case Obj(props) =>
      var k := ChildIndex(props);
      if k < 0 then Normal(Undefined)
      else
        (match props[k].val
         case Arr(xs) => CollectArray(seq(|xs|, j requires 0 <= j < |xs| => Gather(xs[j])))
         case Obj(_) => Gather(props[k].val)
         case cv => Normal(cv))
    case _ => Normal(Undefined)
  }

  lemma ChildIndexIsChildValue(props: seq<Prop>)
    ensures var k := ChildIndex(props);
            ChildValue(Obj(props)) == Normal(if k < 0 then Undefined else props[k].val)
  {
    var vi := IndexOfKey(props, "value");
    var ci := IndexOfKey(props, "children");
    assert Lookup(props, "value") == (if vi < 0 then Undefined else props[vi].val);
    assert Lookup(props, "children") == (if ci < 0 then Undefined else props[ci].val);
  }

  /**
   * The rule for one entry, stated on the JavaScript reading of the entry:
   * a TypeError when the entry is null or undefined; an array child value
   * mapped element by element; an object child value gathered again;
   * anything else copied as it is.
   */
  lemma GatherEntryRule(e: JsValue)
    ensures ChildValue(e).ThrowTypeError? ==> GatherEntry(e).ThrowTypeError?
    ensures ChildValue(e).Normal? && ChildValue(e).value.Arr? ==>
              var xs := ChildValue(e).value.items;
              GatherEntry(e) == CollectArray(seq(|xs|, j requires 0 <= j < |xs| => Gather(xs[j])))
    ensures ChildValue(e).Normal? && ChildValue(e).value.Obj? ==> GatherEntry(e) == Gather(ChildValue(e).value)
    ensures ChildValue(e).Normal? && !ChildValue(e).value.Arr? && !ChildValue(e).value.Obj? ==>
              GatherEntry(e) == ChildValue(e)
  {
    if e.Obj? {
      ChildIndexIsChildValue(e.props);
    }
  }

  /** Array child values keep their length and order: element j of the result is the gathered element j. */
  lemma GatherArrayChild(e: JsValue, j: nat)
    requires ChildValue(e).Normal? && ChildValue(e).value.Arr?
    requires GatherEntry(e).Normal?
    requires j < |ChildValue(e).value.items|
    ensures GatherEntry(e).value.Arr?
    ensures |GatherEntry(e).value.items| == |ChildValue(e).value.items|
    ensures Gather(ChildValue(e).value.items[j]) == Normal(GatherEntry(e).value.items[j])
  {
    GatherEntryRule(e);
    var xs := ChildValue(e).value.items;
    var rs := seq(|xs|, i requires 0 <= i < |xs| => Gather(xs[i]));
    assert rs[j] == Gather(xs[j]);
  }

  /** A whole object fails exactly when one of its entries does. */
  lemma GatherObjectThrows(props: seq<Prop>)
    ensures Gather(Obj(props)).ThrowTypeError? <==>
              exists i :: 0 <= i < |props| && GatherEntry(props[i].val).ThrowTypeError?
  {
    var rs := seq(|props|, i requires 0 <= i < |props| => GatherEntry(props[i].val));
    if exists i :: 0 <= i < |props| && GatherEntry(props[i].val).ThrowTypeError? {
      var i :| 0 <= i < |props| && GatherEntry(props[i].val).ThrowTypeError?;
      assert rs[i].ThrowTypeError?;
    }
  }

  /** `gatherChildValues` as the source runs it: recursion, and a reduce filling the accumulator key by key. */
  method GatherChildValues(values: JsValue) returns (r: Completion<JsValue>)
    ensures r == Gather(values)
    decreases values, 2
  {
    if !Truthy(values) {
      return Normal(Null);
    }
    match values {
      case Arr(items) =>
        r := ReduceEntries(values, IndexKeys(|items|), items);
        assert seq(|items|, j requires 0 <= j < |items| => GatherEntry(items[j]))
            == seq(|items|, i requires 0 <= i < |items| => GatherEntry(items[i]));
      case Obj(props) =>
        var vals := ValuesOf(props);
        r := ReduceEntries(values, KeysOf(props), vals);
        assert seq(|vals|, j requires 0 <= j < |vals| => GatherEntry(vals[j]))
            == seq(|props|, i requires 0 <= i < |props| => GatherEntry(props[i].val));
      case _ =>
        return Normal(values);
    }
  }

  /** The `reduce` over the entries `keys[i]: vals[i]` of `values`, starting from `{}`. */
  method ReduceEntries(ghost values: JsValue, keys: seq<string>, vals: seq<JsValue>) returns (r: Completion<JsValue>)
    requires |keys| == |vals|
    requires forall j :: 0 <= j < |vals| ==> (values decreases to vals[j])
    ensures r == Collect(keys, seq(|vals|, j requires 0 <= j < |vals| => GatherEntry(vals[j])))
    decreases values, 1
  {
    ghost var results := seq(|vals|, j requires 0 <= j < |vals| => GatherEntry(vals[j]));
    var acc: seq<Prop> := [];
    var i := 0;
    while i < |vals|
      invariant 0 <= i <= |vals| && |acc| == i
      invariant forall j :: 0 <= j < i ==> results[j].Normal? && acc[j] == Prop(keys[j], results[j].value)
    {
      var x := GatherEntryValue(vals[i]);
      if x.ThrowTypeError? {
        assert results[i].ThrowTypeError?;
        return ThrowTypeError;
      }
      acc := acc + [Prop(keys[i], x.value)];
      i := i + 1;
    }
    ghost var c := Collect(keys, results);
    assert c.Normal? by {
      assert forall j :: 0 <= j < |results| ==> results[j].Normal?;
    }
    assert |c.value.props| == |acc| by {
      assert |KeysOf(c.value.props)| == |keys|;
    }
    assert acc == c.value.props;
    r := Normal(Obj(acc));
  }

  /** The reduce callback for one entry value. */
  method GatherEntryValue(value: JsValue) returns (r: Completion<JsValue>)
    ensures r == GatherEntry(value)
    decreases value, 0
  {
    match value {
      case Undefined => return ThrowTypeError;
      case Null => return ThrowTypeError;
      case Obj(props) =>
        var k := ChildIndex(props);
        if k < 0 {
          return Normal(Undefined);
        }
        var childValue := props[k].val;
        match childValue {
          case Arr(xs) =>
            ghost var results := seq(|xs|, j requires 0 <= j < |xs| => Gather(xs[j]));
            var mapped: seq<JsValue> := [];
            var j := 0;
            while j < |xs|
              invariant 0 <= j <= |xs| && |mapped| == j
              invariant forall m :: 0 <= m < j ==> results[m] == Normal(mapped[m])
            {
              var y := GatherChildValues(xs[j]);
              if y.ThrowTypeError? {
                assert results[j].ThrowTypeError?;
                return ThrowTypeError;
              }
              mapped := mapped + [y.value];
              j := j + 1;
            }
            assert Arr(mapped) == CollectArray(results).value;
            return Normal(Arr(mapped));
          case Obj(_) =>
            r := GatherChildValues(childValue);
          case _ =>
            return Normal(childValue);
        }
      case _ =>
        return Normal(Undefined);
    }
  }

  // ---------------------------------------------------------------------
  // A typed reference: on a node tree whose defined values are all
  // primitives, gathering yields the node tree's plain value.

  predicate IsPrimitive(v: JsValue) {
    !v.Arr? && !v.Obj?
  }

  /** Every node reachable through the children carries a primitive value or, with no value, such children. */
  predicate PrimitiveLeaves(c: Children)
    decreases c, 1
  {
    match c
    case NoChildren => true
    case NodeMap(fields) => MapLeaves(fields, c)
    case NodeList(slots) =>
      forall i :: 0 <= i < |slots| ==> (slots[i].MapSlot? ==> MapLeaves(slots[i].fields, c))
  }

  predicate MapLeaves(fields: seq<Field>, ghost parent: Children)
    requires forall i :: 0 <= i < |fields| ==> (parent decreases to fields[i].node)
    decreases parent, 0
  {
    forall i :: 0 <= i < |fields| ==> NodeLeaves(fields[i].node)
  }

  predicate NodeLeaves(n: FieldNode)
    decreases n, 2
  {
    if n.value != Undefined then IsPrimitive(n.value) else PrimitiveLeaves(n.children)
  }

  /** The plain value a node stands for: its value when defined, else the plain value of its children. */
  function PlainNode(n: FieldNode): JsValue
    decreases n, 2
  {
    if n.value != Undefined then n.value else PlainChildren(n.children)
  }

  function PlainChildren(c: Children): JsValue
    decreases c, 1
  {
    match c
    case NoChildren => Undefined
    case NodeMap(fields) => PlainMap(fields, c)
    case NodeList(slots) =>
      Arr(seq(|slots|, i requires 0 <= i < |slots| =>
        match slots[i]
        case NullSlot => Null
        case MapSlot(fields) => PlainMap(fields, c)))
  }

  /** A node map's plain value: an object with the map's keys, each holding its node's plain value. */
  function PlainMap(fields: seq<Field>, ghost parent: Children): (v: JsValue)
    requires forall i :: 0 <= i < |fields| ==> (parent decreases to fields[i].node)
    ensures v.Obj? && |v.props| == |fields|
    ensures forall i :: 0 <= i < |fields| ==> v.props[i] == Prop(fields[i].key, PlainNode(fields[i].node))
    decreases parent, 0
  {
    Obj(seq(|fields|, i requires 0 <= i < |fields| => Prop(fields[i].key, PlainNode(fields[i].node))))
  }

  /** One encoded node gathers to its plain value. */
  lemma {:induction false} GatherEncodedNode(n: FieldNode)
    requires NodeLeaves(n)
    ensures GatherEntry(EncodeNode(n)) == Normal(PlainNode(n))
    decreases n, 2
  {
    var e := EncodeNode(n);
    GatherEntryRule(e);
    assert ChildValue(e) == Normal(if n.value != Undefined then n.value else EncodeChildren(n.children));
    if n.value == Undefined {
      GatherEncodedChildren(n.children);
    }
  }

  /**
   * Children gather to their plain value: a node map as an object entry,
   * a node list element by element.
   */
  lemma {:induction false} GatherEncodedChildren(c: Children)
    requires PrimitiveLeaves(c)
    ensures c.NodeMap? ==> Gather(EncodeChildren(c)) == Normal(PlainChildren(c))
    ensures c.NodeList? ==>
              var xs := EncodeChildren(c).items;
              CollectArray(seq(|xs|, j requires 0 <= j < |xs| => Gather(xs[j]))) == Normal(PlainChildren(c))
    decreases c, 1
  {
    match c
    case NoChildren =>
    case NodeMap(fields) =>
      GatherEncodedMap(fields, c);
    case NodeList(slots) =>
      var xs := EncodeChildren(c).items;
      var rs := seq(|xs|, j requires 0 <= j < |xs| => Gather(xs[j]));
      var plain := PlainChildren(c).items;
      forall j | 0 <= j < |xs|
        ensures rs[j] == Normal(plain[j])
      {
        match slots[j]
        case NullSlot =>
        case MapSlot(fields) =>
          GatherEncodedMap(fields, c);
      }
      assert CollectArray(rs).value.items == plain;
  }

  lemma {:induction false} GatherEncodedMap(fields: seq<Field>, parent: Children)
    requires forall i :: 0 <= i < |fields| ==> (parent decreases to fields[i].node)
    requires MapLeaves(fields, parent)
    ensures Gather(EncodeMap(fields, parent)) == Normal(PlainMap(fields, parent))
    decreases parent, 0
  {
    var e := EncodeMap(fields, parent);
    var rs := seq(|e.props|, i requires 0 <= i < |e.props| => GatherEntry(e.props[i].val));
    forall i | 0 <= i < |fields|
      ensures rs[i] == Normal(PlainNode(fields[i].node))
    {
      GatherEncodedNode(fields[i].node);
    }
    assert Collect(KeysOf(e.props), rs).value == PlainMap(fields, parent);
  }

  // ---------------------------------------------------------------------
  // The view.

  /** `getDescription`: the sentence shown under a cache outcome. */
  function Description(status: Option<string>): (d: Option<string>)
    ensures d.Some? <==> status == Some("hit") || status == Some("partial") || status == Some("miss")
  {
    match status
    case Some("hit") => Some("This result was served from cache.")
    case Some("partial") => Some("Some values for this result were served from cache.")
    case Some("miss") => Some("This result wasn't served from cache")
    case _ => None
  }

  /** The three outcomes are described by three different sentences. */
  lemma DescriptionsDistinct(a: string, b: string)
    requires Description(Some(a)).Some? && Description(Some(b)).Some?
    ensures a != b <==> Description(Some(a)) != Description(Some(b))
  {
  }

  /** A string-or-undefined attribute in a JavaScript condition. */
  predicate OptionTruthy(o: Option<string>) {
    o.Some? && o.value != []
  }

  /** `<Value .../>` with what it is given: a value shown as is, or the gathered children. */
  datatype ValueSection =
    | Shown(value: JsValue)                // expandValues={false}
    | GatheredChildren(gathered: Completion<JsValue>)

  datatype CacheSection = CacheSection(outcome: string, description: Option<string>)

  datatype Details =
    | Placeholder    // "Select a node to see more information..."
    | Sections(name: string, cache: Option<CacheSection>, args: Option<JsValue>, value: Option<ValueSection>)

  /** `renderChildren`: an array of children is shown as it is, anything else is gathered first. */
  function RenderChildren(n: FieldNode): (v: ValueSection)
    ensures v.Shown? <==> n.children.NodeList?
    ensures v.Shown? ==> v.value.Arr? && v.value == EncodeChildren(n.children)
    ensures v.GatheredChildren? ==> v.gathered == Gather(EncodeChildren(n.children))
  {
    if n.children.NodeList? then Shown(EncodeChildren(n.children))
    else GatheredChildren(Gather(EncodeChildren(n.children)))
  }

  /** `DetailView({ node })`. */
  function View(node: Option<FieldNode>): (d: Details)
    ensures node.None? <==> d.Placeholder?
    ensures node.Some? ==> d.name == node.value.name
    ensures node.Some? ==> (d.cache.Some? <==> OptionTruthy(node.value.cacheOutcome))
    ensures node.Some? ==> (d.args.Some? <==> Truthy(node.value.args))
    ensures node.Some? ==> (d.value.Some? <==> Truthy(node.value.value) || !node.value.children.NoChildren?)
  {
    match node
    case None => Placeholder
    case Some(n) =>
      var cache := if OptionTruthy(n.cacheOutcome) then Some(CacheSection(n.cacheOutcome.value, Description(n.cacheOutcome))) else None;
      var args := if Truthy(n.args) then Some(n.args) else None;
      var childrenValue := EncodeChildren(n.children);
      var value :=
        if Truthy(n.value) || Truthy(childrenValue) then
          if n.value != Undefined then Some(Shown(if n.children.NoChildren? then n.value else childrenValue))
          else Some(RenderChildren(n))
        else None;
      Sections(n.name, cache, args, value)
  }

  /**
   * A node with a defined value shows its children when it has any and its
   * value otherwise; a node without a value shows its children, gathered
   * when they are a node map.
   */
  lemma ViewValueChoice(n: FieldNode)
    requires View(Some(n)).value.Some?
    ensures n.value != Undefined && !n.children.NoChildren? ==> View(Some(n)).value == Some(Shown(EncodeChildren(n.children)))
    ensures n.value != Undefined && n.children.NoChildren? ==> View(Some(n)).value == Some(Shown(n.value))
    ensures n.value == Undefined && n.children.NodeMap? ==>
              View(Some(n)).value == Some(GatheredChildren(Gather(EncodeChildren(n.children))))
    ensures n.value == Undefined ==> !n.children.NoChildren?
  {
  }

  /** A selected node without a value whose tree holds primitive leaves shows that tree's plain value. */
  lemma ViewShowsPlainValue(n: FieldNode)
    requires n.value == Undefined && n.children.NodeMap? && PrimitiveLeaves(n.children)
    ensures View(Some(n)).value == Some(GatheredChildren(Normal(PlainChildren(n.children))))
  {
    GatherEncodedChildren(n.children);
  }
}
