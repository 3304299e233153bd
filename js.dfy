/**
 * The JavaScript values the explorer passes around untyped: node values,
 * argument maps and the plain values gathered for the detail view.
 * Numbers are integers; an object is its own properties in insertion
 * order (a JavaScript object never repeats a key).
 */
module Js {
  import opened Text

  datatype JsValue =
    | Undefined
    | Null
    | Bool(b: bool)
    | Num(n: int)
    | Str(s: string)
    | Arr(items: seq<JsValue>)
    | Obj(props: seq<Prop>)

  datatype Prop = Prop(key: string, val: JsValue)

  /** The outcome of evaluating JavaScript that may throw a TypeError. */
  datatype Completion<+T> = Normal(value: T) | ThrowTypeError

  /** `!!v`: false for undefined, null, false, 0 and the empty string. */
  predicate Truthy(v: JsValue) {
    match v
    case Undefined => false
    case Null => false
    case Bool(b) => b
    case Num(n) => n != 0
    case Str(s) => s != []
    case _ => true
  }

  function KeysOf(props: seq<Prop>): (ks: seq<string>)
    ensures |ks| == |props| && forall i :: 0 <= i < |props| ==> ks[i] == props[i].key
  {
    seq(|props|, i requires 0 <= i < |props| => props[i].key)
  }

  /** Position of the own property `k`, or -1 when there is none. */
  function IndexOfKey(props: seq<Prop>, k: string): (i: int)
    ensures -1 <= i < |props|
    ensures i >= 0 ==> props[i].key == k && forall j :: 0 <= j < i ==> props[j].key != k
    ensures i < 0 ==> forall j :: 0 <= j < |props| ==> props[j].key != k
  {
    if |props| == 0 then -1
    else if props[0].key == k then 0
    else
      var j := IndexOfKey(props[1..], k);
      if j < 0 then -1 else j + 1
  }

  /** Own property lookup `o[k]` on an object's properties: undefined when absent. */
  function Lookup(props: seq<Prop>, k: string): (v: JsValue)
    ensures (forall j :: 0 <= j < |props| ==> props[j].key != k) ==> v == Undefined
    ensures forall j :: 0 <= j < |props| && props[j].key == k && (forall i :: 0 <= i < j ==> props[i].key != k) ==> v == props[j].val
  {
    var i := IndexOfKey(props, k);
    if i < 0 then Undefined else props[i].val
  }

  /**
   * Reading the member `v[k]` for a name `k` that no prototype defines
   * ("value", "children"): a TypeError on undefined and null, an own
   * property of an object, and undefined on every other value.
   */
  function Member(v: JsValue, k: string): (r: Completion<JsValue>)
    ensures r.ThrowTypeError? <==> v.Undefined? || v.Null?
    ensures v.Obj? ==> r == Normal(Lookup(v.props, k))
  {
    match v
    case Undefined => ThrowTypeError
    case Null => ThrowTypeError
    case Obj(props) => Normal(Lookup(props, k))
    case _ => Normal(Undefined)
  }

  function Join(parts: seq<string>, sep: string): (s: string)
    ensures |parts| == 0 ==> s == []
    ensures |parts| == 1 ==> s == parts[0]
  {
    if |parts| == 0 then []
    else if |parts| == 1 then parts[0]
    else Join(parts[..|parts| - 1], sep) + sep + parts[|parts| - 1]
  }

  /**
   * String(v), as a template literal `${v}` renders it. Array elements
   * that are undefined or null render as the empty string (Array.prototype.join).
   */
  function ToJsString(v: JsValue): (s: string)
    ensures v.Str? ==> s == v.s
    ensures v.Num? ==> s == IntToString(v.n)
    decreases v
  {
    match v
    case Undefined => "undefined"
    case Null => "null"
    case Bool(b) => if b then "true" else "false"
    case Num(n) => IntToString(n)
    case Str(s) => s
    case Arr(items) =>
      Join(seq(|items|, i requires 0 <= i < |items| =>
        if items[i].Undefined? || items[i].Null? then "" else ToJsString(items[i])), ",")
    case Obj(_) => "[object Object]"
  }
}
