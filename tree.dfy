/**
 * The explorer's tree of one parsed node map: nothing for an absent or
 * empty map, one subtree per non-null entry of a list of maps, and for a
 * map a list holding the `__typename` badge, then the scalar fields, then
 * the fields with children, each group sorted with `id` first and the rest
 * by name.
 */
module Tree {
  import opened Wrappers
  import opened ExplorerAst

  // Name order

  /** Code-point lexicographic order on names (standing in for localeCompare). */
  predicate NameLess(a: string, b: string)
    decreases |a|
  {
    if |a| == 0 then |b| > 0
    else if |b| == 0 then false
    else if a[0] < b[0] then true
    else if a[0] == b[0] then NameLess(a[1..], b[1..])
    else false
  }

  lemma {:induction false} NameLessIrreflexive(a: string)
    ensures !NameLess(a, a)
    decreases |a|
  {
    if |a| > 0 {
      NameLessIrreflexive(a[1..]);
    }
  }

  lemma {:induction false} NameLessTransitive(a: string, b: string, c: string)
    requires NameLess(a, b) && NameLess(b, c)
    ensures NameLess(a, c)
    decreases |a|
  {
    if |a| > 0 && a[0] == b[0] && b[0] == c[0] {
      NameLessTransitive(a[1..], b[1..], c[1..]);
    }
  }

  lemma {:induction false} NameLessTotal(a: string, b: string)
    ensures a == b || NameLess(a, b) || NameLess(b, a)
    decreases |a|
  {
    if |a| > 0 && |b| > 0 && a[0] == b[0] {
      NameLessTotal(a[1..], b[1..]);
      if a[1..] == b[1..] {
        assert a == [a[0]] + a[1..] && b == [b[0]] + b[1..];
      }
    }
  }

  lemma {:induction false} NameLessAsymmetric(a: string, b: string)
    requires NameLess(a, b)
    ensures !NameLess(b, a)
  {
    if NameLess(b, a) {
      NameLessTransitive(a, b, a);
      NameLessIrreflexive(a);
    }
  }

  // The order sortFields puts fields in

  /** `b` goes strictly before `a`: an `id` before any other name, otherwise by name. Two `id` fields keep their order. */
  predicate After(a: FieldNode, b: FieldNode) {
    (a.name != "id" && b.name == "id") || (a.name != "id" && b.name != "id" && NameLess(b.name, a.name))
  }

  lemma AfterTransitive(a: FieldNode, b: FieldNode, c: FieldNode)
    requires After(a, b) && After(b, c)
    ensures After(a, c)
  {
    if a.name != "id" && b.name != "id" && c.name != "id" {
      NameLessTransitive(c.name, b.name, a.name);
    }
  }

  lemma AfterAsymmetric(a: FieldNode, b: FieldNode)
    requires After(a, b)
    ensures !After(b, a)
  {
    if a.name != "id" && b.name != "id" {
      NameLessAsymmetric(b.name, a.name);
    }
  }

  lemma NotAfterTransitive(a: FieldNode, b: FieldNode, c: FieldNode)
    requires !After(a, b) && !After(b, c)
    ensures !After(a, c)
  {
    if a.name != "id" && b.name != "id" && c.name != "id" {
      NameLessTotal(a.name, b.name);
      NameLessTotal(b.name, c.name);
      if NameLess(c.name, a.name) {
        if NameLess(a.name, b.name) {
          NameLessTransitive(c.name, a.name, b.name);
          NameLessAsymmetric(c.name, b.name);
        } else {
          NameLessTransitive(c.name, a.name, a.name);
        }
      }
    }
  }

  // A stable insertion sort over any "goes after" relation

  /** `after(a, b)`: `b` must come before `a`. */
  type Order = (FieldNode, FieldNode) -> bool

  /** No field is followed by one that must come before it. */
  predicate SortedBy(s: seq<FieldNode>, after: Order) {
    forall i, j :: 0 <= i < j < |s| ==> !after(s[i], s[j])
  }

  /** What the sort needs of its relation: it is asymmetric, and "does not go after" is transitive. */
  ghost predicate StrictWeakOrder(after: Order) {
    (forall a, b :: after(a, b) ==> !after(b, a))
    && (forall a, b, c :: !after(a, b) && !after(b, c) ==> !after(a, c))
  }

  /** Place `x` behind the last field of a sorted sequence that does not go after it. */
  function InsertBy(s: seq<FieldNode>, x: FieldNode, after: Order): (r: seq<FieldNode>)
    ensures |r| == |s| + 1
  {
    if |s| == 0 then [x]
    else if after(s[|s| - 1], x) then InsertBy(s[..|s| - 1], x, after) + [s[|s| - 1]]
    else s + [x]
  }

  /** Insert the fields one by one, from the first. */
  function SortBy(s: seq<FieldNode>, after: Order): (r: seq<FieldNode>)
    ensures |r| == |s|
  {
    if |s| == 0 then [] else InsertBy(SortBy(s[..|s| - 1], after), s[|s| - 1], after)
  }

  lemma {:induction false} InsertByPermutes(s: seq<FieldNode>, x: FieldNode, after: Order)
    ensures multiset(InsertBy(s, x, after)) == multiset(s) + multiset{x}
  {
    if |s| > 0 && after(s[|s| - 1], x) {
      var init, last := s[..|s| - 1], s[|s| - 1];
      InsertByPermutes(init, x, after);
      assert s == init + [last];
    }
  }

  /** The sort holds the same fields as its input. */
  lemma {:induction false} SortByPermutes(s: seq<FieldNode>, after: Order)
    ensures multiset(SortBy(s, after)) == multiset(s)
  {
    if |s| > 0 {
      var init, last := s[..|s| - 1], s[|s| - 1];
      SortByPermutes(init, after);
      InsertByPermutes(SortBy(init, after), last, after);
      assert s == init + [last];
    }
  }

  lemma {:induction false} InsertBySorted(s: seq<FieldNode>, x: FieldNode, after: Order)
    requires StrictWeakOrder(after) && SortedBy(s, after)
    ensures SortedBy(InsertBy(s, x, after), after)
  {
    if |s| > 0 && after(s[|s| - 1], x) {
      var init, last := s[..|s| - 1], s[|s| - 1];
      InsertBySorted(init, x, after);
      InsertByPermutes(init, x, after);
      var r := InsertBy(init, x, after);
      assert InsertBy(s, x, after) == r + [last];
      forall i | 0 <= i < |r| ensures !after(r[i], last) {
        if r[i] != x {
          assert r[i] in multiset(r);
          assert multiset(r)[r[i]] == multiset(init)[r[i]];
          assert r[i] in multiset(init);
          var k :| 0 <= k < |init| && init[k] == r[i];
          assert s[k] == r[i];
        }
      }
    } else if |s| > 0 {
      forall i | 0 <= i < |s| - 1 ensures !after(s[i], x) {
        assert !after(s[i], s[|s| - 1]);
      }
    }
  }

  lemma {:induction false} SortBySorted(s: seq<FieldNode>, after: Order)
    requires StrictWeakOrder(after)
    ensures SortedBy(SortBy(s, after), after)
  {
    if |s| > 0 {
      SortBySorted(s[..|s| - 1], after);
      InsertBySorted(SortBy(s[..|s| - 1], after), s[|s| - 1], after);
    }
  }

  /** Sorting one more field is inserting it into the sorted shorter prefix. */
  lemma SortBySnoc(s: seq<FieldNode>, i: nat, after: Order)
    requires i < |s|
    ensures SortBy(s[..i + 1], after) == InsertBy(SortBy(s[..i], after), s[i], after)
  {
    assert s[..i + 1][..i] == s[..i];
  }

  /** Move `a[i]` left past the fields that go after it, so that `a[..i + 1]` is the insertion of it into `a[..i]`. */
  method InsertLast(a: array<FieldNode>, i: nat, after: Order)
    requires i < a.Length
    modifies a
    ensures a[..i + 1] == InsertBy(old(a[..i]), old(a[i]), after)
    ensures a[i + 1..] == old(a[i + 1..])
  {
    ghost var prefix, rest := a[..i], a[i + 1..];
    var x := a[i];
    var j := i;
    assert prefix[..i] == prefix && prefix[i..] == [];
    assert a[..] == prefix[..i] + [x] + prefix[i..] + rest;
    while j > 0 && after(a[j - 1], x)
      invariant 0 <= j <= i
      invariant a[..] == prefix[..j] + [x] + prefix[j..] + rest
      invariant forall k :: j <= k < i ==> after(prefix[k], x)
    {
      SwapStep(a[..], prefix, j, x, rest);
      a[j - 1], a[j] := a[j], a[j - 1];
      j := j - 1;
    }
    assert prefix == prefix[..j] + prefix[j..];
    InsertAt(prefix[..j], prefix[j..], x, after);
    assert a[..i + 1] == a[..][..i + 1];
  }

  /** Swapping `x` with the field before it moves it one place left in the layout the loop keeps. */
  lemma SwapStep(s: seq<FieldNode>, prefix: seq<FieldNode>, j: nat, x: FieldNode, rest: seq<FieldNode>)
    requires 0 < j <= |prefix| && s == prefix[..j] + [x] + prefix[j..] + rest
    ensures s[j - 1 := x][j := s[j - 1]] == prefix[..j - 1] + [x] + prefix[j - 1..] + rest
  {
    assert s[j - 1] == prefix[j - 1];
  }

  /** InsertBy puts `x` right behind the last field that does not go after it. */
  lemma {:induction false} InsertAt(pre: seq<FieldNode>, suf: seq<FieldNode>, x: FieldNode, after: Order)
    requires |pre| == 0 || !after(pre[|pre| - 1], x)
    requires forall k :: 0 <= k < |suf| ==> after(suf[k], x)
    ensures InsertBy(pre + suf, x, after) == pre + [x] + suf
    decreases |suf|
  {
    var s := pre + suf;
    if |suf| == 0 {
      assert s == pre;
    } else {
      var init, last := suf[..|suf| - 1], suf[|suf| - 1];
      assert s[..|s| - 1] == pre + init && s[|s| - 1] == last;
      InsertAt(pre, init, x, after);
      assert suf == init + [last];
    }
  }

  // sortFields

  /** The sortFields comparator is a strict weak order. */
  lemma AfterIsStrictWeakOrder()
    ensures StrictWeakOrder(After)
  {
    forall a, b | After(a, b) ensures !After(b, a) {
      AfterAsymmetric(a, b);
    }
    forall a, b, c | !After(a, b) && !After(b, c) ensures !After(a, c) {
      NotAfterTransitive(a, b, c);
    }
  }

  /** `sortFields`: the stable sort under the comparator above; it holds the same fields. */
  function SortFields(s: seq<FieldNode>): (r: seq<FieldNode>)
    ensures |r| == |s| && multiset(r) == multiset(s)
  {
    SortByPermutes(s, After);
    SortBy(s, After)
  }

  /** The result of sortFields is in order: every `id` field first, then the other names ascending. */
  lemma SortFieldsSorted(s: seq<FieldNode>)
    ensures SortedBy(SortFields(s), After)
    ensures forall i, j :: 0 <= i < j < |s| && SortFields(s)[j].name == "id" ==> SortFields(s)[i].name == "id"
    ensures forall i, j :: 0 <= i < j < |s| && SortFields(s)[i].name != "id" ==>
      SortFields(s)[j].name != "id" && !NameLess(SortFields(s)[j].name, SortFields(s)[i].name)
  {
    AfterIsStrictWeakOrder();
    SortBySorted(s, After);
  }

  /** The in-place `nodes.sort(...)`, by insertion with adjacent swaps. */
  method SortFieldsInPlace(a: array<FieldNode>)
    modifies a
    ensures a[..] == SortFields(old(a[..]))
  {
    ghost var input := a[..];
    var i := 0;
    while i < a.Length
      invariant 0 <= i <= a.Length
      invariant a[..i] == SortBy(input[..i], After)
      invariant a[i..] == input[i..]
    {
      ghost var sorted, next, rest := a[..i], a[i], a[i + 1..];
      assert next == input[i] && rest == input[i + 1..] by {
        assert a[i..] == [a[i]] + a[i + 1..] && input[i..] == [input[i]] + input[i + 1..];
      }
      SortBySnoc(input, i, After);
      InsertLast(a, i, After);
      assert a[..i + 1] == InsertBy(sorted, next, After);
      i := i + 1;
    }
    assert a[..] == a[..a.Length];
    assert input == input[..a.Length];
  }

  // Filters over the fields of a map

  /** `fields.filter(p)`. */
  function Keep(ns: seq<FieldNode>, p: FieldNode -> bool): (r: seq<FieldNode>)
    ensures |r| <= |ns|
    ensures forall i :: 0 <= i < |r| ==> p(r[i]) && r[i] in ns
    ensures forall i :: 0 <= i < |ns| && p(ns[i]) ==> ns[i] in r
  {
    if |ns| == 0 then []
    else if p(ns[0]) then [ns[0]] + Keep(ns[1..], p)
    else Keep(ns[1..], p)
  }

  /** The fields a filter drops. */
  function Drop(ns: seq<FieldNode>, p: FieldNode -> bool): (r: seq<FieldNode>)
    ensures forall i :: 0 <= i < |r| ==> !p(r[i]) && r[i] in ns
  {
    if |ns| == 0 then []
    else if p(ns[0]) then Drop(ns[1..], p)
    else [ns[0]] + Drop(ns[1..], p)
  }

  /** A filter and what it drops split the fields between them. */
  lemma {:induction false} KeepSplits(ns: seq<FieldNode>, p: FieldNode -> bool)
    ensures multiset(Keep(ns, p)) + multiset(Drop(ns, p)) == multiset(ns)
  {
    if |ns| > 0 {
      var head, tail := ns[0], ns[1..];
      KeepSplits(tail, p);
      assert ns == [head] + tail;
      if p(head) {
        assert Keep(ns, p) == [head] + Keep(tail, p) && Drop(ns, p) == Drop(tail, p);
      } else {
        assert Keep(ns, p) == Keep(tail, p) && Drop(ns, p) == [head] + Drop(tail, p);
      }
    }
  }

  /** `fields.find((x) => x.name === "__typename")`. */
  function FindTypename(ns: seq<FieldNode>): (r: Option<FieldNode>)
    ensures r.Some? ==> r.value in ns && r.value.name == "__typename"
    ensures r.None? <==> forall i :: 0 <= i < |ns| ==> ns[i].name != "__typename"
    ensures r.Some? ==> exists i :: 0 <= i < |ns| && ns[i] == r.value && forall j :: 0 <= j < i ==> ns[j].name != "__typename"
  {
    if |ns| == 0 then None
    else if ns[0].name == "__typename" then Some(ns[0])
    else
      var r := FindTypename(ns[1..]);
      if r.Some? then
        var i :| 0 <= i < |ns[1..]| && ns[1..][i] == r.value && forall j :: 0 <= j < i ==> ns[1..][j].name != "__typename";
        assert ns[i + 1] == r.value;
        r
      else r
  }

  predicate HasChildNodes(x: FieldNode) {
    !x.children.NoChildren?
  }

  predicate IsLeaf(x: FieldNode) {
    x.children.NoChildren?
  }

  predicate NotTypename(x: FieldNode) {
    x.name != "__typename"
  }

  predicate IsScalar(x: FieldNode) {
    x.children.NoChildren? && x.name != "__typename"
  }

  predicate IsId(x: FieldNode) {
    x.name == "id"
  }

  lemma {:induction false} KeepAppend(a: seq<FieldNode>, b: seq<FieldNode>, p: FieldNode -> bool)
    ensures Keep(a + b, p) == Keep(a, p) + Keep(b, p)
    decreases |a|
  {
    if |a| == 0 {
      assert a + b == b;
    } else {
      assert (a + b)[1..] == a[1..] + b;
      KeepAppend(a[1..], b, p);
    }
  }

  /** Insertion only moves the new field past fields that are not `id`, so the `id` fields keep their order. */
  lemma {:induction false} InsertByKeepsIdOrder(s: seq<FieldNode>, x: FieldNode)
    ensures Keep(InsertBy(s, x, After), IsId) == Keep(s + [x], IsId)
    decreases |s|
  {
    if |s| > 0 {
      var init, last := s[..|s| - 1], s[|s| - 1];
      assert s == init + [last];
      if After(last, x) {
        InsertByKeepsIdOrder(init, x);
        KeepAppend(InsertBy(init, x, After), [last], IsId);
        KeepAppend(init, [x], IsId);
        KeepAppend(init, [last], IsId);
        KeepAppend(s, [x], IsId);
        assert Keep([last], IsId) == [];
      }
    }
  }

  /** Several `id` fields come out in the order they went in. */
  lemma {:induction false} SortFieldsKeepsIdOrder(s: seq<FieldNode>)
    ensures Keep(SortFields(s), IsId) == Keep(s, IsId)
    decreases |s|
  {
    if |s| > 0 {
      var init, last := s[..|s| - 1], s[|s| - 1];
      assert s == init + [last];
      SortFieldsKeepsIdOrder(init);
      InsertByKeepsIdOrder(SortBy(init, After), last);
      KeepAppend(SortBy(init, After), [last], IsId);
      KeepAppend(init, [last], IsId);
    }
  }

  /** A `__typename` field without children: the one kind of field the list leaves to the badge. */
  predicate IsTypenameLeaf(x: FieldNode) {
    x.children.NoChildren? && x.name == "__typename"
  }

  // What Tree renders

  datatype TreeView =
    | Nothing
    | Fragment(parts: seq<TreeView>)
    | List(index: Option<nat>, role: string, badge: Option<FieldNode>, items: seq<FieldNode>, depth: nat)

  /** The list rendered for one node map. */
  function RenderMap(fields: seq<Field>, depth: nat, index: Option<nat>): (v: TreeView)
    ensures v.List? && v.index == index && v.depth == depth
    ensures v.role == (if depth == 0 then "tree" else "group")
    ensures v.badge == FindTypename(Values(fields))
    ensures v.items == SortFields(Keep(Values(fields), IsScalar)) + SortFields(Keep(Values(fields), HasChildNodes))
  {
    var ns := Values(fields);
    List(index, if depth == 0 then "tree" else "group", FindTypename(ns),
         SortFields(Keep(ns, IsScalar)) + SortFields(Keep(ns, HasChildNodes)), depth)
  }

  /** `Tree`: nothing for no map or an empty list, a fragment of subtrees for a list, a list for a map. */
  function Render(nodeMap: Children, depth: nat, index: Option<nat>): (v: TreeView)
    ensures (nodeMap.NoChildren? || (nodeMap.NodeList? && |nodeMap.slots| == 0)) <==> v.Nothing?
    ensures nodeMap.NodeMap? ==> v == RenderMap(nodeMap.fields, depth, index)
    ensures nodeMap.NodeList? && |nodeMap.slots| > 0 ==>
      v.Fragment? && |v.parts| == |nodeMap.slots|
      && forall i :: 0 <= i < |nodeMap.slots| ==>
           v.parts[i] == match nodeMap.slots[i] case NullSlot => Nothing case MapSlot(f) => RenderMap(f, depth, Some(i))
  {
    match nodeMap
    case NoChildren => Nothing
    case NodeMap(fields) => RenderMap(fields, depth, index)
    case NodeList(slots) =>
      if |slots| == 0 then Nothing
      else Fragment(seq(|slots|, i requires 0 <= i < |slots| =>
        match slots[i] case NullSlot => Nothing case MapSlot(f) => RenderMap(f, depth, Some(i))))
  }

  /** The list shows every field of the map once, except the scalar `__typename` ones, which the badge stands for. */
  lemma RenderMapShowsEachField(fields: seq<Field>, depth: nat, index: Option<nat>)
    ensures var ns := Values(fields);
            multiset(RenderMap(fields, depth, index).items) + multiset(Keep(ns, IsTypenameLeaf)) == multiset(ns)
  {
    var ns := Values(fields);
    KeepSplits(ns, HasChildNodes);
    KeepSplits(Keep(ns, IsLeaf), NotTypename);
    FilterIdentities(ns);
  }

  /** The filters of a map's fields in terms of one another. */
  lemma {:induction false} FilterIdentities(ns: seq<FieldNode>)
    ensures Drop(ns, HasChildNodes) == Keep(ns, IsLeaf)
    ensures Keep(Keep(ns, IsLeaf), NotTypename) == Keep(ns, IsScalar)
    ensures Drop(Keep(ns, IsLeaf), NotTypename) == Keep(ns, IsTypenameLeaf)
  {
    if |ns| > 0 { FilterIdentities(ns[1..]); }
  }

  /** Sorting keeps a property every field has. */
  lemma SortFieldsKeeps(s: seq<FieldNode>, p: FieldNode -> bool)
    requires forall i :: 0 <= i < |s| ==> p(s[i])
    ensures forall i :: 0 <= i < |SortFields(s)| ==> p(SortFields(s)[i])
  {
    forall i | 0 <= i < |SortFields(s)| ensures p(SortFields(s)[i]) {
      assert SortFields(s)[i] in multiset(SortFields(s));
      var k :| 0 <= k < |s| && s[k] == SortFields(s)[i];
    }
  }

  /** The scalar fields come before every field with children, and each group is in sortFields order. */
  lemma RenderMapOrder(fields: seq<Field>, depth: nat, index: Option<nat>)
    ensures var items := RenderMap(fields, depth, index).items;
            var k := |Keep(Values(fields), IsScalar)|;
            k <= |items| && SortedBy(items[..k], After) && SortedBy(items[k..], After)
            && (forall i :: 0 <= i < k ==> IsScalar(items[i]))
            && (forall i :: k <= i < |items| ==> HasChildNodes(items[i]))
  {
    var ns := Values(fields);
    var sc, ch := Keep(ns, IsScalar), Keep(ns, HasChildNodes);
    var ssc, sch := SortFields(sc), SortFields(ch);
    var items := ssc + sch;
    assert RenderMap(fields, depth, index).items == items;
    SortFieldsSorted(sc);
    SortFieldsSorted(ch);
    SortFieldsKeeps(sc, IsScalar);
    SortFieldsKeeps(ch, HasChildNodes);
    var k := |sc|;
    assert items[..k] == ssc && items[k..] == sch;
  }
}
