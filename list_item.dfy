/**
 * One field of the explorer tree (`ListItem`): it expands and collapses on
 * click, reports the expanded node to the detail view, and flashes when its
 * children change while it is collapsed. `SystemListItem` is the
 * `__typename` badge.
 */
module ListItem {
  import opened Wrappers
  import opened Text
  import opened Js
  import opened ExplorerAst
  import opened Highlight

  /** `hasChildren`: a non-empty array of node maps, or any node map. */
  predicate HasChildren(c: Children) {
    match c
    case NodeList(slots) => |slots| > 0
    case NodeMap(_) => true
    case NoChildren => false
  }

  /** The same test on `node.children` as a JavaScript value: an array's length, otherwise `!!children`. */
  lemma HasChildrenAsJs(c: Children)
    ensures EncodeChildren(c).Arr? ==> (HasChildren(c) <==> |EncodeChildren(c).items| > 0)
    ensures !EncodeChildren(c).Arr? ==> (HasChildren(c) <==> Truthy(EncodeChildren(c)))
  {
  }

  /** The item's button, which carries the click handler: there is one when it has children or arguments. */
  predicate Clickable(n: FieldNode) {
    HasChildren(n.children) || Truthy(n.args)
  }

  /** `isActive`: this node is the active one and it is expanded. */
  predicate IsActive(n: FieldNode, activeId: Option<string>, expanded: bool) {
    activeId == Some(n.id) && expanded
  }

  /** The flash is drawn only around an item with children, while it runs and the item is collapsed. */
  predicate Flashing(n: FieldNode, animating: bool, expanded: bool) {
    HasChildren(n.children) && animating && !expanded
  }

  /** The text of `SystemListItem`: the value, then ` #index` when an index is given. */
  function SystemLabel(value: JsValue, index: Option<nat>): (text: string)
    ensures index.None? ==> text == ToJsString(value)
    ensures index.Some? ==> text == ToJsString(value) + " #" + NatToString(index.value)
  {
    ToJsString(value) + match index case None => "" case Some(i) => " #" + NatToString(i)
  }

  /** The label ends with an index that reads back as the one given. */
  lemma SystemLabelIndex(value: JsValue, i: nat)
    ensures var text := SystemLabel(value, Some(i));
            var digits := NatToString(i);
            |text| > |digits| && text[|text| - |digits|..] == digits && ParseNat(digits) == i
  {
    ParseNatToString(i);
  }

  /**
   * A mounted item. `detailView` and `focusedNode` are the last values it
   * passed to `setDetailView` and `setFocusedNode`.
   */
  class Item {
    var node: FieldNode
    var isExpanded: bool
    var detailView: Option<FieldNode>
    var focusedNode: Option<FieldNode>
    const highlight: Highlighter

    /** Mounting runs both effects once: the highlight arms, and the collapsed item clears the detail view. */
    constructor (node: FieldNode, focusedNode: Option<FieldNode>)
      ensures this.node == node && !isExpanded
      ensures detailView == None && this.focusedNode == focusedNode
      ensures fresh(highlight) && highlight.state == Ready && !Flash()
    {
      this.node := node;
      this.isExpanded := false;
      this.detailView := None;
      this.focusedNode := focusedNode;
      var h := new Highlighter();
      h.LayoutEffect();
      this.highlight := h;
    }

    function Flash(): bool
      reads this, highlight
    {
      Flashing(node, highlight.IsAnimating(), isExpanded)
    }

    function Active(activeId: Option<string>): bool
      reads this
    {
      IsActive(node, activeId, isExpanded)
    }

    /**
     * A click on the item: `handleOnClick`, then the effect on `isExpanded`.
     * An item with neither children nor arguments has no handler, so the
     * click changes nothing.
     */
    method Click()
      modifies this
      ensures node == old(node)
      ensures !Clickable(node) ==>
        isExpanded == old(isExpanded) && detailView == old(detailView) && focusedNode == old(focusedNode)
      ensures Clickable(node) ==> isExpanded == !old(isExpanded)
      ensures Clickable(node) && isExpanded ==> detailView == Some(node) && focusedNode == Some(node)
      ensures Clickable(node) && !isExpanded ==> detailView == None && focusedNode == old(focusedNode)
    {
      if !Clickable(node) {
        return;
      }
      isExpanded := !isExpanded;
      if isExpanded {
        detailView := Some(node);
        focusedNode := Some(node);
      } else {
        detailView := None;
      }
    }

    /**
     * A re-render with a new node. `childrenReplaced` says whether
     * `node.children` is a different object than before; only then does
     * the highlight's layout effect run.
     */
    method Rerender(newNode: FieldNode, childrenReplaced: bool)
      requires !childrenReplaced ==> newNode.children == node.children
      modifies this, highlight
      ensures node == newNode
      ensures isExpanded == old(isExpanded) && detailView == old(detailView) && focusedNode == old(focusedNode)
      ensures highlight.state == if childrenReplaced then Step(old(highlight.state)) else old(highlight.state)
    {
      node := newNode;
      if childrenReplaced {
        highlight.LayoutEffect();
      }
    }

    /** The flash's `onAnimationEnd`. */
    method AnimationEnd()
      modifies highlight
      ensures highlight.state == Ready && !Flash()
    {
      highlight.OnAnimationEnd();
    }
  }

  /** After mounting, replacing a collapsed item's children makes it flash. */
  method MountThenReplaceChildren(n: FieldNode, m: FieldNode) returns (flashes: bool)
    requires HasChildren(m.children)
    ensures flashes
  {
    var item := new Item(n, None);
    item.Rerender(m, true);
    flashes := item.Flash();
  }

  /** An expanded item never flashes, and an active item is expanded. */
  lemma ExpandedNeverFlashes(n: FieldNode, animating: bool, activeId: Option<string>)
    ensures !Flashing(n, animating, true)
    ensures IsActive(n, activeId, false) == false
  {
  }
}
