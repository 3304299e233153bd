/**
 * The request page's top bar: a Root button, a back button and a row of
 * breadcrumbs over the stack of GraphQL types the user has drilled into.
 * Every control replaces the stack with a prefix of it.
 */
module TopBar {
  /** A GraphQL named type, reduced to its name. */
  datatype NamedType = NamedType(name: string)

  type Stack = seq<NamedType>

  /** A toolbar or breadcrumb control: its caption, whether it is disabled, and the stack its click sets. */
  datatype Control = Control(title: string, disabled: bool, target: Stack)

  /** The Root toolbar button. */
  function RootButton(stack: Stack): (c: Control)
    ensures c.title == "Root" && c.target == []
    ensures c.disabled <==> |stack| < 2
  {
    Control("Root", |stack| < 2, [])
  }

  /** `[...stack].slice(0, -1)`: everything but the last entry (nothing, for an empty stack). */
  function DropLast(stack: Stack): (s: Stack)
    ensures |stack| > 0 ==> |s| == |stack| - 1
    ensures |stack| == 0 ==> s == []
    ensures s <= stack
  {
    if |stack| == 0 then [] else stack[..|stack| - 1]
  }

  /** The caption of the back button: the name of the type one level up, or "Root" when there is none or its name is empty. */
  function BackTitle(stack: Stack): (t: string)
    ensures |stack| >= 2 && stack[|stack| - 2].name != "" ==> t == stack[|stack| - 2].name
    ensures |stack| < 2 || stack[|stack| - 2].name == "" ==> t == "Root"
  {
    if |stack| >= 2 && stack[|stack| - 2].name != "" then stack[|stack| - 2].name else "Root"
  }

  /** The back toolbar button. */
  function BackButton(stack: Stack): (c: Control)
    ensures c.title == BackTitle(stack) && c.target == DropLast(stack)
    ensures c.disabled <==> |stack| == 0
  {
    Control(BackTitle(stack), |stack| == 0, DropLast(stack))
  }

  /** The "Root" breadcrumb. */
  function RootCrumb(stack: Stack): (c: Control)
    ensures c.title == "Root" && c.target == []
    ensures c.disabled <==> |stack| == 0
  {
    Control("Root", |stack| == 0, [])
  }

  /** The breadcrumb of entry `i`: it cuts the stack back to that entry. */
  function Crumb(stack: Stack, i: nat): (c: Control)
    requires i < |stack|
    ensures c.title == stack[i].name
    ensures |c.target| == i + 1 && c.target <= stack && c.target[i] == stack[i]
    ensures c.disabled <==> i == |stack| - 1
  {
    Control(stack[i].name, i == |stack| - 1, stack[..i + 1])
  }

  /** Every breadcrumb after the Root one, in stack order (none for an empty stack). */
  function Crumbs(stack: Stack): (cs: seq<Control>)
    ensures |cs| == |stack|
    ensures forall i :: 0 <= i < |stack| ==> cs[i] == Crumb(stack, i)
  {
    seq(|stack|, i requires 0 <= i < |stack| => Crumb(stack, i))
  }

  /** Only the last breadcrumb is disabled, and clicking it would leave the stack as it is. */
  lemma LastCrumbIsCurrent(stack: Stack)
    requires |stack| > 0
    ensures Crumbs(stack)[|stack| - 1].target == stack
    ensures forall i :: 0 <= i < |stack| ==> (Crumbs(stack)[i].disabled <==> Crumbs(stack)[i].target == stack)
  {
  }

  /** Going back is the same as clicking the next-to-last breadcrumb, or Root when there is only one entry. */
  lemma BackIsPreviousCrumb(stack: Stack)
    requires |stack| > 0
    ensures |stack| >= 2 ==> BackButton(stack).target == Crumb(stack, |stack| - 2).target
    ensures |stack| == 1 ==> BackButton(stack).target == RootCrumb(stack).target
  {
  }

  /** After going back, the back button's caption names the type that was one level up. */
  lemma BackTitleNamesNewTop(stack: Stack)
    requires |stack| >= 2 && stack[|stack| - 2].name != ""
    ensures var after := BackButton(stack).target;
            |after| > 0 && BackTitle(stack) == after[|after| - 1].name
  {
  }

  /** Drilling into a type and going back restores the stack. */
  lemma PushThenBack(stack: Stack, t: NamedType)
    ensures BackButton(stack + [t]).target == stack
    ensures !BackButton(stack + [t]).disabled
  {
  }

  /** Every control leads to a prefix of the stack, so none can add a type. */
  lemma ControlsOnlyShorten(stack: Stack)
    ensures RootButton(stack).target <= stack && BackButton(stack).target <= stack
    ensures RootCrumb(stack).target <= stack
    ensures forall i :: 0 <= i < |stack| ==> Crumbs(stack)[i].target <= stack
  {
  }
}
