/**
 * The timeline's toolbar: a cog that shows or hides the filters, buttons
 * that move the playhead to the start or to now, and the filter checkboxes
 * for GraphQL operation kinds and for event sources.
 */
module Settings {
  import opened Text
  import opened TimelineContext

  /** `list.filter((f) => f !== v)`: the list without any copy of `v`, in its order. */
  function Without(list: seq<string>, v: string): (r: seq<string>)
    ensures v !in r
    ensures forall x :: x != v ==> (x in r <==> x in list)
    ensures |r| <= |list|
    ensures v !in list ==> r == list
    ensures multiset(r) == multiset(list)[v := 0]
  {
    if |list| == 0 then []
    else
      assert list == [list[0]] + list[1..];
      if list[0] == v then Without(list[1..], v)
      else [list[0]] + Without(list[1..], v)
  }

  /** `filter` works piece by piece, so it keeps the order of what remains. */
  lemma {:induction false} WithoutKeepsOrder(a: seq<string>, b: seq<string>, v: string)
    ensures Without(a + b, v) == Without(a, v) + Without(b, v)
  {
    if |a| == 0 {
      assert a + b == b;
    } else {
      var rest := a[1..] + b;
      assert a + b == [a[0]] + rest;
      WithoutKeepsOrder(a[1..], b, v);
      if a[0] == v {
        assert Without(a + b, v) == Without(rest, v);
        assert Without(a, v) == Without(a[1..], v);
      } else {
        assert Without(a + b, v) == [a[0]] + Without(rest, v);
        assert Without(a, v) == [a[0]] + Without(a[1..], v);
      }
    }
  }

  /** A single entry is kept exactly when it differs from the value. */
  lemma WithoutSingle(x: string, v: string)
    ensures Without([x], v) == if x == v then [] else [x]
  {
    assert [x][1..] == [];
  }

  /** Removing the value appended after a list that lacks it gives the list back. */
  lemma {:induction false} WithoutAppended(list: seq<string>, v: string)
    requires v !in list
    ensures Without(list + [v], v) == list
  {
    if |list| > 0 {
      assert (list + [v])[1..] == list[1..] + [v];
      WithoutAppended(list[1..], v);
    }
  }

  /** The updater behind a filter checkbox: drop every copy of `v` if it is listed, otherwise append it. */
  function Toggle(list: seq<string>, v: string): (r: seq<string>)
    ensures v in r <==> v !in list
    ensures forall x :: x != v ==> (x in r <==> x in list)
    ensures v !in list ==> r == list + [v]
    ensures v in list ==> r == Without(list, v)
  {
    if v in list then Without(list, v) else list + [v]
  }

  /** Toggling a value that is not listed, then toggling it again, leaves the list as it was. */
  lemma ToggleTwiceAbsent(list: seq<string>, v: string)
    requires v !in list
    ensures Toggle(Toggle(list, v), v) == list
  {
    WithoutAppended(list, v);
  }

  /** Toggling a listed value twice keeps the same members, with every copy of it collapsed into one at the end. */
  lemma ToggleTwicePresent(list: seq<string>, v: string)
    requires v in list
    ensures Toggle(Toggle(list, v), v) == Without(list, v) + [v]
    ensures forall x :: x in Toggle(Toggle(list, v), v) <==> x in list
  {
  }

  /** `handleSourceToggle(v)`: the source list toggles, the kind list is kept. */
  function ToggleSource(f: Filter, v: string): (g: Filter)
    ensures g.graphqlType == f.graphqlType
    ensures v in g.source <==> v !in f.source
    ensures forall x :: x != v ==> (x in g.source <==> x in f.source)
  {
    f.(source := Toggle(f.source, v))
  }

  /** `handleTypeToggle(v)`: the kind list toggles, the source list is kept. */
  function ToggleType(f: Filter, v: string): (g: Filter)
    ensures g.source == f.source
    ensures v in g.graphqlType <==> v !in f.graphqlType
    ensures forall x :: x != v ==> (x in g.graphqlType <==> x in f.graphqlType)
  {
    f.(graphqlType := Toggle(f.graphqlType, v))
  }

  /** `e.replace(/Exchange$/, "")`: one trailing "Exchange" removed. */
  function StripExchange(s: string): (r: string)
    ensures EndsWith(s, "Exchange") ==> r + "Exchange" == s
    ensures !EndsWith(s, "Exchange") ==> r == s
  {
    if EndsWith(s, "Exchange") then s[..|s| - 8] else s
  }

  /** Only one suffix goes: a doubled suffix leaves one behind. */
  lemma StripExchangeOnce()
    ensures StripExchange("fetchExchange") == "fetch"
    ensures StripExchange("cacheExchangeExchange") == "cacheExchange"
    ensures StripExchange("Exchanges") == "Exchanges"
  {
    assert EndsWith("fetchExchange", "Exchange");
    assert EndsWith("cacheExchangeExchange", "Exchange");
    assert "fetchExchange"[..5] == "fetch";
    assert "cacheExchangeExchange"[..13] == "cacheExchange";
  }

  /** A filter checkbox: its caption and its `aria-selected`. */
  datatype FilterButton = FilterButton(caption: string, value: string, selected: bool)

  /** One checkbox per filterable operation kind, checked when the kind is shown. */
  function TypeButtons(kinds: seq<string>, f: Filter): (bs: seq<FilterButton>)
    ensures |bs| == |kinds|
    ensures forall i :: 0 <= i < |kinds| ==>
      bs[i].caption == kinds[i] && bs[i].value == kinds[i] && (bs[i].selected <==> kinds[i] in f.graphqlType)
  {
    seq(|kinds|, i requires 0 <= i < |kinds| => FilterButton(kinds[i], kinds[i], kinds[i] in f.graphqlType))
  }

  /** One checkbox per filterable source, captioned without its "Exchange" suffix. */
  function SourceButtons(sources: seq<string>, f: Filter): (bs: seq<FilterButton>)
    ensures |bs| == |sources|
    ensures forall i :: 0 <= i < |sources| ==>
      bs[i].caption == StripExchange(sources[i]) && bs[i].value == sources[i]
      && (bs[i].selected <==> sources[i] in f.source)
  {
    seq(|sources|, i requires 0 <= i < |sources| => FilterButton(StripExchange(sources[i]), sources[i], sources[i] in f.source))
  }

  /** Clicking a kind checkbox flips it and no checkbox with another kind. */
  lemma TypeClickFlipsOnlyIt(kinds: seq<string>, sources: seq<string>, f: Filter, i: nat)
    requires i < |kinds|
    ensures var after := TypeButtons(kinds, ToggleType(f, kinds[i]));
            var before := TypeButtons(kinds, f);
            after[i].selected == !before[i].selected
            && (forall j :: 0 <= j < |kinds| && kinds[j] != kinds[i] ==> after[j] == before[j])
            && SourceButtons(sources, ToggleType(f, kinds[i])) == SourceButtons(sources, f)
  {
  }

  /** Clicking a source checkbox flips it and no checkbox with another source. */
  lemma SourceClickFlipsOnlyIt(sources: seq<string>, kinds: seq<string>, f: Filter, i: nat)
    requires i < |sources|
    ensures var after := SourceButtons(sources, ToggleSource(f, sources[i]));
            var before := SourceButtons(sources, f);
            after[i].selected == !before[i].selected
            && (forall j :: 0 <= j < |sources| && sources[j] != sources[i] ==> after[j] == before[j])
            && TypeButtons(kinds, ToggleSource(f, sources[i])) == TypeButtons(kinds, f)
  {
  }

  /** The toolbar, with its own `collapsed` flag over the shared context. */
  class Toolbar {
    var collapsed: bool
    const ctx: Context

    constructor (ctx: Context)
      ensures collapsed && this.ctx == ctx && !CogActive()
    {
      this.ctx := ctx;
      this.collapsed := true;
    }

    /** The cog is highlighted while the filters are shown. */
    function CogActive(): bool
      reads this
    {
      !collapsed
    }

    method ExpandToggle()
      modifies this
      ensures collapsed == !old(collapsed) && CogActive() == old(collapsed)
    {
      collapsed := !collapsed;
    }

    /** "Back to start [Home]". */
    method BackClick()
      modifies ctx
      ensures ctx.position == ctx.StartPosition()
      ensures ctx.startTime == old(ctx.startTime) && ctx.filter == old(ctx.filter)
      ensures ctx.selectedEvent == old(ctx.selectedEvent)
    {
      ctx.position := ctx.startTime - ctx.startPadding;
    }

    /** "Forward to current time [End]"; `now` is Date.now(). */
    method ForwardClick(now: int)
      modifies ctx
      ensures ctx.position == now
      ensures ctx.startTime == old(ctx.startTime) && ctx.filter == old(ctx.filter)
      ensures ctx.selectedEvent == old(ctx.selectedEvent)
    {
      ctx.position := now;
    }

    method SourceToggle(v: string)
      modifies ctx
      ensures ctx.filter == ToggleSource(old(ctx.filter), v)
      ensures ctx.position == old(ctx.position) && ctx.startTime == old(ctx.startTime)
      ensures ctx.selectedEvent == old(ctx.selectedEvent)
    {
      ctx.filter := ToggleSource(ctx.filter, v);
    }

    method TypeToggle(v: string)
      modifies ctx
      ensures ctx.filter == ToggleType(old(ctx.filter), v)
      ensures ctx.position == old(ctx.position) && ctx.startTime == old(ctx.startTime)
      ensures ctx.selectedEvent == old(ctx.selectedEvent)
    {
      ctx.filter := ToggleType(ctx.filter, v);
    }
  }
}
