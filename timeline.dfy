/**
 * The timeline page: the tick labels along the top, one row and one source
 * icon per operation (hidden when its kind is filtered out), the Home and
 * End shortcuts, and the side pane, which shows either the selected source
 * or the selected event.
 */
module Timeline {
  import opened Wrappers
  import opened Text
  import opened TimelineContext

  /** `getTickCount`: how many ticks to ask the scale for at a container width. */
  function TickCount(width: int): (n: nat)
    ensures n == 2 || n == 5 || n == 10
    ensures n == 2 <==> width < 600
    ensures n == 10 <==> width >= 1300
  {
    if width < 600 then 2 else if width < 1300 then 5 else 10
  }

  /** A wider container never gets fewer ticks. */
  lemma TickCountMonotone(w1: int, w2: int)
    requires w1 <= w2
    ensures TickCount(w1) <= TickCount(w2)
  {
  }

  /** `Math.round(delta / 1000) * 1000`: the nearest whole second, halves rounded up. */
  function RoundToSecond(delta: int): (t: int)
    ensures t % 1000 == 0
    ensures t - 500 <= delta < t + 500
  {
    ((delta + 500) / 1000) * 1000
  }

  /** The rounding is the only multiple of a second in that half-open window. */
  lemma RoundToSecondUnique(delta: int, t: int)
    requires t % 1000 == 0 && t - 500 <= delta < t + 500
    ensures RoundToSecond(delta) == t
  {
    var r := RoundToSecond(delta);
    var k, q := t / 1000, r / 1000;
    assert t == k * 1000 && r == q * 1000;
    assert -1000 < t - r < 1000;
    assert k == q;
  }

  /** The d3 scale: its `ticks(count)` and its mapping from a time to a position. */
  datatype Scale = Scale(ticks: nat -> seq<int>, at: int -> int)

  datatype Tick = Tick(caption: string, position: int)

  /** One tick: its label is the rounded offset from the start in ms, and it sits where that rounded time is. */
  function TickAt(t: int, startTime: int, at: int -> int): (tick: Tick)
    ensures var time := RoundToSecond(t - startTime);
            tick.caption == IntToString(time) + "ms" && tick.position == at(time + startTime)
  {
    var time := RoundToSecond(t - startTime);
    Tick(IntToString(time) + "ms", at(time + startTime))
  }

  /** `ticks`: none without a scale, otherwise one per value of `scale.ticks(getTickCount(width))`. */
  function Ticks(scale: Option<Scale>, width: int, startTime: int): (ts: seq<Tick>)
    ensures scale.None? ==> ts == []
    ensures scale.Some? ==> |ts| == |scale.value.ticks(TickCount(width))|
    ensures scale.Some? ==> forall i :: 0 <= i < |ts| ==>
      ts[i] == TickAt(scale.value.ticks(TickCount(width))[i], startTime, scale.value.at)
  {
    match scale
    case None => []
    case Some(s) =>
      var values := s.ticks(TickCount(width));
      seq(|values|, i requires 0 <= i < |values| => TickAt(values[i], startTime, s.at))
  }

  /** The label reads back as a whole number of seconds, in ms, within half a second of the tick's offset. */
  lemma TickLabelParses(t: int, startTime: int, at: int -> int)
    ensures var text := TickAt(t, startTime, at).caption;
            var digits := text[..|text| - 2];
            EndsWith(text, "ms") && |digits| >= 1
            && (AllDigits(digits) || (digits[0] == '-' && AllDigits(digits[1..])))
            && ParseInt(digits) % 1000 == 0
            && ParseInt(digits) - 500 <= t - startTime < ParseInt(digits) + 500
  {
    var time := RoundToSecond(t - startTime);
    var text := IntToString(time) + "ms";
    assert text[..|text| - 2] == IntToString(time);
    assert text[|text| - 2..] == "ms";
    ParseIntToString(time);
  }

  /** The first event of a group whose operation is not a teardown. */
  function FirstNotTeardown(group: seq<DebugEvent>): (r: Option<DebugEvent>)
    ensures r.Some? ==> r.value in group && r.value.operation.kind != "teardown"
    ensures r.None? <==> forall i :: 0 <= i < |group| ==> group[i].operation.kind == "teardown"
  {
    if |group| == 0 then None
    else if group[0].operation.kind != "teardown" then Some(group[0])
    else FirstNotTeardown(group[1..])
  }

  /** The found event is the earliest one that is not a teardown. */
  lemma {:induction false} FirstNotTeardownIsFirst(group: seq<DebugEvent>, i: nat)
    requires i < |group| && group[i].operation.kind != "teardown"
    requires forall j :: 0 <= j < i ==> group[j].operation.kind == "teardown"
    ensures FirstNotTeardown(group) == Some(group[i])
  {
    if i > 0 {
      assert group[1..][i - 1] == group[i];
      FirstNotTeardownIsFirst(group[1..], i - 1);
    }
  }

  /**
   * The source operation of one key's events: the operation of its first
   * event that is not a teardown, or the first event's operation when all
   * of them are teardowns.
   */
  function SourceOf(group: seq<DebugEvent>): (o: Operation)
    requires |group| > 0
    ensures o.kind == "teardown" <==> forall i :: 0 <= i < |group| ==> group[i].operation.kind == "teardown"
    ensures exists i :: 0 <= i < |group| && group[i].operation == o
    ensures (forall i :: 0 <= i < |group| ==> group[i].operation.kind == "teardown") ==> o == group[0].operation
  {
    match FirstNotTeardown(group)
    case Some(e) => e.operation
    case None => group[0].operation
  }

  /** The source is the operation of the earliest event that is not a teardown. */
  lemma SourceOfIsFirst(group: seq<DebugEvent>, i: nat)
    requires i < |group| && group[i].operation.kind != "teardown"
    requires forall j :: 0 <= j < i ==> group[j].operation.kind == "teardown"
    ensures SourceOf(group) == group[i].operation
  {
    FirstNotTeardownIsFirst(group, i);
  }

  /** The event store's shape, which every lookup below relies on: each listed key has a non-empty group. */
  predicate WellFormed(order: seq<int>, events: map<int, seq<DebugEvent>>) {
    forall i :: 0 <= i < |order| ==> order[i] in events && |events[order[i]]| > 0
  }

  /** `sources`: one source operation per key, in `eventOrder` order. */
  function Sources(order: seq<int>, events: map<int, seq<DebugEvent>>): (srcs: seq<Operation>)
    requires WellFormed(order, events)
    ensures |srcs| == |order|
    ensures forall i :: 0 <= i < |order| ==> srcs[i] == SourceOf(events[order[i]])
  {
    seq(|order|, i requires 0 <= i < |order| && WellFormed(order, events) => SourceOf(events[order[i]]))
  }

  /** `[...group].reverse().find((e) => e.type === "execution")`: the last execution event. */
  function LatestExecution(group: seq<DebugEvent>): (r: Option<DebugEvent>)
    ensures r.Some? ==> r.value in group && r.value.eventType == "execution"
    ensures r.None? <==> forall i :: 0 <= i < |group| ==> group[i].eventType != "execution"
  {
    if |group| == 0 then None
    else if group[|group| - 1].eventType == "execution" then Some(group[|group| - 1])
    else LatestExecution(group[..|group| - 1])
  }

  /** The found event is the one at the highest index among the executions. */
  lemma {:induction false} LatestExecutionIsLast(group: seq<DebugEvent>, i: nat)
    requires i < |group| && group[i].eventType == "execution"
    requires forall j :: i < j < |group| ==> group[j].eventType != "execution"
    ensures LatestExecution(group) == Some(group[i])
  {
    if i < |group| - 1 {
      var init := group[..|group| - 1];
      assert init[i] == group[i];
      LatestExecutionIsLast(init, i);
    }
  }

  /** `[...group].reverse().find(...)`: copy the group backwards into a fresh array, then take the first execution in it. */
  method FindLatestExecution(group: seq<DebugEvent>) returns (r: Option<DebugEvent>)
    ensures r == LatestExecution(group)
  {
    var n := |group|;
    var reversed := new DebugEvent[n];
    var k := 0;
    while k < n
      invariant 0 <= k <= n
      invariant forall m :: 0 <= m < k ==> reversed[m] == group[n - 1 - m]
    {
      reversed[k] := group[n - 1 - k];
      k := k + 1;
    }
    k := 0;
    while k < n && reversed[k].eventType != "execution"
      invariant 0 <= k <= n
      invariant forall m :: n - k <= m < n ==> group[m].eventType != "execution"
    {
      k := k + 1;
    }
    if k < n {
      r := Some(reversed[k]);
      LatestExecutionIsLast(group, n - 1 - k);
    } else {
      r := None;
    }
  }

  /** Kinds that are filtered out hide both the row and the icon of their operations. */
  predicate Shown(f: Filter, o: Operation) {
    o.kind in f.graphqlType
  }

  /** The icon of a source: teardowns are drawn as queries. */
  function IconKind(o: Operation): (k: string)
    ensures k != "teardown"
    ensures o.kind == "teardown" ==> k == "query"
    ensures o.kind != "teardown" ==> k == o.kind
  {
    if o.kind == "teardown" then "query" else o.kind
  }

  datatype Row = Row(key: int, events: seq<DebugEvent>, visible: bool)
  datatype Icon = Icon(source: Operation, kind: string, visible: bool)

  /** The rows of the timeline: none until the container exists, then one per key. */
  function Rows(hasContainer: bool, order: seq<int>, events: map<int, seq<DebugEvent>>, f: Filter): (rows: Option<seq<Row>>)
    requires WellFormed(order, events)
    ensures !hasContainer <==> rows.None?
    ensures rows.Some? ==> |rows.value| == |order|
    ensures rows.Some? ==> forall i :: 0 <= i < |order| ==>
      rows.value[i].key == order[i] && rows.value[i].events == events[order[i]]
      && (rows.value[i].visible <==> SourceOf(events[order[i]]).kind in f.graphqlType)
  {
    if !hasContainer then None
    else
      var srcs := Sources(order, events);
      Some(seq(|order|, i requires 0 <= i < |order| && |srcs| == |order| && WellFormed(order, events) =>
        Row(order[i], events[order[i]], Shown(f, srcs[i]))))
  }

  /** The source icons, one per key. */
  function Icons(order: seq<int>, events: map<int, seq<DebugEvent>>, f: Filter): (icons: seq<Icon>)
    requires WellFormed(order, events)
    ensures |icons| == |order|
    ensures forall i :: 0 <= i < |order| ==>
      icons[i].source == SourceOf(events[order[i]]) && icons[i].kind == IconKind(icons[i].source)
      && (icons[i].visible <==> icons[i].source.kind in f.graphqlType)
  {
    var srcs := Sources(order, events);
    seq(|order|, i requires 0 <= i < |order| && |srcs| == |order| => Icon(srcs[i], IconKind(srcs[i]), Shown(f, srcs[i])))
  }

  /** A row is shown exactly when the icon beside it is, and a kind outside the filter hides every row of it. */
  lemma RowAndIconAgree(order: seq<int>, events: map<int, seq<DebugEvent>>, f: Filter, i: nat)
    requires WellFormed(order, events) && i < |order|
    ensures Rows(true, order, events, f).value[i].visible == Icons(order, events, f)[i].visible
    ensures SourceOf(events[order[i]]).kind !in f.graphqlType ==> !Icons(order, events, f)[i].visible
  {
  }

  /** What the side pane shows: a source, an event, or nothing. */
  datatype Pane = SourcePane(source: Operation) | EventPane(event: DebugEvent) | EmptyPane

  /** The timeline page, with its own `selectedSource` over the shared context. */
  class Page {
    var selectedSource: Option<Operation>
    const ctx: Context

    /** At most one of the source and the event is selected, so the pane never has to choose. */
    predicate Valid()
      reads this, ctx
    {
      !(selectedSource.Some? && ctx.selectedEvent.Some?)
    }

    /** Mounting selects no source; the mount effect on `selectedEvent` clears nothing else. */
    constructor (ctx: Context)
      ensures this.ctx == ctx && selectedSource == None && Valid()
      ensures PaneOf() == if ctx.selectedEvent.Some? then EventPane(ctx.selectedEvent.value) else EmptyPane
    {
      this.ctx := ctx;
      this.selectedSource := None;
    }

    /** `paneProps`: the selected source wins over the selected event. */
    function PaneOf(): (p: Pane)
      reads this, ctx
      ensures p.SourcePane? <==> selectedSource.Some?
      ensures p.EventPane? <==> selectedSource.None? && ctx.selectedEvent.Some?
      ensures p.SourcePane? ==> p.source == selectedSource.value
      ensures p.EventPane? ==> p.event == ctx.selectedEvent.value
    {
      match selectedSource
      case Some(s) => SourcePane(s)
      case None =>
        match ctx.selectedEvent
        case Some(e) => EventPane(e)
        case None => EmptyPane
    }

    /**
     * `handleSourceClick(o)`, then the effect on `selectedSource`: the icon
     * of the selected source deselects it, any other icon selects its
     * source and clears the selected event; the playhead jumps to the
     * key's latest execution, less the padding, when there is one.
     */
    method SourceClick(o: Operation, events: map<int, seq<DebugEvent>>)
      requires o.key in events
      requires Valid()
      modifies this, ctx
      ensures Valid()
      ensures old(selectedSource).Some? && old(selectedSource).value.key == o.key ==> selectedSource == None
      ensures !(old(selectedSource).Some? && old(selectedSource).value.key == o.key) ==>
        selectedSource == Some(o) && ctx.selectedEvent == None
      ensures selectedSource == None ==> ctx.selectedEvent == old(ctx.selectedEvent)
      ensures match LatestExecution(events[o.key])
              case Some(e) => ctx.position == e.timestamp - ctx.startPadding
              case None => ctx.position == old(ctx.position)
      ensures ctx.startTime == old(ctx.startTime) && ctx.filter == old(ctx.filter)
    {
      if selectedSource.Some? && selectedSource.value.key == o.key {
        selectedSource := None;
      } else {
        selectedSource := Some(o);
        ctx.selectedEvent := None;
      }
      var latest := FindLatestExecution(events[o.key]);
      if latest.Some? {
        ctx.position := latest.value.timestamp - ctx.startPadding;
      }
    }

    /** An event is selected elsewhere; the effect on `selectedEvent` then clears the selected source. */
    method SelectEvent(e: DebugEvent)
      modifies this, ctx
      ensures Valid() && ctx.selectedEvent == Some(e) && selectedSource == None
      ensures PaneOf() == EventPane(e)
      ensures ctx.position == old(ctx.position) && ctx.startTime == old(ctx.startTime) && ctx.filter == old(ctx.filter)
    {
      ctx.selectedEvent := Some(e);
      selectedSource := None;
    }

    /** The keydown handler: Home goes back to the start, End to `now` (Date.now()), other keys do nothing. */
    method KeyDown(key: string, now: int)
      modifies ctx
      ensures key == "Home" ==> ctx.position == ctx.StartPosition()
      ensures key == "End" ==> ctx.position == now
      ensures key != "Home" && key != "End" ==> ctx.position == old(ctx.position)
      ensures ctx.startTime == old(ctx.startTime) && ctx.filter == old(ctx.filter)
      ensures ctx.selectedEvent == old(ctx.selectedEvent)
    {
      if key == "Home" {
        ctx.position := ctx.startTime - ctx.startPadding;
      }
      if key == "End" {
        ctx.position := now;
      }
    }
  }

  /**
   * Two clicks on the same source icon: they leave nothing selected, unless
   * a source with that key was selected to begin with, in which case the
   * first click clears it and the second selects the clicked operation.
   */
  method SourceClickTwice(page: Page, o: Operation, events: map<int, seq<DebugEvent>>)
    requires o.key in events && page.Valid()
    modifies page, page.ctx
    ensures old(page.selectedSource).Some? && old(page.selectedSource).value.key == o.key ==>
      page.PaneOf() == SourcePane(o)
    ensures !(old(page.selectedSource).Some? && old(page.selectedSource).value.key == o.key) ==>
      page.PaneOf() == EmptyPane
  {
    page.SourceClick(o, events);
    page.SourceClick(o, events);
  }
}
