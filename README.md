# urql-devtools panel: decision rules of the events, explorer and request pages

This project is a Dafny model of the logic in eight React components of the urql
devtools panel, with proofs about it:

- **Timeline** (`timeline.dfy`) is the events timeline page. It covers:
  - how many ticks a container width gets, and how each tick is labelled and placed;
  - the "source operation" chosen for each operation key;
  - which rows and source icons the kind filter hides;
  - what a click on a source icon selects, and where it moves the playhead;
  - the Home and End shortcuts, and which selection the side pane shows.

  The page's `selectedSource` is a class field. The timeline context fields it shares with the toolbar (position, start time, filter, selected event) live in a `Context` object (`timeline_context.dfy`).
- **Settings** (`settings.dfy`) is the timeline toolbar. It covers:
  - the collapsible filter panel and its cog;
  - the back-to-start and forward-to-now buttons;
  - the checkbox toggles that flip one string in a list-valued filter and leave the other list alone;
  - stripping the `Exchange` suffix from source captions.
- **Tree** (`tree.dfy`) is the explorer tree of one node map. It covers:
  - nothing for an absent map or an empty list;
  - one subtree per non-null map of a list;
  - for a map: the `__typename` badge, then the scalar fields, then the fields with children.

  `sortFields` is an in-place insertion sort on an `array`. It is proved equal to the insertion sort `SortBy` under the "`id` first, then by name" order. Also proved: the result is in that order, it is a permutation, and several `id` fields keep their input order.
- **Highlight** (`highlight.dfy`) is `useHighlight`: the NOT_READY / READY / RUNNING machine, a class whose layout effect steps it and whose `onAnimationEnd` resets it. Traces of signals are proved to animate exactly when the last signal was a change.
- **ListItem** (`list_item.dfy`) is one explorer field. It covers:
  - its expand toggle, and the detail-view and focus effects that follow the toggle;
  - the active test;
  - the flash gating on top of its highlight;
  - the `#index` label of the `__typename` item.
- **DetailView** (`detail_view.dfy`) covers three parts:
  - `gatherChildValues`: a recursive method with the `reduce` loop. It is proved equal to a specification function that also models the TypeError the code throws on null entries;
  - a typed reference on node trees, showing the fold yields the tree's plain value;
  - the cache-outcome descriptions and the section-visibility rules.
- **TopBar** (`top_bar.dfy`) is the request page's Root and back buttons and its breadcrumbs. Every control replaces the stack of types with a prefix of it.
- **EventCard** (`event_card.dfy`) is one card of the events list. It covers name, source and key selection by event type, `padded` and `formatDate`, `capitalize`, and the select/deselect click.

Shared modules:

- `wrappers.dfy`: `Option`.
- `text.dfy`: `String(n)` for integers with a parser that inverts it, `padStart`, a suffix test, and ASCII upper-casing.
- `js.dfy`: untyped JavaScript values, truthiness, member access that may throw, and `String(v)`.
- `explorer_ast.dfy`: the parsed field nodes the explorer components receive, and their JavaScript encoding.

## Model

| member | source | states |
|---|---|---|
| Timeline.TickCount | src/panel/pages/events/Timeline.tsx:252-262 | The count is 2, 5 or 10. It is 2 exactly when the width is below 600 and 10 exactly from 1300 on, so it is 5 in between. |
| Timeline.TickCountMonotone | src/panel/pages/events/Timeline.tsx:252-262 | A wider container never gets fewer ticks. |
| Timeline.RoundToSecond | src/panel/pages/events/Timeline.tsx:73-76 | The rounded time is a whole number of seconds (a multiple of 1000 ms). The offset lies in [time - 500, time + 500), so halves round up as with Math.round. |
| Timeline.RoundToSecondUnique | src/panel/pages/events/Timeline.tsx:76 | That multiple of 1000 is the only one in the window, so the rounding is determined. |
| Timeline.TickAt | src/panel/pages/events/Timeline.tsx:72-81 | A tick's label is the rounded offset from the start time followed by "ms". Its position is the scale applied to the rounded time plus the start time. |
| Timeline.Ticks | src/panel/pages/events/Timeline.tsx:69-85 | No ticks without a scale. Otherwise there is one tick per value of `scale.ticks(getTickCount(width))`, in order. |
| Timeline.TickLabelParses | src/panel/pages/events/Timeline.tsx:79 | Without its "ms" suffix, the label reads back as a multiple of 1000 within half a second of the tick's offset. |
| Timeline.FirstNotTeardown | src/panel/pages/events/Timeline.tsx:104 | The found event is in the group and is not a teardown. Nothing is found exactly when every event is a teardown. |
| Timeline.FirstNotTeardownIsFirst | src/panel/pages/events/Timeline.tsx:104 | The found event is the earliest event that is not a teardown. |
| Timeline.SourceOf | src/panel/pages/events/Timeline.tsx:103-113 | The source is one of the group's operations. Its kind is "teardown" exactly when every event is a teardown. In that case it is the first event's operation. |
| Timeline.SourceOfIsFirst | src/panel/pages/events/Timeline.tsx:104-113 | When some event is not a teardown, the source is the operation of the earliest such event. |
| Timeline.Sources | src/panel/pages/events/Timeline.tsx:101-116 | `sources` has one operation per key of `eventOrder`, in that order. Element i is the source of key i's events. |
| Timeline.LatestExecution | src/panel/pages/events/Timeline.tsx:93-95 | The found event is an "execution" event of the group. Nothing is found exactly when the group has no execution. |
| Timeline.LatestExecutionIsLast | src/panel/pages/events/Timeline.tsx:93-95 | The found execution is the one at the highest index. |
| Timeline.FindLatestExecution | src/panel/pages/events/Timeline.tsx:93-95 | Copying the group backwards into a fresh array and taking the first execution in it finds exactly the latest execution. |
| Timeline.IconKind | src/panel/pages/events/Timeline.tsx:168 | A teardown is drawn as a query icon. Every other kind is drawn as itself, so no icon is a teardown. |
| Timeline.Shown | src/panel/pages/events/Timeline.tsx:147-171 | A row and an icon are displayed when the source's kind is in `filter.graphqlType`: `filter.graphqlType.includes(kind)`. |
| Timeline.Rows | src/panel/pages/events/Timeline.tsx:137-152 | There are no rows before the container exists. Then there is one row per key, holding that key's events. A row is displayed exactly when its source's kind is in `filter.graphqlType`. |
| Timeline.Icons | src/panel/pages/events/Timeline.tsx:164-176 | There is one icon per source, in order. Its kind is the source's drawn kind. It is displayed exactly when the source's kind is in `filter.graphqlType`. |
| Timeline.RowAndIconAgree | src/panel/pages/events/Timeline.tsx:147-171 | On a render where the `content` memo is recomputed, a row is displayed exactly when its icon is, and a filtered-out kind hides both. |
| Timeline.Page.constructor | src/panel/pages/events/Timeline.tsx:35 | A page mounts with no source selected, so it is valid. Its pane shows the context's selected event when there is one, and is empty otherwise. |
| Timeline.Page.PaneOf | src/panel/pages/events/Timeline.tsx:118-131 | The pane shows the selected source when there is one. Otherwise it shows the selected event when there is one. Otherwise it shows nothing. A pane carries exactly the selection it shows. |
| Timeline.Page.SourceClick | src/panel/pages/events/Timeline.tsx:87-99 | Clicking the icon of the selected key clears the source selection. Any other icon selects its operation, and the effect at lines 44-49 clears the selected event. The playhead moves to the key's latest execution time minus the start padding, and stays put when there is no execution. At most one selection remains. |
| Timeline.Page.SelectEvent | src/panel/pages/events/Timeline.tsx:37-42 | Selecting an event clears the selected source, so the pane shows the event. |
| Timeline.Page.KeyDown | src/panel/pages/events/Timeline.tsx:52-63 | Home moves the playhead to the start time minus the padding, and End moves it to now. Every other key leaves it alone. |
| TimelineContext.Context.StartPosition | src/panel/pages/events/Timeline.tsx:55-56 | Where Home and "Back to start" put the playhead: `startTime - START_PADDING`. `Timeline.Page.KeyDown` and `Settings.Toolbar.BackClick` state that they set the position to it. |
| Timeline.SourceClickTwice | src/panel/pages/events/Timeline.tsx:89-91 | From any valid page, two clicks on the same source icon leave the pane empty. The exception: a source with that key was already selected, so the first click clears it and the second selects the clicked operation. |
| Settings.Without | src/panel/pages/events/components/Settings.tsx:76 | No copy of the value is left, and every other value keeps its membership and its number of copies. A list without the value is returned unchanged. |
| Settings.WithoutKeepsOrder | src/panel/pages/events/components/Settings.tsx:76 | Filtering a concatenation is filtering each part, so what remains keeps its order. |
| Settings.WithoutSingle | src/panel/pages/events/components/Settings.tsx:76 | A single entry is kept exactly when it differs from the removed value. |
| Settings.WithoutAppended | src/panel/pages/events/components/Settings.tsx:75-77 | Filtering out a value appended to a list that lacked it gives back exactly the list. |
| Settings.Toggle | src/panel/pages/events/components/Settings.tsx:75-77 | The toggled value's membership flips and every other value's is unchanged. An absent value is appended at the end. A present value has every copy filtered out. |
| Settings.ToggleTwiceAbsent | src/panel/pages/events/components/Settings.tsx:75-77 | Toggling an absent value twice returns exactly the original list. |
| Settings.ToggleTwicePresent | src/panel/pages/events/components/Settings.tsx:75-77 | Toggling a present value twice keeps the same members, with every copy of the value collapsed into one at the end. |
| Settings.ToggleSource | src/panel/pages/events/components/Settings.tsx:71-80 | A source toggle flips the value in `source` only. `graphqlType` is unchanged. |
| Settings.ToggleType | src/panel/pages/events/components/Settings.tsx:82-91 | A type toggle flips the value in `graphqlType` only. `source` is unchanged. |
| Settings.StripExchange | src/panel/pages/events/components/Settings.tsx:117 | One trailing "Exchange" is removed when present. Any other string is unchanged. |
| Settings.StripExchangeOnce | src/panel/pages/events/components/Settings.tsx:117 | Only one suffix goes: "cacheExchangeExchange" becomes "cacheExchange". "Exchanges" is kept. |
| Settings.TypeButtons | src/panel/pages/events/components/Settings.tsx:96-106 | There is one checkbox per filterable kind, captioned with it, and it is selected exactly when the kind is in the filter. |
| Settings.SourceButtons | src/panel/pages/events/components/Settings.tsx:109-119 | There is one checkbox per filterable source, captioned without its suffix, and it is selected exactly when the source is in the filter. |
| Settings.TypeClickFlipsOnlyIt | src/panel/pages/events/components/Settings.tsx:96-106 | Clicking a kind checkbox flips it. No checkbox of another kind changes, and no source checkbox changes. |
| Settings.SourceClickFlipsOnlyIt | src/panel/pages/events/components/Settings.tsx:109-119 | Clicking a source checkbox flips it. No checkbox of another source changes, and no kind checkbox changes. |
| Settings.Toolbar.constructor | src/panel/pages/events/components/Settings.tsx:14 | The filters start collapsed and the cog inactive. |
| Settings.Toolbar.CogActive | src/panel/pages/events/components/Settings.tsx:35 | The cog's `active` flag is `!collapsed`. |
| Settings.Toolbar.ExpandToggle | src/panel/pages/events/components/Settings.tsx:15-35 | The cog flips `collapsed`, and the cog is active exactly when the filters are shown. |
| Settings.Toolbar.BackClick | src/panel/pages/events/components/Settings.tsx:18-21 | The playhead goes to the start time minus the padding. Nothing else in the context changes. |
| Settings.Toolbar.ForwardClick | src/panel/pages/events/components/Settings.tsx:23-26 | The playhead goes to now. Nothing else in the context changes. |
| Settings.Toolbar.SourceToggle | src/panel/pages/events/components/Settings.tsx:71-80 | The context's filter becomes the source toggle of the old filter. Position, start time and selection are kept. |
| Settings.Toolbar.TypeToggle | src/panel/pages/events/components/Settings.tsx:82-91 | The context's filter becomes the type toggle of the old filter. Position, start time and selection are kept. |
| Tree.NameLessIrreflexive | src/panel/pages/explorer/components/Tree.tsx:60 | No name sorts before itself under the name order. |
| Tree.NameLessTransitive | src/panel/pages/explorer/components/Tree.tsx:60 | The name order is transitive. |
| Tree.NameLessTotal | src/panel/pages/explorer/components/Tree.tsx:60 | Of two different names, one sorts before the other. |
| Tree.NameLessAsymmetric | src/panel/pages/explorer/components/Tree.tsx:60 | Two names never sort before each other. |
| Tree.NameLess | src/panel/pages/explorer/components/Tree.tsx:60 | The name order standing in for `localeCompare`: code-point lexicographic. `Tree.NameLessIrreflexive`, `Tree.NameLessTransitive` and `Tree.NameLessTotal` make it a strict total order. |
| Tree.After | src/panel/pages/explorer/components/Tree.tsx:51-61 | The comparator as a "goes after" relation. An `id` field never goes after anything, a non-`id` field goes after an `id` field, and two other fields go by name. `Tree.AfterIsStrictWeakOrder` makes it a strict weak order. |
| Tree.AfterTransitive | src/panel/pages/explorer/components/Tree.tsx:51-61 | The comparator's "goes after" relation is transitive. |
| Tree.AfterAsymmetric | src/panel/pages/explorer/components/Tree.tsx:51-61 | Two fields never each go after the other. |
| Tree.NotAfterTransitive | src/panel/pages/explorer/components/Tree.tsx:51-61 | "Does not go after" is transitive. |
| Tree.AfterIsStrictWeakOrder | src/panel/pages/explorer/components/Tree.tsx:51-61 | The comparator is a strict weak order, so a sort by it is well defined. |
| Tree.InsertByPermutes | src/panel/pages/explorer/components/Tree.tsx:51 | Inserting a field adds exactly that field. |
| Tree.InsertBy | src/panel/pages/explorer/components/Tree.tsx:51 | One insertion step of the sort standing in for `Array.prototype.sort`: the result is one longer. `Tree.InsertByPermutes` and `Tree.InsertBySorted` state what it adds and that it keeps a sorted input sorted. |
| Tree.SortBy | src/panel/pages/explorer/components/Tree.tsx:51-61 | The insertion sort standing in for `Array.prototype.sort`: the result has the input's length. `Tree.SortByPermutes` and `Tree.SortBySorted` make it a sort. |
| Tree.SortByPermutes | src/panel/pages/explorer/components/Tree.tsx:51 | Sorting is a permutation. |
| Tree.InsertBySorted | src/panel/pages/explorer/components/Tree.tsx:51 | Inserting into a sorted sequence keeps it sorted, under any strict weak order. |
| Tree.SortBySorted | src/panel/pages/explorer/components/Tree.tsx:51 | The sort's result is sorted, under any strict weak order. |
| Tree.SortBySnoc | src/panel/pages/explorer/components/Tree.tsx:51 | Sorting one more element inserts it into the sorted prefix. |
| Tree.InsertLast | src/panel/pages/explorer/components/Tree.tsx:51 | The adjacent swaps, done in the array, insert its element i into the sorted part before it. The rest of the array is untouched. |
| Tree.SwapStep | src/panel/pages/explorer/components/Tree.tsx:51 | One swap moves the inserted field one place to the front and keeps the layout of the rest. |
| Tree.InsertAt | src/panel/pages/explorer/components/Tree.tsx:51 | Inserting behind a prefix that does not go after it, past a suffix that does, lands the field between the two. |
| Tree.SortFields | src/panel/pages/explorer/components/Tree.tsx:50-62 | `sortFields` returns a permutation of its input. |
| Tree.SortFieldsSorted | src/panel/pages/explorer/components/Tree.tsx:52-60 | In the sorted fields, every `id` field comes before every other field, and the other fields are in ascending name order. |
| Tree.InsertByKeepsIdOrder | src/panel/pages/explorer/components/Tree.tsx:51-58 | Inserting a field keeps the order of the `id` fields, with the new field placed last among them. |
| Tree.SortFieldsKeepsIdOrder | src/panel/pages/explorer/components/Tree.tsx:50-62 | The `id` fields of the sorted result are those of the input, in the input's order. |
| Tree.SortFieldsInPlace | src/panel/pages/explorer/components/Tree.tsx:50-62 | Sorting the array in place leaves it holding `sortFields` of its old contents. |
| Tree.Keep | src/panel/pages/explorer/components/Tree.tsx:33 | The filter keeps exactly the fields that pass the test. |
| Tree.KeepSplits | src/panel/pages/explorer/components/Tree.tsx:32-37 | A filter and what it drops share out the fields between them. |
| Tree.FindTypename | src/panel/pages/explorer/components/Tree.tsx:31 | The badge is the first field named `__typename`. There is none exactly when no field has that name. |
| Tree.RenderMap | src/panel/pages/explorer/components/Tree.tsx:30-47 | Role "tree" at depth 0 and "group" otherwise, with the list's index and depth. The badge is the first `__typename` field. The items are the sorted scalar fields (no children, not `__typename`) followed by the sorted fields with children. |
| ExplorerAst.Values | src/panel/pages/explorer/components/Tree.tsx:30 | `Object.values(nodeMap)`: the nodes of the map's entries, one per entry, in insertion order. |
| Tree.Render | src/panel/pages/explorer/components/Tree.tsx:12-28 | Nothing exactly for an absent map or an empty list. A list gives one part per slot: nothing for a null slot, and for a map its list with the slot's index at the same depth. A map gives its list. |
| Tree.RenderMapShowsEachField | src/panel/pages/explorer/components/Tree.tsx:30-45 | The list shows every field of the map exactly once, except the `__typename` fields without children. |
| Tree.FilterIdentities | src/panel/pages/explorer/components/Tree.tsx:32-37 | The fields without children are the complement of those with them. The scalars are those fields minus `__typename`. |
| Tree.SortFieldsKeeps | src/panel/pages/explorer/components/Tree.tsx:32-37 | Sorting a group keeps a property every field of it has. |
| Tree.RenderMapOrder | src/panel/pages/explorer/components/Tree.tsx:43 | All scalars come before all fields with children, and each group is in `sortFields` order. |
| Highlight.Highlighter.constructor | src/panel/explorer/Highlight.tsx:7 | The state starts NOT_READY, and the hook does not report animating. |
| Highlight.Animating | src/panel/explorer/Highlight.tsx:26 | The hook's first result, `state === "RUNNING"`. `Highlight.AnimatingIffLastWasChange` states when it holds over a trace. |
| Highlight.Highlighter.IsAnimating | src/panel/explorer/ListItem.tsx:26 | The `isAnimating` value that `ListItem` reads from the hook: `Animating` of the current state. The constructor and `Highlight.MountDoesNotAnimate` state it is false after mount. |
| Highlight.Step | src/panel/explorer/Highlight.tsx:10-19 | The layout effect's switch never yields NOT_READY. It yields RUNNING, the animating state, exactly from an armed state (READY or RUNNING). |
| Highlight.Highlighter.LayoutEffect | src/panel/explorer/Highlight.tsx:9-20 | The effect steps NOT_READY to READY, READY to RUNNING, and RUNNING to RUNNING. |
| Highlight.Highlighter.OnAnimationEnd | src/panel/explorer/Highlight.tsx:22-24 | `onAnimationEnd` sets READY from any state, so the animation stops. |
| Highlight.MountDoesNotAnimate | src/panel/explorer/Highlight.tsx:7-13 | The effect run on mount only arms the machine and never animates. |
| Highlight.AnimatingIffLastWasChange | src/panel/explorer/Highlight.tsx:9-26 | From READY, the hook animates exactly when the last signal was a dependency change rather than an animation end. |
| Highlight.MountedHook | src/panel/explorer/Highlight.tsx:7-26 | A mounted hook animates exactly when, after mounting, the last signal was a dependency change. |
| Highlight.NeverNotReadyAgain | src/panel/explorer/Highlight.tsx:9-24 | Once left, NOT_READY never comes back. |
| Highlight.ChangesKeepAnimating | src/panel/explorer/Highlight.tsx:15-18 | From READY, one or more changes always animate. |
| Highlight.ChangesKeepAnimatingFromRunning | src/panel/explorer/Highlight.tsx:16-18 | Further changes keep a running animation running. |
| ListItem.HasChildrenAsJs | src/panel/explorer/ListItem.tsx:37-39 | For array children, `hasChildren` is a non-zero length. Otherwise it is the truthiness of `node.children`. |
| ListItem.HasChildren | src/panel/explorer/ListItem.tsx:37-39 | `hasChildren`: a non-empty list of node maps, or any node map. `ListItem.HasChildrenAsJs` ties it to the JavaScript test. |
| ListItem.Clickable | src/panel/explorer/ListItem.tsx:70-92 | The item has a click handler exactly when it has children or truthy arguments. |
| ListItem.IsActive | src/panel/explorer/ListItem.tsx:51 | An item is active exactly when its id is the active id and it is expanded. |
| ListItem.Flashing | src/panel/explorer/ListItem.tsx:70-73 | The flash is drawn only around an item with children, while the highlight runs and the item is collapsed. |
| ListItem.SystemLabel | src/panel/explorer/ListItem.tsx:107-109 | The label is the value as a string, followed by " #index" only when an index is given. |
| ListItem.SystemLabelIndex | src/panel/explorer/ListItem.tsx:109 | A label with an index ends in digits that read back as that index. |
| ListItem.Item.constructor | src/panel/explorer/ListItem.tsx:25-35 | An item mounts collapsed, with the detail view cleared. Its highlight is armed (READY), so it does not flash. |
| ListItem.Item.Click | src/panel/explorer/ListItem.tsx:28-55 | On an item with children or arguments, a click flips `isExpanded`. Expanding sets the detail view and the focused node to the node; collapsing clears the detail view. An item with neither has no handler, so nothing changes. |
| ListItem.Item.Rerender | src/panel/explorer/ListItem.tsx:26 | Only a re-render that replaces `node.children` steps the highlight. The expanded, detail and focus states are kept. |
| ListItem.Item.AnimationEnd | src/panel/explorer/ListItem.tsx:72-74 | The end of the flash animation resets the highlight, so the item stops flashing. |
| ListItem.MountThenReplaceChildren | src/panel/explorer/ListItem.tsx:26-73 | A mounted, collapsed item with children flashes after its children are replaced. |
| ListItem.ExpandedNeverFlashes | src/panel/explorer/ListItem.tsx:51-73 | An expanded item never flashes, and a collapsed item is never active. |
| DetailView.Collect | src/panel/explorer/DetailView.tsx:22-34 | The reduce throws exactly when some entry throws. Otherwise it yields an object with exactly the entries' keys, in order, each holding its entry's value. |
| DetailView.CollectArray | src/panel/explorer/DetailView.tsx:27 | `map(gatherChildValues)` throws exactly when some element throws. Otherwise it keeps the length and order. |
| DetailView.ChildValue | src/panel/explorer/DetailView.tsx:23-24 | Reading `value.value` or `value.children` throws exactly on a null or undefined entry. |
| DetailView.ChildIndexIsChildValue | src/panel/explorer/DetailView.tsx:23-24 | The child value is `value` when that is defined, and `children` otherwise. |
| DetailView.Gather | src/panel/explorer/DetailView.tsx:12-36 | The specification of `gatherChildValues`: null for a falsy input, a truthy non-object as it is, and otherwise the reduce over `Object.entries`. A TypeError is modelled as a result. Its rules are stated by `DetailView.GatherScalars` and `DetailView.GatherKeepsKeys`. `DetailView.GatherEncodedChildren` ties it to the plain values of a typed tree. |
| DetailView.GatherEntry | src/panel/explorer/DetailView.tsx:22-33 | The specification of the reduce callback for one entry. A null or undefined entry throws. Otherwise the child value is mapped, gathered again, or copied (`DetailView.GatherEntryRule`). |
| DetailView.GatherScalars | src/panel/explorer/DetailView.tsx:15-20 | A falsy input gives null. A truthy input that is neither an array nor an object is returned unchanged. |
| DetailView.GatherKeepsKeys | src/panel/explorer/DetailView.tsx:22-34 | An array or object gathers to an object with exactly its keys, in order (an array's keys are "0", "1", ...). |
| DetailView.GatherEntryRule | src/panel/explorer/DetailView.tsx:23-31 | A null or undefined entry throws. An array child value is mapped element by element, an object child value is gathered again, and anything else is copied. |
| DetailView.GatherArrayChild | src/panel/explorer/DetailView.tsx:26-27 | A mapped array child keeps its length, and element j is the gathered element j. |
| DetailView.GatherObjectThrows | src/panel/explorer/DetailView.tsx:22-34 | An object fails to gather exactly when one of its entries does. |
| DetailView.GatherChildValues | src/panel/explorer/DetailView.tsx:12-36 | The recursive method computes exactly the gather function. |
| DetailView.ReduceEntries | src/panel/explorer/DetailView.tsx:22-34 | The reduce loop, filling the accumulator key by key, computes the collected entries. It stops with the TypeError at the first entry that throws. |
| DetailView.GatherEntryValue | src/panel/explorer/DetailView.tsx:23-31 | The reduce callback for one entry computes that entry's gathered value. |
| DetailView.GatherEncodedNode | src/panel/explorer/DetailView.tsx:23-31 | An encoded field node whose tree has primitive leaves gathers to the node's plain value. |
| DetailView.GatherEncodedChildren | src/panel/explorer/DetailView.tsx:26-31 | Encoded children gather to their plain value: a node map as an object, a node list element by element. |
| DetailView.GatherEncodedMap | src/panel/explorer/DetailView.tsx:22-34 | An encoded node map gathers to the object mapping each key to its node's plain value. |
| DetailView.Description | src/panel/explorer/DetailView.tsx:38-59 | There is a description exactly for "hit", "partial" and "miss". |
| DetailView.RenderChildren | src/panel/explorer/DetailView.tsx:61-71 | An array of children is shown as it is. Anything else is shown gathered. |
| DetailView.DescriptionsDistinct | src/panel/explorer/DetailView.tsx:38-59 | The three outcomes get three different descriptions. |
| DetailView.View | src/panel/explorer/DetailView.tsx:73-121 | No node shows only the placeholder. Otherwise the view shows the name. The cache section appears exactly when `cacheOutcome` is truthy, the arguments exactly when `args` is truthy, and the value section exactly when the value is truthy or there are children. |
| DetailView.OptionTruthy | src/panel/explorer/DetailView.tsx:88 | The `node.cacheOutcome ?` test: a present, non-empty string. `DetailView.View` states that the cache section appears exactly when it holds. |
| DetailView.ViewValueChoice | src/panel/explorer/DetailView.tsx:106-116 | With a defined value, the children are shown in preference to it when there are any. Without one, a node map is shown gathered. |
| DetailView.ViewShowsPlainValue | src/panel/explorer/DetailView.tsx:61-71 | A node without a value, whose node map has primitive leaves, shows that map's plain value. |
| TopBar.RootButton | src/panel/pages/request/components/TopBar.tsx:20-23 | Root is disabled exactly below two entries, and it empties the stack. |
| TopBar.DropLast | src/panel/pages/request/components/TopBar.tsx:29 | The copy-then-slice drops the last entry: a prefix that is one shorter, or empty for an empty stack. |
| TopBar.BackTitle | src/panel/pages/request/components/TopBar.tsx:13-26 | The back title is the second-to-last entry's name when that exists and is non-empty. Otherwise it is "Root". |
| TopBar.BackButton | src/panel/pages/request/components/TopBar.tsx:25-30 | Back is disabled exactly for an empty stack, and it drops the last entry. |
| TopBar.RootCrumb | src/panel/pages/request/components/TopBar.tsx:37-42 | The Root breadcrumb is disabled exactly for an empty stack, and it empties the stack. |
| TopBar.Crumb | src/panel/pages/request/components/TopBar.tsx:45-51 | Breadcrumb i is captioned with entry i's name and cuts the stack to its prefix of length i+1. It is disabled exactly when it is the last one. |
| TopBar.Crumbs | src/panel/pages/request/components/TopBar.tsx:43-53 | There is one breadcrumb per entry, in order, and none for an empty stack. |
| TopBar.LastCrumbIsCurrent | src/panel/pages/request/components/TopBar.tsx:46-47 | A breadcrumb is disabled exactly when clicking it would leave the stack unchanged, which is the last one. |
| TopBar.BackIsPreviousCrumb | src/panel/pages/request/components/TopBar.tsx:29-46 | Back does what the next-to-last breadcrumb does, or Root with a single entry. |
| TopBar.BackTitleNamesNewTop | src/panel/pages/request/components/TopBar.tsx:13-29 | The back title names the type that becomes the top after going back. |
| TopBar.PushThenBack | src/panel/pages/request/components/TopBar.tsx:29 | Drilling into a type and going back restores the stack. |
| TopBar.ControlsOnlyShorten | src/panel/pages/request/components/TopBar.tsx:23-46 | Every control leads to a prefix of the stack. |
| EventCard.Name | src/panel/events/EventCard.tsx:29-32 | The name is the operation name for an "operation" event, and the event type otherwise. |
| EventCard.ShownInfo | src/panel/events/EventCard.tsx:34-48 | The shown source is the operation's devtools source, or "Unknown" when it is missing or empty. |
| EventCard.Key | src/panel/events/EventCard.tsx:38-41 | The key is the operation's own key for an "operation" event, and the payload operation's key otherwise. |
| EventCard.Capitalize | src/panel/events/EventCard.tsx:63 | Only the first character is upper-cased, the rest is unchanged, and the empty string stays empty. |
| EventCard.CapitalizeIdempotent | src/panel/events/EventCard.tsx:63 | Capitalising twice is capitalising once, and a capitalised name is unchanged. |
| EventCard.Padded | src/panel/events/EventCard.tsx:56 | `padded` gives at least two digits: exactly two below 100, with a leading zero below 10. |
| EventCard.PaddedIsPadStart | src/panel/events/EventCard.tsx:56 | `padded(n)` agrees with `String(n).padStart(2, "0")`. |
| EventCard.PaddedCases | src/panel/events/EventCard.tsx:56 | `padded(n)` is "0" followed by the digit for 0..9, and the decimal string from 10 on. |
| EventCard.PaddedParses | src/panel/events/EventCard.tsx:56 | The padded digits read back as the number. |
| EventCard.FormatDate | src/panel/events/EventCard.tsx:54-61 | The time is eight characters, HH:MM:SS, with colons at positions 2 and 5. |
| EventCard.FormatDateParses | src/panel/events/EventCard.tsx:54-61 | The three fields read back as the hours, minutes and seconds. |
| EventCard.View | src/panel/events/EventCard.tsx:43-50 | The card shows the capitalised name, the formatted time, the source or "Unknown", and the key. It is `aria-selected` when active. |
| EventCard.ClickCard | src/panel/events/EventCard.tsx:16-18 | Clicking the selected card clears the selection. Clicking any other card selects it. |
| EventCard.ClickTwice | src/panel/events/EventCard.tsx:16-18 | From no selection, or from this card selected, a second click undoes the first. |
| Text.NatToString | src/panel/events/EventCard.tsx:56 | `String(n)` is a non-empty string of digits with no leading zero, one digit exactly below 10. |
| Text.ParseNatToString | src/panel/events/EventCard.tsx:56 | `String(n)` reads back as n. |
| Text.IntToString | src/panel/pages/events/Timeline.tsx:79 | The string of an integer has a leading minus sign exactly for a negative number, and is all digits otherwise. |
| Text.ParseIntToString | src/panel/pages/events/Timeline.tsx:79 | The string of an integer reads back as that integer. |
| Text.PadStart | src/panel/events/EventCard.tsx:56 | `padStart` keeps a long enough string. Otherwise it fills it on the left to the width, and it always ends with the original string. |
| Js.Member | src/panel/explorer/DetailView.tsx:24 | Reading a member throws a TypeError exactly on null and undefined. On an object it reads the own property. |
| Js.Truthy | src/panel/explorer/DetailView.tsx:15 | JavaScript truthiness: false for undefined, null, false, 0 and the empty string. |
| Js.ToJsString | src/panel/explorer/ListItem.tsx:108 | The template literal shows a string as itself and a number as its decimal string. |

## Left out

- Rendering itself is not modelled: React elements, styled-components CSS, themes, colours, media queries and animation keyframes. Only what the components decide is modelled.
- React effects are not modelled as deferred callbacks. Each effect is folded into the method that triggers it:
  - `Page.SourceClick` includes the effect that clears the selected event;
  - `Page.SelectEvent` includes the one that clears the selected source;
  - `Item.Click` includes the detail-view and focus effect;
  - the `Item` constructor runs the mount effects.
- Timeline.Page.Valid: at most one selection holds only after the effects run. The renders in between are not modelled.
- `useMemo` staleness is not modelled. The model recomputes everything from its inputs.
  - `ticks` depends only on `[scale]`, so it ignores later width or start-time changes.
  - The `content` memo of the rows (Timeline.tsx:133-156) has no `filter` dependency, yet the row style reads `filter.graphqlType`. The icons are not memoized. So after a type-filter change that leaves `events` and `sources` the same objects, the program can hide or show an icon while its row keeps its old `display`. `Timeline.RowAndIconAgree` holds only on a render where `content` is recomputed.
- Timeline.Ticks: the scale is a floating-point library. It is a parameter, its `ticks` results are taken as integer milliseconds, and `Math.round` is modelled on integers.
- START_PADDING, the event store, the time scale, zooming and the AST builder live in `src/panel/context`, which is not part of this model:
  - START_PADDING is the `startPadding` constant of the context object;
  - the events map and `eventOrder` are inputs;
  - zoom in and zoom out only pass through to the context, so they are left out.
- Timeline.Sources requires every key of `eventOrder` to have a non-empty group of events. Timeline.Page.SourceClick requires the clicked key to be in the events map. The source would throw a TypeError otherwise, and its store never produces such input.
- Highlight.Highlighter.LayoutEffect: a change while RUNNING leaves the state RUNNING, as the code's switch does. Restarting the CSS animation is a rendering matter and is not modelled.
- `Date.now()` is the `now` parameter of the End shortcut and of the forward button.
- EventCard.View: `new Date(...)` with `getHours`, `getMinutes` and `getSeconds` is time-zone dependent. The three components are the clock input; only the padding and formatting are modelled.
- EventCard.ClickCard compares the selected event by value, where the source compares it by reference.
- EventCard.ShownInfo: the model assumes `context.devtools` is present, and only `source` may be missing. EventCard.tsx:36-37 reads `devtools.source`, which throws a TypeError when `devtools` itself is absent. The event model has no way to express that case.
- ListItem.Item.Rerender: React compares `node.children` by reference, which a value model cannot see. The caller states whether the children object was replaced.
- Tree.After: `localeCompare` is locale dependent, so names are compared by code point.
- Tree.SortFields: for two `id` fields, the comparator says "before" in either order, which is inconsistent, so the JavaScript engine's order for them is unspecified. The model takes the insertion sort. `Tree.SortFieldsKeepsIdOrder` proves that it keeps the `id` fields in their input order. Stability among non-`id` fields with equal names is not stated.
- EventCard.Capitalize: `toUpperCase` is Unicode aware; only a-z are upper-cased here.
- JavaScript numbers are integers in this model.
- Object keys are kept in insertion order. JavaScript lists integer-like keys first in ascending order; node maps keyed by field keys are not affected.
- DetailView.View: the `Value` component that displays a section is not part of this model. The view records what it is given.
- The keydown listener's registration and removal are left out; only the handler is modelled.
- TopBar: "navigation never mutates the input stack" holds because `Stack` is an immutable sequence value. It is not a separate lemma.
