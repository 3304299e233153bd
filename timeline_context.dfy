/**
 * The state the timeline page shares with its toolbar through the timeline
 * context: the debug events grouped by operation key, the playhead
 * position, the start time, the filter, and the selected event. The page
 * and the toolbar read and replace these fields; nothing else is modelled
 * of the context itself.
 */
module TimelineContext {
  import opened Wrappers

  /** The fields of an urql operation the page reads: its key and its kind. */
  datatype Operation = Operation(key: int, kind: string)

  /** A debug event: its type (`execution`, `update`, ...), when it happened, and its operation. */
  datatype DebugEvent = DebugEvent(eventType: string, timestamp: int, operation: Operation)

  /** Which sources and which GraphQL operation kinds are shown. */
  datatype Filter = Filter(source: seq<string>, graphqlType: seq<string>)

  class Context {
    var position: int
    var startTime: int
    var filter: Filter
    var selectedEvent: Option<DebugEvent>
    /** START_PADDING: how far before the first event "back to start" goes. */
    const startPadding: int

    constructor (position: int, startTime: int, filter: Filter, startPadding: int)
      ensures this.position == position && this.startTime == startTime
      ensures this.filter == filter && this.startPadding == startPadding
      ensures selectedEvent == None
    {
      this.position := position;
      this.startTime := startTime;
      this.filter := filter;
      this.startPadding := startPadding;
      this.selectedEvent := None;
    }

    /** Where "back to start" puts the playhead. */
    function StartPosition(): int
      reads this
    {
      startTime - startPadding
    }
  }
}
