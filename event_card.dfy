/**
 * A card in the events list: the event's name, capitalised; its time of day
 * as HH:MM:SS; the source that issued it, or "Unknown"; and the operation's
 * key. Clicking the card selects the event, or clears the selection when it
 * is the selected one.
 */
module EventCard {
  import opened Wrappers
  import opened Text

  /** The fields of an urql operation that a card reads. */
  datatype Operation = Operation(key: int, operationName: string, source: Option<string>)

  /** The type of every event that is not an `operation` event. */
  type OtherType = t: string | t != "operation" witness ""

  /**
   * An event: an `operation` event carries the operation itself, every
   * other kind (`response`, `error`, `teardown`, ...) carries a payload
   * that holds it.
   */
  datatype DevtoolsEvent =
    | OperationEvent(timestamp: int, op: Operation)
    | OtherEvent(eventType: OtherType, timestamp: int, payloadOp: Operation)
  {
    /** The operation either field path leads to. */
    function Subject(): Operation {
      match this
      case OperationEvent(_, op) => op
      case OtherEvent(_, _, op) => op
    }
  }

  /** `name`: the operation's name for an `operation` event, otherwise the event's type. */
  function Name(e: DevtoolsEvent): (name: string)
    ensures e.OperationEvent? ==> name == e.op.operationName
    ensures e.OtherEvent? ==> name == e.eventType && name != "operation"
  {
    match e
    case OperationEvent(_, op) => op.operationName
    case OtherEvent(t, _, _) => t
  }

  /** `info || "Unknown"`: the devtools source of the operation, when it is a non-empty string. */
  function ShownInfo(e: DevtoolsEvent): (info: string)
    ensures info != ""
    ensures info == "Unknown" <==> (e.Subject().source == None || e.Subject().source == Some("") || e.Subject().source == Some("Unknown"))
    ensures info != "Unknown" ==> e.Subject().source == Some(info)
  {
    match e.Subject().source
    case None => "Unknown"
    case Some(s) => if s == "" then "Unknown" else s
  }

  /** `key`: the key of the operation either field path leads to. */
  function Key(e: DevtoolsEvent): (key: int)
    ensures key == e.Subject().key
    ensures e.OperationEvent? ==> key == e.op.key
    ensures e.OtherEvent? ==> key == e.payloadOp.key
  {
    match e
    case OperationEvent(_, op) => op.key
    case OtherEvent(_, _, op) => op.key
  }

  /**
   * `capitalize`: the first character in upper case, the rest as it is.
   * Only the ASCII letters a-z have an upper case here.
   */
  function Capitalize(s: string): (r: string)
    ensures |r| == |s|
    ensures |s| > 0 ==> r[0] == AsciiUpper(s[0]) && r[1..] == s[1..]
  {
    if |s| == 0 then "" else [AsciiUpper(s[0])] + s[1..]
  }

  /** Capitalising twice is capitalising once, and a name that starts with a capital is shown as it is. */
  lemma CapitalizeIdempotent(s: string)
    ensures Capitalize(Capitalize(s)) == Capitalize(s)
    ensures |s| > 0 && 'A' <= s[0] <= 'Z' ==> Capitalize(s) == s
  {
  }

  /** `padded`: at least two digits, with a leading zero below ten. */
  function Padded(n: nat): (s: string)
    ensures AllDigits(s) && |s| >= 2
    ensures n < 100 ==> |s| == 2
    ensures n < 10 ==> s[0] == '0'
  {
    var d := NatToString(n);
    if |d| < 2 then "0" + d else d
  }

  /** That is what `String(n).padStart(2, "0")` gives. */
  lemma PaddedIsPadStart(n: nat)
    ensures Padded(n) == PadStart(NatToString(n), 2, '0')
  {
    var d := NatToString(n);
    if |d| < 2 {
      assert Repeat('0', 2 - |d|) == "0";
    }
  }

  /** `padded` is a zero then the digit below ten, and the plain decimal string from ten on. */
  lemma PaddedCases(n: nat)
    ensures n < 10 ==> Padded(n) == "0" + NatToString(n)
    ensures n >= 10 ==> Padded(n) == NatToString(n)
  {
  }

  /** The padded digits read back as the number. */
  lemma {:induction false} PaddedParses(n: nat)
    ensures ParseNat(Padded(n)) == n
  {
    var d := NatToString(n);
    var p := Padded(n);
    var z := p[..|p| - |d|];
    assert p == z + d;
    ParseNatLeadingZeros(z, d);
    ParseNatToString(n);
  }

  /** What `getHours`, `getMinutes` and `getSeconds` return for the event's timestamp. */
  datatype Clock = Clock(hours: nat, minutes: nat, seconds: nat)

  predicate ValidClock(c: Clock) {
    c.hours < 24 && c.minutes < 60 && c.seconds < 60
  }

  /** `formatDate`: HH:MM:SS. */
  function FormatDate(c: Clock): (s: string)
    requires ValidClock(c)
    ensures |s| == 8 && s[2] == ':' && s[5] == ':'
  {
    var h, m, x := Padded(c.hours), Padded(c.minutes), Padded(c.seconds);
    assert |h| == 2 && |m| == 2 && |x| == 2;
    var r := h + [':'] + m + [':'] + x;
    assert r[2] == ':' && r[5] == ':';
    r
  }

  /** The three fields of the formatted time read back as the clock's hours, minutes and seconds. */
  lemma {:induction false} FormatDateParses(c: Clock)
    requires ValidClock(c)
    ensures var s := FormatDate(c);
            AllDigits(s[0..2]) && AllDigits(s[3..5]) && AllDigits(s[6..8])
            && ParseNat(s[0..2]) == c.hours && ParseNat(s[3..5]) == c.minutes && ParseNat(s[6..8]) == c.seconds
  {
    var s := FormatDate(c);
    var h, m, x := Padded(c.hours), Padded(c.minutes), Padded(c.seconds);
    assert s == h + [':'] + m + [':'] + x;
    assert s[0..2] == h && s[3..5] == m && s[6..8] == x;
    PaddedParses(c.hours);
    PaddedParses(c.minutes);
    PaddedParses(c.seconds);
  }

  /** What a card shows. */
  datatype Card = Card(name: string, time: string, info: string, key: int, selected: bool)

  /** `clock` is the local time of `e.timestamp`, read from the Date object. */
  function View(e: DevtoolsEvent, active: bool, clock: Clock): (c: Card)
    requires ValidClock(clock)
    ensures c.name == Capitalize(Name(e)) && c.time == FormatDate(clock)
    ensures c.info == ShownInfo(e) && c.key == Key(e) && c.selected == active
  {
    Card(Capitalize(Name(e)), FormatDate(clock), ShownInfo(e), Key(e), active)
  }

  /** `handleContainerClick`: the new selected event. */
  function ClickCard(selected: Option<DevtoolsEvent>, e: DevtoolsEvent): (next: Option<DevtoolsEvent>)
    ensures selected == Some(e) ==> next == None
    ensures selected != Some(e) ==> next == Some(e)
  {
    if selected == Some(e) then None else Some(e)
  }

  /** A second click on the same card undoes the first one. */
  lemma ClickTwice(selected: Option<DevtoolsEvent>, e: DevtoolsEvent)
    requires selected == None || selected == Some(e)
    ensures ClickCard(ClickCard(selected, e), e) == selected
  {
  }
}
