/** The collector behind a bounded message browse (`messageBrowseCollector` of
    internal/mcpserver/tools_messages.go). */
module MessageBrowse {
  import opened Wrappers
  import opened JsonText

  const MAX_RESULT_BYTES: nat := 0x10_0000
  const MAX_CURSOR_BYTES: nat := 4096
  const RESULT_RESERVE: nat := MAX_CURSOR_BYTES + 128
  const MAX_ITEMS: nat := 100
  const MAX_SERDE_NAME: nat := 1024
  const MAX_HEADER_NAME: nat := 1024
  const MAX_HEADER_VALUE: nat := 0x4_0000

  datatype Header = Header(name: nat, value: nat)

  /** A decoded message: the byte lengths the collector looks at, and the JSON text of the item made of it
      (None when JSON cannot express it). */
  datatype Message = Message(key: nat, value: nat, keySerde: nat, valueSerde: nat, headers: seq<Header>,
    json: Option<string>)

  datatype Kind = Arrived(message: Option<Message>, cursor: GoString) | Done(cursor: GoString) | Progress

  /** `cancelled`: the caller's context was already done when the event came. */
  datatype Event = Event(kind: Kind, cancelled: bool)

  datatype Refusal = CollectionStop | Cancelled | OperationFailed | ResultTooLarge

  datatype BrowseResult = BrowseResult(items: seq<string>, truncated: bool, cursor: string)

  // ---------- Cursors ----------

  /** The size of the JSON literal of a cursor that survives being written and read back. */
  function CursorSize(cursor: GoString): Option<nat> {
    match cursor
    case Invalid => None
    case Valid(text) =>
      match ReadBody(Escape(text) + ['\"'])
      case None => None
      case Some((back, _)) => if back == text then Some(QuotedSize(text)) else None
  }

  /** Only text that is not UTF-8 fails the round trip. */
  lemma CursorsSurvive(cursor: GoString)
    ensures CursorSize(cursor) == match cursor { case Invalid => None case Valid(text) => Some(QuotedSize(text)) }
  {
    if cursor.Valid? {
      ReadQuoted(cursor.text, "");
      assert Escape(cursor.text) + ['\"'] + "" == Escape(cursor.text) + ['\"'];
    }
  }

  function ValidateOutputCursor(cursor: GoString): Option<Refusal> {
    match CursorSize(cursor)
    case None => Some(OperationFailed)
    case Some(size) => if size > MAX_CURSOR_BYTES then Some(ResultTooLarge) else None
  }

  predicate ShortCursor(cursor: string) {
    QuotedSize(cursor) <= MAX_CURSOR_BYTES
  }

  // ---------- The JSON text of a result ----------

  const OPENING := "{\"items\":["
  const TRUNCATED := "],\"truncated\":"
  const CURSOR := ",\"cursor\":"

  function Render(r: BrowseResult): string {
    OPENING + Joined(r.items) + TRUNCATED + (if r.truncated then "true" else "false") + CURSOR + Quote(r.cursor) + "}"
  }

  /** The envelope needs 40 bytes, well within the reserve. */
  lemma RenderedSize(r: BrowseResult)
    ensures ByteSize(Render(r)) <= ByteSize(Joined(r.items)) + QuotedSize(r.cursor) + 40
  {
    var flag := if r.truncated then "true" else "false";
    RenderedPieces(OPENING, Joined(r.items), TRUNCATED, flag, CURSOR, Quote(r.cursor), "}");
  }

  lemma RenderedPieces(a: string, b: string, c: string, d: string, e: string, f: string, g: string)
    requires Ascii(a) && Ascii(c) && Ascii(d) && Ascii(e) && Ascii(g)
    ensures ByteSize(a + b + c + d + e + f + g) == |a| + ByteSize(b) + |c| + |d| + |e| + ByteSize(f) + |g|
  {
    Utf8Ascii(a);
    Utf8Ascii(c);
    Utf8Ascii(d);
    Utf8Ascii(e);
    Utf8Ascii(g);
    ByteSizeJoin(a, b);
    ByteSizeJoin(a + b, c);
    ByteSizeJoin(a + b + c, d);
    ByteSizeJoin(a + b + c + d, e);
    ByteSizeJoin(a + b + c + d + e, f);
    ByteSizeJoin(a + b + c + d + e + f, g);
  }

  /** The limit `marshalBoundedResult` applies (internal/mcpserver/sanitize.go); no message tool is a CSV tool. */
  function ResultLimit(maxBytes: int): int {
    if maxBytes <= 0 then MAX_RESULT_BYTES else maxBytes
  }

  // ---------- What the events of a browse mean ----------

  predicate Bounded(m: Message) {
    && m.key <= MAX_RESULT_BYTES && m.value <= MAX_RESULT_BYTES
    && m.keySerde <= MAX_SERDE_NAME && m.valueSerde <= MAX_SERDE_NAME && |m.headers| <= MAX_ITEMS
    && forall i :: 0 <= i < |m.headers| ==>
      m.headers[i].name <= MAX_HEADER_NAME && m.headers[i].value <= MAX_HEADER_VALUE
  }

  /** Every length is within its bound. */
  method BoundedTopicMessage(m: Message) returns (ok: bool)
    ensures ok <==> Bounded(m)
  {
    if m.key > MAX_RESULT_BYTES || m.value > MAX_RESULT_BYTES || m.keySerde > MAX_SERDE_NAME ||
      m.valueSerde > MAX_SERDE_NAME || |m.headers| > MAX_ITEMS
    {
      return false;
    }
    for i := 0 to |m.headers|
      invariant forall k :: 0 <= k < i ==>
        m.headers[k].name <= MAX_HEADER_NAME && m.headers[k].value <= MAX_HEADER_VALUE
    {
      if m.headers[i].name > MAX_HEADER_NAME || m.headers[i].value > MAX_HEADER_VALUE {
        return false;
      }
    }
    return true;
  }

  /** The items of the messages among the events, in order. */
  function Items(events: seq<Event>): seq<string> {
    if events == [] then []
    else
      var last := events[|events| - 1].kind;
      Items(events[..|events| - 1]) +
      if last.Arrived? && last.message.Some? &&
        last.message.value.json.Some? then [last.message.value.json.value] else []
  }

  /** The cursor of the last message or end of browse among the events, or the one the browse began with. */
  function LastCursor(cursor: string, events: seq<Event>): string {
    if events == [] then cursor
    else
      var last := events[|events| - 1].kind;
      if last.Progress? || (last.Arrived? && last.message.None?) || last.cursor.Invalid?
      then LastCursor(cursor, events[..|events| - 1])
      else last.cursor.text
  }

  lemma OneMore(cursor: string, events: seq<Event>, event: Event)
    ensures Items(events + [event]) == Items(events) +
              if event.kind.Arrived? && event.kind.message.Some? && event.kind.message.value.json.Some?
              then [event.kind.message.value.json.value] else []
    ensures LastCursor(cursor, events + [event]) ==
              if event.kind.Progress? || (event.kind.Arrived? && event.kind.message.None?) || event.kind.cursor.Invalid?
              then LastCursor(cursor, events) else event.kind.cursor.text
  {
    assert (events + [event])[..|events|] == events;
  }

  /** A message that would not fit: it stops the browse. */
  predicate Overflows(items: seq<string>, maxItems: nat, m: Message) {
    || |items| >= maxItems || !Bounded(m)
    || (m.json.Some? &&
        ByteSize(Joined(items)) + (if items == [] then 0 else 1) +
          ByteSize(m.json.value) > MAX_RESULT_BYTES - RESULT_RESERVE)
  }

  function CursorRefusal(cursor: GoString): Option<Refusal> {
    if cursor.Invalid? then Some(OperationFailed)
    else if ShortCursor(cursor.text) then None
    else Some(ResultTooLarge)
  }

  /** What is wrong with an event after the items so far. */
  function RefusalOf(items: seq<string>, maxItems: nat, event: Event): Option<Refusal> {
    if event.cancelled then Some(Cancelled)
    else match event.kind
      case Done(cursor) => CursorRefusal(cursor)
      case Progress => None
      case Arrived(None, _) => None
      case Arrived(Some(m), cursor) =>
        if Overflows(items, maxItems, m) then Some(CollectionStop)
        else if m.json.None? then Some(OperationFailed)
        else CursorRefusal(cursor)
  }

  /** Nothing is wrong with any of the events. */
  predicate AllTaken(events: seq<Event>, maxItems: nat) {
    events != [] ==>
      var front := events[..|events| - 1];
      AllTaken(front, maxItems) && RefusalOf(Items(front), maxItems, events[|events| - 1]).None?
  }

  /** An empty cursor needs no check. */
  method CheckCursor(cursor: GoString) returns (refusal: Option<Refusal>)
    ensures refusal == CursorRefusal(cursor)
  {
    CursorsSurvive(cursor);
    EmptyCursorIsShort();
    refusal := if cursor == GoString.Valid("") then None else ValidateOutputCursor(cursor);
  }

  class Collector {
    const maxItems: nat
    var result: BrowseResult
    var bytes: nat
    var accepted: nat
    var stopped: bool
    ghost const cursor0: string
    ghost var taken: seq<Event>

    constructor (cursor: string, maxItems: nat)
      requires ShortCursor(cursor)
      ensures Valid() && this.maxItems == maxItems && cursor0 == cursor && taken == [] && !stopped
    {
      this.maxItems, cursor0 := maxItems, cursor;
      result := BrowseResult([], false, cursor);
      bytes, accepted, stopped, taken := 0, 0, false, [];
    }

    ghost predicate Valid()
      reads this
    {
      && result.items == Items(taken) && result.cursor == LastCursor(cursor0, taken)
      && result.truncated == stopped
      && accepted == |result.items| <= maxItems
      && bytes == ByteSize(Joined(result.items)) <= MAX_RESULT_BYTES - RESULT_RESERVE
      && ShortCursor(result.cursor)
    }

    method Stop() returns (refusal: Option<Refusal>)
      modifies this
      ensures refusal == Some(CollectionStop) && stopped && result == old(result).(truncated := true)
      ensures unchanged(`bytes) && unchanged(`accepted) && unchanged(`taken)
    {
      result := result.(truncated := true);
      stopped := true;
      refusal := Some(CollectionStop);
    }

    method CollectMessage(m: Message, cursor: GoString) returns (refusal: Option<Refusal>)
      requires Valid() && !stopped
      modifies this
      ensures refusal == RefusalOf(old(result.items), maxItems, Event(Arrived(Some(m), cursor), false))
      ensures refusal.None? ==>
        unchanged(`taken) && unchanged(`stopped) && old(result.items) + [m.json.value] == result.items
      ensures refusal.None? ==> result.cursor == cursor.text && ShortCursor(result.cursor) && !result.truncated
      ensures refusal.None? ==>
        accepted == |result.items| <= maxItems &&
          bytes == ByteSize(Joined(result.items)) <= MAX_RESULT_BYTES - RESULT_RESERVE
      ensures refusal.Some? ==> Valid() && unchanged(`taken) && result == old(result).(truncated := stopped)
      ensures refusal == Some(CollectionStop) <==> stopped
    {
      if accepted >= maxItems {
        refusal := Stop();
        return;
      }
      var bounded := BoundedTopicMessage(m);
      if !bounded {
        refusal := Stop();
        return;
      }
      if m.json.None? {
        return Some(OperationFailed);
      }
      var separator := if accepted > 0 then 1 else 0;
      if bytes + separator + ByteSize(m.json.value) > MAX_RESULT_BYTES - RESULT_RESERVE {
        refusal := Stop();
        return;
      }
      refusal := CheckCursor(cursor);
      if refusal.Some? {
        return;
      }
      Accept(m.json.value, cursor.text);
      refusal := None;
    }

    /** Appends an item that fits. */
    method Accept(item: string, cursor: string)
      requires Valid() && accepted < maxItems
      requires bytes + (if accepted > 0 then 1 else 0) + ByteSize(item) <= MAX_RESULT_BYTES - RESULT_RESERVE
      modifies this
      ensures unchanged(`taken) && unchanged(`stopped)
      ensures result == old(result).(items := old(result.items) + [item], cursor := cursor)
      ensures accepted == |result.items| <= maxItems
      ensures bytes == ByteSize(Joined(result.items)) <= MAX_RESULT_BYTES - RESULT_RESERVE
    {
      JoinedLast(result.items, item);
      bytes := bytes + (if accepted > 0 then 1 else 0) + ByteSize(item);
      result := result.(items := result.items + [item], cursor := cursor);
      accepted := accepted + 1;
    }

    /** An event is taken as a whole or leaves the result as it was, but for the mark of truncation; after a
        stop nothing changes any more. */
    method Collect(event: Event) returns (refusal: Option<Refusal>)
      requires Valid()
      modifies this
      ensures Valid()
      ensures refusal.None? ==> taken == old(taken) + [event] && !stopped && !old(stopped)
      ensures refusal.Some? ==> taken == old(taken) && result == old(result).(truncated := stopped)
      ensures old(stopped) ==> unchanged(this) && refusal == Some(CollectionStop)
      ensures !old(stopped) ==> refusal == RefusalOf(Items(old(taken)), maxItems, event)
      ensures refusal == Some(CollectionStop) <==> stopped
    {
      if stopped {
        return Some(CollectionStop);
      }
      if event.cancelled {
        return Some(Cancelled);
      }
      refusal := None;
      OneMore(cursor0, taken, event);
      match event.kind {
        case Done(cursor) =>
          refusal := CollectDone(cursor);
        case Arrived(message, cursor) =>
          if message.Some? {
            refusal := CollectMessage(message.value, cursor);
          }
        case Progress =>
      }
      if refusal.None? {
        taken := taken + [event];
      }
    }

    method CollectDone(cursor: GoString) returns (refusal: Option<Refusal>)
      requires Valid() && !stopped
      modifies this`result
      ensures refusal == CursorRefusal(cursor)
      ensures refusal.None? ==> result == old(result).(cursor := cursor.text)
      ensures refusal.Some? ==> unchanged(this)
    {
      refusal := CheckCursor(cursor);
      if refusal.None? {
        result := result.(cursor := cursor.text);
      }
    }
  }

  lemma EmptyCursorIsShort()
    ensures ShortCursor("")
  {
    QuotedSizeSplit("");
  }

  /** A whole browse: events are collected until the first with something wrong. The result holds the messages before
      that event, in order, with the cursor to go on from; it is marked truncated exactly when the collector stopped it,
      on a message that did not fit; and its JSON text always fits the limit of the tool. */
  method Browse(cursor: string, maxItems: nat, events: seq<Event>)
    returns (result: BrowseResult, refusal: Option<Refusal>, taken: nat)
    requires ShortCursor(cursor)
    ensures taken <= |events| && (refusal.None? <==> taken == |events|)
    ensures AllTaken(events[..taken], maxItems)
    ensures taken < |events| ==> refusal == RefusalOf(Items(events[..taken]), maxItems, events[taken])
    ensures result.items == Items(events[..taken]) && |result.items| <= maxItems
    ensures result.cursor == LastCursor(cursor, events[..taken])
    ensures result.truncated <==> refusal == Some(CollectionStop)
    ensures ByteSize(Render(result)) <= ResultLimit(MAX_RESULT_BYTES)
  {
    var collector := new Collector(cursor, maxItems);
    refusal, taken := None, 0;
    while taken < |events|
      invariant fresh(collector) && collector.Valid() && collector.cursor0 == cursor && collector.maxItems == maxItems
      invariant taken <= |events| && collector.taken == events[..taken] && !collector.stopped && refusal.None?
      invariant AllTaken(events[..taken], maxItems)
    {
      refusal := collector.Collect(events[taken]);
      if refusal.Some? {
        break;
      }
      assert events[..taken + 1] == events[..taken] + [events[taken]] &&
        events[..taken + 1][..taken] == events[..taken];
      taken := taken + 1;
    }
    result := collector.result;
    RenderedSize(result);
  }
}
