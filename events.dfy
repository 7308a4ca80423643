/** The decoded shape of one Codex CLI JSONL run: lines, events and the
    sub-records the normaliser reads. JSON decoding itself is abstract: a
    line is already classified as blank, undecodable or a decoded object. */
module CodexEvents {

  datatype Option<+T> = None | Some(value: T)

  /** `d.get(key, 0)` on an integer counter. */
  function OrZero(o: Option<int>): int
  {
    match o
    case Some(v) => v
    case None => 0
  }

  /** A Python string value is truthy exactly when it is present and non-empty. */
  predicate Truthy(o: Option<string>)
  {
    o.Some? && o.value != ""
  }

  /** One element of `item.content`: its `type` tag and its `text`. */
  datatype Block = Block(kind: Option<string>, text: Option<string>)

  /** The `item` payload of an `item.completed` event. */
  datatype Item = Item(text: Option<string>, content: Option<seq<Block>>)

  /** The `usage` payload of a `turn.completed` event. */
  datatype Usage = Usage(
    inputTokens: Option<int>,
    outputTokens: Option<int>,
    cachedInputTokens: Option<int>)

  /** A decoded JSON object: the `type` tag and the fields the normaliser reads. */
  datatype Event = Event(
    kind: Option<string>,
    threadId: Option<string>,
    item: Option<Item>,
    usage: Option<Usage>)

  /** One input line after trimming: empty, not valid JSON, or a decoded object. */
  datatype Line = Blank | Garbage | Obj(event: Event)

  const ItemCompleted: string := "item.completed"
  const TurnCompleted: string := "turn.completed"
  const ThreadStarted: string := "thread.started"
  const OutputText: string := "output_text"

  predicate IsItemCompleted(e: Event) { e.kind == Some(ItemCompleted) }
  predicate IsTurnCompleted(e: Event) { e.kind == Some(TurnCompleted) }
  predicate IsThreadStarted(e: Event) { e.kind == Some(ThreadStarted) }

  /** `e.get("item", {})`: a missing item reads as one with no fields. */
  function ItemOf(e: Event): Item
  {
    match e.item
    case Some(it) => it
    case None => Item(None, None)
  }

  /** `item.get("content", [])`. */
  function ContentOf(it: Item): seq<Block>
  {
    match it.content
    case Some(cs) => cs
    case None => []
  }

  /** `e.get("usage", {})`: a missing usage reads as one with no counters. */
  function UsageOf(e: Event): Usage
  {
    match e.usage
    case Some(u) => u
    case None => Usage(None, None, None)
  }
}
