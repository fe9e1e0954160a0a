/** The Todo domain events: a common header shared by six event kinds. */
module TodoEvents {

  import opened Wrappers

  /** The fields every Todo event carries. `timestamp` is the injected clock reading. */
  datatype Header = Header(
    id: string,
    timestamp: int,
    originalVersion: int,
    teamId: string,
    userId: string,
    slackConversationId: string,
    shortCode: string)

  /** The closed set of Todo events. Only `TodoAdded` carries a payload beyond the header. */
  datatype TodoEvent =
    | TodoAdded(header: Header, text: string)
    | TodoRemoved(header: Header)
    | TodoTicked(header: Header)
    | TodoUnticked(header: Header)
    | TodoClaimed(header: Header)
    | TodoFreed(header: Header)
  {
    /** The aggregate version before this event was applied. */
    function OriginalVersion(): int { header.originalVersion }

    /** The aggregate the event belongs to. */
    function Id(): string { header.id }
  }

  /** The six kind discriminators, one per concrete event class. */
  datatype Kind = Added | Removed | Ticked | Unticked | Claimed | Freed

  function KindOf(e: TodoEvent): Kind
  {
    match e
    case TodoAdded(_, _) => Added
    case TodoRemoved(_) => Removed
    case TodoTicked(_) => Ticked
    case TodoUnticked(_) => Unticked
    case TodoClaimed(_) => Claimed
    case TodoFreed(_) => Freed
  }

  /** The payload beyond the header: the text of a `TodoAdded`, nothing for the others. */
  function Payload(e: TodoEvent): Option<string>
  {
    if e.TodoAdded? then Some(e.text) else None
  }

  /** Builds an event from its kind, its header and its payload. The set of
      kinds is closed, and exactly the added kind takes a text payload. */
  function Make(k: Kind, h: Header, payload: Option<string>): (r: Option<TodoEvent>)
    ensures r.Some? ==> KindOf(r.value) == k && r.value.header == h
    ensures r.Some? <==> (k == Added <==> payload.Some?)
  {
    match k
    case Added => if payload.Some? then Some(TodoAdded(h, payload.value)) else None
    case Removed => if payload.None? then Some(TodoRemoved(h)) else None
    case Ticked => if payload.None? then Some(TodoTicked(h)) else None
    case Unticked => if payload.None? then Some(TodoUnticked(h)) else None
    case Claimed => if payload.None? then Some(TodoClaimed(h)) else None
    case Freed => if payload.None? then Some(TodoFreed(h)) else None
  }

  /** Every event is determined by its kind, header and payload, and only an
      added event has a payload. */
  lemma MakeRoundTrip(e: TodoEvent)
    ensures Make(KindOf(e), e.header, Payload(e)) == Some(e)
    ensures Payload(e).Some? <==> KindOf(e) == Added
  {
  }
}
