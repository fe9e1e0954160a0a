/** The Todo aggregate: a claimable, tickable, removable work item. Each
    operation either refuses because someone else holds the claim, or accepts
    and raises at most one event. */
module Todo {

  import opened Wrappers
  import opened TodoEvents
  import opened Aggregates

  /** Who is acting: the team and the user issuing the command. */
  datatype Context = Context(teamId: string, userId: string)

  datatype TodoState = TodoState(
    id: string,
    slackConversationId: string,
    shortCode: string,
    text: string,
    isRemoved: bool,
    isTicked: bool,
    claimedBy: Option<string>)

  const Blank: TodoState := TodoState("", "", "", "", false, false, None)

  /** How each event changes the state: `TodoAdded` sets the todo's identity and
      text and opens it; every other event keeps them and sets only the flag or
      the claim it is named after. */
  function ApplyTodo(s: TodoState, e: TodoEvent): (r: TodoState)
    ensures e.TodoAdded? ==>
      r == TodoState(e.header.id, e.header.slackConversationId, e.header.shortCode, e.text, false, false, None)
    ensures !e.TodoAdded? ==>
      && r.id == s.id && r.text == s.text
      && r.slackConversationId == s.slackConversationId && r.shortCode == s.shortCode
    ensures !e.TodoAdded? && !e.TodoRemoved? ==> r.isRemoved == s.isRemoved
    ensures !e.TodoAdded? && !e.TodoTicked? && !e.TodoUnticked? ==> r.isTicked == s.isTicked
    ensures !e.TodoAdded? && !e.TodoClaimed? && !e.TodoFreed? ==> r.claimedBy == s.claimedBy
    ensures e.TodoRemoved? ==> r.isRemoved
    ensures e.TodoTicked? ==> r.isTicked
    ensures e.TodoUnticked? ==> !r.isTicked
    ensures e.TodoClaimed? ==> r.claimedBy == Some(e.header.userId)
    ensures e.TodoFreed? ==> r.claimedBy.None?
  {
    match e
    case TodoAdded(h, text) => TodoState(h.id, h.slackConversationId, h.shortCode, text, false, false, None)
    case TodoRemoved(_) => s.(isRemoved := true)
    case TodoTicked(_) => s.(isTicked := true)
    case TodoUnticked(_) => s.(isTicked := false)
    case TodoClaimed(h) => s.(claimedBy := Some(h.userId))
    case TodoFreed(_) => s.(claimedBy := None)
  }

  function TodoId(s: TodoState): string
  {
    s.id
  }

  const TodoKind: AggregateKind<TodoState> := AggregateKind(Blank, ApplyTodo, TodoId)

  type Todo = Aggregate<TodoState>

  /** The header of an event `ctx` raises on `t` at time `now`. */
  function HeaderFor(t: Todo, ctx: Context, now: int): Header
  {
    Header(t.state.id, now, t.version, ctx.teamId, ctx.userId, t.state.slackConversationId, t.state.shortCode)
  }

  /** The header fields the tests check on every raised event: the todo's id,
      conversation and short code, the acting team and user, the clock reading,
      and the version before the event. */
  predicate StampedBy(e: TodoEvent, t: Todo, ctx: Context, now: int)
  {
    && e.header.id == t.state.id
    && e.header.slackConversationId == t.state.slackConversationId
    && e.header.shortCode == t.state.shortCode
    && e.header.teamId == ctx.teamId
    && e.header.userId == ctx.userId
    && e.header.timestamp == now
    && e.header.originalVersion == t.version
  }

  /** The verdict of an operation on the current state. */
  datatype Decision =
    | ClaimedBySomeoneElse(claimedByUserId: string)
    | Accepted(event: Option<TodoEvent>)

  /** The claim is held by a user other than `ctx`'s. */
  predicate HeldByOther(t: Todo, ctx: Context)
  {
    t.state.claimedBy.Some? && t.state.claimedBy.value != ctx.userId
  }

  /** `Todo.Add`: a new todo whose only event is its `TodoAdded`. */
  function Add(id: string, text: string, slackConversationId: string, shortCode: string, ctx: Context, now: int): (t: Todo)
    ensures t.version == 1 && |t.uncommitted| == 1
    ensures t.uncommitted[0] == TodoAdded(Header(id, now, 0, ctx.teamId, ctx.userId, slackConversationId, shortCode), text)
    ensures t.state == TodoState(id, slackConversationId, shortCode, text, false, false, None)
  {
    Raise(TodoKind, New(TodoKind), TodoAdded(Header(id, now, 0, ctx.teamId, ctx.userId, slackConversationId, shortCode), text))
  }

  /** `Claim`: nothing on a removed or ticked todo or one already claimed by the
      actor; refused when someone else holds it unless forced. */
  function Claim(t: Todo, ctx: Context, force: bool, now: int): (d: Decision)
    ensures d.ClaimedBySomeoneElse? ==> HeldByOther(t, ctx) && Some(d.claimedByUserId) == t.state.claimedBy
    ensures d == Accepted(None) <==> t.state.isRemoved || t.state.isTicked || t.state.claimedBy == Some(ctx.userId)
    ensures d.Accepted? && d.event.Some? ==> d.event.value.TodoClaimed? && StampedBy(d.event.value, t, ctx, now)
  {
    if t.state.isRemoved || t.state.isTicked then Accepted(None)
    else if t.state.claimedBy == Some(ctx.userId) then Accepted(None)
    else if HeldByOther(t, ctx) && !force then ClaimedBySomeoneElse(t.state.claimedBy.value)
    else Accepted(Some(TodoClaimed(HeaderFor(t, ctx, now))))
  }

  /** `Free`: nothing on a removed or unclaimed todo; refused when someone else
      holds the claim unless forced. */
  function Free(t: Todo, ctx: Context, force: bool, now: int): (d: Decision)
    ensures d.ClaimedBySomeoneElse? ==> HeldByOther(t, ctx) && Some(d.claimedByUserId) == t.state.claimedBy
    ensures d == Accepted(None) <==> t.state.isRemoved || t.state.claimedBy.None?
    ensures d.Accepted? && d.event.Some? ==> d.event.value.TodoFreed? && StampedBy(d.event.value, t, ctx, now)
  {
    if t.state.isRemoved || t.state.claimedBy.None? then Accepted(None)
    else if HeldByOther(t, ctx) && !force then ClaimedBySomeoneElse(t.state.claimedBy.value)
    else Accepted(Some(TodoFreed(HeaderFor(t, ctx, now))))
  }

  /** `Remove`: nothing on a removed todo; refused when someone else holds the
      claim unless forced. */
  function Remove(t: Todo, ctx: Context, force: bool, now: int): (d: Decision)
    ensures d.ClaimedBySomeoneElse? ==> HeldByOther(t, ctx) && Some(d.claimedByUserId) == t.state.claimedBy
    ensures d == Accepted(None) <==> t.state.isRemoved
    ensures d.Accepted? && d.event.Some? ==> d.event.value.TodoRemoved? && StampedBy(d.event.value, t, ctx, now)
  {
    if t.state.isRemoved then Accepted(None)
    else if HeldByOther(t, ctx) && !force then ClaimedBySomeoneElse(t.state.claimedBy.value)
    else Accepted(Some(TodoRemoved(HeaderFor(t, ctx, now))))
  }

  /** `Tick`: nothing on a removed or already ticked todo; no ownership check. */
  function Tick(t: Todo, ctx: Context, now: int): (d: Decision)
    ensures d.Accepted?
    ensures d.event.None? <==> t.state.isRemoved || t.state.isTicked
    ensures d.event.Some? ==> d.event.value.TodoTicked? && StampedBy(d.event.value, t, ctx, now)
  {
    if t.state.isRemoved || t.state.isTicked then Accepted(None)
    else Accepted(Some(TodoTicked(HeaderFor(t, ctx, now))))
  }

  /** `Untick`: nothing on a removed or unticked todo; no ownership check. */
  function Untick(t: Todo, ctx: Context, now: int): (d: Decision)
    ensures d.Accepted?
    ensures d.event.None? <==> t.state.isRemoved || !t.state.isTicked
    ensures d.event.Some? ==> d.event.value.TodoUnticked? && StampedBy(d.event.value, t, ctx, now)
  {
    if t.state.isRemoved || !t.state.isTicked then Accepted(None)
    else Accepted(Some(TodoUnticked(HeaderFor(t, ctx, now))))
  }

  /** Carries a decision out: a refusal is the `TodoClaimedBySomeoneElse`
      exception and leaves the todo alone; an accepted event is raised. */
  function Perform(t: Todo, d: Decision): (r: Result<Todo, string>)
    ensures d.ClaimedBySomeoneElse? <==> r.Err?
    ensures r.Err? ==> r.error == d.claimedByUserId
    ensures d == Accepted(None) ==> r == Ok(t)
    ensures d.Accepted? && d.event.Some? ==>
      && r.Ok?
      && r.value.uncommitted == t.uncommitted + [d.event.value]
      && r.value.version == t.version + 1
      && r.value.state == ApplyTodo(t.state, d.event.value)
  {
    match d
    case ClaimedBySomeoneElse(u) => Err(u)
    case Accepted(None) => Ok(t)
    case Accepted(Some(e)) => Ok(Raise(TodoKind, t, e))
  }

  /** A command issued against a todo. */
  datatype Command =
    | ClaimTodo(ctx: Context, force: bool, now: int)
    | FreeTodo(ctx: Context, force: bool, now: int)
    | RemoveTodo(ctx: Context, force: bool, now: int)
    | TickTodo(ctx: Context, now: int)
    | UntickTodo(ctx: Context, now: int)

  function Decide(t: Todo, c: Command): Decision
  {
    match c
    case ClaimTodo(ctx, force, now) => Claim(t, ctx, force, now)
    case FreeTodo(ctx, force, now) => Free(t, ctx, force, now)
    case RemoveTodo(ctx, force, now) => Remove(t, ctx, force, now)
    case TickTodo(ctx, now) => Tick(t, ctx, now)
    case UntickTodo(ctx, now) => Untick(t, ctx, now)
  }

  /** Carries the commands out one after another on the same instance, stopping
      at the first refusal. The buffer only grows, by one event per raising
      command, and the version with it. */
  function RunAll(t: Todo, cmds: seq<Command>): (r: Result<Todo, string>)
    ensures r.Ok? ==>
      && |t.uncommitted| <= |r.value.uncommitted| <= |t.uncommitted| + |cmds|
      && r.value.uncommitted[..|t.uncommitted|] == t.uncommitted
      && r.value.version - |r.value.uncommitted| == t.version - |t.uncommitted|
    decreases |cmds|
  {
    if |cmds| == 0 then Ok(t)
    else match Perform(t, Decide(t, cmds[0]))
      case Err(u) => Err(u)
      case Ok(next) => RunAll(next, cmds[1..])
  }
}
