/** The rules the Todo operations follow: which event each raises, when each is
    refused, idempotence, the force override, and the invariants the operations
    keep between the todo's state, version and buffered events. */
module TodoRules {

  import opened Wrappers
  import opened TodoEvents
  import opened Aggregates
  import opened Todo

  predicate Active(t: Todo)
  {
    !t.state.isRemoved && !t.state.isTicked
  }

  // ---------------------------------------------------------------------------
  // Claim

  /** Claiming an active todo nobody holds raises one `TodoClaimed` stamped by the actor. */
  lemma CanClaimTodo(t: Todo, ctx: Context, force: bool, now: int)
    requires Active(t) && t.state.claimedBy.None?
    ensures var r := Perform(t, Claim(t, ctx, force, now));
      && r.Ok?
      && |r.value.uncommitted| == |t.uncommitted| + 1
      && r.value.uncommitted[|t.uncommitted|].TodoClaimed?
      && StampedBy(r.value.uncommitted[|t.uncommitted|], t, ctx, now)
      && r.value.state.claimedBy == Some(ctx.userId)
  {
  }

  /** A claim that went through leaves nothing more for the same actor to claim. */
  lemma ClaimIsIdempotent(t: Todo, ctx: Context, f1: bool, f2: bool, n1: int, n2: int)
    requires Perform(t, Claim(t, ctx, f1, n1)).Ok?
    ensures Claim(Perform(t, Claim(t, ctx, f1, n1)).value, ctx, f2, n2) == Accepted(None)
  {
  }

  /** A claim is refused exactly when the todo is active, someone else holds it
      and force is off; the refusal names the holder and changes nothing. */
  lemma ClaimConflictRule(t: Todo, ctx: Context, force: bool, now: int)
    ensures Claim(t, ctx, force, now).ClaimedBySomeoneElse? <==> Active(t) && HeldByOther(t, ctx) && !force
    ensures Claim(t, ctx, force, now).ClaimedBySomeoneElse? ==>
      Perform(t, Claim(t, ctx, force, now)) == Err(t.state.claimedBy.value)
  {
  }

  /** A forced claim over someone else's raises one `TodoClaimed` stamped by the new actor. */
  lemma ForcedClaimTakesOver(t: Todo, ctx: Context, now: int)
    requires Active(t) && HeldByOther(t, ctx)
    ensures var d := Claim(t, ctx, true, now);
      && d.Accepted? && d.event.Some? && d.event.value.TodoClaimed?
      && StampedBy(d.event.value, t, ctx, now)
      && Perform(t, d).value.state.claimedBy == Some(ctx.userId)
  {
  }

  /** Claiming a removed or ticked todo neither fails nor raises anything. */
  lemma ClaimingRemovedOrTickedDoesNothing(t: Todo, ctx: Context, force: bool, now: int)
    requires t.state.isRemoved || t.state.isTicked
    ensures Perform(t, Claim(t, ctx, force, now)) == Ok(t)
  {
  }

  // ---------------------------------------------------------------------------
  // Free

  /** The holder freeing a todo raises one `TodoFreed` stamped by the holder. */
  lemma CanFreeTodo(t: Todo, ctx: Context, force: bool, now: int)
    requires !t.state.isRemoved && t.state.claimedBy == Some(ctx.userId)
    ensures var r := Perform(t, Free(t, ctx, force, now));
      && r.Ok?
      && |r.value.uncommitted| == |t.uncommitted| + 1
      && r.value.uncommitted[|t.uncommitted|].TodoFreed?
      && StampedBy(r.value.uncommitted[|t.uncommitted|], t, ctx, now)
      && r.value.state.claimedBy.None?
  {
  }

  /** Once a free has gone through, freeing again raises nothing, whoever asks. */
  lemma FreeIsIdempotent(t: Todo, c1: Context, c2: Context, f1: bool, f2: bool, n1: int, n2: int)
    requires Perform(t, Free(t, c1, f1, n1)).Ok?
    ensures Free(Perform(t, Free(t, c1, f1, n1)).value, c2, f2, n2) == Accepted(None)
  {
  }

  /** A free is refused exactly when the todo is not removed, someone else holds
      it and force is off; the refusal names the holder. */
  lemma FreeConflictRule(t: Todo, ctx: Context, force: bool, now: int)
    ensures Free(t, ctx, force, now).ClaimedBySomeoneElse? <==> !t.state.isRemoved && HeldByOther(t, ctx) && !force
    ensures Free(t, ctx, force, now).ClaimedBySomeoneElse? ==>
      Perform(t, Free(t, ctx, force, now)) == Err(t.state.claimedBy.value)
  {
  }

  /** A forced free of someone else's claim raises one `TodoFreed` stamped by the forcing actor. */
  lemma ForcedFreeReleases(t: Todo, ctx: Context, now: int)
    requires !t.state.isRemoved && HeldByOther(t, ctx)
    ensures var d := Free(t, ctx, true, now);
      && d.Accepted? && d.event.Some? && d.event.value.TodoFreed?
      && StampedBy(d.event.value, t, ctx, now)
      && Perform(t, d).value.state.claimedBy.None?
  {
  }

  // ---------------------------------------------------------------------------
  // Remove

  /** Removing a todo nobody else holds raises one `TodoRemoved` stamped by the
      actor, with or without force. */
  lemma CanRemoveTodo(t: Todo, ctx: Context, force: bool, now: int)
    requires !t.state.isRemoved && !HeldByOther(t, ctx)
    ensures var r := Perform(t, Remove(t, ctx, force, now));
      && r.Ok?
      && |r.value.uncommitted| == |t.uncommitted| + 1
      && r.value.uncommitted[|t.uncommitted|].TodoRemoved?
      && StampedBy(r.value.uncommitted[|t.uncommitted|], t, ctx, now)
      && r.value.state.isRemoved
  {
  }

  /** Once a remove has gone through, removing again raises nothing, whoever asks. */
  lemma RemoveIsIdempotent(t: Todo, c1: Context, c2: Context, f1: bool, f2: bool, n1: int, n2: int)
    requires Perform(t, Remove(t, c1, f1, n1)).Ok?
    ensures Remove(Perform(t, Remove(t, c1, f1, n1)).value, c2, f2, n2) == Accepted(None)
  {
  }

  /** A remove is refused exactly when the todo is not removed, someone else holds
      it and force is off; the refusal names the holder. */
  lemma RemoveConflictRule(t: Todo, ctx: Context, force: bool, now: int)
    ensures Remove(t, ctx, force, now).ClaimedBySomeoneElse? <==> !t.state.isRemoved && HeldByOther(t, ctx) && !force
    ensures Remove(t, ctx, force, now).ClaimedBySomeoneElse? ==>
      Perform(t, Remove(t, ctx, force, now)) == Err(t.state.claimedBy.value)
  {
  }

  /** A forced remove of someone else's todo raises one `TodoRemoved` stamped by the forcing actor. */
  lemma ForcedRemove(t: Todo, ctx: Context, now: int)
    requires !t.state.isRemoved && HeldByOther(t, ctx)
    ensures var d := Remove(t, ctx, true, now);
      && d.Accepted? && d.event.Some? && d.event.value.TodoRemoved?
      && StampedBy(d.event.value, t, ctx, now)
  {
  }

  // ---------------------------------------------------------------------------
  // Tick, Untick, and the removed state

  lemma TickIsIdempotent(t: Todo, c1: Context, c2: Context, n1: int, n2: int)
    requires Perform(t, Tick(t, c1, n1)).Ok?
    ensures Tick(Perform(t, Tick(t, c1, n1)).value, c2, n2) == Accepted(None)
  {
  }

  lemma UntickIsIdempotent(t: Todo, c1: Context, c2: Context, n1: int, n2: int)
    requires Perform(t, Untick(t, c1, n1)).Ok?
    ensures Untick(Perform(t, Untick(t, c1, n1)).value, c2, n2) == Accepted(None)
  {
  }

  /** Ticking and unticking never consult the claim: they are never refused. */
  lemma TickingNeedsNoClaim(t: Todo, ctx: Context, now: int)
    ensures Tick(t, ctx, now).Accepted? && Untick(t, ctx, now).Accepted?
  {
  }

  /** A removed todo is terminal: every operation is accepted and raises nothing. */
  lemma RemovedIsTerminal(t: Todo, ctx: Context, force: bool, now: int)
    requires t.state.isRemoved
    ensures Claim(t, ctx, force, now) == Accepted(None)
    ensures Free(t, ctx, force, now) == Accepted(None)
    ensures Remove(t, ctx, force, now) == Accepted(None)
    ensures Tick(t, ctx, now) == Accepted(None)
    ensures Untick(t, ctx, now) == Accepted(None)
  {
  }

  // ---------------------------------------------------------------------------
  // Invariants kept by every operation

  /** `t` is the todo whose history is `history`, and its buffer is stamped with
      consecutive versions and its own id. */
  ghost predicate Valid(t: Todo, history: seq<TodoEvent>)
  {
    Tracks(TodoKind, t, history) && BufferStamped(TodoKind, t)
  }

  /** The decisions the five operations can reach on `t`: a refusal, nothing, or
      one non-`TodoAdded` event stamped with `t`'s id and version. */
  predicate Proposed(t: Todo, d: Decision)
  {
    d.Accepted? && d.event.Some? ==>
      var e := d.event.value;
      !e.TodoAdded? && e.Id() == t.state.id && e.OriginalVersion() == t.version
  }

  lemma OperationsPropose(t: Todo, ctx: Context, force: bool, now: int)
    ensures Proposed(t, Claim(t, ctx, force, now))
    ensures Proposed(t, Free(t, ctx, force, now))
    ensures Proposed(t, Remove(t, ctx, force, now))
    ensures Proposed(t, Tick(t, ctx, now))
    ensures Proposed(t, Untick(t, ctx, now))
  {
  }

  /** A new todo is valid with its `TodoAdded` as its whole history. */
  lemma AddIsValid(id: string, text: string, slackConversationId: string, shortCode: string, ctx: Context, now: int)
    ensures var t := Add(id, text, slackConversationId, shortCode, ctx, now);
      Valid(t, t.uncommitted) && t.uncommitted[0].Id() == id
  {
    var t := Add(id, text, slackConversationId, shortCode, ctx, now);
    RaiseExtendsHistory(TodoKind, New(TodoKind), [], t.uncommitted[0]);
    assert [] + [t.uncommitted[0]] == t.uncommitted;
  }

  /** Carrying out any operation's decision keeps the todo valid, extending its
      history by the raised event: the version grows by one per event and each
      event's version is the version before it. */
  lemma PerformKeepsValid(t: Todo, history: seq<TodoEvent>, d: Decision)
    requires Valid(t, history) && Proposed(t, d)
    ensures Perform(t, d).Ok? ==>
      var t' := Perform(t, d).value;
      Valid(t', if d.event.Some? then history + [d.event.value] else history)
      && t'.state.id == t.state.id
  {
    if d.Accepted? && d.event.Some? {
      var e := d.event.value;
      RaiseExtendsHistory(TodoKind, t, history, e);
      RaiseKeepsBufferStamped(TodoKind, t, e);
    }
  }

  // ---------------------------------------------------------------------------
  // The claim scenario

  /** A todo added by one user is claimed by them; a second user's plain claim is
      refused naming the first; a forced claim hands it to the second. */
  lemma ClaimHandover(ctx1: Context, ctx2: Context)
    requires ctx1.userId != ctx2.userId
    ensures var t0 := ClearUncommittedEvents(Add("t1", "Buy milk", "conv1", "a", ctx1, 0));
      var t1 := Perform(t0, Claim(t0, ctx1, false, 1));
      && t1.Ok? && |t1.value.uncommitted| == 1
      && Perform(t1.value, Claim(t1.value, ctx2, false, 2)) == Err(ctx1.userId)
      && var t2 := Perform(t1.value, Claim(t1.value, ctx2, true, 3));
        t2.Ok? && t2.value.state.claimedBy == Some(ctx2.userId) && t2.value.version == 3
  {
  }

  /** The todo added and ticked in the ticked-claim test: the tick raises one
      `TodoTicked` and ticks it; once the buffer is cleared a claim, forced or
      not, raises nothing. */
  lemma ClaimingTickedTodoDoesNothing(id: string, text: string, conv: string, code: string, ctx: Context, now: int, claimer: Context, force: bool, later: int)
    ensures var t0 := Add(id, text, conv, code, ctx, now);
      var t1 := Perform(t0, Tick(t0, ctx, now));
      && t1.Ok? && t1.value.state.isTicked
      && t1.value.uncommitted == t0.uncommitted + [TodoTicked(HeaderFor(t0, ctx, now))]
      && var t2 := ClearUncommittedEvents(t1.value);
        Perform(t2, Claim(t2, claimer, force, later)) == Ok(t2) && t2.uncommitted == []
  {
  }

  // ---------------------------------------------------------------------------
  // Command sequences

  /** Every command's decision is one of those `OperationsPropose` allows. */
  lemma DecideProposes(t: Todo, c: Command)
    ensures Proposed(t, Decide(t, c))
  {
  }

  /** Carrying out any sequence of commands keeps the buffer consecutively
      stamped with the todo's own id, and keeps that id. */
  lemma {:induction false} RunAllKeepsStamped(t: Todo, cmds: seq<Command>)
    requires BufferStamped(TodoKind, t)
    ensures RunAll(t, cmds).Ok? ==>
      BufferStamped(TodoKind, RunAll(t, cmds).value) && RunAll(t, cmds).value.state.id == t.state.id
    decreases |cmds|
  {
    if |cmds| > 0 {
      var d := Decide(t, cmds[0]);
      DecideProposes(t, cmds[0]);
      if d.Accepted? && d.event.Some? {
        RaiseKeepsBufferStamped(TodoKind, t, d.event.value);
      }
      if Perform(t, d).Ok? {
        RunAllKeepsStamped(Perform(t, d).value, cmds[1..]);
      }
    }
  }
}
