/** The Todo aggregate going through the repository: a new todo saved and
    loaded back is the same todo, open and unclaimed, so anyone can claim it. */
module TodoRepository {

  import opened Wrappers
  import opened TableStorage
  import opened Aggregates
  import opened Todo
  import opened TodoRules
  import opened Repository
  import Store = AzureTableEventStore

  /** A todo just added, saved into a partition with nothing in it and loaded
      back by its id: the save succeeds, publishes the `TodoAdded` event, and the
      loaded todo has the added state, version 1 and an empty buffer. */
  lemma AddedTodoSurvivesSaveAndReload(w: World, id: string, text: string, conv: string, code: string, ctx: Context, now: int)
    requires WellKeyed(w.table) && Query(w.table, id) == []
    ensures var t := Add(id, text, conv, code, ctx, now);
      var saved := Save(TodoKind, w, Some(t), NoFaults);
      && saved.error.None?
      && saved.world.published == w.published + t.uncommitted
      && GetById(TodoKind, saved.world.table, id) == Some(ClearUncommittedEvents(t))
  {
    var t := Add(id, text, conv, code, ctx, now);
    AddIsValid(id, text, conv, code, ctx, now);
    assert Id(TodoKind, t) == id;
    SaveThenLoadRoundTrip(TodoKind, w, t);
  }

  /** The reloaded todo can be claimed by whoever asks first. */
  lemma ReloadedTodoCanBeClaimed(w: World, id: string, text: string, conv: string, code: string, ctx: Context, now: int, claimer: Context, later: int)
    requires WellKeyed(w.table) && Query(w.table, id) == []
    ensures var t := Add(id, text, conv, code, ctx, now);
      var loaded := GetById(TodoKind, Save(TodoKind, w, Some(t), NoFaults).world.table, id);
      && loaded.Some?
      && var c := Perform(loaded.value, Claim(loaded.value, claimer, false, later));
        c.Ok? && c.value.state.claimedBy == Some(claimer.userId) && c.value.version == 2
  {
    var t := Add(id, text, conv, code, ctx, now);
    AddedTodoSurvivesSaveAndReload(w, id, text, conv, code, ctx, now);
    CanClaimTodo(ClearUncommittedEvents(t), claimer, false, later);
  }

  /** Saving a todo after a run of commands: whatever commands it carried out
      since it was loaded or last saved, the store is called once with its id,
      the version it had before the first of them, and exactly the events they
      raised. */
  lemma SaveHandsStoreVersionBeforeCommands(w: World, t: Todo, cmds: seq<Command>, faults: Faults)
    requires WellKeyed(w.table) && t.uncommitted == []
    requires RunAll(t, cmds).Ok? && RunAll(t, cmds).value.uncommitted != []
    ensures var t' := RunAll(t, cmds).value;
      Save(TodoKind, w, Some(t'), faults).world.appends
        == w.appends + [AppendCall(t.state.id, t.version, t'.uncommitted)]
  {
    var t' := RunAll(t, cmds).value;
    RunAllKeepsStamped(t, cmds);
    ExpectedVersionIsVersionBeforeRaises(TodoKind, t');
  }

  /** The first half of the cycle: a todo added and saved into an empty
      partition loads back as itself, and the partition holds its one event. */
  lemma FirstSaveStoresAdded(w: World, id: string, text: string, conv: string, code: string, ctx: Context, now: int)
    requires WellKeyed(w.table) && Query(w.table, id) == []
    ensures var t := Add(id, text, conv, code, ctx, now);
      var w1 := Save(TodoKind, w, Some(t), NoFaults).world;
      && WellKeyed(w1.table)
      && Query(w1.table, id) == Store.ToEntities(t.uncommitted)
      && Store.Consecutive(t.uncommitted, id, 0)
      && GetById(TodoKind, w1.table, id) == Some(ClearUncommittedEvents(t))
  {
    var t := Add(id, text, conv, code, ctx, now);
    AddIsValid(id, text, conv, code, ctx, now);
    assert Id(TodoKind, t) == id;
    assert [] + t.uncommitted == t.uncommitted;
    SaveAfterLoadCommits(TodoKind, w, t, []);
  }

  /** The cycle run twice: a todo added and saved, loaded back and claimed,
      then saved a second time onto its existing stream, loads back claimed, at
      version 2, with nothing buffered. */
  lemma ClaimedTodoSavesAndReloads(w: World, id: string, text: string, conv: string, code: string, ctx: Context, now: int, claimer: Context, later: int)
    requires WellKeyed(w.table) && Query(w.table, id) == []
    ensures var t := Add(id, text, conv, code, ctx, now);
      var w1 := Save(TodoKind, w, Some(t), NoFaults).world;
      var loaded := GetById(TodoKind, w1.table, id);
      && loaded.Some?
      && var c := Perform(loaded.value, Claim(loaded.value, claimer, false, later));
        && c.Ok?
        && var r := Save(TodoKind, w1, Some(c.value), NoFaults);
          && r.error.None?
          && r.world.published == w1.published + c.value.uncommitted
          && var again := GetById(TodoKind, r.world.table, id);
            again == Some(ClearUncommittedEvents(c.value))
            && again.value.state.claimedBy == Some(claimer.userId) && again.value.version == 2
  {
    var t := Add(id, text, conv, code, ctx, now);
    FirstSaveStoresAdded(w, id, text, conv, code, ctx, now);
    var w1 := Save(TodoKind, w, Some(t), NoFaults).world;
    var loaded := ClearUncommittedEvents(t);
    AddIsValid(id, text, conv, code, ctx, now);
    var d := Claim(loaded, claimer, false, later);
    CanClaimTodo(loaded, claimer, false, later);
    PerformKeepsValid(loaded, t.uncommitted, d);
    var c := Perform(loaded, d).value;
    assert c.uncommitted == [d.event.value];
    SaveAfterLoadCommits(TodoKind, w1, c, t.uncommitted);
  }
}
