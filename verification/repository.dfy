/** The generic repository: loads an aggregate by replaying its stored events,
    and saves one by appending its buffered events to the event store, then
    publishing them one by one, then clearing the buffer. */
module Repository {

  import opened Wrappers
  import opened TodoEvents
  import opened Chunking
  import opened EventOrder
  import opened TableStorage
  import opened Aggregates
  import Store = AzureTableEventStore

  /** One call of the store's `Save`, as a test double records it. */
  datatype AppendCall = AppendCall(aggregateId: string, expectedVersion: int, events: seq<TodoEvent>)

  /** What a save can touch: the store's table, the log of store appends, and
      the dispatcher's log of published events. */
  datatype World = World(table: seq<Row>, appends: seq<AppendCall>, published: seq<TodoEvent>)

  /** Transport failures: the store batch whose request is lost, and the
      position (within one save) of the publish that fails. */
  datatype Faults = Faults(storeBatch: Option<nat>, publish: Option<nat>)

  const NoFaults: Faults := Faults(None, None)

  /** The publish fault falls on one of the `n` events of this save. */
  predicate PublishFaultHits(faults: Faults, n: nat)
  {
    faults.publish.Some? && faults.publish.value < n
  }

  datatype SaveError =
    | AggregateMissing                          // the `ArgumentNullException`
    | StoreFailed(batch: nat, error: TableError) // batches before `batch` were committed
    | PublishFailed(index: nat)                 // events before `index` were published

  datatype SaveOutcome<S> = SaveOutcome(world: World, aggregate: Option<Aggregate<S>>, error: Option<SaveError>)

  /** `GetById`: absent when the store has no events for the id; otherwise a new
      aggregate with every stored event replayed, in store order. */
  function GetById<S>(k: AggregateKind<S>, table: seq<Row>, id: string): (r: Option<Aggregate<S>>)
    ensures r.None? <==> Store.GetById(table, id) == []
    ensures r.Some? ==> Tracks(k, r.value, Store.GetById(table, id)) && r.value.uncommitted == []
  {
    var events := Store.GetById(table, id);
    if |events| == 0 then None
    else
      LoadTracksHistory(k, events);
      Some(LoadFromEvents(k, New(k), events))
  }

  datatype Publication = Publication(log: seq<TodoEvent>, failedAt: Option<nat>)

  /** Publishes `events[i..]` one at a time, in order, stopping at the first
      publish that fails. */
  function PublishFrom(log: seq<TodoEvent>, events: seq<TodoEvent>, i: nat, fault: Option<nat>): (r: Publication)
    requires i <= |events|
    ensures r.failedAt.None? ==> r.log == log + events[i..]
    ensures r.failedAt.None? ==> fault.None? || fault.value < i || fault.value >= |events|
    ensures r.failedAt.Some? ==>
      && fault == r.failedAt
      && i <= r.failedAt.value < |events|
      && r.log == log + events[i..r.failedAt.value]
    decreases |events| - i
  {
    if i == |events| then Publication(log, None)
    else if fault == Some(i) then Publication(log, Some(i))
    else
      var r := PublishFrom(log + [events[i]], events, i + 1, fault);
      assert r.failedAt.None? ==> events[i..] == [events[i]] + events[i + 1..];
      assert r.failedAt.Some? ==> events[i..r.failedAt.value] == [events[i]] + events[i + 1..r.failedAt.value];
      r
  }

  /** `Save`. A missing aggregate is an argument error and an empty buffer a
      no-op, both touching nothing. Otherwise the store receives the id, the
      first buffered event's version and the buffer; only when it commits are the
      events published, in order; only when all are published is the buffer
      cleared. Any failure leaves the buffer as it was. */
  function Save<S>(k: AggregateKind<S>, w: World, aggregate: Option<Aggregate<S>>, faults: Faults): (r: SaveOutcome<S>)
    requires WellKeyed(w.table)
    ensures WellKeyed(r.world.table)
    ensures aggregate.None? ==> r == SaveOutcome(w, aggregate, Some(AggregateMissing))
    ensures aggregate.Some? && aggregate.value.uncommitted == [] ==> r == SaveOutcome(w, aggregate, None)
    ensures aggregate.Some? && aggregate.value.uncommitted != [] ==>
      var a := aggregate.value;
      var u := a.uncommitted;
      && r.world.appends == w.appends + [AppendCall(Id(k, a), u[0].OriginalVersion(), u)]
      && (r.error.None? <==> Store.Save(w.table, Id(k, a), u[0].OriginalVersion(), u, faults.storeBatch).status.Committed? && !PublishFaultHits(faults, |u|))
      && (r.error.None? ==>
            && r.world.table == w.table + Store.ToEntities(SortByVersion(u))
            && r.world.published == w.published + u
            && r.aggregate == Some(ClearUncommittedEvents(a)))
      && (r.error.Some? ==> r.aggregate == aggregate)
      && (r.error.Some? && r.error.value.StoreFailed? <==> !Store.Save(w.table, Id(k, a), u[0].OriginalVersion(), u, faults.storeBatch).status.Committed?)
      && (r.error.Some? && r.error.value.StoreFailed? ==>
            && r.world.published == w.published
            && r.error.value.batch * BatchLimit < |u|
            && r.world.table == w.table + Store.ToEntities(SortByVersion(u)[..r.error.value.batch * BatchLimit]))
      && (r.error.Some? && r.error.value.PublishFailed? ==>
            && r.error.value.index < |u|
            && r.world.table == w.table + Store.ToEntities(SortByVersion(u))
            && r.world.published == w.published + u[..r.error.value.index])
    ensures r.error.Some? ==> !r.error.value.PublishFailed? || faults.publish == Some(r.error.value.index)
  {
    if aggregate.None? then SaveOutcome(w, aggregate, Some(AggregateMissing))
    else
      var a := aggregate.value;
      var u := a.uncommitted;
      if |u| == 0 then SaveOutcome(w, aggregate, None)
      else
        var id := Id(k, a);
        var appends := w.appends + [AppendCall(id, u[0].OriginalVersion(), u)];
        var stored := Store.Save(w.table, id, u[0].OriginalVersion(), u, faults.storeBatch);
        match stored.status
        case Failed(b, e) =>
          SaveOutcome(World(stored.table, appends, w.published), aggregate, Some(StoreFailed(b, e)))
        case Committed =>
          var p := PublishFrom(w.published, u, 0, faults.publish);
          assert u[0..] == u;
          if p.failedAt.Some? then
            SaveOutcome(World(stored.table, appends, p.log), aggregate, Some(PublishFailed(p.failedAt.value)))
          else
            SaveOutcome(World(stored.table, appends, p.log), Some(ClearUncommittedEvents(a)), None)
  }

  // ---------------------------------------------------------------------------
  // Save and load together

  /** The slot of every buffered event of a freshly created aggregate is free
      when the store holds nothing for its id. */
  lemma FreshSlotsAreFree(table: seq<Row>, id: string, events: seq<TodoEvent>)
    requires Query(table, id) == []
    requires forall e :: e in events ==> e.Id() == id
    ensures forall e :: e in events ==> Store.ToEntity(e).Key() !in Keys(table)
  {
  }

  /** The buffer of an aggregate whose whole history is buffered holds versions
      0, 1, 2, ... of its own id. */
  lemma NewBufferIsSorted<S>(k: AggregateKind<S>, a: Aggregate<S>)
    requires Tracks(k, a, a.uncommitted) && BufferStamped(k, a)
    ensures Store.SlotsDistinct(a.uncommitted) && SortedByVersion(a.uncommitted)
    ensures forall e :: e in a.uncommitted ==> e.Id() == Id(k, a)
  {
    var u := a.uncommitted;
    assert forall i :: 0 <= i < |u| ==> u[i].OriginalVersion() == i;
  }

  /** Saving a new aggregate into an empty partition without faults succeeds,
      and the table then reads back as the aggregate's buffer. */
  lemma SaveOfNewAggregateCommits<S>(k: AggregateKind<S>, w: World, a: Aggregate<S>)
    requires WellKeyed(w.table)
    requires Query(w.table, Id(k, a)) == []
    requires Tracks(k, a, a.uncommitted) && BufferStamped(k, a) && |a.uncommitted| > 0
    ensures var r := Save(k, w, Some(a), NoFaults);
      && r.error.None?
      && Store.GetById(r.world.table, Id(k, a)) == a.uncommitted
      && r.world.published == w.published + a.uncommitted
      && r.aggregate == Some(ClearUncommittedEvents(a))
  {
    var u := a.uncommitted;
    var id := Id(k, a);
    NewBufferIsSorted(k, a);
    FreshSlotsAreFree(w.table, id, u);
    Store.SaveOnFreeSlotsCommits(w.table, id, u[0].OriginalVersion(), u);
    var stored := Store.Save(w.table, id, u[0].OriginalVersion(), u, None);
    assert stored.status.Committed?;
    SaveStoresWhatTheStoreCommits(k, w, a, NoFaults);
    Store.ReadAfterSave(w.table, id, u[0].OriginalVersion(), u, None);
    SortSortedIsIdentity(u);
  }

  /** Without a publish fault, the repository's save succeeds exactly when the
      store commits, and leaves the table the store left. */
  lemma SaveStoresWhatTheStoreCommits<S>(k: AggregateKind<S>, w: World, a: Aggregate<S>, faults: Faults)
    requires WellKeyed(w.table) && a.uncommitted != [] && faults.publish.None?
    ensures var u := a.uncommitted;
      var stored := Store.Save(w.table, Id(k, a), u[0].OriginalVersion(), u, faults.storeBatch);
      var r := Save(k, w, Some(a), faults);
      && (r.error.None? <==> stored.status.Committed?)
      && r.world.table == stored.table
  {
  }

  /** Replay determinism through the store: saving a new aggregate and loading
      it back by id gives the same state and version with an empty buffer. */
  lemma SaveThenLoadRoundTrip<S>(k: AggregateKind<S>, w: World, a: Aggregate<S>)
    requires WellKeyed(w.table)
    requires Query(w.table, Id(k, a)) == []
    requires Tracks(k, a, a.uncommitted) && BufferStamped(k, a) && |a.uncommitted| > 0
    ensures var r := Save(k, w, Some(a), NoFaults);
      && r.error.None?
      && GetById(k, r.world.table, Id(k, a)) == Some(ClearUncommittedEvents(a))
  {
    SaveOfNewAggregateCommits(k, w, a);
    RebuildMatchesLive(k, a, a.uncommitted);
  }

  /** The buffer of an aggregate loaded from `history`, with events raised
      since, holds the versions that follow the history, for its own id. */
  lemma BufferContinuesHistory<S>(k: AggregateKind<S>, a: Aggregate<S>, history: seq<TodoEvent>)
    requires Tracks(k, a, history + a.uncommitted) && BufferStamped(k, a)
    ensures Store.Consecutive(a.uncommitted, Id(k, a), |history|)
  {
  }

  /** The normal cycle on an existing stream: an aggregate loaded from the
      stored history of its id, with events raised since, saves without faults,
      publishes its buffer and clears it; the partition then holds the history
      followed by the buffer, and loading the id gives the aggregate back with
      an empty buffer. */
  lemma SaveAfterLoadCommits<S>(k: AggregateKind<S>, w: World, a: Aggregate<S>, history: seq<TodoEvent>)
    requires WellKeyed(w.table)
    requires Query(w.table, Id(k, a)) == Store.ToEntities(history)
    requires Store.Consecutive(history, Id(k, a), 0)
    requires Tracks(k, a, history + a.uncommitted) && BufferStamped(k, a) && |a.uncommitted| > 0
    ensures var r := Save(k, w, Some(a), NoFaults);
      && r.error.None?
      && r.world.published == w.published + a.uncommitted
      && r.aggregate == Some(ClearUncommittedEvents(a))
      && Query(r.world.table, Id(k, a)) == Store.ToEntities(history + a.uncommitted)
      && GetById(k, r.world.table, Id(k, a)) == Some(ClearUncommittedEvents(a))
  {
    var u := a.uncommitted;
    var id := Id(k, a);
    BufferContinuesHistory(k, a, history);
    Store.AppendToStream(w.table, id, u[0].OriginalVersion(), history, u);
    SaveStoresWhatTheStoreCommits(k, w, a, NoFaults);
    RebuildMatchesLive(k, a, history + u);
  }

  /** Optimistic concurrency between two holders of the same aggregate: once the
      first save has gone through, a second save whose first event claims the
      same slot fails in the store, publishes nothing and keeps its buffer; when
      it fits in one batch it writes nothing either. */
  lemma SecondSaveOfSameVersionFails<S>(k: AggregateKind<S>, w: World, a1: Aggregate<S>, a2: Aggregate<S>, f1: Faults, f2: Faults)
    requires WellKeyed(w.table)
    requires a1.uncommitted != [] && a2.uncommitted != []
    requires Store.Slot(a1.uncommitted[0]) == Store.Slot(a2.uncommitted[0])
    requires Save(k, w, Some(a1), f1).error.None?
    ensures var w1 := Save(k, w, Some(a1), f1).world;
      var r := Save(k, w1, Some(a2), f2);
      && r.error.Some? && r.error.value.StoreFailed?
      && r.aggregate == Some(a2)
      && r.world.published == w1.published
      && (|a2.uncommitted| <= BatchLimit ==> r.world.table == w1.table)
  {
    var u1 := a1.uncommitted;
    var u2 := a2.uncommitted;
    Store.SecondSaveOfSameSlotConflicts(
      w.table, u1, u2, Id(k, a1), Id(k, a2), u1[0].OriginalVersion(), u2[0].OriginalVersion(),
      f1.storeBatch, f2.storeBatch, u1[0], u2[0]);
  }
}
