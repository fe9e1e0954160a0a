/** The repository's contract stated on an aggregate that records every event
    applied to it: loading replays exactly the stored events, saving hands the
    store the first raised event's version, publishes the buffer in order and
    clears it, and a save with nothing buffered touches nothing. */
module RepositoryContract {

  import opened Wrappers
  import opened TodoEvents
  import opened TableStorage
  import opened Aggregates
  import opened Repository
  import Store = AzureTableEventStore

  /** The recording aggregate: its state is its id and the events applied to it. */
  datatype DummyState = DummyState(id: string, applied: seq<TodoEvent>)

  function Record(s: DummyState, e: TodoEvent): DummyState
  {
    s.(applied := s.applied + [e])
  }

  function DummyKind(id: string): AggregateKind<DummyState>
  {
    AggregateKind(DummyState(id, []), Record, (s: DummyState) => s.id)
  }

  /** Replaying on the recording aggregate appends the events to its record. */
  lemma {:induction false} ReplayRecords(id: string, s: DummyState, events: seq<TodoEvent>)
    ensures Replay(DummyKind(id), s, events) == DummyState(s.id, s.applied + events)
    decreases |events|
  {
    if |events| == 0 {
      assert s.applied + events == s.applied;
    } else {
      ReplayRecords(id, s, events[..|events| - 1]);
      assert s.applied + events[..|events| - 1] + [events[|events| - 1]] == s.applied + events;
    }
  }

  /** A loaded aggregate has had exactly the stored events applied, in store
      order, and has none uncommitted; with nothing stored it is absent. */
  lemma LoadAppliesExactlyTheStoredEvents(table: seq<Row>, id: string)
    ensures var r := GetById(DummyKind(id), table, id);
      && (r.None? <==> Store.GetById(table, id) == [])
      && (r.Some? ==> r.value.state.applied == Store.GetById(table, id) && r.value.uncommitted == [])
  {
    ReplayRecords(id, DummyKind(id).initial, Store.GetById(table, id));
  }

  /** Saving an aggregate whose buffer was empty before `events` were raised
      calls the store once, with the aggregate's id, the first raised event's
      version and exactly the raised events. That version is the aggregate's
      version before the first raise only because the first event carries it,
      which this lemma requires of the caller; `SaveHandsStoreVersionBeforeCommands`
      derives it for todos from the operations that raise the events. */
  lemma SaveCallsStoreWithVersionBeforeFirstRaise(w: World, a: Aggregate<DummyState>, events: seq<TodoEvent>, faults: Faults)
    requires WellKeyed(w.table)
    requires a.uncommitted == [] && |events| > 0
    requires events[0].OriginalVersion() == a.version
    ensures var b := RaiseAll(DummyKind(a.state.id), a, events);
      Save(DummyKind(a.state.id), w, Some(b), faults).world.appends
        == w.appends + [AppendCall(a.state.id, a.version, events)]
  {
    var k := DummyKind(a.state.id);
    var b := RaiseAll(k, a, events);
    ReplayRecords(a.state.id, a.state, events);
    assert b.uncommitted == events;
    assert Id(k, b) == a.state.id;
    var r := Save(k, w, Some(b), faults);
    assert r.world.appends == w.appends + [AppendCall(Id(k, b), b.uncommitted[0].OriginalVersion(), b.uncommitted)];
  }

  /** A new recording aggregate with `events` raised buffers exactly them, and
      the buffer is its whole history, stamped with its id and versions 0, 1, ... */
  lemma RaisedOnNew(id: string, events: seq<TodoEvent>)
    requires forall i :: 0 <= i < |events| ==> events[i].OriginalVersion() == i && events[i].Id() == id
    ensures var k := DummyKind(id);
      var a := RaiseAll(k, New(k), events);
      && a.uncommitted == events
      && Id(k, a) == id
      && Tracks(k, a, a.uncommitted)
      && BufferStamped(k, a)
  {
    var k := DummyKind(id);
    RaiseAllExtendsHistory(k, New(k), [], events);
    assert [] + events == events;
    ReplayRecords(id, k.initial, events);
  }

  /** A new aggregate saved into an empty partition without faults: the
      dispatcher receives exactly the raised events in raise order, and the
      buffer is empty afterwards. */
  lemma SavePublishesInOrderAndClears(w: World, id: string, events: seq<TodoEvent>)
    requires WellKeyed(w.table) && Query(w.table, id) == []
    requires |events| > 0
    requires forall i :: 0 <= i < |events| ==> events[i].OriginalVersion() == i && events[i].Id() == id
    ensures var k := DummyKind(id);
      var r := Save(k, w, Some(RaiseAll(k, New(k), events)), NoFaults);
      && r.error.None?
      && r.world.published == w.published + events
      && r.aggregate.Some? && r.aggregate.value.uncommitted == []
  {
    var k := DummyKind(id);
    RaisedOnNew(id, events);
    SaveOfNewAggregateCommits(k, w, RaiseAll(k, New(k), events));
  }

  /** With nothing buffered, a save neither calls the store nor publishes. */
  lemma SaveWithNothingBufferedTouchesNothing<S>(k: AggregateKind<S>, w: World, a: Aggregate<S>, faults: Faults)
    requires WellKeyed(w.table) && a.uncommitted == []
    ensures Save(k, w, Some(a), faults) == SaveOutcome(w, Some(a), None)
  {
  }
}
