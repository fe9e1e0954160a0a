/** The aggregate base: state built by applying events, a version counting the
    applied events, and a buffer of events raised but not yet saved. */
module Aggregates {

  import opened TodoEvents

  /** What the repository needs of a concrete aggregate type: the state of a
      fresh instance (`new T()`), the event-application hook, and the id. */
  datatype AggregateKind<!S> = AggregateKind(initial: S, apply: (S, TodoEvent) -> S, idOf: S -> string)

  datatype Aggregate<S> = Aggregate(state: S, version: int, uncommitted: seq<TodoEvent>)

  function New<S>(k: AggregateKind<S>): Aggregate<S>
  {
    Aggregate(k.initial, 0, [])
  }

  function Id<S>(k: AggregateKind<S>, a: Aggregate<S>): string
  {
    k.idOf(a.state)
  }

  /** The reference meaning of a history: the state reached by applying its
      events in order, last event outermost. */
  function Replay<S>(k: AggregateKind<S>, s: S, events: seq<TodoEvent>): S
  {
    if |events| == 0 then s else k.apply(Replay(k, s, events[..|events| - 1]), events[|events| - 1])
  }

  lemma {:induction false} ReplayPrepend<S>(k: AggregateKind<S>, s: S, e: TodoEvent, events: seq<TodoEvent>)
    ensures Replay(k, s, [e] + events) == Replay(k, k.apply(s, e), events)
    decreases |events|
  {
    if |events| == 0 {
      assert ([e] + events)[..0] == [];
    } else {
      assert ([e] + events)[..|events|] == [e] + events[..|events| - 1];
      ReplayPrepend(k, s, e, events[..|events| - 1]);
    }
  }

  /** Applies one historic event: state and version advance, the buffer does not. */
  function ApplyEvent<S>(k: AggregateKind<S>, a: Aggregate<S>, e: TodoEvent): Aggregate<S>
  {
    Aggregate(k.apply(a.state, e), a.version + 1, a.uncommitted)
  }

  /** `LoadFromEvents`: applies the events one at a time, first to last. */
  function LoadFromEvents<S>(k: AggregateKind<S>, a: Aggregate<S>, events: seq<TodoEvent>): (r: Aggregate<S>)
    ensures r.state == Replay(k, a.state, events)
    ensures r.version == a.version + |events|
    ensures r.uncommitted == a.uncommitted
    decreases |events|
  {
    if |events| == 0 then a
    else
      ReplayPrepend(k, a.state, events[0], events[1..]);
      assert events == [events[0]] + events[1..];
      LoadFromEvents(k, ApplyEvent(k, a, events[0]), events[1..])
  }

  /** `RaiseEvent`: applies a new event and buffers it as uncommitted. */
  function Raise<S>(k: AggregateKind<S>, a: Aggregate<S>, e: TodoEvent): Aggregate<S>
  {
    Aggregate(k.apply(a.state, e), a.version + 1, a.uncommitted + [e])
  }

  /** Raises the events one after another. */
  function RaiseAll<S>(k: AggregateKind<S>, a: Aggregate<S>, events: seq<TodoEvent>): (r: Aggregate<S>)
    ensures r.uncommitted == a.uncommitted + events
    ensures r.version == a.version + |events|
    ensures r.state == Replay(k, a.state, events)
    decreases |events|
  {
    if |events| == 0 then a
    else
      var last := events[|events| - 1];
      var r := Raise(k, RaiseAll(k, a, events[..|events| - 1]), last);
      assert events == events[..|events| - 1] + [last];
      r
  }

  function ClearUncommittedEvents<S>(a: Aggregate<S>): Aggregate<S>
  {
    a.(uncommitted := [])
  }

  /** `a` is the aggregate whose whole history is `history`: its state is the
      replay of it, its version its length, and its buffer a suffix of it. */
  ghost predicate Tracks<S>(k: AggregateKind<S>, a: Aggregate<S>, history: seq<TodoEvent>)
  {
    && a.state == Replay(k, k.initial, history)
    && a.version == |history|
    && |a.uncommitted| <= |history|
    && a.uncommitted == history[|history| - |a.uncommitted|..]
  }

  /** The buffered events carry consecutive versions ending just below the
      aggregate's version, all for the aggregate's own id. */
  ghost predicate BufferStamped<S>(k: AggregateKind<S>, a: Aggregate<S>)
  {
    forall i :: 0 <= i < |a.uncommitted| ==>
      && a.uncommitted[i].OriginalVersion() == a.version - |a.uncommitted| + i
      && a.uncommitted[i].Id() == Id(k, a)
  }

  /** A freshly loaded aggregate tracks exactly the loaded events and buffers none. */
  lemma LoadTracksHistory<S>(k: AggregateKind<S>, events: seq<TodoEvent>)
    ensures Tracks(k, LoadFromEvents(k, New(k), events), events)
    ensures LoadFromEvents(k, New(k), events).uncommitted == []
  {
  }

  /** Raising extends the tracked history by the raised event. */
  lemma RaiseExtendsHistory<S>(k: AggregateKind<S>, a: Aggregate<S>, history: seq<TodoEvent>, e: TodoEvent)
    requires Tracks(k, a, history)
    ensures Tracks(k, Raise(k, a, e), history + [e])
  {
    var h := history + [e];
    assert h[..|h| - 1] == history;
  }

  /** Raising an event stamped with the current version and the aggregate's id
      keeps the buffer consecutively stamped, provided the id stays the same. */
  lemma RaiseKeepsBufferStamped<S>(k: AggregateKind<S>, a: Aggregate<S>, e: TodoEvent)
    requires BufferStamped(k, a)
    requires e.OriginalVersion() == a.version
    requires Id(k, Raise(k, a, e)) == Id(k, a) == e.Id()
    ensures BufferStamped(k, Raise(k, a, e))
  {
  }

  /** Replay determinism: rebuilding an aggregate from its history gives the live
      aggregate with its buffer emptied. */
  lemma RebuildMatchesLive<S>(k: AggregateKind<S>, a: Aggregate<S>, history: seq<TodoEvent>)
    requires Tracks(k, a, history)
    ensures LoadFromEvents(k, New(k), history) == ClearUncommittedEvents(a)
  {
  }

  /** In a consecutively stamped buffer, the version the repository hands to
      the store, the first buffered event's version, is the aggregate's version
      before its first raise. The stamping itself is the raising operation's job. */
  lemma ExpectedVersionIsVersionBeforeRaises<S>(k: AggregateKind<S>, a: Aggregate<S>)
    requires BufferStamped(k, a) && |a.uncommitted| > 0
    ensures a.uncommitted[0].OriginalVersion() == a.version - |a.uncommitted|
  {
  }

  /** Raising a sequence of events on an aggregate extends its history by them. */
  lemma {:induction false} RaiseAllExtendsHistory<S>(k: AggregateKind<S>, a: Aggregate<S>, history: seq<TodoEvent>, events: seq<TodoEvent>)
    requires Tracks(k, a, history)
    ensures Tracks(k, RaiseAll(k, a, events), history + events)
    decreases |events|
  {
    if |events| > 0 {
      var init := events[..|events| - 1];
      RaiseAllExtendsHistory(k, a, history, init);
      RaiseExtendsHistory(k, RaiseAll(k, a, init), history + init, events[|events| - 1]);
      assert history + init + [events[|events| - 1]] == history + events;
    } else {
      assert history + events == history;
    }
  }
}
