/** The table-backed event store: one partition per aggregate, one row per event
    keyed by the event's version, writes and deletes in batches of at most 100. */
module AzureTableEventStore {

  import opened Wrappers
  import opened TodoEvents
  import opened Decimal
  import opened Chunking
  import opened EventOrder
  import opened TableStorage

  // ---------------------------------------------------------------------------
  // Construction

  /** The configuration object; its connection string may be null. */
  datatype AzureSettings = AzureSettings(storageConnectionString: Option<string>)

  /** The argument exceptions the constructor throws, in the order it checks. */
  datatype ConfigError = SettingsMissing | ConnectionStringMissing | TableNameMissing

  datatype EventStore = EventStore(storageConnectionString: string, tableName: string)

  /** .NET's `char.IsWhiteSpace`: the Unicode space separators, the line and
      paragraph separators, and the control characters U+0009 to U+000D and U+0085. */
  predicate IsWhiteSpace(c: char)
  {
    || c == ' ' || ('\t' <= c <= '\r') || c == '\U{0085}' || c == '\U{00A0}'
    || c == '\U{1680}' || ('\U{2000}' <= c <= '\U{200A}') || c == '\U{2028}' || c == '\U{2029}'
    || c == '\U{202F}' || c == '\U{205F}' || c == '\U{3000}'
  }

  /** `string.IsNullOrWhiteSpace`. */
  predicate IsNullOrWhiteSpace(s: Option<string>)
  {
    s.None? || forall i :: 0 <= i < |s.value| ==> IsWhiteSpace(s.value[i])
  }

  /** The constructor: rejects a missing settings object, then a blank connection
      string, then a blank table name; otherwise keeps both strings. */
  function Create(settings: Option<AzureSettings>, tableName: Option<string>): (r: Result<EventStore, ConfigError>)
    ensures r.Ok? <==>
      settings.Some? && !IsNullOrWhiteSpace(settings.value.storageConnectionString) && !IsNullOrWhiteSpace(tableName)
    ensures r.Ok? ==>
      Some(r.value.storageConnectionString) == settings.value.storageConnectionString && Some(r.value.tableName) == tableName
    ensures settings.None? ==> r == Err(SettingsMissing)
    ensures settings.Some? && IsNullOrWhiteSpace(settings.value.storageConnectionString) ==> r == Err(ConnectionStringMissing)
    ensures r.Err? && settings.Some? && !IsNullOrWhiteSpace(settings.value.storageConnectionString) ==> r == Err(TableNameMissing)
  {
    if settings.None? then Err(SettingsMissing)
    else if IsNullOrWhiteSpace(settings.value.storageConnectionString) then Err(ConnectionStringMissing)
    else if IsNullOrWhiteSpace(tableName) then Err(TableNameMissing)
    else Ok(EventStore(settings.value.storageConnectionString.value, tableName.value))
  }

  // ---------------------------------------------------------------------------
  // The entity an event is stored as

  /** The store slot an event claims: its aggregate and its version. */
  function Slot(e: TodoEvent): (string, int)
  {
    (e.Id(), e.OriginalVersion())
  }

  /** `new DomainEventEntity(event)`: partition key = aggregate id, row key = the
      version in decimal. */
  function ToEntity(e: TodoEvent): (r: Row)
    ensures r.event == e && r.partitionKey == e.Id()
  {
    Row(e.Id(), FormatInt(e.OriginalVersion()), e)
  }

  /** `DomainEventEntity.Version`: the row key read back as a number; a key
      that is not a 32-bit decimal number makes `int.Parse` throw. */
  function EntityVersion(r: Row): (v: Option<int>)
    ensures v.Some? ==> IsInt32(v.value) && r.rowKey != []
    ensures v.None? ==> forall n :: IsInt32(n) ==> r.rowKey != FormatInt(n)
  {
    var v := ParseInt(r.rowKey);
    if v.None? then
      forall n | IsInt32(n)
        ensures r.rowKey != FormatInt(n)
      {
        ParseFormat(n);
      }
      v
    else v
  }

  /** `DomainEventEntity.Id`: the partition key. */
  function EntityId(r: Row): string
  {
    r.partitionKey
  }

  /** The entity's keys give back the event's id and version, and its payload the event. */
  lemma EntityRoundTrip(e: TodoEvent)
    requires IsInt32(e.OriginalVersion())
    ensures EntityVersion(ToEntity(e)) == Some(e.OriginalVersion())
    ensures EntityId(ToEntity(e)) == e.Id()
    ensures ToEntity(e).event == e
  {
    ParseFormat(e.OriginalVersion());
  }

  /** Two events collide on a row address exactly when they claim the same slot. */
  lemma EntityKeyIsSlot(a: TodoEvent, b: TodoEvent)
    ensures ToEntity(a).Key() == ToEntity(b).Key() <==> Slot(a) == Slot(b)
  {
    FormatIntInjective(a.OriginalVersion(), b.OriginalVersion());
  }

  function ToEntities(s: seq<TodoEvent>): (r: seq<Row>)
    ensures |r| == |s| && forall i :: 0 <= i < |s| ==> r[i] == ToEntity(s[i])
  {
    seq(|s|, i requires 0 <= i < |s| => ToEntity(s[i]))
  }

  function Events(rows: seq<Row>): (r: seq<TodoEvent>)
    ensures |r| == |rows| && forall i :: 0 <= i < |rows| ==> r[i] == rows[i].event
  {
    seq(|rows|, i requires 0 <= i < |rows| => rows[i].event)
  }

  /** No two events claim the same slot. */
  predicate SlotsDistinct(s: seq<TodoEvent>)
  {
    forall i, j :: 0 <= i < j < |s| ==> Slot(s[i]) != Slot(s[j])
  }

  // ---------------------------------------------------------------------------
  // Reading

  /** `GetById`: the aggregate's partition, ordered by version. */
  function GetById(table: seq<Row>, aggregateId: string): (r: seq<TodoEvent>)
    ensures SortedByVersion(r)
    ensures multiset(r) == multiset(Events(Query(table, aggregateId)))
  {
    SortByVersion(Events(Query(table, aggregateId)))
  }

  // ---------------------------------------------------------------------------
  // Writing and deleting

  datatype StoreStatus =
    | Committed
    | Failed(batch: nat, error: TableError)   // batches before `batch` were committed

  datatype StoreResult = StoreResult(table: seq<Row>, status: StoreStatus)

  /** Runs insert batches in order from batch number `index`, stopping at the
      first that fails; `fault` names the batch whose request the transport loses. */
  function CommitInserts(table: seq<Row>, batches: seq<seq<Row>>, index: nat, fault: Option<nat>): (r: StoreResult)
    requires WellKeyed(table)
    ensures WellKeyed(r.table)
    ensures r.status.Committed? ==> r.table == table + Flatten(batches)
    ensures r.status.Failed? ==>
      && index <= r.status.batch < index + |batches|
      && r.table == table + Flatten(batches[..r.status.batch - index])
    decreases |batches|
  {
    if |batches| == 0 then StoreResult(table, Committed)
    else if fault == Some(index) then StoreResult(table, Failed(index, Transport))
    else match InsertBatch(table, batches[0])
      case Err(e) => StoreResult(table, Failed(index, e))
      case Ok(next) =>
        var r := CommitInserts(next, batches[1..], index + 1, fault);
        assert r.status.Failed? ==> batches[..r.status.batch - index] == [batches[0]] + batches[1..][..r.status.batch - index - 1];
        r
  }

  /** `Save`: sorts the events by version and inserts them in consecutive batches
      of at most 100. Neither `aggregateId` nor `expectedVersion` is consulted:
      the only concurrency check is the table refusing an occupied address. */
  function Save(table: seq<Row>, aggregateId: string, expectedVersion: int, events: seq<TodoEvent>, fault: Option<nat>): (r: StoreResult)
    requires WellKeyed(table)
    ensures WellKeyed(r.table)
    ensures r.status.Committed? ==> r.table == table + ToEntities(SortByVersion(events))
    ensures r.status.Failed? ==>
      && r.status.batch * BatchLimit < |events|
      && r.table == table + ToEntities(SortByVersion(events)[..r.status.batch * BatchLimit])
  {
    var sorted := SortByVersion(events);
    var batches := Chunks(ToEntities(sorted));
    var r := CommitInserts(table, batches, 0, fault);
    if r.status.Failed? then
      var k := r.status.batch;
      ChunksPrefix(ToEntities(sorted), k);
      assert ToEntities(sorted)[..k * BatchLimit] == ToEntities(sorted[..k * BatchLimit]);
      r
    else r
  }

  /** Runs delete batches in order from batch number `index`, stopping at the
      first that fails. */
  function CommitDeletes(table: seq<Row>, batches: seq<seq<Row>>, index: nat, fault: Option<nat>): (r: StoreResult)
    ensures WellKeyed(table) ==> WellKeyed(r.table)
    ensures r.status.Committed? ==> r.table == Without(table, Keys(Flatten(batches)))
    ensures r.status.Failed? ==>
      && index <= r.status.batch < index + |batches|
      && r.table == Without(table, Keys(Flatten(batches[..r.status.batch - index])))
    decreases |batches|
  {
    if |batches| == 0 then
      WithoutNothing(table);
      assert Keys(Flatten(batches)) == {};
      StoreResult(table, Committed)
    else if fault == Some(index) then
      WithoutNothing(table);
      assert Keys(Flatten(batches[..0])) == {};
      StoreResult(table, Failed(index, Transport))
    else match DeleteBatch(table, batches[0])
      case Err(e) =>
        WithoutNothing(table);
        assert Keys(Flatten(batches[..0])) == {};
        StoreResult(table, Failed(index, e))
      case Ok(next) =>
        var r := CommitDeletes(next, batches[1..], index + 1, fault);
        if r.status.Committed? then
          DeleteStep(table, batches);
          r
        else
          DeletePrefixStep(table, batches, r.status.batch - index);
          r
  }

  /** Deleting the first batch and then the rest is deleting them all at once. */
  lemma DeleteStep(table: seq<Row>, batches: seq<seq<Row>>)
    requires |batches| > 0
    ensures Without(Without(table, Keys(batches[0])), Keys(Flatten(batches[1..]))) == Without(table, Keys(Flatten(batches)))
  {
    assert batches == [batches[0]] + batches[1..];
    FlattenCons(batches[0], batches[1..]);
    KeysAppend(batches[0], Flatten(batches[1..]));
    WithoutTwice(table, Keys(batches[0]), Keys(Flatten(batches[1..])));
  }

  /** The same for the first `j` batches. */
  lemma DeletePrefixStep(table: seq<Row>, batches: seq<seq<Row>>, j: nat)
    requires 0 < j <= |batches|
    ensures Without(Without(table, Keys(batches[0])), Keys(Flatten(batches[1..][..j - 1]))) == Without(table, Keys(Flatten(batches[..j])))
  {
    var done := batches[1..][..j - 1];
    assert batches[..j] == [batches[0]] + done;
    FlattenCons(batches[0], done);
    KeysAppend(batches[0], Flatten(done));
    WithoutTwice(table, Keys(batches[0]), Keys(Flatten(done)));
  }

  /** `Delete`: every row of the aggregate's partition, in batches of at most 100. */
  function Delete(table: seq<Row>, aggregateId: string, fault: Option<nat>): (r: StoreResult)
    ensures WellKeyed(table) ==> WellKeyed(r.table)
    ensures r.status.Committed? ==> forall x :: x in r.table <==> x in table && x.partitionKey != aggregateId
    ensures r.status.Failed? ==>
      var rows := Query(table, aggregateId);
      && r.status.batch * BatchLimit < |rows|
      && r.table == Without(table, Keys(rows[..r.status.batch * BatchLimit]))
  {
    var rows := Query(table, aggregateId);
    var batches := Chunks(rows);
    var r := CommitDeletes(table, batches, 0, fault);
    if r.status.Failed? then
      ChunksPrefix(rows, r.status.batch);
      r
    else
      assert forall x :: x in table && x.partitionKey == aggregateId ==> x.Key() in Keys(rows) by {
        forall x | x in table && x.partitionKey == aggregateId
          ensures x.Key() in Keys(rows)
        {
          assert x in rows;
        }
      }
      r
  }

  /** What a failed delete leaves, whatever order the partition query returns
      rows in: no row is added, every row of other partitions stays, and the
      partition is not emptied, since the failing batch's rows are still there. */
  lemma FailedDeleteKeepsTheRest(table: seq<Row>, aggregateId: string, fault: Option<nat>)
    requires WellKeyed(table)
    ensures var r := Delete(table, aggregateId, fault);
      r.status.Failed? ==>
        && (forall x :: x in r.table ==> x in table)
        && (forall x :: x in table && x.partitionKey != aggregateId ==> x in r.table)
        && Query(r.table, aggregateId) != []
  {
    var r := Delete(table, aggregateId, fault);
    if r.status.Failed? {
      var rows := Query(table, aggregateId);
      var n := r.status.batch * BatchLimit;
      var gone := Keys(rows[..n]);
      assert forall y :: y in rows[..n] ==> y in rows;
      var kept := rows[n];
      assert forall i :: 0 <= i < n ==> rows[..n][i].Key() != kept.Key();
      assert kept in rows;
    }
  }

  // ---------------------------------------------------------------------------
  // Helper facts about keys

  lemma {:induction false} WithoutNothing(rows: seq<Row>)
    ensures Without(rows, {}) == rows
    decreases |rows|
  {
    if |rows| > 0 {
      WithoutNothing(rows[1..]);
      assert rows == [rows[0]] + rows[1..];
    }
  }

  lemma {:induction false} WithoutTwice(rows: seq<Row>, a: set<Key>, b: set<Key>)
    ensures Without(Without(rows, a), b) == Without(rows, a + b)
    decreases |rows|
  {
    if |rows| > 0 {
      WithoutTwice(rows[1..], a, b);
      var w := Without(rows[1..], a);
      if rows[0].Key() !in a {
        assert ([rows[0]] + w)[1..] == w;
      }
    }
  }

  // ---------------------------------------------------------------------------
  // Slots and permutations

  lemma {:induction false} TwoPositions(s: seq<TodoEvent>, x: TodoEvent)
    requires multiset(s)[x] >= 2
    ensures exists p, q :: 0 <= p < q < |s| && s[p] == x && s[q] == x
    decreases |s|
  {
    assert s == [s[0]] + s[1..];
    if s[0] == x {
      assert x in multiset(s[1..]);
      var q :| 0 <= q < |s[1..]| && s[1..][q] == x;
      assert s[q + 1] == x;
    } else {
      TwoPositions(s[1..], x);
      var p, q :| 0 <= p < q < |s[1..]| && s[1..][p] == x && s[1..][q] == x;
      assert s[p + 1] == x && s[q + 1] == x;
    }
  }

  lemma CountTwo(s: seq<TodoEvent>, i: nat, j: nat)
    requires i < j < |s| && s[i] == s[j]
    ensures multiset(s)[s[i]] >= 2
  {
    assert s == s[..j] + s[j..];
    assert s[i] in s[..j];
    assert s[j] in s[j..];
  }

  /** Whether slots are distinct does not depend on the order of the events. */
  lemma SlotsDistinctPermutation(a: seq<TodoEvent>, b: seq<TodoEvent>)
    requires multiset(a) == multiset(b)
    requires SlotsDistinct(a)
    ensures SlotsDistinct(b)
  {
    forall i, j | 0 <= i < j < |b|
      ensures Slot(b[i]) != Slot(b[j])
    {
      if b[i] == b[j] {
        CountTwo(b, i, j);
        TwoPositions(a, b[i]);
      } else {
        assert b[i] in multiset(a) && b[j] in multiset(a);
        var p :| 0 <= p < |a| && a[p] == b[i];
        var q :| 0 <= q < |a| && a[q] == b[j];
        assert p != q;
      }
    }
  }

  /** The entities of a sequence of events are well keyed exactly when no two of
      the events claim the same slot. */
  lemma EntitiesWellKeyed(s: seq<TodoEvent>)
    ensures WellKeyed(ToEntities(s)) <==> SlotsDistinct(s)
  {
    forall i, j | 0 <= i < j < |s|
      ensures ToEntities(s)[i].Key() == ToEntities(s)[j].Key() <==> Slot(s[i]) == Slot(s[j])
    {
      EntityKeyIsSlot(s[i], s[j]);
    }
  }

  // ---------------------------------------------------------------------------
  // What a save guarantees

  /** A save that commits wrote every event exactly once, and this is only
      possible when no two events shared a slot and no slot was already taken. */
  lemma SaveCommitsEachEventOnce(table: seq<Row>, aggregateId: string, expectedVersion: int, events: seq<TodoEvent>, fault: Option<nat>)
    requires WellKeyed(table)
    requires Save(table, aggregateId, expectedVersion, events, fault).status.Committed?
    ensures var after := Save(table, aggregateId, expectedVersion, events, fault).table;
      && |after| == |table| + |events|
      && (forall e :: e in events ==> ToEntity(e) in after)
      && SlotsDistinct(events)
      && (forall e :: e in events ==> ToEntity(e).Key() !in Keys(table))
  {
    var sorted := SortByVersion(events);
    var added := ToEntities(sorted);
    var after := table + added;
    WellKeyedAppend(table, added);
    EntitiesWellKeyed(sorted);
    SlotsDistinctPermutation(sorted, events);
    forall e | e in events
      ensures ToEntity(e) in after && ToEntity(e).Key() !in Keys(table)
    {
      assert e in multiset(sorted);
      var p :| 0 <= p < |sorted| && sorted[p] == e;
      assert added[p] == ToEntity(e) && added[p] in added;
    }
  }

  /** Optimistic concurrency: once a save has committed, a second save that
      claims any of the same slots cannot commit, and when it fits in one batch
      it writes nothing at all. */
  lemma SecondSaveOfSameSlotConflicts(
    table: seq<Row>, first: seq<TodoEvent>, second: seq<TodoEvent>,
    id1: string, id2: string, v1: int, v2: int, f1: Option<nat>, f2: Option<nat>,
    e1: TodoEvent, e2: TodoEvent)
    requires WellKeyed(table)
    requires Save(table, id1, v1, first, f1).status.Committed?
    requires e1 in first && e2 in second && Slot(e1) == Slot(e2)
    ensures var mid := Save(table, id1, v1, first, f1).table;
      var r := Save(mid, id2, v2, second, f2);
      && !r.status.Committed?
      && (|second| <= BatchLimit ==> r.table == mid)
  {
    var sorted := SortByVersion(first);
    var mid := table + ToEntities(sorted);
    assert e1 in multiset(sorted);
    var p :| 0 <= p < |sorted| && sorted[p] == e1;
    assert ToEntities(sorted)[p] in mid;
    EntityKeyIsSlot(e1, e2);
    assert ToEntity(e2).Key() in Keys(mid);
    OccupiedSlotFailsSave(mid, id2, v2, second, f2, e2);
    if |second| <= BatchLimit {
      FailedSingleBatchWritesNothing(mid, id2, v2, second, f2);
    }
  }

  /** A save containing an event whose slot is already occupied does not commit. */
  lemma OccupiedSlotFailsSave(table: seq<Row>, id: string, v: int, events: seq<TodoEvent>, f: Option<nat>, e: TodoEvent)
    requires WellKeyed(table)
    requires e in events && ToEntity(e).Key() in Keys(table)
    ensures !Save(table, id, v, events, f).status.Committed?
  {
    if Save(table, id, v, events, f).status.Committed? {
      SaveCommitsEachEventOnce(table, id, v, events, f);
    }
  }

  /** A save that fits one batch and fails writes nothing. */
  lemma FailedSingleBatchWritesNothing(table: seq<Row>, id: string, v: int, events: seq<TodoEvent>, f: Option<nat>)
    requires WellKeyed(table)
    requires |events| <= BatchLimit && !Save(table, id, v, events, f).status.Committed?
    ensures Save(table, id, v, events, f).table == table
  {
    var r := Save(table, id, v, events, f);
    var b := r.status.batch;
    assert b * BatchLimit < BatchLimit;
    assert b == 0;
    assert SortByVersion(events)[..0] == [];
    assert ToEntities([]) == [];
    assert table + [] == table;
  }

  lemma {:induction false} CommitInsertsSucceeds(table: seq<Row>, batches: seq<seq<Row>>, index: nat, partitionKey: string)
    requires WellKeyed(table)
    requires WellKeyed(Flatten(batches)) && Keys(Flatten(batches)) !! Keys(table)
    requires forall i :: 0 <= i < |batches| ==> 0 < |batches[i]| <= BatchLimit
    requires forall x :: x in Flatten(batches) ==> x.partitionKey == partitionKey
    ensures CommitInserts(table, batches, index, None).status.Committed?
    decreases |batches|
  {
    if |batches| > 0 {
      var b := batches[0];
      var rest := Flatten(batches[1..]);
      WellKeyedAppend(b, rest);
      KeysAppend(b, rest);
      assert forall i :: 0 <= i < |b| ==> b[i] in Flatten(batches);
      assert WellFormedBatch(b);
      KeysAppend(table, b);
      WellKeyedAppend(table, b);
      assert forall x :: x in rest ==> x in Flatten(batches);
      CommitInsertsSucceeds(table + b, batches[1..], index + 1, partitionKey);
    }
  }

  /** A save without a transport fault commits when its events belong to one
      aggregate, claim distinct slots and find every slot free. */
  lemma SaveOnFreeSlotsCommits(table: seq<Row>, aggregateId: string, expectedVersion: int, events: seq<TodoEvent>)
    requires WellKeyed(table)
    requires SlotsDistinct(events)
    requires forall e :: e in events ==> e.Id() == aggregateId && ToEntity(e).Key() !in Keys(table)
    ensures Save(table, aggregateId, expectedVersion, events, None).status.Committed?
  {
    var sorted := SortByVersion(events);
    var added := ToEntities(sorted);
    SlotsDistinctPermutation(events, sorted);
    EntitiesWellKeyed(sorted);
    forall x | x in added
      ensures x.partitionKey == aggregateId && x.Key() !in Keys(table)
    {
      var p :| 0 <= p < |added| && added[p] == x;
      assert sorted[p] in multiset(events);
    }
    CommitInsertsSucceeds(table, Chunks(added), 0, aggregateId);
  }

  /** Reading an aggregate back after its first save gives its events in version order. */
  lemma ReadAfterSave(table: seq<Row>, aggregateId: string, expectedVersion: int, events: seq<TodoEvent>, fault: Option<nat>)
    requires WellKeyed(table)
    requires Query(table, aggregateId) == []
    requires forall e :: e in events ==> e.Id() == aggregateId
    requires Save(table, aggregateId, expectedVersion, events, fault).status.Committed?
    ensures GetById(Save(table, aggregateId, expectedVersion, events, fault).table, aggregateId) == SortByVersion(events)
  {
    var sorted := SortByVersion(events);
    var added := ToEntities(sorted);
    var after := Save(table, aggregateId, expectedVersion, events, fault).table;
    assert after == table + added;
    QueryAppend(table, added, aggregateId);
    SortedEntitiesInPartition(events, aggregateId);
    QueryWholePartition(added, aggregateId);
    assert Query(after, aggregateId) == added;
    assert Events(added) == sorted;
    SortSortedIsIdentity(sorted);
  }

  /** The events of `id` numbered `base`, `base + 1`, ... in order. */
  predicate Consecutive(s: seq<TodoEvent>, id: string, base: int)
  {
    forall i :: 0 <= i < |s| ==> s[i].Id() == id && s[i].OriginalVersion() == base + i
  }

  /** A consecutively numbered stream is in version order and claims distinct slots. */
  lemma ConsecutiveIsOrdered(s: seq<TodoEvent>, id: string, base: int)
    requires Consecutive(s, id, base)
    ensures SortedByVersion(s) && SlotsDistinct(s)
  {
  }

  /** Two consecutive runs, the second starting where the first ends, make one. */
  lemma ConsecutiveAppend(a: seq<TodoEvent>, b: seq<TodoEvent>, id: string)
    requires Consecutive(a, id, 0) && Consecutive(b, id, |a|)
    ensures Consecutive(a + b, id, 0)
  {
  }

  lemma EventsOfEntities(s: seq<TodoEvent>)
    ensures Events(ToEntities(s)) == s
  {
  }

  /** When a partition holds the entities of versions 0 .. n-1, the slots of
      versions n, n+1, ... are free. */
  lemma NextSlotsFree(table: seq<Row>, aggregateId: string, history: seq<TodoEvent>, events: seq<TodoEvent>)
    requires Query(table, aggregateId) == ToEntities(history)
    requires Consecutive(history, aggregateId, 0) && Consecutive(events, aggregateId, |history|)
    ensures forall e :: e in events ==> e.Id() == aggregateId && ToEntity(e).Key() !in Keys(table)
  {
    forall e | e in events
      ensures ToEntity(e).Key() !in Keys(table)
    {
      if ToEntity(e).Key() in Keys(table) {
        var x :| x in table && x.Key() == ToEntity(e).Key();
        assert x in Query(table, aggregateId);
        var j :| 0 <= j < |history| && ToEntities(history)[j] == x;
        EntityKeyIsSlot(history[j], e);
        assert false;
      }
    }
  }

  /** Adding the entities of the following versions to a partition that holds
      a stream's entities extends it by them. */
  lemma PartitionAfterAppend(table: seq<Row>, aggregateId: string, history: seq<TodoEvent>, events: seq<TodoEvent>)
    requires Query(table, aggregateId) == ToEntities(history)
    requires Consecutive(events, aggregateId, |history|)
    ensures Query(table + ToEntities(events), aggregateId) == ToEntities(history + events)
  {
    var added := ToEntities(events);
    QueryAppend(table, added, aggregateId);
    assert forall i :: 0 <= i < |added| ==> added[i].partitionKey == events[i].Id();
    QueryWholePartition(added, aggregateId);
    ToEntitiesAppend(history, events);
  }

  lemma ToEntitiesAppend(a: seq<TodoEvent>, b: seq<TodoEvent>)
    ensures ToEntities(a) + ToEntities(b) == ToEntities(a + b)
  {
    var l := ToEntities(a) + ToEntities(b);
    var r := ToEntities(a + b);
    assert |l| == |r|;
    forall i | 0 <= i < |l|
      ensures l[i] == r[i]
    {
      if i < |a| {
        assert l[i] == ToEntity(a[i]);
      } else {
        assert l[i] == ToEntity(b[i - |a|]);
      }
    }
  }

  /** A partition holding the entities of versions 0 .. n-1 reads back as that stream. */
  lemma ReadConsecutive(table: seq<Row>, aggregateId: string, stream: seq<TodoEvent>)
    requires Query(table, aggregateId) == ToEntities(stream)
    requires Consecutive(stream, aggregateId, 0)
    ensures GetById(table, aggregateId) == stream
  {
    ConsecutiveIsOrdered(stream, aggregateId, 0);
    EventsOfEntities(stream);
    SortSortedIsIdentity(stream);
  }

  /** Appending the next versions to an existing stream: a save of the events
      numbered from the stream's length commits without a transport fault, and
      the partition then holds the old entities followed by the new, so that
      `GetById` reads back the extended stream. */
  lemma AppendToStream(table: seq<Row>, aggregateId: string, expectedVersion: int, history: seq<TodoEvent>, events: seq<TodoEvent>)
    requires WellKeyed(table)
    requires Query(table, aggregateId) == ToEntities(history)
    requires Consecutive(history, aggregateId, 0) && Consecutive(events, aggregateId, |history|)
    ensures var r := Save(table, aggregateId, expectedVersion, events, None);
      && r.status.Committed?
      && Query(r.table, aggregateId) == ToEntities(history + events)
      && GetById(r.table, aggregateId) == history + events
  {
    ConsecutiveIsOrdered(events, aggregateId, |history|);
    NextSlotsFree(table, aggregateId, history, events);
    SaveOnFreeSlotsCommits(table, aggregateId, expectedVersion, events);
    SortSortedIsIdentity(events);
    var after := Save(table, aggregateId, expectedVersion, events, None).table;
    assert after == table + ToEntities(events);
    PartitionAfterAppend(table, aggregateId, history, events);
    ConsecutiveAppend(history, events, aggregateId);
    ReadConsecutive(after, aggregateId, history + events);
  }

  /** Sorting events of one aggregate gives entities of its partition. */
  lemma SortedEntitiesInPartition(events: seq<TodoEvent>, aggregateId: string)
    requires forall e :: e in events ==> e.Id() == aggregateId
    ensures forall i :: 0 <= i < |events| ==> ToEntities(SortByVersion(events))[i].partitionKey == aggregateId
  {
    var sorted := SortByVersion(events);
    forall i | 0 <= i < |sorted|
      ensures ToEntities(sorted)[i].partitionKey == aggregateId
    {
      assert sorted[i] in multiset(events);
    }
  }

  // ---------------------------------------------------------------------------
  // What a delete guarantees

  lemma {:induction false} CommitDeletesSucceeds(table: seq<Row>, batches: seq<seq<Row>>, index: nat, partitionKey: string)
    requires WellKeyed(Flatten(batches))
    requires forall x :: x in Flatten(batches) ==> x in table && x.partitionKey == partitionKey
    requires forall i :: 0 <= i < |batches| ==> 0 < |batches[i]| <= BatchLimit
    ensures CommitDeletes(table, batches, index, None).status.Committed?
    decreases |batches|
  {
    if |batches| > 0 {
      var b := batches[0];
      var rest := Flatten(batches[1..]);
      WellKeyedAppend(b, rest);
      assert forall i :: 0 <= i < |b| ==> b[i] in Flatten(batches);
      assert WellFormedBatch(b);
      assert Keys(b) <= Keys(table);
      var next := Without(table, Keys(b));
      forall x | x in rest
        ensures x in next && x.partitionKey == partitionKey
      {
        assert x in Flatten(batches);
        assert x.Key() in Keys(rest);
      }
      CommitDeletesSucceeds(next, batches[1..], index + 1, partitionKey);
    }
  }

  /** Without a transport fault a delete always completes; afterwards the
      aggregate has no events and every other aggregate reads as before. */
  lemma DeleteEmptiesOnlyItsPartition(table: seq<Row>, aggregateId: string, other: string)
    requires WellKeyed(table)
    requires other != aggregateId
    ensures var r := Delete(table, aggregateId, None);
      && r.status.Committed?
      && GetById(r.table, aggregateId) == []
      && GetById(r.table, other) == GetById(table, other)
  {
    var rows := Query(table, aggregateId);
    CommitDeletesSucceeds(table, Chunks(rows), 0, aggregateId);
    var r := Delete(table, aggregateId, None);
    assert forall i :: 0 <= i < |r.table| ==> r.table[i] in r.table;
    QueryAbsentPartition(r.table, aggregateId);
    assert r.table == Without(table, Keys(Flatten(Chunks(rows))));
    QueryWithoutOther(table, Keys(rows), other);
  }
}
