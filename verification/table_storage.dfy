/** The slice of a storage table the event store relies on: rows addressed by
    (partition key, row key), a partition query, and batch transactions that
    apply all of their operations or none. */
module TableStorage {

  import opened Wrappers
  import Chunking
  import opened TodoEvents

  /** The address of a row: (partition key, row key). */
  type Key = (string, string)

  /** A stored entity. Its payload, which the source keeps as a serialised event
      plus the event's type name, is held here as the event itself. */
  datatype Row = Row(partitionKey: string, rowKey: string, event: TodoEvent)
  {
    function Key(): Key { (partitionKey, rowKey) }
  }

  function Keys(rows: seq<Row>): set<Key>
  {
    set x | x in rows :: x.Key()
  }

  /** No two rows share an address: the table's primary-key constraint. */
  predicate WellKeyed(rows: seq<Row>)
  {
    forall i, j :: 0 <= i < j < |rows| ==> rows[i].Key() != rows[j].Key()
  }

  /** What a rejected batch reports. */
  datatype TableError =
    | Conflict        // an inserted row's address is already taken
    | NotFound        // a deleted row is not there
    | InvalidBatch    // empty, over the limit, several partitions, or one row twice
    | Transport       // the service could not be reached

  /** The shape every batch must have: 1 to 100 operations on distinct rows of one partition. */
  predicate WellFormedBatch(batch: seq<Row>)
  {
    && 0 < |batch| <= Chunking.BatchLimit
    && (forall i :: 0 <= i < |batch| ==> batch[i].partitionKey == batch[0].partitionKey)
    && WellKeyed(batch)
  }

  /** The rows of one partition, in table order. */
  function Query(rows: seq<Row>, partitionKey: string): (r: seq<Row>)
    ensures forall x :: x in r <==> x in rows && x.partitionKey == partitionKey
    ensures WellKeyed(rows) ==> WellKeyed(r)
  {
    if |rows| == 0 then []
    else
      var rest := Query(rows[1..], partitionKey);
      assert forall x :: x in rows <==> x == rows[0] || x in rows[1..];
      if rows[0].partitionKey == partitionKey then [rows[0]] + rest else rest
  }

  /** The table with every row whose address is in `ks` taken out. */
  function Without(rows: seq<Row>, ks: set<Key>): (r: seq<Row>)
    ensures forall x :: x in r <==> x in rows && x.Key() !in ks
    ensures WellKeyed(rows) ==> WellKeyed(r)
  {
    if |rows| == 0 then []
    else
      var rest := Without(rows[1..], ks);
      assert forall x :: x in rows <==> x == rows[0] || x in rows[1..];
      if rows[0].Key() in ks then rest else [rows[0]] + rest
  }

  /** An insert batch: all rows are added, or, if the batch is malformed or one
      of its addresses is taken, none is. */
  function InsertBatch(rows: seq<Row>, batch: seq<Row>): (r: Result<seq<Row>, TableError>)
    requires WellKeyed(rows)
    ensures r.Ok? <==> WellFormedBatch(batch) && Keys(batch) !! Keys(rows)
    ensures r.Ok? ==> r.value == rows + batch && WellKeyed(r.value)
    ensures r.Err? && WellFormedBatch(batch) ==> r.error == Conflict
  {
    if !WellFormedBatch(batch) then Err(InvalidBatch)
    else if !(Keys(batch) !! Keys(rows)) then Err(Conflict)
    else
      assert WellKeyed(rows + batch) by {
        forall i, j | 0 <= i < j < |rows + batch|
          ensures (rows + batch)[i].Key() != (rows + batch)[j].Key()
        {
          if j >= |rows| && i < |rows| {
            assert rows[i] in rows && batch[j - |rows|] in batch;
            assert rows[i].Key() in Keys(rows) && batch[j - |rows|].Key() in Keys(batch);
          }
        }
      }
      Ok(rows + batch)
  }

  /** A delete batch: all rows go, or, if the batch is malformed or one of them
      is missing, none does. */
  function DeleteBatch(rows: seq<Row>, batch: seq<Row>): (r: Result<seq<Row>, TableError>)
    ensures r.Ok? <==> WellFormedBatch(batch) && Keys(batch) <= Keys(rows)
    ensures r.Ok? ==> r.value == Without(rows, Keys(batch))
    ensures r.Err? && WellFormedBatch(batch) ==> r.error == NotFound
  {
    if !WellFormedBatch(batch) then Err(InvalidBatch)
    else if !(Keys(batch) <= Keys(rows)) then Err(NotFound)
    else Ok(Without(rows, Keys(batch)))
  }

  // ---------------------------------------------------------------------------
  // Facts about addresses and queries

  lemma KeysAppend(a: seq<Row>, b: seq<Row>)
    ensures Keys(a + b) == Keys(a) + Keys(b)
  {
    assert forall x :: x in a + b <==> x in a || x in b;
  }

  /** Two row sequences can be stored side by side exactly when each is well keyed
      and they share no address. */
  lemma WellKeyedAppend(a: seq<Row>, b: seq<Row>)
    ensures WellKeyed(a + b) <==> WellKeyed(a) && WellKeyed(b) && Keys(a) !! Keys(b)
  {
    if WellKeyed(a + b) {
      assert forall i :: 0 <= i < |a| ==> (a + b)[i] == a[i];
      assert forall j :: 0 <= j < |b| ==> (a + b)[|a| + j] == b[j];
      forall x, y | x in a && y in b
        ensures x.Key() != y.Key()
      {
        var i :| 0 <= i < |a| && a[i] == x;
        var j :| 0 <= j < |b| && b[j] == y;
        assert (a + b)[i] == x && (a + b)[|a| + j] == y;
      }
    }
    if WellKeyed(a) && WellKeyed(b) && Keys(a) !! Keys(b) {
      forall i, j | 0 <= i < j < |a + b|
        ensures (a + b)[i].Key() != (a + b)[j].Key()
      {
        if i < |a| && j >= |a| {
          assert a[i] in a && b[j - |a|] in b;
          assert a[i].Key() in Keys(a) && b[j - |a|].Key() in Keys(b);
        }
      }
    }
  }

  lemma {:induction false} QueryAppend(a: seq<Row>, b: seq<Row>, partitionKey: string)
    ensures Query(a + b, partitionKey) == Query(a, partitionKey) + Query(b, partitionKey)
    decreases |a|
  {
    if |a| == 0 {
      assert a + b == b;
    } else {
      assert (a + b)[1..] == a[1..] + b;
      QueryAppend(a[1..], b, partitionKey);
    }
  }

  /** A sequence of rows of one partition is its own query result. */
  lemma {:induction false} QueryWholePartition(rows: seq<Row>, partitionKey: string)
    requires forall i :: 0 <= i < |rows| ==> rows[i].partitionKey == partitionKey
    ensures Query(rows, partitionKey) == rows
    decreases |rows|
  {
    if |rows| > 0 {
      QueryWholePartition(rows[1..], partitionKey);
    }
  }

  /** Removing addresses of other partitions leaves a partition's query unchanged. */
  lemma {:induction false} QueryWithoutOther(rows: seq<Row>, ks: set<Key>, partitionKey: string)
    requires forall k :: k in ks ==> k.0 != partitionKey
    ensures Query(Without(rows, ks), partitionKey) == Query(rows, partitionKey)
    decreases |rows|
  {
    if |rows| > 0 {
      QueryWithoutOther(rows[1..], ks, partitionKey);
      var w := Without(rows[1..], ks);
      if rows[0].Key() !in ks {
        assert ([rows[0]] + w)[1..] == w;
      }
    }
  }

  /** A table with no row in a partition answers that partition's query with nothing. */
  lemma {:induction false} QueryAbsentPartition(rows: seq<Row>, partitionKey: string)
    requires forall i :: 0 <= i < |rows| ==> rows[i].partitionKey != partitionKey
    ensures Query(rows, partitionKey) == []
    decreases |rows|
  {
    if |rows| > 0 {
      QueryAbsentPartition(rows[1..], partitionKey);
    }
  }
}
