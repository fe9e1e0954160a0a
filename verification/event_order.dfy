/** Ordering events by `OriginalVersion`, as LINQ's stable `OrderBy` does in the
    event store's reads and writes. */
module EventOrder {

  import opened TodoEvents

  predicate SortedByVersion(s: seq<TodoEvent>)
  {
    forall i, j :: 0 <= i < j < |s| ==> s[i].OriginalVersion() <= s[j].OriginalVersion()
  }

  /** The events of `s` carrying version `v`, in their order in `s`. */
  function WithVersion(s: seq<TodoEvent>, v: int): seq<TodoEvent>
  {
    if |s| == 0 then []
    else (if s[0].OriginalVersion() == v then [s[0]] else []) + WithVersion(s[1..], v)
  }

  /** Places `e` in front of the first event whose version is not smaller. */
  function Insert(e: TodoEvent, s: seq<TodoEvent>): (r: seq<TodoEvent>)
    requires SortedByVersion(s)
    ensures SortedByVersion(r)
    ensures multiset(r) == multiset(s) + multiset{e}
    ensures |r| == |s| + 1
    ensures r[0] == e || (|s| > 0 && r[0] == s[0])
  {
    if |s| == 0 || e.OriginalVersion() <= s[0].OriginalVersion() then [e] + s
    else
      var t := Insert(e, s[1..]);
      assert s == [s[0]] + s[1..];
      [s[0]] + t
  }

  /** Insertion sort: each event is inserted into the sorted rest. */
  function InsertionSort(s: seq<TodoEvent>): (r: seq<TodoEvent>)
    ensures SortedByVersion(r)
    ensures multiset(r) == multiset(s)
    ensures |r| == |s|
  {
    if |s| == 0 then []
    else
      assert s == [s[0]] + s[1..];
      Insert(s[0], InsertionSort(s[1..]))
  }

  /** `OrderBy(x => x.OriginalVersion)`: a sorted permutation of the input. */
  function SortByVersion(s: seq<TodoEvent>): (r: seq<TodoEvent>)
    ensures SortedByVersion(r)
    ensures multiset(r) == multiset(s)
    ensures |r| == |s|
  {
    InsertionSort(s)
  }

  /** An input already in version order comes back unchanged. */
  lemma SortSortedIsIdentity(s: seq<TodoEvent>)
    requires SortedByVersion(s)
    ensures SortByVersion(s) == s
  {
    InsertionSortSortedIsIdentity(s);
  }

  lemma {:induction false} InsertionSortSortedIsIdentity(s: seq<TodoEvent>)
    requires SortedByVersion(s)
    ensures InsertionSort(s) == s
    decreases |s|
  {
    if |s| > 0 {
      InsertionSortSortedIsIdentity(s[1..]);
    }
  }

  lemma {:induction false} InsertKeepsVersionOrder(e: TodoEvent, s: seq<TodoEvent>, v: int)
    requires SortedByVersion(s)
    ensures WithVersion(Insert(e, s), v) == (if e.OriginalVersion() == v then [e] else []) + WithVersion(s, v)
    decreases |s|
  {
    var mine := if e.OriginalVersion() == v then [e] else [];
    if |s| == 0 || e.OriginalVersion() <= s[0].OriginalVersion() {
      assert ([e] + s)[1..] == s;
      assert WithVersion([e] + s, v) == mine + WithVersion(s, v);
    } else {
      var t := Insert(e, s[1..]);
      var rest := WithVersion(s[1..], v);
      var head := if s[0].OriginalVersion() == v then [s[0]] else [];
      assert ([s[0]] + t)[1..] == t;
      assert WithVersion([s[0]] + t, v) == head + WithVersion(t, v);
      assert WithVersion(s, v) == head + rest;
      InsertKeepsVersionOrder(e, s[1..], v);
      assert head == [] || mine == [];
      SwapAroundEmpty(head, mine, rest);
    }
  }

  lemma SwapAroundEmpty(a: seq<TodoEvent>, b: seq<TodoEvent>, c: seq<TodoEvent>)
    requires a == [] || b == []
    ensures a + (b + c) == b + (a + c)
  {
    if a == [] {
      assert a + (b + c) == b + c;
    } else {
      assert b + (a + c) == a + c;
    }
  }

  /** Stability: events sharing a version keep their relative order. */
  lemma SortIsStable(s: seq<TodoEvent>, v: int)
    ensures WithVersion(SortByVersion(s), v) == WithVersion(s, v)
  {
    InsertionSortIsStable(s, v);
  }

  lemma {:induction false} InsertionSortIsStable(s: seq<TodoEvent>, v: int)
    ensures WithVersion(InsertionSort(s), v) == WithVersion(s, v)
    decreases |s|
  {
    if |s| > 0 {
      InsertionSortIsStable(s[1..], v);
      InsertKeepsVersionOrder(s[0], InsertionSort(s[1..]), v);
    }
  }
}
