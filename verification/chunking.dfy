/** Splitting a sequence into consecutive slices of bounded size, the way the
    event store's `Skip(n).Take(100)` loops walk their input. */
module Chunking {

  /** The largest number of operations one table batch may hold. */
  const BatchLimit: nat := 100

  /** Concatenation of a sequence of slices. */
  function Flatten<T>(ss: seq<seq<T>>): seq<T>
  {
    if |ss| == 0 then [] else ss[0] + Flatten(ss[1..])
  }

  lemma {:induction false} FlattenAppend<T>(a: seq<seq<T>>, b: seq<seq<T>>)
    ensures Flatten(a + b) == Flatten(a) + Flatten(b)
    decreases |a|
  {
    if |a| > 0 {
      assert (a + b)[1..] == a[1..] + b;
      FlattenAppend(a[1..], b);
    } else {
      assert a + b == b;
    }
  }

  function Min(a: nat, b: nat): nat
  {
    if a <= b then a else b
  }

  /** The batches `s` is cut into: each slice holds 1 to `BatchLimit` items, only
      the last may be short, and together they give back `s` in order. */
  function Chunks<T>(s: seq<T>): (r: seq<seq<T>>)
    ensures Flatten(r) == s
    ensures forall i :: 0 <= i < |r| ==> 0 < |r[i]| <= BatchLimit
    ensures forall i :: 0 <= i < |r| - 1 ==> |r[i]| == BatchLimit
    ensures |r| == (|s| + BatchLimit - 1) / BatchLimit
    decreases |s|
  {
    if |s| == 0 then []
    else
      var n := Min(BatchLimit, |s|);
      [s[..n]] + Chunks(s[n..])
  }

  lemma FlattenCons<T>(a: seq<T>, rest: seq<seq<T>>)
    ensures Flatten([a] + rest) == a + Flatten(rest)
  {
    assert ([a] + rest)[1..] == rest;
  }

  lemma SplitAt<T>(s: seq<T>, n: nat, m: nat)
    requires n <= m <= |s|
    ensures s[n..][..m - n] == s[n..m]
    ensures s[..n] + s[n..m] == s[..m]
  {
  }

  /** The first `k` batches are exactly the first `k * BatchLimit` items. */
  lemma {:induction false} ChunksPrefix<T>(s: seq<T>, k: nat)
    requires k <= |Chunks(s)|
    ensures Flatten(Chunks(s)[..k]) == s[..Min(k * BatchLimit, |s|)]
    decreases k
  {
    if k > 0 {
      var n := Min(BatchLimit, |s|);
      var m := Min(k * BatchLimit, |s|);
      var m' := Min((k - 1) * BatchLimit, |s| - n);
      var c := Chunks(s[n..]);
      if |s| < BatchLimit {
        assert c == [] && k == 1;
        assert m' == 0 && m == n;
      } else {
        assert (k - 1) * BatchLimit + BatchLimit == k * BatchLimit;
        assert n + m' == m;
      }
      assert Chunks(s)[..k] == [s[..n]] + c[..k - 1];
      ChunksPrefix(s[n..], k - 1);
      FlattenCons(s[..n], c[..k - 1]);
      SplitAt(s, n, m);
    }
  }
}
