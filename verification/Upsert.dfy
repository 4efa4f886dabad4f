/**
 The bulk write shared by the bar store and the macro store: deduplicate a payload, then upsert it in chunks.
 A statement that names one key twice is refused by the database, so `Upsert` demands distinct keys.
 */
module Upsert {
  import opened Common

  // ----- the simple write: one row at a time, in order

  function PutAll<K, V>(m: map<K, V>, rows: seq<(K, V)>): map<K, V>
    decreases |rows|
  {
    if rows == [] then m else PutAll(m[rows[0].0 := rows[0].1], rows[1..])
  }

  lemma {:induction false} PutAllConcat<K, V>(m: map<K, V>, a: seq<(K, V)>, b: seq<(K, V)>)
    ensures PutAll(m, a + b) == PutAll(PutAll(m, a), b)
    decreases |a|
  {
    if a == [] {
      assert a + b == b;
    } else {
      assert (a + b)[1..] == a[1..] + b;
      PutAllConcat(m[a[0].0 := a[0].1], a[1..], b);
    }
  }

  /** The last value a payload gives a key. */
  function LastFor<K(==), V>(rows: seq<(K, V)>, k: K): Option<V> {
    if rows == [] then None
    else if rows[|rows| - 1].0 == k then Some(rows[|rows| - 1].1)
    else LastFor(rows[..|rows| - 1], k)
  }

  function Get<K, V>(m: map<K, V>, k: K): Option<V> {
    if k in m then Some(m[k]) else None
  }

  lemma {:induction false} PutAllAt<K, V>(m: map<K, V>, rows: seq<(K, V)>, k: K)
    ensures Get(PutAll(m, rows), k) == if LastFor(rows, k).Some? then LastFor(rows, k) else Get(m, k)
  {
    if rows != [] {
      var n := |rows| - 1;
      PutAllAt(m, rows[..n], k);
      assert rows == rows[..n] + [rows[n]];
      PutAllConcat(m, rows[..n], [rows[n]]);
      PutOne(PutAll(m, rows[..n]), rows[n]);
    }
  }

  lemma PutOne<K, V>(m: map<K, V>, row: (K, V))
    ensures PutAll(m, [row]) == m[row.0 := row.1]
  {
    assert [row][1..] == [];
  }

  lemma SameGetsSameMap<K(!new), V>(a: map<K, V>, b: map<K, V>)
    requires forall k: K :: Get(a, k) == Get(b, k)
    ensures a == b
  {
    forall k ensures k in a <==> k in b {
      assert Get(a, k) == Get(b, k);
    }
    forall k | k in a ensures a[k] == b[k] {
      assert Get(a, k) == Get(b, k);
    }
  }

  /** Payloads that end on the same value for every key write the same table. */
  lemma SameLastSameTable<K(!new), V>(m: map<K, V>, a: seq<(K, V)>, b: seq<(K, V)>)
    requires forall k: K :: LastFor(a, k) == LastFor(b, k)
    ensures PutAll(m, a) == PutAll(m, b)
  {
    forall k: K ensures Get(PutAll(m, a), k) == Get(PutAll(m, b), k) {
      PutAllAt(m, a, k);
      PutAllAt(m, b, k);
    }
    SameGetsSameMap(PutAll(m, a), PutAll(m, b));
  }

  /** Writing a payload again changes nothing. */
  lemma PutAllIdempotent<K(!new), V>(m: map<K, V>, rows: seq<(K, V)>)
    ensures PutAll(PutAll(m, rows), rows) == PutAll(m, rows)
  {
    forall k: K ensures Get(PutAll(PutAll(m, rows), rows), k) == Get(PutAll(m, rows), k) {
      PutAllAt(PutAll(m, rows), rows, k);
      PutAllAt(m, rows, k);
    }
    SameGetsSameMap(PutAll(PutAll(m, rows), rows), PutAll(m, rows));
  }

  // ----- deduplication: one row per key, the last occurrence's value

  function Keys<K(==), V>(rows: seq<(K, V)>): set<K> {
    set i | 0 <= i < |rows| :: rows[i].0
  }

  ghost predicate DistinctKeys<K, V>(rows: seq<(K, V)>) {
    forall i, j | 0 <= i < j < |rows| :: rows[i].0 != rows[j].0
  }

  lemma {:induction false} LastForDistinct<K, V>(rows: seq<(K, V)>, i: nat)
    requires DistinctKeys(rows) && i < |rows|
    ensures LastFor(rows, rows[i].0) == Some(rows[i].1)
  {
    if i < |rows| - 1 {
      LastForDistinct(rows[..|rows| - 1], i);
    }
  }

  lemma {:induction false} LastForKeys<K, V>(rows: seq<(K, V)>, k: K)
    ensures LastFor(rows, k).Some? <==> k in Keys(rows)
  {
    if rows != [] {
      var n := |rows| - 1;
      LastForKeys(rows[..n], k);
      if k in Keys(rows[..n]) {
        var i :| 0 <= i < n && rows[..n][i].0 == k;
        assert rows[i].0 == k;
      }
      if i :| 0 <= i < |rows| && rows[i].0 == k {
        assert i < n ==> rows[..n][i].0 == k;
      }
    }
  }

  lemma {:induction false} DistinctSize<K, V>(rows: seq<(K, V)>)
    requires DistinctKeys(rows)
    ensures |Keys(rows)| == |rows|
  {
    if rows != [] {
      var n := |rows| - 1;
      DistinctSize(rows[..n]);
      assert Keys(rows) == Keys(rows[..n]) + {rows[n].0} by {
        forall k ensures k in Keys(rows) <==> k in Keys(rows[..n]) + {rows[n].0} {
          if i :| 0 <= i < |rows| && rows[i].0 == k {
            assert i < n ==> rows[..n][i].0 == k;
          }
          if i :| 0 <= i < n && rows[..n][i].0 == k {
            assert rows[i].0 == k;
          }
        }
      }
      assert rows[n].0 !in Keys(rows[..n]);
    }
  }

  /** `_deduplicate`: a dict keyed by the natural key, so the first occurrence fixes the position and the last
      the value. */
  method Deduplicate<K(!new, ==), V>(rows: seq<(K, V)>) returns (unique: seq<(K, V)>)
    ensures DistinctKeys(unique)
    ensures forall k: K :: LastFor(unique, k) == LastFor(rows, k)
    ensures |unique| == |Keys(rows)|
  {
    var byKey: map<K, V> := map[];
    var order: seq<K> := [];
    for i := 0 to |rows|
      invariant forall a, b | 0 <= a < b < |order| :: order[a] != order[b]
      invariant forall k :: k in order <==> k in byKey
      invariant forall k: K :: Get(byKey, k) == LastFor(rows[..i], k)
    {
      assert rows[..i + 1][..i] == rows[..i];
      var (k, v) := rows[i];
      if k !in byKey {
        order := order + [k];
      }
      byKey := byKey[k := v];
    }
    assert rows[..|rows|] == rows;
    unique := seq(|order|, i requires 0 <= i < |order| && order[i] in byKey => (order[i], byKey[order[i]]));
    forall k: K ensures LastFor(unique, k) == LastFor(rows, k) {
      LastForKeys(unique, k);
      assert Get(byKey, k) == LastFor(rows, k);
      if k in byKey {
        var i :| 0 <= i < |order| && order[i] == k;
        LastForDistinct(unique, i);
      }
    }
    SameKeys(unique, rows);
    DistinctSize(unique);
  }

  lemma SameKeys<K(!new), V>(a: seq<(K, V)>, b: seq<(K, V)>)
    requires forall k: K :: LastFor(a, k) == LastFor(b, k)
    ensures Keys(a) == Keys(b)
  {
    forall k ensures k in Keys(a) <==> k in Keys(b) {
      LastForKeys(a, k);
      LastForKeys(b, k);
    }
  }

  // ----- the table

  class Table<K(!new, ==), V> {
    var rows: map<K, V>

    constructor ()
      ensures rows == map[]
    {
      rows := map[];
    }

    /** One `INSERT ... ON CONFLICT DO UPDATE` statement. */
    method Upsert(chunk: seq<(K, V)>)
      requires DistinctKeys(chunk)
      modifies this
      ensures rows == PutAll(old(rows), chunk)
    {
      for i := 0 to |chunk|
        invariant PutAll(rows, chunk[i..]) == PutAll(old(rows), chunk)
      {
        rows := rows[chunk[i].0 := chunk[i].1];
      }
    }

    /** `save_bars`, `SqlMacroStore.save`: the table ends as if the payload had been written row by row, and
        the count is the number of distinct keys. */
    method Save(payload: seq<(K, V)>, chunkSize: nat) returns (count: nat)
      requires chunkSize > 0
      modifies this
      ensures rows == PutAll(old(rows), payload)
      ensures count == |Keys(payload)|
    {
      if payload == [] {
        return 0;
      }
      var unique := Deduplicate(payload);
      var start := 0;
      while start < |unique|
        invariant 0 <= start <= |unique|
        invariant PutAll(rows, unique[start..]) == PutAll(old(rows), unique)
        decreases |unique| - start
      {
        var end := MinInt(start + chunkSize, |unique|);
        var chunk := unique[start..end];
        assert unique[start..] == chunk + unique[end..];
        PutAllConcat(rows, chunk, unique[end..]);
        Upsert(chunk);
        start := end;
      }
      SameLastSameTable(old(rows), unique, payload);
      count := |unique|;
    }
  }
}
