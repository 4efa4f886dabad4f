/** The vintage store (`SqlMacroStore`): rows on two time axes, and the point-in-time read. Dates are ordinals. */
module MacroStore {
  import opened Common
  import opened Sorting
  import opened Upsert

  /** `date(9999, 12, 31)` */
  const NEVER: int := 3652059
  /** The stored vintage of a reading fetched without one. */
  const UNKNOWN_VINTAGE: int := NEVER

  const MAX_ROWS_PER_INSERT: nat := 199

  datatype Observation = Observation(series: string, period: int, vintage: Option<int>, value: real)

  datatype Key = Key(series: string, period: int, vintage: int)

  function KeyOf(o: Observation): Key {
    Key(o.series, o.period, if o.vintage.None? then UNKNOWN_VINTAGE else o.vintage.value)
  }

  /** `_to_schema` */
  function ToSchema(k: Key, value: real): Observation {
    Observation(k.series, k.period, if k.vintage == UNKNOWN_VINTAGE then None else Some(k.vintage), value)
  }

  // ----- newest period, then newest vintage

  predicate NotLater(a: Key, b: Key) {
    a.period < b.period || (a.period == b.period && a.vintage <= b.vintage)
  }

  ghost predicate IsNewest(k: Key, keys: set<Key>, series: string) {
    k in keys && k.series == series && forall o | o in keys && o.series == series :: NotLater(o, k)
  }

  lemma NewestUnique(a: Key, b: Key, keys: set<Key>, series: string)
    requires IsNewest(a, keys, series) && IsNewest(b, keys, series)
    ensures a == b
  {
    assert NotLater(a, b) && NotLater(b, a);
  }

  predicate Visible(k: Key, day: int) {
    k.vintage <= day && k.period <= day
  }

  ghost function VisibleKeys(table: map<Key, real>, day: int): set<Key> {
    set k | k in table && Visible(k, day)
  }

  /** `latest` holds, for each series with a key in `keys`, the value of its newest key there. */
  ghost predicate IsReading(latest: map<string, real>, table: map<Key, real>, keys: set<Key>) {
    && (forall k | k in keys :: k.series in latest)
    && (forall s | s in latest :: exists k :: IsNewest(k, keys, s) && k in table && table[k] == latest[s])
  }

  lemma ReadingUnique(a: map<string, real>, b: map<string, real>, table: map<Key, real>, keys: set<Key>)
    requires IsReading(a, table, keys) && IsReading(b, table, keys)
    ensures a == b
  {
    forall s | s in a ensures s in b && a[s] == b[s] {
      var k :| IsNewest(k, keys, s) && k in table && table[k] == a[s];
      var k' :| IsNewest(k', keys, s) && k' in table && table[k'] == b[s];
      NewestUnique(k, k', keys, s);
    }
    forall s | s in b ensures s in a {
      var k :| IsNewest(k, keys, s) && k in table && table[k] == b[s];
    }
  }

  /** `k` is a row of the series whose period had begun and whose value was published by `day`, and no such row has a
      later period, or the same period and a later vintage. */
  ghost predicate NewestPublic(k: Key, table: map<Key, real>, series: string, day: int) {
    && k in table && k.series == series && k.vintage <= day && k.period <= day
    && forall o | o in table && o.series == series && o.vintage <= day && o.period <= day ::
         o.period < k.period || (o.period == k.period && o.vintage <= k.vintage)
  }

  /** The point-in-time reading: the value of that row, for every series with a row public by `day`. */
  ghost predicate PointInTime(latest: map<string, real>, table: map<Key, real>, day: int) {
    && (forall k | k in table && k.vintage <= day && k.period <= day :: k.series in latest)
    && (forall s | s in latest :: exists k :: NewestPublic(k, table, s, day) && table[k] == latest[s])
  }

  lemma NewestIsPublic(k: Key, table: map<Key, real>, series: string, day: int)
    ensures IsNewest(k, VisibleKeys(table, day), series) <==> NewestPublic(k, table, series, day)
  {
    var keys := VisibleKeys(table, day);
    forall o ensures o in keys <==> o in table && o.vintage <= day && o.period <= day {
    }
  }

  lemma ReadingIsPointInTime(latest: map<string, real>, table: map<Key, real>, day: int)
    ensures IsReading(latest, table, VisibleKeys(table, day)) <==> PointInTime(latest, table, day)
  {
    var keys := VisibleKeys(table, day);
    forall o ensures o in keys <==> o in table && o.vintage <= day && o.period <= day {
    }
    hide VisibleKeys, IsNewest, NewestPublic;
    forall k: Key, s: string ensures IsNewest(k, keys, s) <==> NewestPublic(k, table, s, day) {
      NewestIsPublic(k, table, s, day);
    }
    forall k: Key, s: string | NewestPublic(k, table, s, day) ensures k in table {
      PublicIsStored(k, table, s, day);
    }
  }

  lemma PublicIsStored(k: Key, table: map<Key, real>, series: string, day: int)
    requires NewestPublic(k, table, series, day)
    ensures k in table
  {
  }

  // ----- the ordered scan

  /** `ORDER BY series, observation_date DESC, realtime_start DESC`, the collation being any ranking of names. */
  function ScanOrder(rank: string -> int): (Key, Key) -> bool {
    (a: Key, b: Key) => rank(a.series) < rank(b.series) || (rank(a.series) == rank(b.series) && NotLater(b, a))
  }

  lemma ScanOrderTotal(rank: string -> int)
    ensures TotalPreorder(ScanOrder(rank))
  {
    var leq := ScanOrder(rank);
    forall a, b ensures leq(a, b) || leq(b, a) {
      assert NotLater(a, b) || NotLater(b, a);
    }
    forall a, b, c | leq(a, b) && leq(b, c) ensures leq(a, c) {
      assert rank(a.series) <= rank(b.series) <= rank(c.series);
    }
  }

  ghost predicate ScannedInto(latest: map<string, real>, table: map<Key, real>, rows: seq<Key>) {
    && (forall i | 0 <= i < |rows| :: rows[i].series in latest)
    && (forall s | s in latest :: exists i :: IsFirst(rows, i, s) && rows[i] in table && table[rows[i]] == latest[s])
  }

  ghost predicate IsFirst(rows: seq<Key>, i: int, s: string) {
    0 <= i < |rows| && rows[i].series == s && forall j | 0 <= j < i :: rows[j].series != s
  }

  /** In scan order, the first row of a series is its newest. */
  lemma FirstIsNewest(rows: seq<Key>, keys: set<Key>, rank: string -> int, i: int, s: string)
    requires SortedBy(rows, ScanOrder(rank)) && (forall k :: k in rows <==> k in keys) && IsFirst(rows, i, s)
    ensures IsNewest(rows[i], keys, s)
  {
    assert rows[i] in rows;
    forall o | o in keys && o.series == s ensures NotLater(o, rows[i]) {
      assert o in rows;
      var j :| 0 <= j < |rows| && rows[j] == o;
      assert j >= i;
      if j > i {
        assert ScanOrder(rank)(rows[i], rows[j]);
      }
    }
  }

  method KeysWhere(table: map<Key, real>, day: int) returns (rows: seq<Key>)
    ensures forall k :: k in rows <==> k in VisibleKeys(table, day)
  {
    rows := [];
    var left := table.Keys;
    while left != {}
      invariant left <= table.Keys
      invariant forall k :: k in rows <==> k in table.Keys - left && Visible(k, day)
      decreases left
    {
      var k :| k in left;
      left := left - {k};
      if Visible(k, day) {
        rows := rows + [k];
      }
    }
  }

  method FirstPerSeries(table: map<Key, real>, rows: seq<Key>) returns (latest: map<string, real>)
    requires forall i | 0 <= i < |rows| :: rows[i] in table
    ensures ScannedInto(latest, table, rows)
  {
    latest := map[];
    for i := 0 to |rows|
      invariant ScannedInto(latest, table, rows[..i])
    {
      ghost var before := latest;
      if rows[i].series !in latest {
        latest := latest[rows[i].series := table[rows[i]]];
      }
      ScanStep(before, latest, table, rows, i);
    }
    assert rows[..|rows|] == rows;
  }

  lemma ScanStep(before: map<string, real>, latest: map<string, real>, table: map<Key, real>, rows: seq<Key>, n: nat)
    requires n < |rows| && rows[n] in table && ScannedInto(before, table, rows[..n])
    requires latest == if rows[n].series in before then before else before[rows[n].series := table[rows[n]]]
    ensures ScannedInto(latest, table, rows[..n + 1])
  {
    var rows' := rows[..n + 1];
    forall i | 0 <= i < |rows'| ensures rows'[i].series in latest {
      assert i < n ==> rows[..n][i] == rows'[i];
    }
    forall s | s in latest
      ensures exists i :: IsFirst(rows', i, s) && rows'[i] in table && table[rows'[i]] == latest[s]
    {
      if s in before {
        var i :| IsFirst(rows[..n], i, s) && rows[..n][i] in table && table[rows[..n][i]] == before[s];
        assert forall j | 0 <= j <= i :: rows'[j] == rows[..n][j];
        assert IsFirst(rows', i, s);
      } else {
        assert forall j | 0 <= j < n :: rows'[j] == rows[..n][j];
        assert IsFirst(rows', n, s);
      }
    }
  }

  class SqlMacroStore {
    const table: Table<Key, real>

    constructor ()
      ensures fresh(table) && table.rows == map[]
    {
      table := new Table<Key, real>();
    }

    /** `SqlMacroStore.save` */
    method Save(observations: seq<Observation>) returns (count: nat)
      modifies table
      ensures table.rows == PutAll(old(table.rows), Payload(observations))
      ensures count == |Keys(Payload(observations))|
    {
      count := table.Save(Payload(observations), MAX_ROWS_PER_INSERT);
    }

    /** `SqlMacroStore.as_of`: per series, the newest vintage of the newest period, among rows whose period had
        begun and whose value was published by `day`. */
    method AsOf(day: int, rank: string -> int) returns (latest: map<string, real>)
      ensures IsReading(latest, table.rows, VisibleKeys(table.rows, day)) && PointInTime(latest, table.rows, day)
    {
      var rows := KeysWhere(table.rows, day);
      var sorted := StableSort(rows, ScanOrder(rank));
      MultisetSize(sorted, rows);
      ScanOrderTotal(rank);
      StableSortSorts(rows, ScanOrder(rank));
      InTable(table.rows, day, sorted);
      latest := FirstPerSeries(table.rows, sorted);
      ScanReads(latest, table.rows, sorted, day, rank);
      ReadingIsPointInTime(latest, table.rows, day);
    }

    /** `SqlMacroStore.panel`: every stored row once, every vintage, by period and then by vintage. */
    method Panel() returns (panel: seq<Observation>)
      ensures IsPanel(panel, table.rows) && |panel| == |table.rows|
      ensures forall i, j | 0 <= i < j < |panel| :: NotLater(KeyOf(panel[i]), KeyOf(panel[j]))
    {
      var rows := [];
      var left := table.rows.Keys;
      while left != {}
        invariant left <= table.rows.Keys && |rows| + |left| == |table.rows|
        invariant forall o :: o in rows <==> exists k :: k in table.rows.Keys - left && o == ToSchema(k, table.rows[k])
        decreases left
      {
        var k :| k in left;
        rows := rows + [ToSchema(k, table.rows[k])];
        left := left - {k};
      }
      panel := StableSort(rows, ByPeriod());
      MultisetSize(panel, rows);
      AreRows(panel, table.rows);
      ByPeriodTotal();
      StableSortSorts(rows, ByPeriod());
      ListedBy(panel);
    }
  }

  /** `ORDER BY observation_date, realtime_start` */
  function ByPeriod(): (Observation, Observation) -> bool {
    (a: Observation, b: Observation) => NotLater(KeyOf(a), KeyOf(b))
  }

  lemma ByPeriodTotal()
    ensures TotalPreorder(ByPeriod())
  {
    var leq := ByPeriod();
    forall a, b ensures leq(a, b) || leq(b, a) {
      assert NotLater(KeyOf(a), KeyOf(b)) || NotLater(KeyOf(b), KeyOf(a));
    }
  }

  lemma ListedBy(panel: seq<Observation>)
    requires SortedBy(panel, ByPeriod())
    ensures forall i, j | 0 <= i < j < |panel| :: NotLater(KeyOf(panel[i]), KeyOf(panel[j]))
  {
    forall i, j | 0 <= i < j < |panel| ensures NotLater(KeyOf(panel[i]), KeyOf(panel[j])) {
      assert ByPeriod()(panel[i], panel[j]);
    }
  }

  lemma InTable(table: map<Key, real>, day: int, rows: seq<Key>)
    requires forall k :: k in rows <==> k in VisibleKeys(table, day)
    ensures forall i | 0 <= i < |rows| :: rows[i] in table
  {
    forall i | 0 <= i < |rows| ensures rows[i] in table {
      assert rows[i] in rows;
    }
  }

  lemma ScanReads(latest: map<string, real>, table: map<Key, real>, rows: seq<Key>, day: int, rank: string -> int)
    requires SortedBy(rows, ScanOrder(rank)) && (forall k :: k in rows <==> k in VisibleKeys(table, day))
    requires ScannedInto(latest, table, rows)
    ensures IsReading(latest, table, VisibleKeys(table, day))
  {
    hide SortedBy, ScanOrder, VisibleKeys, IsNewest;
    forall s | s in latest
      ensures exists k :: IsNewest(k, VisibleKeys(table, day), s) && k in table && table[k] == latest[s]
    {
      var i :| IsFirst(rows, i, s) && rows[i] in table && table[rows[i]] == latest[s];
      FirstIsNewest(rows, VisibleKeys(table, day), rank, i, s);
    }
    forall k | k in VisibleKeys(table, day) ensures k.series in latest {
      assert k in rows;
      var i :| 0 <= i < |rows| && rows[i] == k;
    }
  }

  function Payload(observations: seq<Observation>): (r: seq<(Key, real)>)
    ensures |r| == |observations|
    ensures forall i | 0 <= i < |r| ::
              var o := observations[i];
              r[i] == (Key(o.series, o.period, if o.vintage.Some? then o.vintage.value else 3652059), o.value)
  {
    seq(|observations|, i requires 0 <= i < |observations| => (KeyOf(observations[i]), observations[i].value))
  }

  lemma AreRows(panel: seq<Observation>, table: map<Key, real>)
    requires forall o :: o in panel <==> exists k :: k in table && o == ToSchema(k, table[k])
    ensures IsPanel(panel, table)
  {
    forall o, k | k in table ensures IsRow(o, k, table[k]) <==> o == ToSchema(k, table[k]) {
    }
  }

  /** A listing of the table's rows as observations: all of them, nothing else. */
  ghost predicate IsPanel(panel: seq<Observation>, table: map<Key, real>) {
    forall o :: o in panel <==> exists k :: k in table && IsRow(o, k, table[k])
  }

  /** An undated row, stored as of 9999-12-31, is listed without a vintage. */
  ghost predicate IsRow(o: Observation, k: Key, value: real) {
    && o.series == k.series && o.period == k.period && o.value == value
    && o.vintage == if k.vintage == 3652059 then None else Some(k.vintage)
  }
}
