/** What the two write statements do to the row stored under a key, one
    statement at a time and over a whole sequence of rows: the upsert keeps,
    per column, the last non-NULL value any row for that key carried, and
    the seed keeps the first row for each key. */
module StoreLaws {
  import opened Wrappers
  import opened Store

  /** Appending a row with another key does not move any stored key. */
  lemma IndexOfAppend(pk: seq<string>, rows: seq<Row>, x: Row, k: Key)
    ensures IndexOf(pk, rows + [x], k) ==
      if IndexOf(pk, rows, k).None? && KeyOf(pk, x) == Some(k) then Some(|rows|) else IndexOf(pk, rows, k)
  {
    assert (rows + [x])[..|rows|] == rows;
  }

  /** The row stored under `k` after one upsert: merged with the incoming row
      when the incoming row has key `k`, unchanged otherwise. */
  lemma UpsertLookup(t: Table, incoming: Row, k: Key)
    requires WellFormed(t) && Fits(t, incoming)
    ensures Lookup(Upsert(t, incoming), k) ==
      if KeyOf(t.pk, incoming) == Some(k) then Some(Merge(t.columns, t.pk, Lookup(t, k), incoming))
      else Lookup(t, k)
  {
    var r := Upsert(t, incoming);
    if Stored(t, incoming) {
      IndexOfSameKeys(t.pk, r.rows, t.rows, k);
      var i := IndexOf(t.pk, t.rows, KeyOf(t.pk, incoming).value).value;
      assert r.rows == t.rows[i := Coalesce(t.rows[i], incoming, t.pk)];
    } else {
      IndexOfAppend(t.pk, t.rows, NewRow(t.columns, incoming), k);
      NewRowKey(t.columns, t.pk, incoming);
    }
  }

  /** The row stored under `k` after one `INSERT OR IGNORE`: the incoming
      row's values only when `k` was not stored before. */
  lemma InsertOrIgnoreLookup(t: Table, incoming: Row, k: Key)
    requires WellFormed(t) && Fits(t, incoming)
    ensures Lookup(InsertOrIgnore(t, incoming), k) ==
      if KeyOf(t.pk, incoming) == Some(k) && Lookup(t, k).None? then Some(NewRow(t.columns, incoming))
      else Lookup(t, k)
  {
    if !Stored(t, incoming) {
      IndexOfAppend(t.pk, t.rows, NewRow(t.columns, incoming), k);
      NewRowKey(t.columns, t.pk, incoming);
    }
  }

  /** Some row of the sequence has key `k`. */
  predicate HasKey(pk: seq<string>, rows: seq<Row>, k: Key) {
    exists i :: 0 <= i < |rows| && KeyOf(pk, rows[i]) == Some(k)
  }

  /** The row stored under `k` after upserting `rows` in order, starting from
      what was stored. */
  function MergeAll(columns: seq<string>, pk: seq<string>, stored: Option<Row>, rows: seq<Row>, k: Key): Option<Row>
    decreases |rows|
  {
    if |rows| == 0 then stored
    else
      var n := |rows| - 1;
      var before := MergeAll(columns, pk, stored, rows[..n], k);
      if KeyOf(pk, rows[n]) == Some(k) then Some(Merge(columns, pk, before, rows[n])) else before
  }

  /** The last non-NULL value column `c` takes among the rows with key `k`. */
  function LastNonNull(pk: seq<string>, rows: seq<Row>, k: Key, c: string): (v: Option<string>)
    ensures v.Some? ==> HasKey(pk, rows, k)
    decreases |rows|
  {
    if |rows| == 0 then None
    else
      var n := |rows| - 1;
      if KeyOf(pk, rows[n]) == Some(k) && CellOf(rows[n], c).Some? then CellOf(rows[n], c)
      else
        var v := LastNonNull(pk, rows[..n], k, c);
        assert v.Some? ==> HasKey(pk, rows, k) by {
          if v.Some? {
            var i :| 0 <= i < n && KeyOf(pk, rows[..n][i]) == Some(k);
            assert KeyOf(pk, rows[i]) == Some(k);
          }
        }
        v
  }

  /** Upserting a sequence of rows stores, under each key, the fold of the
      rows carrying that key over what was stored. */
  lemma {:induction false} UpsertAllLookup(t: Table, rows: seq<Row>, k: Key)
    requires WellFormed(t) && AllFit(t, rows)
    ensures Lookup(UpsertAll(t, rows), k) == MergeAll(t.columns, t.pk, Lookup(t, k), rows, k)
    decreases |rows|
  {
    if |rows| > 0 {
      var n := |rows| - 1;
      UpsertAllLookup(t, rows[..n], k);
      UpsertLookup(UpsertAll(t, rows[..n]), rows[n], k);
    }
  }

  /** A row that may be stored under `k` in a table with these columns. */
  predicate StoredRow(columns: seq<string>, pk: seq<string>, k: Key, o: Option<Row>) {
    o.Some? ==> o.value.Keys == ColumnSet(columns) && KeyOf(pk, o.value) == Some(k)
  }

  /** The fold yields a row exactly when there was one or some row carries the
      key, and that row has the table's columns and the key `k`. */
  lemma {:induction false} MergeAllShape(columns: seq<string>, pk: seq<string>, stored: Option<Row>, rows: seq<Row>, k: Key)
    requires forall c :: c in pk ==> c in columns
    requires StoredRow(columns, pk, k, stored)
    ensures MergeAll(columns, pk, stored, rows, k).Some? <==> stored.Some? || HasKey(pk, rows, k)
    ensures StoredRow(columns, pk, k, MergeAll(columns, pk, stored, rows, k))
    decreases |rows|
  {
    if |rows| > 0 {
      var n := |rows| - 1;
      MergeAllShape(columns, pk, stored, rows[..n], k);
      NewRowKey(columns, pk, rows[n]);
      HasKeySnoc(pk, rows, k);
    }
  }

  /** Column by column, a non-key column of the fold holds the last non-NULL
      value the rows gave it, or else what was stored, or else NULL. */
  lemma {:induction false} MergeAllColumn(columns: seq<string>, pk: seq<string>, stored: Option<Row>, rows: seq<Row>, k: Key, c: string)
    requires forall x :: x in pk ==> x in columns
    requires StoredRow(columns, pk, k, stored)
    requires c in columns && c !in pk
    ensures MergeAll(columns, pk, stored, rows, k).Some? ==>
      CellOf(MergeAll(columns, pk, stored, rows, k).value, c) ==
        if LastNonNull(pk, rows, k, c).Some? then LastNonNull(pk, rows, k, c)
        else if stored.Some? then CellOf(stored.value, c) else None
    decreases |rows|
  {
    if |rows| > 0 {
      var n := |rows| - 1;
      MergeAllColumn(columns, pk, stored, rows[..n], k, c);
      MergeAllShape(columns, pk, stored, rows[..n], k);
    }
  }

  /** Two rows with the table's columns, the same key and the same non-key
      values are the same row. */
  lemma SameRow(columns: seq<string>, pk: seq<string>, k: Key, a: Row, b: Row)
    requires a.Keys == ColumnSet(columns) && b.Keys == ColumnSet(columns)
    requires KeyOf(pk, a) == Some(k) && KeyOf(pk, b) == Some(k)
    requires forall c :: c in columns && c !in pk ==> a[c] == b[c]
    ensures a == b
  {
    forall c | c in a
      ensures a[c] == b[c]
    {
      if c in pk {
        var i :| 0 <= i < |pk| && pk[i] == c;
      }
    }
  }

  /** Folding the same rows a second time over their own result changes
      nothing. */
  lemma MergeAllAbsorbs(columns: seq<string>, pk: seq<string>, stored: Option<Row>, rows: seq<Row>, k: Key)
    requires forall c :: c in pk ==> c in columns
    requires StoredRow(columns, pk, k, stored)
    requires MergeAll(columns, pk, stored, rows, k).Some?
    ensures MergeAll(columns, pk, MergeAll(columns, pk, stored, rows, k), rows, k) == MergeAll(columns, pk, stored, rows, k)
  {
    var once := MergeAll(columns, pk, stored, rows, k);
    MergeAllShape(columns, pk, stored, rows, k);
    MergeAllShape(columns, pk, once, rows, k);
    var twice := MergeAll(columns, pk, once, rows, k);
    forall c | c in columns && c !in pk
      ensures twice.value[c] == once.value[c]
    {
      MergeAllColumn(columns, pk, stored, rows, k, c);
      MergeAllColumn(columns, pk, once, rows, k, c);
      assert CellOf(twice.value, c) == CellOf(once.value, c);
    }
    SameRow(columns, pk, k, twice.value, once.value);
  }

  predicate AllKeyed(pk: seq<string>, rows: seq<Row>) {
    forall i :: 0 <= i < |rows| ==> KeyOf(pk, rows[i]).Some?
  }

  /** Upserting rows whose keys are all stored already adds no row, keeps
      every row's key in place and leaves key-less rows alone. */
  lemma {:induction false} UpsertAllInPlace(t: Table, rows: seq<Row>)
    requires WellFormed(t) && AllFit(t, rows) && AllKeyed(t.pk, rows)
    requires forall i :: 0 <= i < |rows| ==> Lookup(t, KeyOf(t.pk, rows[i]).value).Some?
    ensures |UpsertAll(t, rows).rows| == |t.rows|
    ensures forall i :: 0 <= i < |t.rows| ==> KeyOf(t.pk, UpsertAll(t, rows).rows[i]) == KeyOf(t.pk, t.rows[i])
    ensures forall i :: 0 <= i < |t.rows| && KeyOf(t.pk, t.rows[i]).None? ==> UpsertAll(t, rows).rows[i] == t.rows[i]
    decreases |rows|
  {
    if |rows| > 0 {
      var n := |rows| - 1;
      var prefix := rows[..n];
      assert forall i :: 0 <= i < n ==> prefix[i] == rows[i];
      var front := UpsertAll(t, prefix);
      UpsertAllInPlace(t, prefix);
      IndexOfSameKeys(t.pk, front.rows, t.rows, KeyOf(t.pk, rows[n]).value);
      assert Stored(front, rows[n]);
      assert UpsertAll(t, rows) == Upsert(front, rows[n]);
    }
  }

  /** Applying the same keyed rows twice gives the table applying them once
      gives. */
  lemma UpsertAllIdempotent(t: Table, rows: seq<Row>)
    requires WellFormed(t) && AllFit(t, rows) && AllKeyed(t.pk, rows)
    ensures UpsertAll(UpsertAll(t, rows), rows) == UpsertAll(t, rows)
  {
    var once := UpsertAll(t, rows);
    var twice := UpsertAll(once, rows);
    forall i | 0 <= i < |rows|
      ensures Lookup(once, KeyOf(t.pk, rows[i]).value).Some?
    {
      var k := KeyOf(t.pk, rows[i]).value;
      UpsertAllLookup(t, rows, k);
      StoredLookup(t, k);
      MergeAllShape(t.columns, t.pk, Lookup(t, k), rows, k);
    }
    UpsertAllInPlace(once, rows);
    forall i | 0 <= i < |once.rows|
      ensures twice.rows[i] == once.rows[i]
    {
      if KeyOf(t.pk, once.rows[i]).Some? {
        var k := KeyOf(t.pk, once.rows[i]).value;
        IndexOfUnique(t.pk, once.rows, i, k);
        IndexOfUnique(t.pk, twice.rows, i, k);
        UpsertAllLookup(t, rows, k);
        UpsertAllLookup(once, rows, k);
        StoredLookup(t, k);
        MergeAllAbsorbs(t.columns, t.pk, Lookup(t, k), rows, k);
      }
    }
  }

  /** An incoming row whose only non-NULL value outside the key is in
      column `c` changes that column alone. */
  lemma CoalesceOne(stored: Row, incoming: Row, pk: seq<string>, c: string)
    requires c in stored && c !in pk && c in incoming && incoming[c].Some?
    requires forall x :: x in incoming && x !in pk && x != c ==> incoming[x].None?
    ensures Coalesce(stored, incoming, pk) == stored[c := incoming[c]]
  {
    var r := Coalesce(stored, incoming, pk);
    forall x | x in stored
      ensures r[x] == stored[c := incoming[c]][x]
    {
    }
  }

  /** What `Lookup` returns is a row of the table under that key. */
  lemma StoredLookup(t: Table, k: Key)
    requires WellFormed(t)
    ensures StoredRow(t.columns, t.pk, k, Lookup(t, k))
  {
  }

  /** Per column, after an update file: the last non-NULL value any row for
      the key carried wins; with none, the stored value is kept; a key-column
      value is never rewritten. */
  lemma UpsertAllColumn(t: Table, rows: seq<Row>, k: Key, c: string)
    requires WellFormed(t) && AllFit(t, rows)
    requires c in t.columns && c !in t.pk
    ensures Lookup(UpsertAll(t, rows), k).Some? <==> Lookup(t, k).Some? || HasKey(t.pk, rows, k)
    ensures Lookup(UpsertAll(t, rows), k).Some? ==>
      CellOf(Lookup(UpsertAll(t, rows), k).value, c) ==
        if LastNonNull(t.pk, rows, k, c).Some? then LastNonNull(t.pk, rows, k, c)
        else if Lookup(t, k).Some? then CellOf(Lookup(t, k).value, c) else None
  {
    UpsertAllLookup(t, rows, k);
    StoredLookup(t, k);
    MergeAllShape(t.columns, t.pk, Lookup(t, k), rows, k);
    MergeAllColumn(t.columns, t.pk, Lookup(t, k), rows, k, c);
  }

  /** A column every row leaves NULL has no last non-NULL value. */
  lemma {:induction false} LastNonNullAbsent(pk: seq<string>, rows: seq<Row>, k: Key, c: string)
    requires forall i :: 0 <= i < |rows| ==> CellOf(rows[i], c).None?
    ensures LastNonNull(pk, rows, k, c).None?
    decreases |rows|
  {
    if |rows| > 0 {
      var n := |rows| - 1;
      assert forall i :: 0 <= i < n ==> rows[..n][i] == rows[i];
      LastNonNullAbsent(pk, rows[..n], k, c);
    }
  }

  /** A column every row sets to the same value `v` ends at `v` for every
      key some row carries. */
  lemma {:induction false} LastNonNullConstant(pk: seq<string>, rows: seq<Row>, k: Key, c: string, v: string)
    requires forall i :: 0 <= i < |rows| ==> CellOf(rows[i], c) == Some(v)
    ensures LastNonNull(pk, rows, k, c) == if HasKey(pk, rows, k) then Some(v) else None
    decreases |rows|
  {
    if |rows| > 0 {
      var n := |rows| - 1;
      var front := rows[..n];
      if KeyOf(pk, rows[n]) == Some(k) {
        assert HasKey(pk, rows, k);
      } else {
        forall i | 0 <= i < n
          ensures CellOf(front[i], c) == Some(v)
        {
          assert front[i] == rows[i];
        }
        LastNonNullConstant(pk, front, k, c, v);
        HasKeySnoc(pk, rows, k);
      }
    }
  }

  /** A key is carried by some row exactly when the rows before the last
      carry it or the last one does. */
  lemma HasKeySnoc(pk: seq<string>, rows: seq<Row>, k: Key)
    requires |rows| > 0
    ensures HasKey(pk, rows, k) <==> HasKey(pk, rows[..|rows| - 1], k) || KeyOf(pk, rows[|rows| - 1]) == Some(k)
  {
    var n := |rows| - 1;
    if HasKey(pk, rows, k) && KeyOf(pk, rows[n]) != Some(k) {
      var i :| 0 <= i < |rows| && KeyOf(pk, rows[i]) == Some(k);
      assert i < n && KeyOf(pk, rows[..n][i]) == Some(k);
    }
    if HasKey(pk, rows[..n], k) {
      var i :| 0 <= i < n && KeyOf(pk, rows[..n][i]) == Some(k);
      assert KeyOf(pk, rows[i]) == Some(k);
    }
  }

  /** A column no incoming row sets keeps its stored value under a key the
      rows carry, and is NULL in a row they insert. */
  lemma UpsertAllUntouched(t: Table, rows: seq<Row>, k: Key, c: string)
    requires WellFormed(t) && AllFit(t, rows) && HasKey(t.pk, rows, k)
    requires c in t.columns && c !in t.pk
    requires forall j :: 0 <= j < |rows| ==> CellOf(rows[j], c).None?
    ensures Lookup(UpsertAll(t, rows), k).Some?
    ensures CellOf(Lookup(UpsertAll(t, rows), k).value, c) ==
      if Lookup(t, k).Some? then CellOf(Lookup(t, k).value, c) else None
  {
    LastNonNullAbsent(t.pk, rows, k, c);
    UpsertAllColumn(t, rows, k, c);
  }

  /** A value once stored is never turned back into NULL by an update. */
  lemma NonNullPersists(t: Table, rows: seq<Row>, k: Key, c: string)
    requires WellFormed(t) && AllFit(t, rows)
    requires Lookup(t, k).Some? && c in t.columns && Lookup(t, k).value[c].Some?
    ensures Lookup(UpsertAll(t, rows), k).Some? && Lookup(UpsertAll(t, rows), k).value[c].Some?
  {
    StoredLookup(t, k);
    UpsertAllLookup(t, rows, k);
    MergeAllShape(t.columns, t.pk, Lookup(t, k), rows, k);
    var after := Lookup(UpsertAll(t, rows), k).value;
    if c in t.pk {
      var i :| 0 <= i < |t.pk| && t.pk[i] == c;
      assert after[c] == Some(k[i]);
    } else {
      UpsertAllColumn(t, rows, k, c);
    }
  }

  /** The first row carrying key `k`. */
  function FirstRow(pk: seq<string>, rows: seq<Row>, k: Key): (r: Option<Row>)
    ensures r.Some? ==> KeyOf(pk, r.value) == Some(k) && r.value in rows
    ensures r.None? <==> !HasKey(pk, rows, k)
    decreases |rows|
  {
    if |rows| == 0 then None
    else
      var n := |rows| - 1;
      var before := FirstRow(pk, rows[..n], k);
      if before.None? && KeyOf(pk, rows[n]) == Some(k) then Some(rows[n]) else before
  }

  /** After a seed load the row under each key is the one already stored, else
      the first row of the load carrying that key. */
  lemma {:induction false} SeedAllLookup(t: Table, rows: seq<Row>, k: Key)
    requires WellFormed(t) && AllFit(t, rows)
    ensures Lookup(SeedAll(t, rows), k) ==
      if Lookup(t, k).Some? then Lookup(t, k)
      else if FirstRow(t.pk, rows, k).Some? then Some(NewRow(t.columns, FirstRow(t.pk, rows, k).value))
      else None
    decreases |rows|
  {
    if |rows| > 0 {
      var n := |rows| - 1;
      SeedAllLookup(t, rows[..n], k);
      InsertOrIgnoreLookup(SeedAll(t, rows[..n]), rows[n], k);
    }
  }

  /** When no two rows share a key, the last non-NULL value of a column for
      `k` is the value in the one row carrying `k`. */
  lemma {:induction false} LastNonNullUnique(pk: seq<string>, rows: seq<Row>, k: Key, c: string)
    requires Unique(pk, rows)
    ensures LastNonNull(pk, rows, k, c) ==
      if FirstRow(pk, rows, k).Some? then CellOf(FirstRow(pk, rows, k).value, c) else None
    decreases |rows|
  {
    if |rows| > 0 {
      var n := |rows| - 1;
      assert Unique(pk, rows[..n]) by {
        forall i, j | 0 <= i < n && 0 <= j < n && i != j && KeyOf(pk, rows[..n][i]).Some?
          ensures KeyOf(pk, rows[..n][i]) != KeyOf(pk, rows[..n][j])
        {
          assert rows[..n][i] == rows[i] && rows[..n][j] == rows[j];
        }
      }
      LastNonNullUnique(pk, rows[..n], k, c);
      if KeyOf(pk, rows[n]) == Some(k) {
        assert !HasKey(pk, rows[..n], k);
      }
    }
  }
}
