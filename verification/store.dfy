/** A SQLite table with a declared primary key, seen through the two write
    statements the tables issue:

    - `INSERT OR IGNORE` (the seed loads): a row whose key is already stored
      is dropped;
    - `INSERT ... ON CONFLICT (pk) DO UPDATE SET k = COALESCE(excluded.k, k)`
      (`update_from_csv`): a row whose key is already stored is merged into
      it column by column, the incoming value winning unless it is NULL.

    Rows are kept in insertion order, which is the order `SELECT *` and the
    export return them in. A NULL in a key column is accepted by SQLite for a
    non-INTEGER primary key, and NULL keys never conflict: such a row has no
    key here and is always appended. */
module Store {
  import opened Wrappers

  type Cell = Option<string>
  type Row = map<string, Cell>
  type Key = seq<string>

  datatype Table = Table(columns: seq<string>, pk: seq<string>, rows: seq<Row>)

  function ColumnSet(columns: seq<string>): set<string> {
    set c | c in columns
  }

  /** The key of a row: the values of its primary-key columns, or `None` when
      one of them is NULL or missing. */
  function KeyOf(pk: seq<string>, r: Row): (k: Option<Key>)
    ensures k.Some? <==> forall c :: c in pk ==> c in r && r[c].Some?
    ensures k.Some? ==> |k.value| == |pk| && forall i :: 0 <= i < |pk| ==> pk[i] in r && r[pk[i]] == Some(k.value[i])
    decreases |pk|
  {
    if |pk| == 0 then Some([])
    else
      var n := |pk| - 1;
      assert pk == pk[..n] + [pk[n]];
      match KeyOf(pk[..n], r)
      case None => None
      case Some(front) =>
        if pk[n] in r && r[pk[n]].Some? then Some(front + [r[pk[n]].value]) else None
  }

  /** The value a row holds in a column, a missing column reading as NULL. */
  function CellOf(r: Row, c: string): Cell {
    if c in r then r[c] else None
  }

  /** The key of a single-column primary key is that column's value. */
  lemma KeyOfOne(c: string, r: Row)
    ensures KeyOf([c], r) == if CellOf(r, c).Some? then Some([CellOf(r, c).value]) else None
  {
    assert c in [c];
    if CellOf(r, c).Some? {
      var k := KeyOf([c], r).value;
      assert [c][0] == c && |k| == 1;
      assert k == [k[0]];
    }
  }

  /** Rows that agree on every key column have the same key. */
  lemma {:induction false} KeyOfAgree(pk: seq<string>, a: Row, b: Row)
    requires forall c :: c in pk ==> CellOf(a, c) == CellOf(b, c)
    ensures KeyOf(pk, a) == KeyOf(pk, b)
    decreases |pk|
  {
    if |pk| > 0 {
      var n := |pk| - 1;
      assert pk[n] in pk;
      assert CellOf(a, pk[n]) == CellOf(b, pk[n]);
      KeyOfAgree(pk[..n], a, b);
    }
  }

  /** At most one stored row per non-NULL key. */
  predicate Unique(pk: seq<string>, rows: seq<Row>) {
    forall i, j :: 0 <= i < |rows| && 0 <= j < |rows| && i != j && KeyOf(pk, rows[i]).Some? ==>
      KeyOf(pk, rows[i]) != KeyOf(pk, rows[j])
  }

  /** What every table satisfies: a non-empty primary key made of declared
      columns, every row holding exactly the declared columns, and the
      primary-key constraint. */
  predicate WellFormed(t: Table) {
    && |t.pk| >= 1
    && (forall c :: c in t.pk ==> c in t.columns)
    && (forall i :: 0 <= i < |t.rows| ==> t.rows[i].Keys == ColumnSet(t.columns))
    && Unique(t.pk, t.rows)
  }

  /** The position of the stored row with key `k`, if any. */
  function IndexOf(pk: seq<string>, rows: seq<Row>, k: Key): (r: Option<nat>)
    ensures r.Some? ==> r.value < |rows| && KeyOf(pk, rows[r.value]) == Some(k)
    ensures r.None? ==> forall i :: 0 <= i < |rows| ==> KeyOf(pk, rows[i]) != Some(k)
    decreases |rows|
  {
    if |rows| == 0 then None
    else
      var n := |rows| - 1;
      match IndexOf(pk, rows[..n], k)
      case Some(i) => Some(i)
      case None => if KeyOf(pk, rows[n]) == Some(k) then Some(n) else None
  }

  /** Under the primary-key constraint the row holding a key is the only
      one, so `IndexOf` finds exactly it. */
  lemma IndexOfUnique(pk: seq<string>, rows: seq<Row>, i: nat, k: Key)
    requires Unique(pk, rows)
    requires i < |rows| && KeyOf(pk, rows[i]) == Some(k)
    ensures IndexOf(pk, rows, k) == Some(i)
  {
    var j := IndexOf(pk, rows, k);
    assert j.Some? && KeyOf(pk, rows[j.value]) == KeyOf(pk, rows[i]);
  }

  /** The position of a key depends only on the sequence of row keys. */
  lemma {:induction false} IndexOfSameKeys(pk: seq<string>, a: seq<Row>, b: seq<Row>, k: Key)
    requires |a| == |b|
    requires forall i :: 0 <= i < |a| ==> KeyOf(pk, a[i]) == KeyOf(pk, b[i])
    ensures IndexOf(pk, a, k) == IndexOf(pk, b, k)
    decreases |a|
  {
    if |a| > 0 {
      var n := |a| - 1;
      IndexOfSameKeys(pk, a[..n], b[..n], k);
    }
  }

  /** `SELECT * FROM t WHERE pk = k`. */
  function Lookup(t: Table, k: Key): Option<Row> {
    match IndexOf(t.pk, t.rows, k)
    case Some(i) => Some(t.rows[i])
    case None => None
  }

  /** The row an INSERT stores: the named columns take the given values and
      every other declared column is NULL. */
  function NewRow(columns: seq<string>, incoming: Row): (r: Row)
    ensures r.Keys == ColumnSet(columns)
    ensures forall c :: c in r ==> r[c] == if c in incoming then incoming[c] else None
  {
    map c | c in ColumnSet(columns) :: if c in incoming then incoming[c] else None
  }

  /** An inserted row keeps the key the statement gave it. */
  lemma NewRowKey(columns: seq<string>, pk: seq<string>, incoming: Row)
    requires forall c :: c in pk ==> c in columns
    ensures KeyOf(pk, NewRow(columns, incoming)) == KeyOf(pk, incoming)
  {
    KeyOfAgree(pk, NewRow(columns, incoming), incoming);
  }

  /** The conflict branch of `update_from_csv`: `SET k = COALESCE(excluded.k, k)`
      for every non-key column `k` the incoming row names. */
  function Coalesce(stored: Row, incoming: Row, pk: seq<string>): (r: Row)
    ensures r.Keys == stored.Keys
    ensures KeyOf(pk, r) == KeyOf(pk, stored)
  {
    var r := map c | c in stored :: if c !in pk && c in incoming && incoming[c].Some? then incoming[c] else stored[c];
    KeyOfAgree(pk, r, stored);
    r
  }

  /** What an upsert stores for a key, given what was stored before. */
  function Merge(columns: seq<string>, pk: seq<string>, stored: Option<Row>, incoming: Row): Row {
    match stored
    case None => NewRow(columns, incoming)
    case Some(s) => Coalesce(s, incoming, pk)
  }

  /** The incoming row names only declared columns: SQLite rejects any other. */
  predicate Fits(t: Table, incoming: Row) {
    incoming.Keys <= ColumnSet(t.columns)
  }

  /** The incoming row's key is already stored. */
  predicate Stored(t: Table, incoming: Row) {
    KeyOf(t.pk, incoming).Some? && IndexOf(t.pk, t.rows, KeyOf(t.pk, incoming).value).Some?
  }

  /** One `INSERT ... ON CONFLICT (pk) DO UPDATE SET ...` statement: a stored
      key is updated in place, anything else adds one row at the end, and no
      other row changes. */
  function Upsert(t: Table, incoming: Row): (r: Table)
    requires WellFormed(t) && Fits(t, incoming)
    ensures WellFormed(r) && r.columns == t.columns && r.pk == t.pk
    ensures |r.rows| == if Stored(t, incoming) then |t.rows| else |t.rows| + 1
    ensures !Stored(t, incoming) ==> r.rows == t.rows + [NewRow(t.columns, incoming)]
    ensures forall i :: 0 <= i < |t.rows| ==> KeyOf(t.pk, r.rows[i]) == KeyOf(t.pk, t.rows[i])
    ensures forall i :: 0 <= i < |t.rows| && (KeyOf(t.pk, t.rows[i]).None? || KeyOf(t.pk, t.rows[i]) != KeyOf(t.pk, incoming)) ==>
      r.rows[i] == t.rows[i]
  {
    match KeyOf(t.pk, incoming)
    case Some(k) =>
      (match IndexOf(t.pk, t.rows, k)
       case Some(i) => UpdateAt(t, i, incoming)
       case None => Append(t, incoming))
    case None => Append(t, incoming)
  }

  /** The conflict branch: the stored row at `i` coalesced with the
      incoming one, keys unchanged. */
  function UpdateAt(t: Table, i: nat, incoming: Row): (r: Table)
    requires WellFormed(t) && i < |t.rows|
    ensures WellFormed(r) && r.columns == t.columns && r.pk == t.pk && |r.rows| == |t.rows|
    ensures forall j :: 0 <= j < |t.rows| ==> KeyOf(t.pk, r.rows[j]) == KeyOf(t.pk, t.rows[j])
    ensures forall j :: 0 <= j < |t.rows| && j != i ==> r.rows[j] == t.rows[j]
    ensures r.rows[i] == Coalesce(t.rows[i], incoming, t.pk)
  {
    var rows := t.rows[i := Coalesce(t.rows[i], incoming, t.pk)];
    assert forall j :: 0 <= j < |rows| ==> KeyOf(t.pk, rows[j]) == KeyOf(t.pk, t.rows[j]);
    t.(rows := rows)
  }

  /** The insert branch: a new row at the end, for a key not stored. */
  function Append(t: Table, incoming: Row): (r: Table)
    requires WellFormed(t) && Fits(t, incoming)
    requires KeyOf(t.pk, incoming).Some? ==> IndexOf(t.pk, t.rows, KeyOf(t.pk, incoming).value).None?
    ensures WellFormed(r) && r.columns == t.columns && r.pk == t.pk
    ensures r.rows == t.rows + [NewRow(t.columns, incoming)]
  {
    NewRowKey(t.columns, t.pk, incoming);
    t.(rows := t.rows + [NewRow(t.columns, incoming)])
  }

  /** One `INSERT OR IGNORE` statement: ignored exactly when the key is
      already stored, otherwise one row added at the end. */
  function InsertOrIgnore(t: Table, incoming: Row): (r: Table)
    requires WellFormed(t) && Fits(t, incoming)
    ensures WellFormed(r) && r.columns == t.columns && r.pk == t.pk
    ensures Stored(t, incoming) ==> r == t
    ensures !Stored(t, incoming) ==> r.rows == t.rows + [NewRow(t.columns, incoming)]
  {
    NewRowKey(t.columns, t.pk, incoming);
    match KeyOf(t.pk, incoming)
    case Some(k) =>
      if IndexOf(t.pk, t.rows, k).Some? then t
      else t.(rows := t.rows + [NewRow(t.columns, incoming)])
    case None =>
      t.(rows := t.rows + [NewRow(t.columns, incoming)])
  }

  predicate AllFit(t: Table, rows: seq<Row>) {
    forall i :: 0 <= i < |rows| ==> Fits(t, rows[i])
  }

  /** Upserting a sequence of rows, in order. */
  function UpsertAll(t: Table, rows: seq<Row>): (r: Table)
    requires WellFormed(t) && AllFit(t, rows)
    ensures WellFormed(r) && r.columns == t.columns && r.pk == t.pk
    ensures |t.rows| <= |r.rows|
    decreases |rows|
  {
    if |rows| == 0 then t
    else
      var n := |rows| - 1;
      Upsert(UpsertAll(t, rows[..n]), rows[n])
  }

  /** Inserting a sequence of rows with `INSERT OR IGNORE`, in order. */
  function SeedAll(t: Table, rows: seq<Row>): (r: Table)
    requires WellFormed(t) && AllFit(t, rows)
    ensures WellFormed(r) && r.columns == t.columns && r.pk == t.pk
    ensures |t.rows| <= |r.rows| && r.rows[..|t.rows|] == t.rows
    decreases |rows|
  {
    if |rows| == 0 then t
    else
      var n := |rows| - 1;
      var front := SeedAll(t, rows[..n]);
      InsertOrIgnore(front, rows[n])
  }
}
