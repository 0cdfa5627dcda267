/** The DuckDB generation of the two tables (`links/links_table.py`,
    `shared_content/shared_content_table.py`). Each table is created only if
    absent and keyed by a pair of columns; a file is loaded through a view
    in one `INSERT ... SELECT` statement, which either ignores conflicting
    rows or coalesces them into the stored row. A DuckDB primary-key column
    is NOT NULL, so a row without a full key aborts the statement, and the
    CSV reader yields an empty cell as NULL. The column lists of
    `minall/links/constants.py` and `minall/shared_content/constants.py`
    are parameters here: the `links` field list is the table's column list,
    the `shared_content` field list is `fieldnames`. */
module DuckTables {
  import opened Wrappers
  import opened Store
  import opened StoreLaws
  import opened CsvRows
  import PyDict
  import TableCsv

  datatype DuckError =
      /** The bare `KeyError` of `LinksTable.insert` on a file without a
          header row. */
    | NoHeaders
      /** DuckDB's binder error: the insert names a column the table does
          not have. */
    | UnknownColumn
      /** The view's column aliases, or the insert's column list, do not
          match the number of columns the file has. */
    | ColumnCountMismatch
      /** The CSV reader, strict by default, meets a record whose width is
          not the header's. */
    | RaggedRecord
      /** The NOT NULL constraint of a primary-key column. */
    | NullKey
      /** `ON CONFLICT DO UPDATE` proposed two rows with one key in the same
          statement ("can not update the same row twice"). */
    | DuplicateKey

  /** `PRIMARY KEY (url, link_id)` */
  const LinksPk: seq<string> := ["url", "link_id"]

  /** `PRIMARY KEY (post_url, content_url)` */
  const SharedPk: seq<string> := ["post_url", "content_url"]

  /** `CREATE TABLE IF NOT EXISTS`: an existing table, rows included, is
      kept as it is; otherwise the table starts empty. */
  function CreateIfAbsent(existing: Option<Table>, columns: seq<string>, pk: seq<string>): (t: Table)
    ensures existing.Some? ==> t == existing.value
    ensures existing.None? ==> t.rows == [] && t.columns == columns && t.pk == pk
  {
    match existing
    case Some(t) => t
    case None => Table(columns, pk, [])
  }

  /** The rows of the view over a file read under `header`. */
  function ViewRows(header: seq<string>, records: seq<seq<string>>): (rows: seq<Row>)
    ensures forall i :: 0 <= i < |rows| ==> rows[i].Keys == ColumnSet(header)
  {
    var read := ReadRows(CsvFile(Some(header), records));
    seq(|read|, i requires 0 <= i < |read| => TableCsv.NullEmpty(read[i].fields))
  }

  /** A non-blank record whose width is not the header's. */
  predicate Ragged(width: nat, records: seq<seq<string>>) {
    exists i :: 0 <= i < |records| && records[i] != [] && |records[i]| != width
  }

  /** Some row of the load has no full key. */
  predicate HasNullKey(pk: seq<string>, rows: seq<Row>) {
    exists i :: 0 <= i < |rows| && KeyOf(pk, rows[i]).None?
  }

  /** `sorted(infile_fieldnames) == sorted(["url", "link_id"])`. */
  predicate KeyOnly(header: seq<string>) {
    multiset(header) == multiset(LinksPk)
  }

  /** A `links` header the insert can bind: present, non-empty, and made of
      table columns. */
  predicate Bindable(t: Table, header: Option<seq<string>>) {
    header.Some? && header.value != [] && forall h :: h in header.value ==> h in t.columns
  }

  /** `LinksTable.insert(infile)`. A file whose columns are exactly `url` and
      `link_id` is loaded with `ON CONFLICT DO NOTHING`; any other file with
      `DO UPDATE SET field = COALESCE(excluded.field, links.field)` over
      every non-key field, a field the file lacks reading as NULL. The whole
      file is one statement: a ragged record, a row without a full key, or
      (under `DO UPDATE`) two rows with one key abort it. */
  function LinksInsert(t: Table, f: CsvFile): (r: Result<Table, DuckError>)
    requires WellFormed(t) && t.pk == LinksPk
    ensures r.Success? ==> WellFormed(r.value) && r.value.columns == t.columns && r.value.pk == t.pk
    ensures r == Failure(NoHeaders) <==> f.header.None? || f.header.value == []
    ensures r == Failure(UnknownColumn) <==>
      f.header.Some? && f.header.value != [] && exists h :: h in f.header.value && h !in t.columns
    ensures Bindable(t, f.header) ==>
      (r == Failure(RaggedRecord) <==> Ragged(|f.header.value|, f.records))
    ensures Bindable(t, f.header) && !Ragged(|f.header.value|, f.records) ==>
      (r == Failure(NullKey) <==> HasNullKey(LinksPk, ViewRows(f.header.value, f.records)))
    ensures Bindable(t, f.header) && !Ragged(|f.header.value|, f.records) &&
            !HasNullKey(LinksPk, ViewRows(f.header.value, f.records)) ==>
      (r == Failure(DuplicateKey) <==> !KeyOnly(f.header.value) && !Unique(LinksPk, ViewRows(f.header.value, f.records)))
    ensures Bindable(t, f.header) && ("url" !in f.header.value || "link_id" !in f.header.value) ==>
      (r.Success? <==> !Ragged(|f.header.value|, f.records) && ViewRows(f.header.value, f.records) == [])
  {
    if f.header.None? || |f.header.value| == 0 then Failure(NoHeaders)
    else if exists h :: h in f.header.value && h !in t.columns then Failure(UnknownColumn)
    else if Ragged(|f.header.value|, f.records) then Failure(RaggedRecord)
    else
      var rows := ViewRows(f.header.value, f.records);
      assert |rows| > 0 && ("url" !in f.header.value || "link_id" !in f.header.value) ==> KeyOf(t.pk, rows[0]).None?;
      if HasNullKey(t.pk, rows) then Failure(NullKey)
      else if KeyOnly(f.header.value) then Success(SeedAll(t, rows))
      else if !Unique(t.pk, rows) then Failure(DuplicateKey)
      else Success(UpsertAll(t, rows))
  }

  /** A key-only file keeps the row already stored under each key, else the
      first row of the file carrying it. */
  lemma LinksInsertKeyOnly(t: Table, f: CsvFile, k: Key)
    requires WellFormed(t) && t.pk == LinksPk
    requires LinksInsert(t, f).Success? && KeyOnly(f.header.value)
    ensures var rows := ViewRows(f.header.value, f.records);
      Lookup(LinksInsert(t, f).value, k) ==
        if Lookup(t, k).Some? then Lookup(t, k)
        else if FirstRow(t.pk, rows, k).Some? then Some(NewRow(t.columns, FirstRow(t.pk, rows, k).value))
        else None
  {
    SeedAllLookup(t, ViewRows(f.header.value, f.records), k);
  }

  /** Any other file loads only when it holds at most one row per key;
      per non-key column the key's row then takes the file's value unless it
      is NULL, in which case the stored value is kept. */
  lemma LinksInsertCoalesces(t: Table, f: CsvFile, k: Key, c: string)
    requires WellFormed(t) && t.pk == LinksPk
    requires LinksInsert(t, f).Success? && !KeyOnly(f.header.value)
    requires c in t.columns && c !in t.pk
    ensures Unique(t.pk, ViewRows(f.header.value, f.records))
    ensures var row := FirstRow(t.pk, ViewRows(f.header.value, f.records), k);
      var after := Lookup(LinksInsert(t, f).value, k);
      && (after.Some? <==> Lookup(t, k).Some? || row.Some?)
      && (after.Some? ==>
            CellOf(after.value, c) ==
              if row.Some? && CellOf(row.value, c).Some? then CellOf(row.value, c)
              else if Lookup(t, k).Some? then CellOf(Lookup(t, k).value, c) else None)
  {
    var rows := ViewRows(f.header.value, f.records);
    UpsertAllColumn(t, rows, k, c);
    LastNonNullUnique(t.pk, rows, k, c);
  }

  /** On rows that name only key columns the two conflict clauses agree:
      coalescing a row with no non-key value changes nothing, so `DO NOTHING`
      is an exact shortcut for the key-only file. */
  lemma {:induction false} KeyOnlyAgree(t: Table, rows: seq<Row>)
    requires WellFormed(t) && AllFit(t, rows)
    requires forall i :: 0 <= i < |rows| ==> rows[i].Keys <= ColumnSet(t.pk)
    ensures UpsertAll(t, rows) == SeedAll(t, rows)
    decreases |rows|
  {
    if |rows| > 0 {
      var n := |rows| - 1;
      KeyOnlyAgree(t, rows[..n]);
      var front := SeedAll(t, rows[..n]);
      var x := rows[n];
      UpsertKeyOnly(front, x);
    }
  }

  /** One key-only row: upserting it is inserting it or ignoring it. */
  lemma UpsertKeyOnly(t: Table, x: Row)
    requires WellFormed(t) && Fits(t, x) && x.Keys <= ColumnSet(t.pk)
    ensures Upsert(t, x) == InsertOrIgnore(t, x)
  {
    if Stored(t, x) {
      var i := IndexOf(t.pk, t.rows, KeyOf(t.pk, x).value).value;
      assert Coalesce(t.rows[i], x, t.pk) == t.rows[i];
      assert t.rows[i := t.rows[i]] == t.rows;
    }
  }

  /** `SharedContentTable.insert(infile)`. The view renames the file's
      columns positionally to `fieldnames`, so the header's own names are
      never read: only its width must match. Every row is coalesced into
      the stored row of its key, in one statement that a ragged record, a
      row without a full key or two rows with one key abort. */
  function SharedInsert(t: Table, fieldnames: seq<string>, f: CsvFile): (r: Result<Table, DuckError>)
    requires WellFormed(t) && t.pk == SharedPk
    ensures r.Success? ==> WellFormed(r.value) && r.value.columns == t.columns && r.value.pk == t.pk
    ensures r == Failure(ColumnCountMismatch) <==> f.header.None? || |f.header.value| != |fieldnames|
    ensures r == Failure(UnknownColumn) <==>
      f.header.Some? && |f.header.value| == |fieldnames| && exists c :: c in fieldnames && c !in t.columns
    ensures f.header.Some? && |f.header.value| == |fieldnames| && (forall c :: c in fieldnames ==> c in t.columns) ==>
      && (r == Failure(RaggedRecord) <==> Ragged(|fieldnames|, f.records))
      && (!Ragged(|fieldnames|, f.records) ==>
            (r == Failure(NullKey) <==> HasNullKey(SharedPk, ViewRows(fieldnames, f.records))))
      && (!Ragged(|fieldnames|, f.records) && !HasNullKey(SharedPk, ViewRows(fieldnames, f.records)) ==>
            (r == Failure(DuplicateKey) <==> !Unique(SharedPk, ViewRows(fieldnames, f.records))))
  {
    if f.header.None? || |f.header.value| != |fieldnames| then Failure(ColumnCountMismatch)
    else if exists c :: c in fieldnames && c !in t.columns then Failure(UnknownColumn)
    else if Ragged(|fieldnames|, f.records) then Failure(RaggedRecord)
    else
      var rows := ViewRows(fieldnames, f.records);
      if HasNullKey(t.pk, rows) then Failure(NullKey)
      else if !Unique(t.pk, rows) then Failure(DuplicateKey)
      else Success(UpsertAll(t, rows))
  }

  /** The cell of a full-width record that lands in each field of the view:
      the one in the same position, NULL when it is empty. (Any other
      non-blank record aborts the load as ragged.) */
  lemma ViewCell(fieldnames: seq<string>, record: seq<string>, j: nat)
    requires PyDict.Distinct(fieldnames) && j < |fieldnames| && |record| == |fieldnames|
    ensures TableCsv.NullEmpty(ToDictRow(fieldnames, record).fields)[fieldnames[j]] ==
      if record[j] != "" then Some(record[j]) else None
  {
    ZipFieldsAt(fieldnames, record, j);
  }

  /** Two files of the same width and the same records load identically,
      whatever their headers say. A load holds at most one row per key; per
      non-key column that row's value wins unless it is NULL, in which case
      the stored value is kept. */
  lemma SharedInsertPositional(t: Table, fieldnames: seq<string>, f: CsvFile, g: CsvFile, k: Key, c: string)
    requires WellFormed(t) && t.pk == SharedPk
    requires f.records == g.records && f.header.Some? && g.header.Some? && |f.header.value| == |g.header.value|
    requires c in t.columns && c !in t.pk
    ensures SharedInsert(t, fieldnames, f) == SharedInsert(t, fieldnames, g)
    ensures SharedInsert(t, fieldnames, f).Success? ==>
      var rows := ViewRows(fieldnames, f.records);
      var row := FirstRow(t.pk, rows, k);
      var after := Lookup(SharedInsert(t, fieldnames, f).value, k);
      && Unique(t.pk, rows)
      && (after.Some? <==> Lookup(t, k).Some? || row.Some?)
      && (after.Some? ==>
            CellOf(after.value, c) ==
              if row.Some? && CellOf(row.value, c).Some? then CellOf(row.value, c)
              else if Lookup(t, k).Some? then CellOf(Lookup(t, k).value, c) else None)
  {
    if SharedInsert(t, fieldnames, f).Success? {
      var rows := ViewRows(fieldnames, f.records);
      UpsertAllColumn(t, rows, k, c);
      LastNonNullUnique(t.pk, rows, k, c);
    }
  }
}
