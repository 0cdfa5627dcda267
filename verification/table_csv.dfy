/** `BaseTable.update_from_csv` and `BaseTable.export`: a table merged with
    the rows of a CSV file, and a table written out as one. */
module TableCsv {
  import opened Wrappers
  import opened Store
  import opened StoreLaws
  import opened CsvRows
  import PyDict

  /** Why a statement of `update_from_csv` fails. */
  datatype UpdateError =
      /** A record longer than the header: `csv.DictReader` files the surplus
          under the key `None` and joining the column names raises
          `TypeError`. */
    | MalformedRecord
      /** SQLite's "table has no column named ...". */
    | NoSuchColumns(names: set<string>)
      /** Every column of the row is a key column, so the generated
          `DO UPDATE SET` clause is empty and SQLite rejects its syntax. */
    | NoUpdatableColumns

  /** The cells of a read row as the statement binds them: `""` becomes NULL. */
  function NullEmpty(fields: map<string, Option<string>>): (r: Row)
    ensures r.Keys == fields.Keys
    ensures forall c :: c in r ==> r[c] == if fields[c] == Some("") then None else fields[c]
  {
    map c | c in fields :: if fields[c] == Some("") then None else fields[c]
  }

  /** The error one row of the file raises, if any. */
  function RowError(t: Table, row: DictRow): Option<UpdateError> {
    if row.overflow then Some(MalformedRecord)
    else if !(row.fields.Keys <= ColumnSet(t.columns)) then Some(NoSuchColumns(row.fields.Keys - ColumnSet(t.columns)))
    else if forall c :: c in row.fields ==> c in t.pk then Some(NoUpdatableColumns)
    else None
  }

  /** The rows of the file applied in file order, the first failing row
      aborting the whole update. */
  function ApplyRows(t: Table, rows: seq<DictRow>): (r: Result<Table, UpdateError>)
    requires WellFormed(t)
    ensures r.Success? ==> WellFormed(r.value) && r.value.columns == t.columns && r.value.pk == t.pk
    decreases |rows|
  {
    if |rows| == 0 then Success(t)
    else
      var n := |rows| - 1;
      var front :- ApplyRows(t, rows[..n]);
      match RowError(front, rows[n])
      case Some(e) => Failure(e)
      case None => Success(Upsert(front, NullEmpty(rows[n].fields)))
  }

  /** `BaseTable.update_from_csv(datafile)`. */
  function UpdateFromCsv(t: Table, f: CsvFile): (r: Result<Table, UpdateError>)
    requires WellFormed(t)
    ensures r.Success? ==> WellFormed(r.value) && r.value.columns == t.columns && r.value.pk == t.pk
  {
    ApplyRows(t, ReadRows(f))
  }

  /** The rows handed to the upsert statements. */
  function Bound(rows: seq<DictRow>): (r: seq<Row>)
    ensures |r| == |rows|
    ensures forall i :: 0 <= i < |rows| ==> r[i] == NullEmpty(rows[i].fields)
  {
    seq(|rows|, i requires 0 <= i < |rows| => NullEmpty(rows[i].fields))
  }

  /** Whether a row is in error depends only on the columns and the key. */
  lemma RowErrorSchema(t: Table, u: Table, row: DictRow)
    requires t.columns == u.columns && t.pk == u.pk
    ensures RowError(t, row) == RowError(u, row)
  {
  }

  /** A successful update met no row in error. */
  lemma {:induction false} SuccessNoRowError(t: Table, rows: seq<DictRow>, i: nat)
    requires WellFormed(t)
    requires ApplyRows(t, rows).Success?
    requires i < |rows|
    ensures RowError(t, rows[i]).None?
    decreases |rows|
  {
    var n := |rows| - 1;
    var front := ApplyRows(t, rows[..n]);
    assert front.Success?;
    if i == n {
      assert RowError(front.value, rows[n]).None?;
      RowErrorSchema(front.value, t, rows[n]);
    } else {
      SuccessNoRowError(t, rows[..n], i);
    }
  }

  /** The rows of a file without errors fit the table. */
  lemma BoundFit(t: Table, rows: seq<DictRow>)
    requires forall i :: 0 <= i < |rows| ==> RowError(t, rows[i]).None?
    ensures AllFit(t, Bound(rows))
  {
    forall i | 0 <= i < |rows|
      ensures Fits(t, Bound(rows)[i])
    {
      assert RowError(t, rows[i]).None?;
    }
  }

  /** A successful update is the in-order upsert of the file's rows with
      empty cells bound as NULL. */
  lemma {:induction false} ApplyRowsUpsertAll(t: Table, rows: seq<DictRow>)
    requires WellFormed(t)
    requires forall i :: 0 <= i < |rows| ==> RowError(t, rows[i]).None?
    ensures AllFit(t, Bound(rows))
    ensures ApplyRows(t, rows) == Success(UpsertAll(t, Bound(rows)))
    decreases |rows|
  {
    BoundFit(t, rows);
    if |rows| > 0 {
      var n := |rows| - 1;
      var prefix := rows[..n];
      assert forall i :: 0 <= i < |prefix| ==> RowError(t, prefix[i]).None? by {
        forall i | 0 <= i < |prefix| ensures RowError(t, prefix[i]).None? {
          assert prefix[i] == rows[i];
        }
      }
      ApplyRowsUpsertAll(t, prefix);
      var front := UpsertAll(t, Bound(prefix));
      assert Bound(rows)[..n] == Bound(prefix);
      var x := NullEmpty(rows[n].fields);
      RowErrorSchema(front, t, rows[n]);
      assert ApplyRows(t, rows) == Success(Upsert(front, x));
      assert UpsertAll(t, Bound(rows)) == Upsert(front, x);
    }
  }

  /** `update_from_csv` succeeds exactly when no row of the file is in error,
      and its result is then the in-order upsert of the file's rows with
      empty cells bound as NULL. */
  lemma UpdateFromCsvUpserts(t: Table, f: CsvFile)
    requires WellFormed(t)
    ensures UpdateFromCsv(t, f).Success? <==> forall i :: 0 <= i < |ReadRows(f)| ==> RowError(t, ReadRows(f)[i]).None?
    ensures UpdateFromCsv(t, f).Success? ==>
      AllFit(t, Bound(ReadRows(f))) && UpdateFromCsv(t, f).value == UpsertAll(t, Bound(ReadRows(f)))
  {
    var rows := ReadRows(f);
    assert UpdateFromCsv(t, f) == ApplyRows(t, rows);
    if ApplyRows(t, rows).Success? {
      forall i | 0 <= i < |rows| ensures RowError(t, rows[i]).None? { SuccessNoRowError(t, rows, i); }
      ApplyRowsUpsertAll(t, rows);
    } else if forall i :: 0 <= i < |rows| ==> RowError(t, rows[i]).None? {
      ApplyRowsUpsertAll(t, rows);
      assert false;
    }
  }

  /** `export`: the header in table column order, then every row in stored
      order, NULL written as the empty cell. */
  function Export(t: Table): (f: CsvFile)
    ensures f.header == Some(t.columns)
    ensures |f.records| == |t.rows|
    ensures forall i, j :: 0 <= i < |t.rows| && 0 <= j < |t.columns| ==>
      |f.records[i]| == |t.columns| &&
      f.records[i][j] == (if CellOf(t.rows[i], t.columns[j]).Some? then CellOf(t.rows[i], t.columns[j]).value else "")
  {
    CsvFile(Some(t.columns), seq(|t.rows|, i requires 0 <= i < |t.rows| => Render(t.columns, t.rows[i])))
  }

  function Render(columns: seq<string>, row: Row): (cells: seq<string>)
    ensures |cells| == |columns|
  {
    seq(|columns|, j requires 0 <= j < |columns| => match CellOf(row, columns[j]) case Some(v) => v case None => "")
  }

  /** Every key value of every row is a non-empty string, so none reads back
      as NULL. */
  predicate KeysNonEmpty(t: Table) {
    forall i :: 0 <= i < |t.rows| ==>
      KeyOf(t.pk, t.rows[i]).Some? && forall j :: 0 <= j < |t.pk| ==> KeyOf(t.pk, t.rows[i]).value[j] != ""
  }

  /** What a row of the table reads back as from its exported line. */
  lemma ReadBack(t: Table, i: nat)
    requires WellFormed(t) && PyDict.Distinct(t.columns) && i < |t.rows|
    ensures var back := NullEmpty(ZipFields(t.columns, Render(t.columns, t.rows[i])));
      && back.Keys == t.rows[i].Keys
      && forall c :: c in back ==> back[c] == if t.rows[i][c] == Some("") then None else t.rows[i][c]
  {
    var row := t.rows[i];
    var cells := Render(t.columns, row);
    var z := ZipFields(t.columns, cells);
    forall c | c in z
      ensures z[c] == Some(if row[c].Some? then row[c].value else "")
    {
      var j :| 0 <= j < |t.columns| && t.columns[j] == c;
      ZipFieldsAt(t.columns, cells, j);
    }
  }

  /** A row absorbs its own read-back: the upsert it causes writes nothing new. */
  lemma ReadBackAbsorbed(t: Table, i: nat)
    requires WellFormed(t) && PyDict.Distinct(t.columns) && KeysNonEmpty(t) && i < |t.rows|
    ensures KeyOf(t.pk, NullEmpty(ZipFields(t.columns, Render(t.columns, t.rows[i])))) == KeyOf(t.pk, t.rows[i])
    ensures Coalesce(t.rows[i], NullEmpty(ZipFields(t.columns, Render(t.columns, t.rows[i]))), t.pk) == t.rows[i]
  {
    var row := t.rows[i];
    var back := NullEmpty(ZipFields(t.columns, Render(t.columns, row)));
    ReadBack(t, i);
    forall c | c in t.pk
      ensures CellOf(back, c) == CellOf(row, c)
    {
      var j :| 0 <= j < |t.pk| && t.pk[j] == c;
      assert row[c] == Some(KeyOf(t.pk, row).value[j]);
    }
    KeyOfAgree(t.pk, back, row);
  }

  /** Upserting rows that each match and are absorbed by the row stored at the
      same position leaves the table as it was. */
  lemma {:induction false} UpsertAllAbsorbed(t: Table, rows: seq<Row>)
    requires WellFormed(t) && AllFit(t, rows) && |rows| <= |t.rows|
    requires forall i :: 0 <= i < |rows| ==>
      KeyOf(t.pk, rows[i]) == KeyOf(t.pk, t.rows[i]) && KeyOf(t.pk, rows[i]).Some? &&
      Coalesce(t.rows[i], rows[i], t.pk) == t.rows[i]
    ensures UpsertAll(t, rows) == t
    decreases |rows|
  {
    if |rows| > 0 {
      var n := |rows| - 1;
      UpsertAllAbsorbed(t, rows[..n]);
      UpsertAbsorbed(t, rows[n], n);
    }
  }

  /** One upsert whose row is absorbed by the stored row with its key. */
  lemma UpsertAbsorbed(t: Table, incoming: Row, i: nat)
    requires WellFormed(t) && Fits(t, incoming) && i < |t.rows|
    requires KeyOf(t.pk, incoming) == KeyOf(t.pk, t.rows[i]) && KeyOf(t.pk, incoming).Some?
    requires Coalesce(t.rows[i], incoming, t.pk) == t.rows[i]
    ensures Upsert(t, incoming) == t
  {
    var k := KeyOf(t.pk, incoming).value;
    var r := Upsert(t, incoming);
    IndexOfUnique(t.pk, t.rows, i, k);
    UpsertLookup(t, incoming, k);
    IndexOfUnique(t.pk, r.rows, i, k);
    forall j | 0 <= j < |t.rows|
      ensures r.rows[j] == t.rows[j]
    {
    }
  }

  /** Reading an export back gives one row per stored row, in order: with at
      least one column no exported line is blank. */
  lemma ExportReadRows(t: Table)
    requires |t.columns| > 0
    ensures ReadRows(Export(t)) ==
      seq(|t.rows|, i requires 0 <= i < |t.rows| => ToDictRow(t.columns, Render(t.columns, t.rows[i])))
  {
    var records := Export(t).records;
    forall i | 0 <= i < |records|
      ensures records[i] != []
    {
      assert |records[i]| == |t.columns|;
    }
    ReadRowsNoBlank(t.columns, records);
  }

  /** An exported row reads back without error when the table has a non-key
      column. */
  lemma ReadBackNoError(t: Table, i: nat)
    requires i < |t.rows|
    requires exists c :: c in t.columns && c !in t.pk
    ensures RowError(t, ToDictRow(t.columns, Render(t.columns, t.rows[i]))).None?
  {
    var row := ToDictRow(t.columns, Render(t.columns, t.rows[i]));
    var c :| c in t.columns && c !in t.pk;
    assert row.fields.Keys == ColumnSet(t.columns);
    assert c in row.fields;
  }

  /** Re-applying an export to the table it came from is a no-op, provided no
      key value is the empty string (which would read back as NULL) and the
      table has a non-key column for the update clause. */
  lemma ExportRoundTrip(t: Table)
    requires WellFormed(t) && PyDict.Distinct(t.columns) && KeysNonEmpty(t)
    requires exists c :: c in t.columns && c !in t.pk
    ensures UpdateFromCsv(t, Export(t)) == Success(t)
  {
    assert |t.columns| > 0 by { assert t.pk[0] in t.columns; }
    ExportReadRows(t);
    var rows := ReadRows(Export(t));
    assert |rows| == |t.rows|;
    forall i | 0 <= i < |rows|
      ensures RowError(t, rows[i]).None?
    {
      ReadBackNoError(t, i);
    }
    ApplyRowsUpsertAll(t, rows);
    var bound := Bound(rows);
    forall i | 0 <= i < |bound|
      ensures KeyOf(t.pk, bound[i]) == KeyOf(t.pk, t.rows[i]) && KeyOf(t.pk, bound[i]).Some?
      ensures Coalesce(t.rows[i], bound[i], t.pk) == t.rows[i]
    {
      assert bound[i] == NullEmpty(ZipFields(t.columns, Render(t.columns, t.rows[i])));
      ReadBackAbsorbed(t, i);
    }
    UpsertAllAbsorbed(t, bound);
  }

  /** Without the non-empty-key proviso the round trip fails: a row keyed by
      the empty string reads back with a NULL key, which conflicts with
      nothing, so the re-import appends a second row. */
  lemma EmptyKeyRoundTrip()
    ensures var t := Table(["url", "title"], ["url"], [map["url" := Some(""), "title" := Some("x")]]);
      && WellFormed(t)
      && UpdateFromCsv(t, Export(t)).Success?
      && |UpdateFromCsv(t, Export(t)).value.rows| == 2
  {
    var row: Row := map["url" := Some(""), "title" := Some("x")];
    var t := Table(["url", "title"], ["url"], [row]);
    assert row.Keys == ColumnSet(t.columns);
    assert WellFormed(t);
    ExportReadRows(t);
    var rows := ReadRows(Export(t));
    assert |rows| == 1;
    assert "title" in t.columns && "title" !in t.pk;
    ReadBackNoError(t, 0);
    var cells := Render(t.columns, row);
    assert cells[0] == "" by { assert CellOf(row, "url") == Some(""); }
    assert rows[0] == ToDictRow(t.columns, cells);
    EmptyKeyReadsNull(cells);
    UnkeyedLineAppends(t, Export(t));
  }

  /** A one-line file whose line is accepted but binds no key appends one
      row. */
  lemma UnkeyedLineAppends(t: Table, f: CsvFile)
    requires WellFormed(t)
    requires |ReadRows(f)| == 1 && RowError(t, ReadRows(f)[0]).None?
    requires KeyOf(t.pk, NullEmpty(ReadRows(f)[0].fields)).None?
    ensures UpdateFromCsv(t, f).Success? && |UpdateFromCsv(t, f).value.rows| == |t.rows| + 1
  {
    var rows := ReadRows(f);
    UpdateFromCsvUpserts(t, f);
    var bound := Bound(rows);
    assert bound[..0] == [];
    assert UpsertAll(t, bound) == Upsert(t, bound[0]);
    assert !Stored(t, bound[0]);
  }

  /** An exported line whose `url` cell is empty binds a NULL `url`. */
  lemma EmptyKeyReadsNull(cells: seq<string>)
    requires |cells| == 2 && cells[0] == ""
    ensures KeyOf(["url"], NullEmpty(ZipFields(["url", "title"], cells))).None?
  {
    var z := ZipFields(["url", "title"], cells);
    ZipFieldsAt(["url", "title"], cells, 0);
    assert z["url"] == Some("");
    var b := NullEmpty(z);
    assert b["url"] == None;
  }
}
