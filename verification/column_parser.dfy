/** The `ColumnParser` generation of table creation (`tables/utils.py`,
    `exceptions.py`): the input file's header row is validated for the
    target table, widened with the canonical columns it lacks, typed, and
    the file is loaded with `INSERT OR IGNORE` over the widened column list,
    each value chosen by `parse_rows`. */
module ColumnParser {
  import opened Wrappers
  import opened Store
  import opened StoreLaws
  import opened CsvRows
  import opened Schema
  import PyDict
  import PyText
  import SqliteTables
  import SqlNames

  datatype ParserError =
      /** `NoCSVHeaders`: the reader found no header row. */
    | NoCSVHeaders
      /** `NoURLColumn`: the declared URL column, as `str(url_col)`, is not a
          header of a `links` file. */
    | NoURLColumn(urlCol: string)
      /** `NoPrimaryKeyColumns`: a key column of a `shared_content` file is
          missing. */
    | NoPrimaryKeyColumns(col: string)
      /** The `KeyError` of `row[url_col]` in `parse_rows`. */
    | UrlColumnKeyError
      /** SQLite's "table has no column named ..." for a column of the insert
          list the table does not declare. */
    | NoSuchColumn
      /** SQLite's "duplicate column name" from `CREATE TABLE`: two columns
          of the widened list are equal up to ASCII case. */
    | DuplicateColumn(col: string)

  /** Python's `str()` of an optional string. */
  function PyStr(s: Option<string>): string {
    match s
    case None => "None"
    case Some(v) => v
  }

  /** `check_csv_headers(table_name, infile, url_col)`: the header row, once
      the table's required columns are found in it. A `links` file must
      hold the declared URL column (an undeclared one, `None`, is never
      found); a `shared_content` file must hold both key columns, `post_url`
      reported first; any other table name is not checked. */
  function CheckCsvHeaders(tableName: string, header: Option<seq<string>>, urlCol: Option<string>): (r: Result<seq<string>, ParserError>)
    ensures r == Failure(NoCSVHeaders) <==> header.None?
    ensures r.Success? ==> header == Some(r.value)
    ensures tableName == "links" && header.Some? ==>
      && (r.Success? <==> urlCol.Some? && urlCol.value in header.value)
      && (r.Failure? ==> r.error == NoURLColumn(PyStr(urlCol)))
    ensures tableName == "shared_content" && header.Some? ==>
      && (r.Success? <==> "post_url" in header.value && "content_url" in header.value)
      && (r.Failure? ==> r.error.NoPrimaryKeyColumns? && r.error.col in ["post_url", "content_url"] && r.error.col !in header.value)
      && ("post_url" !in header.value ==> r == Failure(NoPrimaryKeyColumns("post_url")))
    ensures tableName != "links" && tableName != "shared_content" ==> (r.Success? <==> header.Some?)
  {
    match header
    case None => Failure(NoCSVHeaders)
    case Some(columns) =>
      if tableName == "links" then
        if urlCol.None? || urlCol.value !in columns then Failure(NoURLColumn(PyStr(urlCol)))
        else Success(columns)
      else if tableName == "shared_content" then
        if "post_url" !in columns then Failure(NoPrimaryKeyColumns("post_url"))
        else if "content_url" !in columns then Failure(NoPrimaryKeyColumns("content_url"))
        else Success(columns)
      else Success(columns)
  }

  /** `parse_original_infile_columns`: the canonical column names without an
      input file, the checked header row with one. */
  function OriginalColumns(c: TableConstants, infile: Option<CsvFile>, urlCol: Option<string>): Result<seq<string>, ParserError> {
    match infile
    case None => Success(c.ColNames())
    case Some(f) => CheckCsvHeaders(c.tableName, f.header, urlCol)
  }

  /** The canonical columns not among `original`, in canonical order. */
  function Missing(original: seq<string>, canonical: seq<string>): (r: seq<string>)
    decreases |canonical|
  {
    if |canonical| == 0 then []
    else
      var n := |canonical| - 1;
      var front := Missing(original, canonical[..n]);
      if canonical[n] in original then front else front + [canonical[n]]
  }

  /** What `Missing` holds: exactly the canonical columns absent from
      `original`, without repeats when the canonical names are distinct. */
  lemma {:induction false} MissingFacts(original: seq<string>, canonical: seq<string>)
    ensures forall x :: x in Missing(original, canonical) <==> x in canonical && x !in original
    ensures PyDict.Distinct(canonical) ==> PyDict.Distinct(Missing(original, canonical))
    decreases |canonical|
  {
    if |canonical| > 0 {
      var n := |canonical| - 1;
      MissingFacts(original, canonical[..n]);
      assert canonical == canonical[..n] + [canonical[n]];
      if PyDict.Distinct(canonical) {
        assert PyDict.Distinct(canonical[..n]);
        assert canonical[n] !in canonical[..n];
      }
    }
  }

  /** `standardize_infile_columns`: a copy of the original columns, each
      canonical column not among them appended in turn. */
  method Standardize(original: seq<string>, canonical: seq<string>) returns (r: seq<string>)
    ensures r == original + Missing(original, canonical)
  {
    r := original;
    var i := 0;
    while i < |canonical|
      invariant 0 <= i <= |canonical|
      invariant r == original + Missing(original, canonical[..i])
    {
      assert canonical[..i + 1][..i] == canonical[..i];
      if canonical[i] !in original {
        r := r + [canonical[i]];
      }
      i := i + 1;
    }
    assert canonical[..|canonical|] == canonical;
  }

  /** The type `set_infile_column_dtypes` gives a column: its canonical type
      when it has one (every canonical type description is a non-empty
      string, so truthy), otherwise TEXT. */
  function TypeFor(c: TableConstants, col: string): (t: ColumnType)
    ensures col !in c.ColNames() ==> t == Text
  {
    PyDict.Get(c.dtypes, col).GetOr(Text)
  }

  /** `set_infile_column_dtypes`: one entry per distinct standardized column,
      in order of first occurrence, each with its `TypeFor` type. */
  method SetDtypes(c: TableConstants, standardized: seq<string>) returns (d: PyDict.Dict<ColumnType>)
    ensures PyDict.Distinct(PyDict.Keys(d))
    ensures PyDict.Keys(d) == PyDict.NewKeys([], standardized)
    ensures forall col :: PyDict.Get(d, col) == if col in standardized then Some(TypeFor(c, col)) else None
  {
    d := [];
    var i := 0;
    while i < |standardized|
      invariant 0 <= i <= |standardized|
      invariant PyDict.Distinct(PyDict.Keys(d))
      invariant PyDict.Keys(d) == PyDict.NewKeys([], standardized[..i])
      invariant forall col :: PyDict.Get(d, col) == if col in standardized[..i] then Some(TypeFor(c, col)) else None
    {
      var col := standardized[i];
      assert standardized[..i + 1] == standardized[..i] + [col];
      NewKeysSnoc(standardized[..i], col);
      var d' := PyDict.Put(d, col, TypeFor(c, col));
      forall x
        ensures PyDict.Get(d', x) == if x in standardized[..i + 1] then Some(TypeFor(c, x)) else None
      {
        assert x in standardized[..i + 1] <==> x in standardized[..i] || x == col;
      }
      d := d';
      i := i + 1;
    }
    assert standardized[..|standardized|] == standardized;
  }

  /** Appending one name adds it to the first occurrences unless it already
      occurred. */
  lemma NewKeysSnoc(s: seq<string>, k: string)
    ensures PyDict.NewKeys([], s + [k]) == if k in s then PyDict.NewKeys([], s) else PyDict.NewKeys([], s) + [k]
  {
    PyDict.NewKeysFacts([], s);
    assert (s + [k])[..|s|] == s;
  }

  datatype Parser = Parser(original: seq<string>, standardized: seq<string>, dtypes: PyDict.Dict<ColumnType>)

  /** `ColumnParser(connection, table_constants, infile, url_col)`: the
      checked original columns, the standardized list (original first, then
      the canonical columns they lack) and the typed column map. */
  method NewParser(c: TableConstants, infile: Option<CsvFile>, urlCol: Option<string>) returns (r: Result<Parser, ParserError>)
    ensures infile.None? ==> r.Success? && r.value.original == c.ColNames()
    ensures infile.Some? ==>
      (r.Failure? <==> CheckCsvHeaders(c.tableName, infile.value.header, urlCol).Failure?)
    ensures infile.Some? && r.Failure? ==> r.error == CheckCsvHeaders(c.tableName, infile.value.header, urlCol).error
    ensures infile.Some? && r.Success? ==> infile.value.header == Some(r.value.original)
    ensures r.Success? ==> r.value.standardized == r.value.original + Missing(r.value.original, c.ColNames())
    ensures r.Success? ==>
      && |r.value.original| <= |r.value.standardized|
      && r.value.standardized[..|r.value.original|] == r.value.original
      && (forall x :: x in r.value.standardized <==> x in r.value.original || x in c.ColNames())
      && (forall i :: |r.value.original| <= i < |r.value.standardized| ==> r.value.standardized[i] !in r.value.original)
      && PyDict.Keys(r.value.dtypes) == PyDict.NewKeys([], r.value.standardized)
      && (forall col :: PyDict.Get(r.value.dtypes, col) == if col in r.value.standardized then Some(TypeFor(c, col)) else None)
  {
    var original :- OriginalColumns(c, infile, urlCol);
    var standardized := Standardize(original, c.ColNames());
    MissingFacts(original, c.ColNames());
    var dtypes := SetDtypes(c, standardized);
    assert standardized[..|original|] == original;
    return Success(Parser(original, standardized, dtypes));
  }

  /** Without an input file the standardized columns are the canonical ones,
      in canonical order. */
  lemma StandardizeCanonical(canonical: seq<string>)
    ensures canonical + Missing(canonical, canonical) == canonical
  {
    MissingAllSeen(canonical, canonical);
  }

  lemma {:induction false} MissingAllSeen(original: seq<string>, canonical: seq<string>)
    requires forall x :: x in canonical ==> x in original
    ensures Missing(original, canonical) == []
    decreases |canonical|
  {
    if |canonical| > 0 {
      var n := |canonical| - 1;
      assert canonical[n] in canonical;
      MissingAllSeen(original, canonical[..n]);
    }
  }

  /** With distinct header names, the standardized columns are the column
      list `_parse_infile_columns` builds in the other generation: both put
      the headers first and then the canonical columns they lack. */
  lemma StandardizeAgrees(headers: seq<string>, canonical: seq<string>)
    requires PyDict.Distinct(headers) && PyDict.Distinct(canonical)
    ensures headers + Missing(headers, canonical) == SqliteTables.WidenedColumns(headers, canonical)
  {
    NewKeysDistinct(headers);
    MissingNewKeys(headers, canonical);
  }

  /** The first occurrences of distinct names are the names themselves. */
  lemma {:induction false} NewKeysDistinct(s: seq<string>)
    requires PyDict.Distinct(s)
    ensures PyDict.NewKeys([], s) == s
    decreases |s|
  {
    if |s| > 0 {
      var n := |s| - 1;
      NewKeysDistinct(s[..n]);
      assert s[n] !in s[..n];
      assert s == s[..n] + [s[n]];
    }
  }

  /** Over distinct canonical names, skipping the names seen and the names
      already taken is skipping the names seen. */
  lemma {:induction false} MissingNewKeys(seen: seq<string>, canonical: seq<string>)
    requires PyDict.Distinct(canonical)
    ensures PyDict.NewKeys(seen, canonical) == Missing(seen, canonical)
    decreases |canonical|
  {
    if |canonical| > 0 {
      var n := |canonical| - 1;
      assert PyDict.Distinct(canonical[..n]);
      MissingNewKeys(seen, canonical[..n]);
      MissingFacts(seen, canonical[..n]);
      assert canonical[n] !in canonical[..n];
    }
  }

  /** `create_table` for a parser's column map: the table is dropped and
      created empty, keyed by the table's primary key. SQLite refuses the
      statement exactly when an original column is equal, up to ASCII case,
      to a different original or canonical column; otherwise, since the
      canonical columns are all standardized, the key columns are declared. */
  lemma ParserTable(c: TableConstants, p: Parser)
    requires c.Valid() && SqlNames.CaseDistinct(c.ColNames())
    requires forall x :: x in p.standardized <==> x in p.original || x in c.ColNames()
    requires PyDict.Keys(p.dtypes) == PyDict.NewKeys([], p.standardized)
    ensures var r := SqliteTables.CreateTable(p.dtypes, c.pkList);
      && (r.Success? <==> !SqlNames.Collides(p.original, c.ColNames()))
      && (r.Failure? ==> r.error.DuplicateColumn?)
      && (r.Success? ==>
        && WellFormed(r.value)
        && r.value.pk == c.pkList
        && r.value.rows == []
        && (forall x :: x in r.value.columns <==> x in p.standardized))
  {
    var keys := PyDict.Keys(p.dtypes);
    ParserKeys(p.standardized, keys);
    SqlNames.CollidesIff(keys, p.original, c.ColNames());
    var r := SqliteTables.CreateTable(p.dtypes, c.pkList);
    if r.Success? {
      assert r.value == Table(keys, c.pkList, []);
      forall x | x in c.pkList ensures x in keys {
        var i :| 0 <= i < |c.pkList| && c.pkList[i] == x;
      }
    }
  }

  /** The first occurrences of the standardized columns are distinct and
      are the standardized columns. */
  lemma ParserKeys(standardized: seq<string>, keys: seq<string>)
    requires keys == PyDict.NewKeys([], standardized)
    ensures PyDict.Distinct(keys)
    ensures forall x :: x in keys <==> x in standardized
  {
    PyDict.NewKeysFacts([], standardized);
    assert [] + keys == keys;
  }

  /** `parse_rows` redirects the `url` column to the declared URL column. */
  predicate Redirects(col: string, urlCol: Option<string>) {
    col == "url" && PyText.Truthy(urlCol)
  }

  /** The value `parse_rows` gives one column of a row (a redirect whose
      source is missing raises instead, and reads as NULL here). */
  function Parsed(col: string, row: Row, urlCol: Option<string>): Cell {
    if Redirects(col, urlCol) then (if urlCol.value in row then row[urlCol.value] else None)
    else if col in row && PyText.Truthy(row[col]) then row[col]
    else None
  }

  /** `row[url_col]` raises: a redirected `url` column whose source is not a
      field of the row. */
  predicate UrlKeyMissing(standardized: seq<string>, fields: set<string>, urlCol: Option<string>) {
    "url" in standardized && PyText.Truthy(urlCol) && urlCol.value !in fields
  }

  /** `parse_rows(infile_standardized, row, url_col)`: one value per
      standardized column, in order. A redirected `url` takes the declared
      URL column's value as it is; any other column takes the row's value
      when it is a non-empty string and NULL when it is missing, `None` or
      empty. `None` stands for the `KeyError` of a missing URL column. */
  method ParseRow(standardized: seq<string>, row: Row, urlCol: Option<string>) returns (r: Option<seq<Cell>>)
    ensures r.None? <==> UrlKeyMissing(standardized, row.Keys, urlCol)
    ensures r.Some? ==> |r.value| == |standardized|
    ensures r.Some? ==> forall i :: 0 <= i < |standardized| && Redirects(standardized[i], urlCol) ==>
      urlCol.value in row && r.value[i] == row[urlCol.value]
    ensures r.Some? ==> forall i :: 0 <= i < |standardized| && !Redirects(standardized[i], urlCol) ==>
      && (r.value[i].Some? <==> standardized[i] in row && PyText.Truthy(row[standardized[i]]))
      && (r.value[i].Some? ==> r.value[i] == row[standardized[i]])
    ensures r.Some? ==> forall i :: 0 <= i < |standardized| ==> r.value[i] == Parsed(standardized[i], row, urlCol)
  {
    var values: seq<Cell> := [];
    var i := 0;
    while i < |standardized|
      invariant 0 <= i <= |standardized|
      invariant |values| == i
      invariant !UrlKeyMissing(standardized[..i], row.Keys, urlCol)
      invariant forall j :: 0 <= j < i ==> values[j] == Parsed(standardized[j], row, urlCol)
    {
      var col := standardized[i];
      assert standardized[..i + 1] == standardized[..i] + [col];
      if col == "url" && PyText.Truthy(urlCol) {
        if urlCol.value !in row {
          assert col in standardized;
          return None;
        }
        values := values + [row[urlCol.value]];
      } else if col in row && PyText.Truthy(row[col]) {
        values := values + [row[col]];
      } else {
        values := values + [None];
      }
      i := i + 1;
    }
    assert standardized[..|standardized|] == standardized;
    return Some(values);
  }

  /** The row an insert statement over the columns `cols` with the values
      `vals` writes; a column named twice takes its last value. */
  function Assign(cols: seq<string>, vals: seq<Cell>): (m: Row)
    requires |cols| == |vals|
    ensures m.Keys == ColumnSet(cols)
    decreases |cols|
  {
    if |cols| == 0 then map[]
    else
      var n := |cols| - 1;
      assert ColumnSet(cols) == ColumnSet(cols[..n]) + {cols[n]} by {
        assert cols == cols[..n] + [cols[n]];
      }
      Assign(cols[..n], vals[..n])[cols[n] := vals[n]]
  }

  /** With distinct columns each column takes the value in its own position. */
  lemma {:induction false} AssignAt(cols: seq<string>, vals: seq<Cell>, i: nat)
    requires |cols| == |vals| && PyDict.Distinct(cols) && i < |cols|
    ensures Assign(cols, vals)[cols[i]] == vals[i]
    decreases |cols|
  {
    var n := |cols| - 1;
    if i < n {
      assert cols[..n][i] == cols[i] && vals[..n][i] == vals[i];
      assert cols[i] != cols[n];
      AssignAt(cols[..n], vals[..n], i);
    }
  }

  /** The row `insert_infile` writes for one row of the file. */
  function InsertedRow(standardized: seq<string>, row: Row, urlCol: Option<string>): (m: Row)
    ensures m.Keys == ColumnSet(standardized)
  {
    Assign(standardized, seq(|standardized|, i requires 0 <= i < |standardized| => Parsed(standardized[i], row, urlCol)))
  }

  function InsertedRows(standardized: seq<string>, rows: seq<DictRow>, urlCol: Option<string>): (r: seq<Row>)
    ensures |r| == |rows|
    ensures forall i :: 0 <= i < |rows| ==> r[i] == InsertedRow(standardized, rows[i].fields, urlCol)
  {
    seq(|rows|, i requires 0 <= i < |rows| => InsertedRow(standardized, rows[i].fields, urlCol))
  }

  /** The table declares every column of the insert list. */
  predicate Declared(t: Table, standardized: seq<string>) {
    forall x :: x in standardized ==> x in t.columns
  }

  lemma SeedStep(t: Table, rows: seq<Row>, i: nat)
    requires WellFormed(t) && i < |rows| && AllFit(t, rows[..i]) && Fits(t, rows[i])
    ensures AllFit(t, rows[..i + 1])
    ensures SeedAll(t, rows[..i + 1]) == InsertOrIgnore(SeedAll(t, rows[..i]), rows[i])
  {
    assert rows[..i + 1][..i] == rows[..i];
  }

  lemma AssignParsed(standardized: seq<string>, row: Row, urlCol: Option<string>, values: seq<Cell>)
    requires |values| == |standardized|
    requires forall i :: 0 <= i < |standardized| ==> values[i] == Parsed(standardized[i], row, urlCol)
    ensures Assign(standardized, values) == InsertedRow(standardized, row, urlCol)
  {
    assert values == seq(|standardized|, j requires 0 <= j < |standardized| => Parsed(standardized[j], row, urlCol));
  }

  /** `parse_rows` on one row followed by the row the insert statement
      writes: the `KeyError` of a missing URL column, or the row over
      exactly the standardized columns that `InsertedRow` describes. */
  method ShapeRow(standardized: seq<string>, fields: Row, urlCol: Option<string>) returns (r: Option<Row>)
    ensures r.None? <==> UrlKeyMissing(standardized, fields.Keys, urlCol)
    ensures r.Some? ==> r.value == InsertedRow(standardized, fields, urlCol)
    ensures r.Some? ==> r.value.Keys == ColumnSet(standardized)
  {
    var values := ParseRow(standardized, fields, urlCol);
    if values.None? {
      return None;
    }
    AssignParsed(standardized, fields, urlCol, values.value);
    return Some(Assign(standardized, values.value));
  }

  /** `insert_infile(infile, standardized_columns, connection, table_name,
      url_col)`: nothing without an input file; otherwise one `INSERT OR
      IGNORE` over all standardized columns per row of the file. The first
      row raises when the URL column is missing from the file, or when the
      table lacks a standardized column; the rows all share the header, so
      no later row can fail where the first did not. Surplus cells of a long
      record are never read. */
  method InsertInfile(t: Table, infile: Option<CsvFile>, standardized: seq<string>, urlCol: Option<string>)
    returns (r: Result<Table, ParserError>)
    requires WellFormed(t)
    ensures infile.None? ==> r == Success(t)
    ensures r.Success? ==> WellFormed(r.value) && r.value.columns == t.columns && r.value.pk == t.pk
    ensures infile.Some? ==>
      (r.Failure? <==>
        |ReadRows(infile.value)| > 0 &&
        (UrlKeyMissing(standardized, ColumnSet(infile.value.header.value), urlCol) || !Declared(t, standardized)))
    ensures infile.Some? && r.Failure? ==>
      r.error == if UrlKeyMissing(standardized, ColumnSet(infile.value.header.value), urlCol) then UrlColumnKeyError else NoSuchColumn
    ensures infile.Some? && r.Success? ==>
      && AllFit(t, InsertedRows(standardized, ReadRows(infile.value), urlCol))
      && r.value == SeedAll(t, InsertedRows(standardized, ReadRows(infile.value), urlCol))
  {
    if infile.None? {
      return Success(t);
    }
    var f := infile.value;
    var rows := ReadRows(f);
    ghost var inserted := InsertedRows(standardized, rows, urlCol);
    var cur := t;
    var i := 0;
    while i < |rows|
      invariant 0 <= i <= |rows|
      invariant i > 0 ==> !UrlKeyMissing(standardized, ColumnSet(f.header.value), urlCol)
      invariant i > 0 ==> Declared(t, standardized)
      invariant AllFit(t, inserted[..i])
      invariant cur == SeedAll(t, inserted[..i])
    {
      var fields := rows[i].fields;
      assert fields.Keys == ColumnSet(f.header.value);
      var shaped := ShapeRow(standardized, fields, urlCol);
      if shaped.None? {
        return Failure(UrlColumnKeyError);
      }
      if !Declared(t, standardized) {
        return Failure(NoSuchColumn);
      }
      var row := shaped.value;
      assert row == inserted[i];
      SeedStep(t, inserted, i);
      cur := InsertOrIgnore(cur, row);
      i := i + 1;
    }
    assert inserted[..|rows|] == inserted;
    return Success(cur);
  }

  /** A successful load keeps, for each key, the row already stored, else
      the first row of the file carrying it, as `parse_rows` shaped it. */
  lemma InsertInfileFirstWins(t: Table, f: CsvFile, standardized: seq<string>, urlCol: Option<string>, k: Key)
    requires WellFormed(t)
    requires AllFit(t, InsertedRows(standardized, ReadRows(f), urlCol))
    ensures var rows := InsertedRows(standardized, ReadRows(f), urlCol);
      Lookup(SeedAll(t, rows), k) ==
        if Lookup(t, k).Some? then Lookup(t, k)
        else if FirstRow(t.pk, rows, k).Some? then Some(NewRow(t.columns, FirstRow(t.pk, rows, k).value))
        else None
  {
    SeedAllLookup(t, InsertedRows(standardized, ReadRows(f), urlCol), k);
  }

  /** The parser, `create_table` and `insert_infile` run one after the other
      on the same file: the insert never names an undeclared column, a
      `links` load never misses its URL column (the header check found it),
      and without an input file the table holds the canonical columns and no
      row. */
  method GenerateTable(c: TableConstants, infile: Option<CsvFile>, urlCol: Option<string>) returns (r: Result<Table, ParserError>)
    requires c.Valid() && SqlNames.CaseDistinct(c.ColNames())
    ensures r.Failure? ==> r.error != NoSuchColumn
    ensures infile.Some? ==>
      (r.Failure? && r.error.DuplicateColumn? <==>
        CheckCsvHeaders(c.tableName, infile.value.header, urlCol).Success? &&
        SqlNames.Collides(infile.value.header.value, c.ColNames()))
    ensures r.Failure? && c.tableName == "links" ==> r.error != UrlColumnKeyError
    ensures infile.None? ==> r.Success? && r.value == Table(c.ColNames(), c.pkList, [])
    ensures infile.Some? && r.Success? ==>
      && WellFormed(r.value)
      && r.value.pk == c.pkList
      && infile.value.header.Some?
      && (forall x :: x in r.value.columns <==> x in infile.value.header.value || x in c.ColNames())
  {
    var p :- NewParser(c, infile, urlCol);
    ParserTable(c, p);
    if infile.None? {
      StandardizeCanonical(c.ColNames());
      assert p.standardized == c.ColNames();
      NewKeysDistinct(c.ColNames());
    }
    var created := SqliteTables.CreateTable(p.dtypes, c.pkList);
    if created.Failure? {
      return Failure(DuplicateColumn(created.error.col));
    }
    var t := created.value;
    assert Declared(t, p.standardized);
    if infile.None? {
      assert t.columns == c.ColNames();
      return Success(t);
    }
    var f := infile.value;
    assert f.header == Some(p.original);
    if c.tableName == "links" {
      assert !UrlKeyMissing(p.standardized, ColumnSet(p.original), urlCol);
    }
    r := InsertInfile(t, infile, p.standardized, urlCol);
  }
}
