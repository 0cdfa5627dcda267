/** The SQLite generation of the two tables (`tables/links.py`,
    `tables/shared_content.py`): the column map is widened with the input
    file's own headers, the table is dropped and created empty, and the
    input file is loaded with `INSERT OR IGNORE`, values verbatim. */
module SqliteTables {
  import opened Wrappers
  import opened Store
  import opened StoreLaws
  import opened CsvRows
  import opened Schema
  import PyDict
  import PyText
  import SqlNames

  datatype InitError =
      /** `NoCSVHeaders`: the file has no header row, or an empty one. */
    | NoCSVHeaders
      /** The bare `KeyError` raised when no URL column is declared and
          there is no `url` header. */
    | NoUrlHeader
      /** `NoURLColumn`: the declared URL column is not a header. */
    | NoURLColumn(urlCol: string)
      /** `NoPrimaryKeyColumns`: a key column of `shared_content` is not a
          header. */
    | NoPrimaryKeyColumns(col: string)
      /** The bare `KeyError` of the seed check: a header that is not a
          column of the created table. */
    | HeadersNotInTable
      /** A record longer than the header: joining the column names, one of
          which is `None`, raises `TypeError`. */
    | MalformedRecord
      /** SQLite's "duplicate column name": the column map holds two names
          that are equal once ASCII case is ignored, so `CREATE TABLE`
          fails and `execute` re-raises. */
    | DuplicateColumn(col: string)

  /** `not headers` is false. */
  predicate HasHeaders(headers: Option<seq<string>>) {
    headers.Some? && |headers.value| > 0
  }

  /** `BaseTable.__init__`: `DROP TABLE IF EXISTS` followed by the create
      statement, so the table starts empty whatever was there. SQLite refuses
      the statement when two column names are equal up to ASCII case, and
      reports the later one. */
  function CreateTable(dtypes: PyDict.Dict<ColumnType>, pk: seq<string>): (r: Result<Table, InitError>)
    ensures r.Failure? <==> !SqlNames.CaseDistinct(PyDict.Keys(dtypes))
    ensures r.Failure? ==>
      exists j :: 0 <= j < |PyDict.Keys(dtypes)| &&
        r.error == DuplicateColumn(PyDict.Keys(dtypes)[j]) && SqlNames.RepeatsEarlier(PyDict.Keys(dtypes), j)
    ensures r.Success? ==> r.value.columns == PyDict.Keys(dtypes) && r.value.pk == pk && r.value.rows == []
  {
    match SqlNames.FirstClash(PyDict.Keys(dtypes))
    case Some(col) => Failure(DuplicateColumn(col))
    case None => Success(Table(PyDict.Keys(dtypes), pk, []))
  }

  /** `{col: "TEXT" for col in headers} | constant_cols`. */
  function InfileColumns(headers: seq<string>, constants: PyDict.Dict<ColumnType>): (d: PyDict.Dict<ColumnType>)
    ensures PyDict.Distinct(PyDict.Keys(d))
  {
    PyDict.Union(PyDict.FromKeys(headers, Text), constants)
  }

  /** The widened column map lists the headers first (first occurrences, in
      order), then the canonical columns that are not headers; a canonical
      column keeps its canonical type and any other header is TEXT. */
  lemma InfileColumnsFacts(headers: seq<string>, constants: PyDict.Dict<ColumnType>)
    ensures var d := InfileColumns(headers, constants);
      var first := PyDict.NewKeys([], headers);
      && PyDict.Keys(d) == first + PyDict.NewKeys(first, PyDict.Keys(constants))
      && forall c :: c in PyDict.Keys(d) <==> c in headers || c in PyDict.Keys(constants)
  {
    var first := PyDict.NewKeys([], headers);
    PyDict.FromKeysKeys(headers, Text);
    PyDict.PutAllKeys(PyDict.FromKeys(headers, Text), constants);
    PyDict.NewKeysFacts([], headers);
    PyDict.NewKeysFacts(first, PyDict.Keys(constants));
  }

  lemma InfileColumnsType(headers: seq<string>, constants: PyDict.Dict<ColumnType>, c: string)
    ensures PyDict.Get(InfileColumns(headers, constants), c) ==
      if c in PyDict.Keys(constants) then PyDict.Get(constants, c)
      else if c in headers then Some(Text)
      else None
  {
    PyDict.UnionGet(PyDict.FromKeys(headers, Text), constants, c);
    PyDict.FromKeysGet(headers, Text, c);
  }

  /** SQLite accepts the widened column map exactly when no header is
      equal, up to ASCII case, to a different header or canonical column. */
  lemma InfileColumnsClash(headers: seq<string>, constants: PyDict.Dict<ColumnType>)
    requires SqlNames.CaseDistinct(PyDict.Keys(constants))
    ensures SqlNames.CaseDistinct(PyDict.Keys(InfileColumns(headers, constants))) <==>
      !SqlNames.Collides(headers, PyDict.Keys(constants))
  {
    InfileColumnsFacts(headers, constants);
    SqlNames.CollidesIff(PyDict.Keys(InfileColumns(headers, constants)), headers, PyDict.Keys(constants));
  }

  /** `LinksTable._parse_infile_columns`. */
  function LinksColumns(headers: Option<seq<string>>, urlCol: Option<string>): Result<PyDict.Dict<ColumnType>, InitError> {
    if !HasHeaders(headers) then Failure(NoCSVHeaders)
    else if !PyText.Truthy(urlCol) && "url" !in headers.value then Failure(NoUrlHeader)
    else if PyText.Truthy(urlCol) && urlCol.value !in headers.value then Failure(NoURLColumn(urlCol.value))
    else Success(InfileColumns(headers.value, LinksConstants().dtypes))
  }

  /** The row a links seed statement inserts: the declared URL column copied
      into `url`, the original column kept. */
  function LinksSeedRow(row: DictRow, urlCol: Option<string>): (r: Row)
    requires PyText.Truthy(urlCol) ==> urlCol.value in row.fields
    ensures PyText.Truthy(urlCol) ==> r.Keys == row.fields.Keys + {"url"} && r["url"] == row.fields[urlCol.value]
    ensures PyText.Truthy(urlCol) ==> forall c :: c in row.fields && c != "url" ==> r[c] == row.fields[c]
    ensures !PyText.Truthy(urlCol) ==> r == row.fields
  {
    if PyText.Truthy(urlCol) then row.fields["url" := row.fields[urlCol.value]] else row.fields
  }

  /** The rows the seed statements insert, one per record. */
  function SeedRowsOf(rows: seq<DictRow>, urlCol: Option<string>): (r: seq<Row>)
    requires forall i :: 0 <= i < |rows| ==> PyText.Truthy(urlCol) ==> urlCol.value in rows[i].fields
    ensures |r| == |rows|
    ensures forall i :: 0 <= i < |rows| ==> r[i] == LinksSeedRow(rows[i], urlCol)
  {
    seq(|rows|, i requires 0 <= i < |rows| => LinksSeedRow(rows[i], urlCol))
  }

  /** Some record of the file is longer than its header. */
  predicate Overflows(f: CsvFile) {
    exists i :: 0 <= i < |ReadRows(f)| && ReadRows(f)[i].overflow
  }

  /** What a column map built from an accepted header row guarantees: the
      table it declares is well formed and holds every header, and a
      declared URL column is a header. */
  predicate Accepted(f: CsvFile, dtypes: PyDict.Dict<ColumnType>, pk: seq<string>, urlCol: Option<string>) {
    && HasHeaders(f.header)
    && WellFormed(Table(PyDict.Keys(dtypes), pk, []))
    && (forall h :: h in f.header.value ==> h in PyDict.Keys(dtypes))
    && (PyText.Truthy(urlCol) ==> urlCol.value in f.header.value && "url" in PyDict.Keys(dtypes))
  }

  /** The steps both tables take once the column map is built: the fresh
      table, the header checks of the seed, then one `INSERT OR IGNORE` per
      record, a record longer than the header aborting the load. On an
      accepted file the header checks never fire: the load fails exactly
      when SQLite refuses the column names or a record is malformed. */
  function Generate(f: CsvFile, dtypes: PyDict.Dict<ColumnType>, pk: seq<string>, urlCol: Option<string>): (r: Result<Table, InitError>)
    requires Accepted(f, dtypes, pk, urlCol)
    ensures r.Failure? <==> !SqlNames.CaseDistinct(PyDict.Keys(dtypes)) || Overflows(f)
    ensures r.Failure? ==>
      if SqlNames.CaseDistinct(PyDict.Keys(dtypes)) then r.error == MalformedRecord else r.error.DuplicateColumn?
    ensures r.Success? ==> WellFormed(r.value) && r.value.columns == PyDict.Keys(dtypes) && r.value.pk == pk
  {
    var t :- CreateTable(dtypes, pk);
    if !HasHeaders(f.header) then Failure(NoCSVHeaders)
    else if exists h :: h in f.header.value && h !in t.columns then Failure(HeadersNotInTable)
    else
      var rows := ReadRows(f);
      var seeds := SeedRowsOf(rows, urlCol);
      assert AllFit(t, seeds) by {
        forall i | 0 <= i < |seeds| ensures Fits(t, seeds[i]) {
          assert rows[i].fields.Keys == ColumnSet(f.header.value);
        }
      }
      if exists i :: 0 <= i < |rows| && rows[i].overflow then Failure(MalformedRecord)
      else Success(SeedAll(t, seeds))
  }

  /** A successful load holds, for each key, the first record carrying it
      (as the seed statement inserts it), every other column NULL; a later
      record with the same key adds nothing. */
  lemma GenerateFirstWins(f: CsvFile, dtypes: PyDict.Dict<ColumnType>, pk: seq<string>, urlCol: Option<string>, k: Key)
    requires Accepted(f, dtypes, pk, urlCol)
    requires Generate(f, dtypes, pk, urlCol).Success?
    ensures var seeds := SeedRowsOf(ReadRows(f), urlCol);
      var t := Generate(f, dtypes, pk, urlCol).value;
      Lookup(t, k) == if FirstRow(pk, seeds, k).Some? then Some(NewRow(t.columns, FirstRow(pk, seeds, k).value)) else None
  {
    var rows := ReadRows(f);
    var t := Table(PyDict.Keys(dtypes), pk, []);
    var seeds := SeedRowsOf(rows, urlCol);
    assert AllFit(t, seeds) by {
      forall i | 0 <= i < |seeds| ensures Fits(t, seeds[i]) {
        assert rows[i].fields.Keys == ColumnSet(f.header.value);
      }
    }
    assert CreateTable(dtypes, pk) == Success(t);
    assert Generate(f, dtypes, pk, urlCol) == Success(SeedAll(t, seeds));
    SeedAllLookup(t, seeds, k);
  }

  /** `LinksTable(conn, infile, outfile, url_col)` on the file `f`. The header
      the column parser reads and the one `csv.DictReader` reads are the same
      header row of `f`. */
  function LinksInit(f: CsvFile, urlCol: Option<string>): Result<Table, InitError> {
    var dtypes :- LinksColumns(f.header, urlCol);
    LinksAccepted(f, urlCol);
    Generate(f, dtypes, LinksConstants().pkList, urlCol)
  }

  /** A column map `LinksColumns` accepts makes an accepted links table,
      holding every canonical column. */
  lemma LinksAccepted(f: CsvFile, urlCol: Option<string>)
    requires LinksColumns(f.header, urlCol).Success?
    ensures Accepted(f, LinksColumns(f.header, urlCol).value, LinksConstants().pkList, urlCol)
    ensures forall c :: c in LinksConstants().ColNames() ==> c in PyDict.Keys(LinksColumns(f.header, urlCol).value)
  {
    var headers := f.header.value;
    var d := LinksColumns(f.header, urlCol).value;
    assert d == InfileColumns(headers, LinksConstants().dtypes);
    InfileColumnsFacts(headers, LinksConstants().dtypes);
    var t := Table(PyDict.Keys(d), LinksConstants().pkList, []);
    assert "url" == LinksConstants().ColNames()[0];
    assert "url" in PyDict.Keys(d);
    assert WellFormed(t);
  }

  /** The first-occurrence order of the input headers, then the canonical
      columns the input lacks. */
  function WidenedColumns(headers: seq<string>, canonical: seq<string>): seq<string> {
    var first := PyDict.NewKeys([], headers);
    first + PyDict.NewKeys(first, canonical)
  }

  /** A table generated from the widened column map has the widened
      columns. */
  lemma GeneratedColumns(f: CsvFile, constants: PyDict.Dict<ColumnType>, pk: seq<string>, urlCol: Option<string>)
    requires f.header.Some?
    requires Accepted(f, InfileColumns(f.header.value, constants), pk, urlCol)
    requires Generate(f, InfileColumns(f.header.value, constants), pk, urlCol).Success?
    ensures Generate(f, InfileColumns(f.header.value, constants), pk, urlCol).value.columns ==
      WidenedColumns(f.header.value, PyDict.Keys(constants))
  {
    InfileColumnsFacts(f.header.value, constants);
  }

  /** Which error creating the links table raises: the header checks of the
      column parser, in order; past them, see `LinksLoadErrors`. The
      seed-time header check never fires. */
  lemma LinksInitErrors(f: CsvFile, urlCol: Option<string>)
    ensures LinksInit(f, urlCol) == Failure(NoCSVHeaders) <==> !HasHeaders(f.header)
    ensures LinksInit(f, urlCol) == Failure(NoUrlHeader) <==>
      HasHeaders(f.header) && !PyText.Truthy(urlCol) && "url" !in f.header.value
    ensures LinksInit(f, urlCol) == Failure(NoURLColumn(urlCol.GetOr(""))) <==>
      HasHeaders(f.header) && PyText.Truthy(urlCol) && urlCol.value !in f.header.value
    ensures LinksInit(f, urlCol) != Failure(HeadersNotInTable)
  {
    var r := LinksInit(f, urlCol);
    if LinksColumns(f.header, urlCol).Success? {
      LinksAccepted(f, urlCol);
      var d := LinksColumns(f.header, urlCol).value;
      assert r == Generate(f, d, LinksConstants().pkList, urlCol);
      assert r.Failure? ==> r.error.DuplicateColumn? || r.error == MalformedRecord;
    } else {
      assert r == Failure(LinksColumns(f.header, urlCol).error);
    }
  }

  /** Past the header checks, creating the links table fails with SQLite's
      "duplicate column name" exactly when a header is equal, up to ASCII
      case, to a different header or canonical column (`URL` beside `url`),
      and otherwise fails exactly on a record longer than the header. */
  lemma LinksLoadErrors(f: CsvFile, urlCol: Option<string>)
    requires LinksColumns(f.header, urlCol).Success?
    ensures LinksInit(f, urlCol).Failure? && LinksInit(f, urlCol).error.DuplicateColumn? <==>
      SqlNames.Collides(f.header.value, LinksConstants().ColNames())
    ensures LinksInit(f, urlCol) == Failure(MalformedRecord) <==>
      !SqlNames.Collides(f.header.value, LinksConstants().ColNames()) && Overflows(f)
  {
    LinksAccepted(f, urlCol);
    var d := LinksColumns(f.header, urlCol).value;
    assert LinksInit(f, urlCol) == Generate(f, d, LinksConstants().pkList, urlCol);
    Schema.LinksCaseDistinct();
    InfileColumnsClash(f.header.value, LinksConstants().dtypes);
  }

  /** A header that differs from `url` only in case is refused, since
      SQLite takes both for one column. */
  lemma CaseTwinRefused(f: CsvFile, urlCol: Option<string>, h: string)
    requires LinksColumns(f.header, urlCol).Success?
    requires h in f.header.value && h != "url" && SqlNames.Fold(h) == SqlNames.Fold("url")
    ensures LinksInit(f, urlCol).Failure? && LinksInit(f, urlCol).error.DuplicateColumn?
  {
    LinksLoadErrors(f, urlCol);
    var names := LinksConstants().ColNames();
    assert "url" in names by { assert names[0] == "url"; }
    assert "url" in f.header.value + names;
    assert SqlNames.Collides(f.header.value, names);
  }

  /** An instance: a file whose URL column is headed `URL` is refused,
      whatever the URLs it holds. */
  lemma UpperCaseUrlRefused(url: string)
    ensures var f := CsvFile(Some(["URL"]), [[url]]);
      LinksInit(f, Some("URL")).Failure? && LinksInit(f, Some("URL")).error.DuplicateColumn?
  {
    var f := CsvFile(Some(["URL"]), [[url]]);
    assert SqlNames.Fold("URL") == SqlNames.Fold("url");
    CaseTwinRefused(f, Some("URL"), "URL");
  }

  /** A links table created from a file holds the file's headers, in order
      of first occurrence, then the canonical columns the file lacks, and is
      keyed by `url`. */
  lemma LinksInitColumns(f: CsvFile, urlCol: Option<string>)
    requires LinksInit(f, urlCol).Success?
    ensures LinksInit(f, urlCol).value.columns == WidenedColumns(f.header.value, LinksConstants().ColNames())
    ensures LinksInit(f, urlCol).value.pk == ["url"]
  {
    LinksAccepted(f, urlCol);
    var d := LinksColumns(f.header, urlCol).value;
    assert LinksInit(f, urlCol) == Generate(f, d, LinksConstants().pkList, urlCol);
    InfileColumnsFacts(f.header.value, LinksConstants().dtypes);
  }

  /** A successful links load stores, for each url, the first record carrying
      it, with the declared URL column copied into `url`. */
  lemma LinksSeedFirstWins(f: CsvFile, urlCol: Option<string>, k: Key)
    requires LinksInit(f, urlCol).Success?
    ensures var seeds := SeedRowsOf(ReadRows(f), urlCol);
      var t := LinksInit(f, urlCol).value;
      Lookup(t, k) == if FirstRow(["url"], seeds, k).Some? then Some(NewRow(t.columns, FirstRow(["url"], seeds, k).value)) else None
  {
    LinksAccepted(f, urlCol);
    GenerateFirstWins(f, LinksColumns(f.header, urlCol).value, LinksConstants().pkList, urlCol, k);
  }

  /** `SharedContentTable._parse_infile_columns`. Python reports
      `list(diff)[0]` of the set of missing key columns, an element of
      unspecified order; this model reports `post_url` when both are
      missing. */
  function SharedContentColumns(headers: Option<seq<string>>): (r: Result<PyDict.Dict<ColumnType>, InitError>)
    ensures r.Failure? && r.error.NoPrimaryKeyColumns? ==>
      r.error.col in SharedContentConstants().pkList && HasHeaders(headers) && r.error.col !in headers.value
  {
    SharedContentValid();
    if !HasHeaders(headers) then Failure(NoCSVHeaders)
    else if "post_url" !in headers.value then Failure(NoPrimaryKeyColumns("post_url"))
    else if "content_url" !in headers.value then Failure(NoPrimaryKeyColumns("content_url"))
    else Success(InfileColumns(headers.value, SharedContentConstants().dtypes))
  }

  lemma SharedContentAccepted(f: CsvFile)
    requires SharedContentColumns(f.header).Success?
    ensures Accepted(f, SharedContentColumns(f.header).value, SharedContentConstants().pkList, None)
  {
    var headers := f.header.value;
    var d := SharedContentColumns(f.header).value;
    assert d == InfileColumns(headers, SharedContentConstants().dtypes);
    assert "post_url" in headers && "content_url" in headers;
    InfileColumnsFacts(headers, SharedContentConstants().dtypes);
    var t := Table(PyDict.Keys(d), SharedContentConstants().pkList, []);
    assert t.pk == ["post_url", "content_url"];
    assert "post_url" in t.columns && "content_url" in t.columns;
    assert forall c :: c in t.pk ==> c in t.columns;
    assert Unique(t.pk, t.rows);
    assert WellFormed(t);
    assert forall h :: h in headers ==> h in PyDict.Keys(d);
    assert HasHeaders(f.header);
    assert !PyText.Truthy(None);
    assert Accepted(f, d, SharedContentConstants().pkList, None);
  }

  /** `SharedContentTable(conn, infile, outfile)`: without an input file the
      table is created with the canonical columns only; with one, the columns
      are widened and the file is loaded verbatim. */
  function SharedContentInit(infile: Option<CsvFile>): (r: Result<Table, InitError>)
    ensures infile.None? ==>
      r == Success(Table(["post_url", "media_type", "content_url", "height", "width"], ["post_url", "content_url"], []))
  {
    match infile
    case None =>
      SharedContentCaseDistinct();
      CreateTable(SharedContentConstants().dtypes, SharedContentConstants().pkList)
    case Some(f) =>
      var dtypes :- SharedContentColumns(f.header);
      SharedContentAccepted(f);
      Generate(f, dtypes, SharedContentConstants().pkList, None)
  }

  /** Which error creating the shared-content table from a file raises: no
      header, then a missing key column (one that is indeed missing); past
      them, see `SharedContentLoadErrors`. The seed-time header check never
      fires. */
  lemma SharedContentInitErrors(f: CsvFile)
    ensures SharedContentInit(Some(f)) == Failure(NoCSVHeaders) <==> !HasHeaders(f.header)
    ensures HasHeaders(f.header) ==>
      (SharedContentInit(Some(f)).Failure? && SharedContentInit(Some(f)).error.NoPrimaryKeyColumns? <==>
        "post_url" !in f.header.value || "content_url" !in f.header.value)
    ensures SharedContentInit(Some(f)).Failure? && SharedContentInit(Some(f)).error.NoPrimaryKeyColumns? ==>
      SharedContentInit(Some(f)).error.col !in f.header.value
    ensures SharedContentInit(Some(f)) != Failure(HeadersNotInTable)
  {
    var r := SharedContentInit(Some(f));
    if SharedContentColumns(f.header).Success? {
      SharedContentAccepted(f);
      var d := SharedContentColumns(f.header).value;
      assert r == Generate(f, d, SharedContentConstants().pkList, None);
      assert r.Failure? ==> r.error.DuplicateColumn? || r.error == MalformedRecord;
    } else {
      assert r == Failure(SharedContentColumns(f.header).error);
    }
  }

  /** Past the header checks, creating the shared-content table fails with
      SQLite's "duplicate column name" exactly when a header is equal, up to
      ASCII case, to a different header or canonical column, and otherwise
      fails exactly on a record longer than the header. */
  lemma SharedContentLoadErrors(f: CsvFile)
    requires SharedContentColumns(f.header).Success?
    ensures SharedContentInit(Some(f)).Failure? && SharedContentInit(Some(f)).error.DuplicateColumn? <==>
      SqlNames.Collides(f.header.value, SharedContentConstants().ColNames())
    ensures SharedContentInit(Some(f)) == Failure(MalformedRecord) <==>
      !SqlNames.Collides(f.header.value, SharedContentConstants().ColNames()) && Overflows(f)
  {
    SharedContentAccepted(f);
    var d := SharedContentColumns(f.header).value;
    assert SharedContentInit(Some(f)) == Generate(f, d, SharedContentConstants().pkList, None);
    Schema.SharedContentCaseDistinct();
    InfileColumnsClash(f.header.value, SharedContentConstants().dtypes);
  }

  /** A shared-content table created from a file holds the file's headers
      then the canonical columns it lacks, keyed by (post_url, content_url). */
  lemma SharedContentInitColumns(f: CsvFile)
    requires SharedContentInit(Some(f)).Success?
    ensures SharedContentInit(Some(f)).value.columns == WidenedColumns(f.header.value, SharedContentConstants().ColNames())
    ensures SharedContentInit(Some(f)).value.pk == ["post_url", "content_url"]
  {
    SharedContentInitGenerates(f);
    SharedContentColumnsWiden(f.header);
    var c := SharedContentConstants();
    GeneratedColumns(f, c.dtypes, c.pkList, None);
  }

  /** Past the key checks, the shared-content column map is the file's
      headers widened with the canonical columns. */
  lemma SharedContentColumnsWiden(headers: Option<seq<string>>)
    requires SharedContentColumns(headers).Success?
    ensures headers.Some? && "post_url" in headers.value && "content_url" in headers.value
    ensures SharedContentColumns(headers).value == InfileColumns(headers.value, SharedContentConstants().dtypes)
  {
  }

  /** A successful shared-content load from a file is `Generate` over the
      column map `SharedContentColumns` built. */
  lemma SharedContentInitGenerates(f: CsvFile)
    requires SharedContentInit(Some(f)).Success?
    ensures SharedContentColumns(f.header).Success?
    ensures var d := SharedContentColumns(f.header).value;
      && Accepted(f, d, SharedContentConstants().pkList, None)
      && SharedContentInit(Some(f)) == Generate(f, d, SharedContentConstants().pkList, None)
  {
    assert SharedContentColumns(f.header).Success?;
    SharedContentAccepted(f);
  }

  /** A successful shared-content load keeps, for each (post_url,
      content_url) pair, the first record carrying it, verbatim. */
  lemma SharedContentSeedFirstWins(f: CsvFile, k: Key)
    requires SharedContentInit(Some(f)).Success?
    ensures var seeds := SeedRowsOf(ReadRows(f), None);
      var t := SharedContentInit(Some(f)).value;
      Lookup(t, k) == if FirstRow(t.pk, seeds, k).Some? then Some(NewRow(t.columns, FirstRow(t.pk, seeds, k).value)) else None
  {
    SharedContentAccepted(f);
    GenerateFirstWins(f, SharedContentColumns(f.header).value, SharedContentConstants().pkList, None, k);
  }
}
