/** A delimited file as `csv.DictReader` presents it: a header row (absent
    for an empty file) and the records under it, each record turned into a
    dict keyed by the header. Quoting and delimiter handling belong to the
    `csv` module and are not modelled: a file here is already split into
    cells. */
module CsvRows {
  import opened Wrappers
  import PyDict

  datatype CsvFile = CsvFile(header: Option<seq<string>>, records: seq<seq<string>>)

  /** One row as `csv.DictReader` yields it. A record shorter than the header
      fills the missing fields with `None` (the reader's `restval`); a record
      longer than the header puts the surplus cells under the key `None`
      (the reader's `restkey`), which `overflow` records. */
  datatype DictRow = DictRow(fields: map<string, Option<string>>, overflow: bool)

  /** `dict(zip(header, record))` padded with `None`: a repeated header name
      keeps the value of its last occurrence. */
  function ZipFields(header: seq<string>, record: seq<string>): (m: map<string, Option<string>>)
    ensures m.Keys == set c | c in header
    decreases |header|
  {
    if |header| == 0 then map[]
    else
      var n := |header| - 1;
      var front := ZipFields(header[..n], record);
      assert (set c | c in header) == (set c | c in header[..n]) + {header[n]} by {
        assert header == header[..n] + [header[n]];
      }
      front[header[n] := if n < |record| then Some(record[n]) else None]
  }

  /** With distinct header names, each field holds the cell in its own
      position, or `None` past the end of a short record. */
  lemma {:induction false} ZipFieldsAt(header: seq<string>, record: seq<string>, i: nat)
    requires PyDict.Distinct(header)
    requires i < |header|
    ensures ZipFields(header, record)[header[i]] == if i < |record| then Some(record[i]) else None
    decreases |header|
  {
    var n := |header| - 1;
    if i < n {
      assert header[..n][i] == header[i];
      assert header[i] != header[n];
      ZipFieldsAt(header[..n], record, i);
    }
  }

  function ToDictRow(header: seq<string>, record: seq<string>): DictRow {
    DictRow(ZipFields(header, record), |record| > |header|)
  }

  /** The rows `csv.DictReader` iterates over: nothing without a header, and
      blank records (`[]`) are skipped. */
  function ReadRows(f: CsvFile): (rows: seq<DictRow>)
    ensures f.header.None? ==> rows == []
    ensures |rows| <= |f.records|
    ensures forall i :: 0 <= i < |rows| ==> rows[i].fields.Keys == set c | c in f.header.value
    decreases |f.records|
  {
    match f.header
    case None => []
    case Some(h) =>
      if |f.records| == 0 then []
      else
        var n := |f.records| - 1;
        var front := ReadRows(CsvFile(f.header, f.records[..n]));
        if f.records[n] == [] then front else front + [ToDictRow(h, f.records[n])]
  }

  /** A file none of whose records is blank yields one row per record, in
      order. */
  lemma {:induction false} ReadRowsNoBlank(h: seq<string>, records: seq<seq<string>>)
    requires forall i :: 0 <= i < |records| ==> records[i] != []
    ensures ReadRows(CsvFile(Some(h), records)) == seq(|records|, i requires 0 <= i < |records| => ToDictRow(h, records[i]))
    decreases |records|
  {
    if |records| > 0 {
      var n := |records| - 1;
      ReadRowsNoBlank(h, records[..n]);
    }
  }
}
