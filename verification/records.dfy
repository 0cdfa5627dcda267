/** What the collectors hand to the tables: one record per collected item,
    written with `csv.DictWriter` over a table's column names and read back
    by `update_from_csv`. A record is a `Row`: the fields the source's
    dataclass (or dict) names, each with its value as the writer renders it,
    `None` for Python's `None`. How `casanova` renders lists, integers and
    dates into text is not part of this model: payload values arrive here
    already rendered. */
module Records {
  import opened Wrappers
  import opened Store
  import opened CsvRows
  import PyDict
  import Schema
  import TableCsv

  /** A collector's result object as the normalisers read it: attribute (or
      key) name to value. Attributes of a nested object are flattened under
      a dotted name, as in `account.id`. */
  type Attrs = map<string, Cell>

  /** One attribute of a Python object that may never have been set:
      missing (`hasattr` is false), or present with a value that may be
      `None`. */
  datatype Attr = Missing | Present(value: Option<string>)

  /** The Schema.org subtype of an embedded medium, shared by the CrowdTangle
      (`parse_media_type`) and Twitter (`parse_shared_content`) normalisers:
      the two test `photo` and `video` in opposite orders, which is the same
      mapping since the two tests exclude each other. */
  function MediaType(t: Option<string>): (r: string)
    ensures r == "ImageObject" <==> t == Some("photo")
    ensures r == "VideoObject" <==> t == Some("video")
    ensures r == "MediaObject" <==> t != Some("photo") && t != Some("video")
  {
    if t == Some("photo") then "ImageObject"
    else if t == Some("video") then "VideoObject"
    else "MediaObject"
  }

  /** The record columns of a field table. */
  function Targets(fields: seq<(string, string)>): (ts: seq<string>)
    ensures |ts| == |fields|
    ensures forall i :: 0 <= i < |fields| ==> ts[i] == fields[i].0
  {
    seq(|fields|, i requires 0 <= i < |fields| => fields[i].0)
  }

  /** A record filled from a payload by a field table of (record column,
      payload attribute) pairs, as the dataclass constructors do with
      `getattr`; an attribute the payload lacks reads as `None`. */
  function Project(fields: seq<(string, string)>, payload: Attrs): (r: Row)
    ensures r.Keys == ColumnSet(Targets(fields))
    decreases |fields|
  {
    if |fields| == 0 then map[]
    else
      var n := |fields| - 1;
      var front := Project(fields[..n], payload);
      assert Targets(fields) == Targets(fields[..n]) + [fields[n].0];
      front[fields[n].0 := CellOf(payload, fields[n].1)]
  }

  /** With distinct record columns, each column holds its own attribute. */
  lemma {:induction false} ProjectAt(fields: seq<(string, string)>, payload: Attrs, i: nat)
    requires PyDict.Distinct(Targets(fields)) && i < |fields|
    ensures Project(fields, payload)[fields[i].0] == CellOf(payload, fields[i].1)
    decreases |fields|
  {
    var n := |fields| - 1;
    if i < n {
      var front := fields[..n];
      assert front[i] == fields[i];
      assert fields[i].0 != fields[n].0 by {
        assert Targets(fields)[i] != Targets(fields)[n];
      }
      assert PyDict.Distinct(Targets(front)) by {
        forall a, b | 0 <= a < b < |front|
          ensures Targets(front)[a] != Targets(front)[b]
        {
          assert Targets(fields)[a] != Targets(fields)[b];
        }
      }
      ProjectAt(front, payload, i);
      assert Project(fields, payload) == Project(front, payload)[fields[n].0 := CellOf(payload, fields[n].1)];
    }
  }

  /** A record filled from a payload by a field table, with the `fixed`
      columns set to constants that take precedence. */
  function Fill(fields: seq<(string, string)>, payload: Attrs, fixed: Row): (r: Row)
    ensures r.Keys == ColumnSet(Targets(fields)) + fixed.Keys
    ensures forall c :: c in fixed ==> r[c] == fixed[c]
  {
    Project(fields, payload) + fixed
  }

  /** A column of the table that is not fixed holds its attribute. */
  lemma FillAt(fields: seq<(string, string)>, payload: Attrs, fixed: Row, i: nat)
    requires PyDict.Distinct(Targets(fields)) && i < |fields| && fields[i].0 !in fixed
    ensures Fill(fields, payload, fixed)[fields[i].0] == CellOf(payload, fields[i].1)
  {
    ProjectAt(fields, payload, i);
  }

  /** Two parts of a list of distinct names share no name. */
  lemma DistinctApart(a: seq<string>, b: seq<string>)
    requires PyDict.Distinct(a + b)
    ensures ColumnSet(a) !! ColumnSet(b)
    ensures ColumnSet(a + b) == ColumnSet(a) + ColumnSet(b)
    ensures PyDict.Distinct(a) && PyDict.Distinct(b)
  {
    forall i, j | 0 <= i < j < |a|
      ensures a[i] != a[j]
    {
      assert (a + b)[i] == a[i] && (a + b)[j] == a[j];
    }
    forall i, j | 0 <= i < j < |b|
      ensures b[i] != b[j]
    {
      assert (a + b)[|a| + i] == b[i] && (a + b)[|a| + j] == b[j];
    }
    forall i, j | 0 <= i < |a| && 0 <= j < |b|
      ensures a[i] != b[j]
    {
      assert (a + b)[i] == a[i] && (a + b)[|a| + j] == b[j];
    }
  }

  /** The column names of `links`. */
  function LinksColumns(): seq<string> {
    PyDict.Keys(Schema.LinksDtypes())
  }

  /** The column names of `shared_content`. */
  function SharedColumns(): seq<string> {
    PyDict.Keys(Schema.SharedContentDtypes())
  }

  /** The `links` column names as a set, run by run. */
  lemma LinksColumnSet()
    ensures ColumnSet(LinksColumns()) ==
      { "url", "domain", "work_type", "duration", "identifier", "date_published",
        "date_modified", "country_of_origin", "abstract", "keywords" } +
      { "title", "text", "hashtags", "creator_type", "creator_date_created",
        "creator_location_created", "creator_identifier", "creator_facebook_follow",
        "creator_facebook_subscribe", "creator_twitter_follow" } +
      { "creator_youtube_subscribe", "creator_create_video", "creator_name",
        "creator_url", "facebook_comment", "facebook_like", "facebook_share",
        "pinterest_share", "twitter_share", "tiktok_share" } +
      { "tiktok_comment", "reddit_engagement", "youtube_watch", "youtube_comment",
        "youtube_like", "youtube_favorite", "youtube_subscribe", "create_video" }
  {
    Schema.LinksKeysRuns();
    var n0, n1, n2, n3 := Schema.LinksNames0(), Schema.LinksNames1(), Schema.LinksNames2(), Schema.LinksNames3();
    ColumnSetAppend(n0 + n1 + n2, n3);
    ColumnSetAppend(n0 + n1, n2);
    ColumnSetAppend(n0, n1);
    LinksRunSet0();
    LinksRunSet1();
    LinksRunSet2();
    LinksRunSet3();
  }

  lemma LinksRunSet0()
    ensures ColumnSet(Schema.LinksNames0()) ==
      { "url", "domain", "work_type", "duration", "identifier", "date_published",
        "date_modified", "country_of_origin", "abstract", "keywords" }
  {
  }

  lemma LinksRunSet1()
    ensures ColumnSet(Schema.LinksNames1()) ==
      { "title", "text", "hashtags", "creator_type", "creator_date_created",
        "creator_location_created", "creator_identifier", "creator_facebook_follow",
        "creator_facebook_subscribe", "creator_twitter_follow" }
  {
  }

  lemma LinksRunSet2()
    ensures ColumnSet(Schema.LinksNames2()) ==
      { "creator_youtube_subscribe", "creator_create_video", "creator_name",
        "creator_url", "facebook_comment", "facebook_like", "facebook_share",
        "pinterest_share", "twitter_share", "tiktok_share" }
  {
  }

  lemma LinksRunSet3()
    ensures ColumnSet(Schema.LinksNames3()) ==
      { "tiktok_comment", "reddit_engagement", "youtube_watch", "youtube_comment",
        "youtube_like", "youtube_favorite", "youtube_subscribe", "create_video" }
  {
  }

  /** The names of two lists joined are the names of either. */
  lemma ColumnSetAppend(a: seq<string>, b: seq<string>)
    ensures ColumnSet(a + b) == ColumnSet(a) + ColumnSet(b)
  {
    assert forall x :: x in a + b <==> x in a || x in b;
  }

  /** The `shared_content` column names as a set. */
  lemma SharedColumnSet()
    ensures ColumnSet(SharedColumns()) == {"post_url", "media_type", "content_url", "height", "width"}
  {
    Schema.SharedContentNames();
  }

  // ---------------------------------------------------------------------------
  // csv.DictWriter and the read back of update_from_csv
  // ---------------------------------------------------------------------------

  /** `ValueError: dict contains fields not in fieldnames`. */
  datatype WriteError = ExtraFields(names: set<string>)

  /** `csv.DictWriter(f, fieldnames).writerow(record)`, with the writer's
      default `extrasaction="raise"` and `restval=""`: a record naming a
      field outside `fieldnames` is refused; otherwise one cell per field
      name, in that order, empty for a field the record lacks or holds
      `None` in. */
  function WriteRow(fieldnames: seq<string>, record: Row): (r: Result<seq<string>, WriteError>)
    ensures r.Failure? <==> !(record.Keys <= ColumnSet(fieldnames))
    ensures r.Failure? ==> r.error.names == record.Keys - ColumnSet(fieldnames) && r.error.names != {}
    ensures r.Success? ==> |r.value| == |fieldnames|
  {
    if record.Keys <= ColumnSet(fieldnames) then Success(TableCsv.Render(fieldnames, record))
    else
      var x :| x in record.Keys && x !in ColumnSet(fieldnames);
      assert x in record.Keys - ColumnSet(fieldnames);
      Failure(ExtraFields(record.Keys - ColumnSet(fieldnames)))
  }

  /** A written record, read back under the same header as `update_from_csv`
      binds it, is the record itself over every column of the header: a
      field the record lacks, holds `None` in or holds empty text in is
      NULL, every other field keeps its value. */
  lemma WrittenRowReadsBack(fieldnames: seq<string>, record: Row)
    requires PyDict.Distinct(fieldnames) && WriteRow(fieldnames, record).Success?
    ensures var row := ToDictRow(fieldnames, WriteRow(fieldnames, record).value);
      && !row.overflow
      && TableCsv.NullEmpty(row.fields).Keys == ColumnSet(fieldnames)
      && forall c :: c in ColumnSet(fieldnames) ==>
           TableCsv.NullEmpty(row.fields)[c] == if CellOf(record, c) == Some("") then None else CellOf(record, c)
  {
    var cells := WriteRow(fieldnames, record).value;
    var z := ZipFields(fieldnames, cells);
    forall c | c in ColumnSet(fieldnames)
      ensures z[c] == Some(if CellOf(record, c).Some? then CellOf(record, c).value else "")
    {
      var j :| 0 <= j < |fieldnames| && fieldnames[j] == c;
      ZipFieldsAt(fieldnames, cells, j);
    }
  }
}
