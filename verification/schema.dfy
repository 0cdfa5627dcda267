/** The schema registry: the canonical name, primary key and ordered
    column -> type map of the `links` and `shared_content` tables. The SQLite
    generation declares `LinksConstants` twice (in `tables/links.py` and in
    `tables/links/constants.py`) with the same content; it is defined once
    here. */
module Schema {
  import opened Wrappers
  import PyDict
  import PyText
  import SqlNames

  /** The SQLite type descriptions the constants use. `post_url` carries a
      foreign-key clause, `TEXT REFERENCES links(url) ON UPDATE CASCADE`. */
  datatype ColumnType = Text | Integer | TextReferences(table: string, column: string)

  datatype TableConstants = TableConstants(
    tableName: string,
    primaryKey: string,
    pkList: seq<string>,
    dtypes: PyDict.Dict<ColumnType>)
  {
    /** `col_names = dtypes.keys()` */
    function ColNames(): seq<string> {
      PyDict.Keys(dtypes)
    }

    /** What every table description of the registry satisfies: distinct
        column names, a non-empty primary key made of declared columns, and
        the `primary_key` text being the comma-join of `pk_list`. That the
        names also stay distinct to SQLite, which ignores ASCII case, is
        `LinksCaseDistinct` and `SharedContentCaseDistinct`. */
    predicate Valid() {
      && PyDict.Distinct(ColNames())
      && |pkList| >= 1
      && PyDict.Distinct(pkList)
      && (forall i :: 0 <= i < |pkList| ==> pkList[i] in ColNames())
      && primaryKey == PyText.Join(pkList, ',')
    }
  }

  /** The `links` column map, in declaration order. It is written as four
      runs laid end to end so that facts about the literal names can be
      established run by run. */
  function LinksDtypes(): PyDict.Dict<ColumnType> {
    LinksRun0() + LinksRun1() + LinksRun2() + LinksRun3()
  }

  function LinksRun0(): PyDict.Dict<ColumnType> {
    [ ("url", Text), ("domain", Text), ("work_type", Text), ("duration", Text),
      ("identifier", Text), ("date_published", Text), ("date_modified", Text),
      ("country_of_origin", Text), ("abstract", Text), ("keywords", Text) ]
  }

  function LinksRun1(): PyDict.Dict<ColumnType> {
    [ ("title", Text), ("text", Text), ("hashtags", Text), ("creator_type", Text),
      ("creator_date_created", Text), ("creator_location_created", Text),
      ("creator_identifier", Text), ("creator_facebook_follow", Integer),
      ("creator_facebook_subscribe", Integer), ("creator_twitter_follow", Integer) ]
  }

  function LinksRun2(): PyDict.Dict<ColumnType> {
    [ ("creator_youtube_subscribe", Integer), ("creator_create_video", Integer),
      ("creator_name", Text), ("creator_url", Text), ("facebook_comment", Integer),
      ("facebook_like", Integer), ("facebook_share", Integer),
      ("pinterest_share", Integer), ("twitter_share", Integer),
      ("tiktok_share", Integer) ]
  }

  function LinksRun3(): PyDict.Dict<ColumnType> {
    [ ("tiktok_comment", Integer), ("reddit_engagement", Integer),
      ("youtube_watch", Integer), ("youtube_comment", Integer),
      ("youtube_like", Integer), ("youtube_favorite", Integer),
      ("youtube_subscribe", Integer), ("create_video", Integer) ]
  }

  function LinksNames0(): seq<string> {
    [ "url", "domain", "work_type", "duration", "identifier", "date_published",
      "date_modified", "country_of_origin", "abstract", "keywords" ]
  }

  function LinksNames1(): seq<string> {
    [ "title", "text", "hashtags", "creator_type", "creator_date_created",
      "creator_location_created", "creator_identifier", "creator_facebook_follow",
      "creator_facebook_subscribe", "creator_twitter_follow" ]
  }

  function LinksNames2(): seq<string> {
    [ "creator_youtube_subscribe", "creator_create_video", "creator_name",
      "creator_url", "facebook_comment", "facebook_like", "facebook_share",
      "pinterest_share", "twitter_share", "tiktok_share" ]
  }

  function LinksNames3(): seq<string> {
    [ "tiktok_comment", "reddit_engagement", "youtube_watch", "youtube_comment",
      "youtube_like", "youtube_favorite", "youtube_subscribe", "create_video" ]
  }

  /** The names of each run. */
  lemma LinksRunNames()
    ensures PyDict.Keys(LinksRun0()) == LinksNames0()
    ensures PyDict.Keys(LinksRun1()) == LinksNames1()
    ensures PyDict.Keys(LinksRun2()) == LinksNames2()
    ensures PyDict.Keys(LinksRun3()) == LinksNames3()
  {
    LinksRunNames0();
    LinksRunNames1();
    LinksRunNames2();
    LinksRunNames3();
  }

  lemma LinksRunNames0()
    ensures PyDict.Keys(LinksRun0()) == LinksNames0()
  {
  }

  lemma LinksRunNames1()
    ensures PyDict.Keys(LinksRun1()) == LinksNames1()
  {
  }

  lemma LinksRunNames2()
    ensures PyDict.Keys(LinksRun2()) == LinksNames2()
  {
  }

  lemma LinksRunNames3()
    ensures PyDict.Keys(LinksRun3()) == LinksNames3()
  {
  }

  /** The `links` column names are the four runs of names in order. */
  lemma LinksKeysRuns()
    ensures PyDict.Keys(LinksDtypes()) == LinksNames0() + LinksNames1() + LinksNames2() + LinksNames3()
  {
    PyDict.KeysAppend(LinksRun0() + LinksRun1() + LinksRun2(), LinksRun3());
    PyDict.KeysAppend(LinksRun0() + LinksRun1(), LinksRun2());
    PyDict.KeysAppend(LinksRun0(), LinksRun1());
    LinksRunNames();
  }

  /** `LinksConstants`: a single-column primary key `url`, and every declared
      type TEXT or INTEGER. */
  function LinksConstants(): (c: TableConstants)
    ensures c.tableName == "links"
    ensures c.pkList == ["url"]
    ensures c.Valid()
    ensures |c.ColNames()| == 38 && c.ColNames()[0] == "url"
    ensures forall i :: 0 <= i < |c.dtypes| ==> c.dtypes[i].1 in {Text, Integer}
  {
    var d := LinksDtypes();
    var c := TableConstants("links", "url", ["url"], d);
    assert PyDict.Distinct(c.ColNames()) by { LinksNamesDistinct(); }
    assert |c.ColNames()| == 38 && c.ColNames()[0] == "url" by { LinksUrlFirst(); }
    LinksTypes();
    c
  }

  lemma LinksTypes()
    ensures forall i :: 0 <= i < |LinksDtypes()| ==> LinksDtypes()[i].1 in {Text, Integer}
  {
  }

  /** The `links` table has 38 columns and `url` comes first. */
  lemma LinksUrlFirst()
    ensures |PyDict.Keys(LinksDtypes())| == 38 && PyDict.Keys(LinksDtypes())[0] == "url"
  {
    assert LinksDtypes()[0] == LinksRun0()[0];
  }

  lemma LinksNamesDistinct()
    ensures PyDict.Distinct(PyDict.Keys(LinksDtypes()))
  {
    LinksKeysRuns();
    LinksRunsDistinct();
    LinksRunsDisjoint();
    PyDict.DisjointJoin(LinksNames0(), LinksNames1(), LinksNames2());
    PyDict.DisjointJoin(LinksNames0() + LinksNames1(), LinksNames2(), LinksNames3());
    PyDict.DisjointJoin(LinksNames0(), LinksNames1(), LinksNames3());
    PyDict.DistinctJoin(LinksNames0(), LinksNames1());
    PyDict.DistinctJoin(LinksNames0() + LinksNames1(), LinksNames2());
    PyDict.DistinctJoin(LinksNames0() + LinksNames1() + LinksNames2(), LinksNames3());
  }

  lemma LinksRunsDistinct()
    ensures PyDict.Distinct(LinksNames0()) && PyDict.Distinct(LinksNames1())
    ensures PyDict.Distinct(LinksNames2()) && PyDict.Distinct(LinksNames3())
  {
    LinksRunDistinct0();
    LinksRunDistinct1();
    LinksRunDistinct2();
    LinksRunDistinct3();
  }

  lemma LinksRunDistinct0()
    ensures PyDict.Distinct(LinksNames0())
  {
  }

  lemma LinksRunDistinct1()
    ensures PyDict.Distinct(LinksNames1())
  {
  }

  lemma LinksRunDistinct2()
    ensures PyDict.Distinct(LinksNames2())
  {
  }

  lemma LinksRunDistinct3()
    ensures PyDict.Distinct(LinksNames3())
  {
  }

  lemma LinksRunsDisjoint()
    ensures PyDict.Disjoint(LinksNames0(), LinksNames1())
    ensures PyDict.Disjoint(LinksNames0(), LinksNames2())
    ensures PyDict.Disjoint(LinksNames0(), LinksNames3())
    ensures PyDict.Disjoint(LinksNames1(), LinksNames2())
    ensures PyDict.Disjoint(LinksNames1(), LinksNames3())
    ensures PyDict.Disjoint(LinksNames2(), LinksNames3())
  {
    LinksRunsDisjoint01();
    LinksRunsDisjoint02();
    LinksRunsDisjoint03();
    LinksRunsDisjoint12();
    LinksRunsDisjoint13();
    LinksRunsDisjoint23();
  }

  lemma LinksRunsDisjoint01()
    ensures PyDict.Disjoint(LinksNames0(), LinksNames1())
  {
  }

  lemma LinksRunsDisjoint02()
    ensures PyDict.Disjoint(LinksNames0(), LinksNames2())
  {
  }

  lemma LinksRunsDisjoint03()
    ensures PyDict.Disjoint(LinksNames0(), LinksNames3())
  {
  }

  lemma LinksRunsDisjoint12()
    ensures PyDict.Disjoint(LinksNames1(), LinksNames2())
  {
  }

  lemma LinksRunsDisjoint13()
    ensures PyDict.Disjoint(LinksNames1(), LinksNames3())
  {
  }

  lemma LinksRunsDisjoint23()
    ensures PyDict.Disjoint(LinksNames2(), LinksNames3())
  {
  }

  /** The `links` column names stay distinct when case is ignored. */
  lemma LinksCaseDistinct()
    ensures SqlNames.CaseDistinct(LinksConstants().ColNames())
  {
    LinksNamesDistinct();
    LinksNamesLower();
    SqlNames.LowerDistinct(LinksConstants().ColNames());
  }

  /** No `links` column name holds a capital letter. */
  lemma LinksNamesLower()
    ensures forall n :: n in PyDict.Keys(LinksDtypes()) ==> SqlNames.NoCapitals(n)
  {
    LinksKeysRuns();
    LinksRunLower0();
    LinksRunLower1();
    LinksRunLower2();
    LinksRunLower3();
    forall n | n in PyDict.Keys(LinksDtypes())
      ensures SqlNames.NoCapitals(n)
    {
      assert n in LinksNames0() || n in LinksNames1() || n in LinksNames2() || n in LinksNames3();
    }
  }

  lemma LinksRunLower0()
    ensures forall n :: n in LinksNames0() ==> SqlNames.NoCapitals(n)
  {
    LinksNamesLower0();
    LinksNamesLower1();
  }

  lemma LinksRunLower1()
    ensures forall n :: n in LinksNames1() ==> SqlNames.NoCapitals(n)
  {
    LinksNamesLower2();
    LinksNamesLower3();
  }

  lemma LinksRunLower2()
    ensures forall n :: n in LinksNames2() ==> SqlNames.NoCapitals(n)
  {
    LinksNamesLower4();
    LinksNamesLower5();
  }

  lemma LinksRunLower3()
    ensures forall n :: n in LinksNames3() ==> SqlNames.NoCapitals(n)
  {
    LinksNamesLower6();
    LinksNamesLower7();
  }

  lemma LinksNamesLower0()
    ensures SqlNames.NoCapitals("url")
    ensures SqlNames.NoCapitals("domain")
    ensures SqlNames.NoCapitals("work_type")
    ensures SqlNames.NoCapitals("duration")
    ensures SqlNames.NoCapitals("identifier")
  {
  }

  lemma LinksNamesLower1()
    ensures SqlNames.NoCapitals("date_published")
    ensures SqlNames.NoCapitals("date_modified")
    ensures SqlNames.NoCapitals("country_of_origin")
    ensures SqlNames.NoCapitals("abstract")
    ensures SqlNames.NoCapitals("keywords")
  {
  }

  lemma LinksNamesLower2()
    ensures SqlNames.NoCapitals("title")
    ensures SqlNames.NoCapitals("text")
    ensures SqlNames.NoCapitals("hashtags")
    ensures SqlNames.NoCapitals("creator_type")
    ensures SqlNames.NoCapitals("creator_date_created")
  {
  }

  lemma LinksNamesLower3()
    ensures SqlNames.NoCapitals("creator_location_created")
    ensures SqlNames.NoCapitals("creator_identifier")
    ensures SqlNames.NoCapitals("creator_facebook_follow")
    ensures SqlNames.NoCapitals("creator_facebook_subscribe")
    ensures SqlNames.NoCapitals("creator_twitter_follow")
  {
  }

  lemma LinksNamesLower4()
    ensures SqlNames.NoCapitals("creator_youtube_subscribe")
    ensures SqlNames.NoCapitals("creator_create_video")
    ensures SqlNames.NoCapitals("creator_name")
    ensures SqlNames.NoCapitals("creator_url")
    ensures SqlNames.NoCapitals("facebook_comment")
  {
  }

  lemma LinksNamesLower5()
    ensures SqlNames.NoCapitals("facebook_like")
    ensures SqlNames.NoCapitals("facebook_share")
    ensures SqlNames.NoCapitals("pinterest_share")
    ensures SqlNames.NoCapitals("twitter_share")
    ensures SqlNames.NoCapitals("tiktok_share")
  {
  }

  lemma LinksNamesLower6()
    ensures SqlNames.NoCapitals("tiktok_comment")
    ensures SqlNames.NoCapitals("reddit_engagement")
    ensures SqlNames.NoCapitals("youtube_watch")
    ensures SqlNames.NoCapitals("youtube_comment")
    ensures SqlNames.NoCapitals("youtube_like")
  {
  }

  lemma LinksNamesLower7()
    ensures SqlNames.NoCapitals("youtube_favorite")
    ensures SqlNames.NoCapitals("youtube_subscribe")
    ensures SqlNames.NoCapitals("create_video")
  {
  }

  function SharedContentDtypes(): PyDict.Dict<ColumnType> {
    [ ("post_url", TextReferences("links", "url")), ("media_type", Text),
      ("content_url", Text), ("height", Integer), ("width", Integer) ]
  }

  lemma SharedContentNames()
    ensures PyDict.Keys(SharedContentDtypes()) == ["post_url", "media_type", "content_url", "height", "width"]
  {
    var d := SharedContentDtypes();
    var names := PyDict.Keys(d);
    assert names[0] == d[0].0 && names[1] == d[1].0 && names[2] == d[2].0;
    assert names[3] == d[3].0 && names[4] == d[4].0;
  }

  lemma SharedContentTypes()
    ensures PyDict.Get(SharedContentDtypes(), "post_url") == Some(TextReferences("links", "url"))
    ensures PyDict.Get(SharedContentDtypes(), "height") == Some(Integer)
    ensures PyDict.Get(SharedContentDtypes(), "width") == Some(Integer)
  {
    var d := SharedContentDtypes();
    assert d[..4][..3] == d[..3];
    assert d[..3][..2] == d[..2];
    assert d[..2][..1] == d[..1];
    assert PyDict.Get(d, "height") == PyDict.Get(d[..4], "height");
    assert PyDict.Get(d, "post_url") == PyDict.Get(d[..4], "post_url");
    assert PyDict.Get(d[..4], "post_url") == PyDict.Get(d[..3], "post_url");
    assert PyDict.Get(d[..3], "post_url") == PyDict.Get(d[..2], "post_url");
    assert PyDict.Get(d[..2], "post_url") == PyDict.Get(d[..1], "post_url");
  }

  /** `ShareContentConstants`: the composite key (`post_url`, `content_url`),
      `post_url` referring to `links(url)`, and integer `height`/`width`. */
  function SharedContentConstants(): (c: TableConstants)
    ensures c.tableName == "shared_content"
    ensures c.pkList == ["post_url", "content_url"]
    ensures c.Valid()
    ensures c.ColNames() == ["post_url", "media_type", "content_url", "height", "width"]
    ensures PyDict.Get(c.dtypes, "post_url") == Some(TextReferences("links", "url"))
    ensures PyDict.Get(c.dtypes, "height") == Some(Integer)
    ensures PyDict.Get(c.dtypes, "width") == Some(Integer)
  {
    SharedContentValid();
    SharedContentNames();
    SharedContentTypes();
    TableConstants("shared_content", "post_url,content_url", ["post_url", "content_url"],
                   SharedContentDtypes())
  }

  lemma SharedContentValid()
    ensures TableConstants("shared_content", "post_url,content_url", ["post_url", "content_url"],
                           SharedContentDtypes()).Valid()
  {
    var c := TableConstants("shared_content", "post_url,content_url", ["post_url", "content_url"],
                            SharedContentDtypes());
    SharedContentNames();
    var names := ["post_url", "media_type", "content_url", "height", "width"];
    assert c.ColNames() == names;
    assert PyDict.Distinct(names) by {
      forall i, j | 0 <= i < j < |names|
        ensures names[i] != names[j]
      {
        assert names[i][0] != names[j][0];
      }
    }
    assert names[0] == "post_url" && names[2] == "content_url";
    assert PyText.Join(["post_url", "content_url"], ',') == "post_url,content_url" by {
      assert ["post_url", "content_url"][1..] == ["content_url"];
    }
  }

  /** The `shared_content` column names stay distinct when case is
      ignored. */
  lemma SharedContentCaseDistinct()
    ensures SqlNames.CaseDistinct(SharedContentConstants().ColNames())
  {
    var names := ["post_url", "media_type", "content_url", "height", "width"];
    assert PyDict.Distinct(names) by {
      forall i, j | 0 <= i < j < |names|
        ensures names[i] != names[j]
      {
        assert names[i][0] != names[j][0];
      }
    }
    assert forall n :: n in names ==> SqlNames.NoCapitals(n);
    SqlNames.LowerDistinct(names);
  }
}
