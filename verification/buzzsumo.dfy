/** The Buzzsumo collector's record: `NormalizedBuzzsumoResult` of
    `minall/enrichment/buzzsumo/normalizer.py`. The article `minet` finds
    for a URL (or its absence) is an input. */
module Buzzsumo {
  import opened Wrappers
  import opened Store
  import opened Records
  import PyDict
  import StoreLaws
  import Domains

  /** `minet`'s `BuzzsumoArticle`: its attributes, and the names of its
      boolean classification attributes that are true. */
  datatype Article = Article(attrs: Attrs, flags: set<string>)

  /** The classification attributes that make a video. */
  const VideoTypes: seq<string> := ["is_video"]

  /** The classification attributes that make an article. */
  const ArticleTypes: seq<string> := [
    "is_general_article", "is_how_to_article", "is_infographic", "is_interview", "is_list",
    "is_newsletter", "is_press_release", "is_review", "is_what_post", "is_why_post" ]

  /** The `for t in types: if getattr(data, t)` scan: some listed attribute
      is true. */
  function AnySet(types: seq<string>, flags: set<string>): (r: bool)
    ensures r <==> exists i :: 0 <= i < |types| && types[i] in flags
    decreases |types|
  {
    if |types| == 0 then false
    else if types[0] in flags then true
    else
      assert forall i :: 0 < i < |types| ==> types[i] == types[1..][i - 1];
      AnySet(types[1..], flags)
  }

  /** `parse_buzzsumo_type(data)`: a video when flagged as one, else an
      article when flagged as any kind of article, else a web page; a web
      page too when Buzzsumo had nothing. */
  function BuzzsumoType(data: Option<Article>): (r: string)
    ensures r == "VideoObject" <==> data.Some? && "is_video" in data.value.flags
    ensures r == "Article" <==>
      data.Some? && "is_video" !in data.value.flags && exists t :: t in ArticleTypes && t in data.value.flags
    ensures r == "WebPage" <==>
      data.None? || ("is_video" !in data.value.flags && forall t :: t in ArticleTypes ==> t !in data.value.flags)
  {
    match data
    case None => "WebPage"
    case Some(a) =>
      if AnySet(VideoTypes, a.flags) then "VideoObject"
      else if AnySet(ArticleTypes, a.flags) then "Article"
      else "WebPage"
  }

  /** The columns `from_payload` fills from the article. */
  const BuzzFields: seq<(string, string)> := [
    ("twitter_share", "twitter_shares"), ("facebook_share", "facebook_shares"),
    ("title", "title"), ("date_published", "published_date"),
    ("pinterest_share", "pinterest_shares"), ("creator_name", "author_name"),
    ("creator_identifier", "twitter_user_id"), ("duration", "video_length"),
    ("facebook_comment", "facebook_comments"), ("youtube_watch", "youtube_views"),
    ("youtube_like", "youtube_likes"), ("youtube_comment", "youtube_comments"),
    ("tiktok_share", "tiktok_share_count"), ("tiktok_comment", "tiktok_comment_count"),
    ("reddit_engagement", "total_reddit_engagements") ]

  lemma BuzzTargets()
    ensures Targets(BuzzFields) ==
      [ "twitter_share", "facebook_share", "title", "date_published", "pinterest_share",
        "creator_name", "creator_identifier", "duration", "facebook_comment", "youtube_watch",
        "youtube_like", "youtube_comment", "tiktok_share", "tiktok_comment", "reddit_engagement" ]
  {
  }

  lemma BuzzTargetSet()
    ensures ColumnSet(Targets(BuzzFields)) ==
      { "twitter_share", "facebook_share", "title", "date_published", "pinterest_share",
        "creator_name", "creator_identifier", "duration", "facebook_comment", "youtube_watch",
        "youtube_like", "youtube_comment", "tiktok_share", "tiktok_comment", "reddit_engagement" }
  {
    BuzzTargets();
  }

  /** The constant columns of a record: the URL, its domain (none without
      an article) and its work type. */
  function BuzzFixed(url: string, domain: Cell, workType: string): Row {
    map["url" := Some(url), "domain" := domain, "work_type" := Some(workType)]
  }

  /** The domain a record carries: `get_domain(url)` with an article, none
      without. */
  function BuzzDomain(o: Domains.UrlOracle, url: string, data: Option<Article>): Cell {
    if data.Some? then Domains.GetDomain(o, url) else None
  }

  /** The eighteen fields of `NormalizedBuzzsumoResult` are distinct: the
      copied ones and the constants. */
  lemma BuzzRowNamesDistinct()
    ensures PyDict.Distinct(
      [ "twitter_share", "facebook_share", "title", "date_published", "pinterest_share",
        "creator_name", "creator_identifier", "duration", "facebook_comment", "youtube_watch",
        "youtube_like", "youtube_comment", "tiktok_share", "tiktok_comment", "reddit_engagement",
        "url", "domain", "work_type" ])
  {
  }

  /** No copied column is a constant one, and no two copied columns are
      the same. */
  lemma BuzzColumnsApart(url: string, domain: Cell, workType: string)
    ensures PyDict.Distinct(Targets(BuzzFields))
    ensures ColumnSet(Targets(BuzzFields)) !! BuzzFixed(url, domain, workType).Keys
  {
    BuzzTargets();
    var fixed := ["url", "domain", "work_type"];
    assert ColumnSet(fixed) == BuzzFixed(url, domain, workType).Keys;
    BuzzRowNamesDistinct();
    assert Targets(BuzzFields) + fixed ==
      [ "twitter_share", "facebook_share", "title", "date_published", "pinterest_share",
        "creator_name", "creator_identifier", "duration", "facebook_comment", "youtube_watch",
        "youtube_like", "youtube_comment", "tiktok_share", "tiktok_comment", "reddit_engagement",
        "url", "domain", "work_type" ];
    DistinctApart(Targets(BuzzFields), fixed);
  }

  /** `NormalizedBuzzsumoResult.from_payload(url, data).as_csv_dict_row()`:
      the same eighteen fields whether or not Buzzsumo knew the URL; its
      domain is `get_domain(url)` only when it did. */
  function BuzzRecord(o: Domains.UrlOracle, url: string, data: Option<Article>): (r: Row)
    ensures r.Keys == ColumnSet(Targets(BuzzFields)) + {"url", "domain", "work_type"}
    ensures r["url"] == Some(url) && r["work_type"] == Some(BuzzsumoType(data))
    ensures r["domain"] == if data.Some? then Domains.GetDomain(o, url) else None
  {
    var fixed := BuzzFixed(url, BuzzDomain(o, url, data), BuzzsumoType(data));
    assert fixed.Keys == {"url", "domain", "work_type"};
    Fill(BuzzFields, if data.Some? then data.value.attrs else map[], fixed)
  }

  /** Every copied column holds the article's attribute, and is NULL when
      Buzzsumo had nothing. */
  lemma BuzzRecordFields(o: Domains.UrlOracle, url: string, data: Option<Article>, i: nat)
    requires i < |BuzzFields|
    ensures BuzzRecord(o, url, data)[BuzzFields[i].0] ==
      if data.Some? then CellOf(data.value.attrs, BuzzFields[i].1) else None
  {
    BuzzColumnsApart(url, BuzzDomain(o, url, data), BuzzsumoType(data));
    assert BuzzFields[i].0 in ColumnSet(Targets(BuzzFields)) by {
      assert Targets(BuzzFields)[i] == BuzzFields[i].0;
    }
    FillAt(BuzzFields, if data.Some? then data.value.attrs else map[], BuzzFixed(url, BuzzDomain(o, url, data), BuzzsumoType(data)), i);
  }

  /** Every record names only `links` columns, so the writer accepts it. */
  lemma BuzzRecordWritable(o: Domains.UrlOracle, url: string, data: Option<Article>)
    ensures WriteRow(LinksColumns(), BuzzRecord(o, url, data)).Success?
  {
    LinksColumnSet();
    BuzzTargetSet();
    assert ColumnSet(Targets(BuzzFields)) <= ColumnSet(LinksColumns());
  }

  /** Without an article, every column of the record but the URL and the
      work type is NULL. */
  lemma UnknownUrlNulls(o: Domains.UrlOracle, url: string, x: string)
    requires x in BuzzRecord(o, url, None) && x != "url" && x != "work_type"
    ensures BuzzRecord(o, url, None)[x].None?
  {
    if x in ColumnSet(Targets(BuzzFields)) {
      var i :| 0 <= i < |BuzzFields| && Targets(BuzzFields)[i] == x;
      BuzzRecordFields(o, url, None, i);
    }
  }

  /** A URL Buzzsumo does not know still writes a work type: upserting its
      record over a stored row keeps every other column and sets the work
      type to `WebPage`, whatever an earlier collector stored there. */
  lemma UnknownUrlSetsWebPage(o: Domains.UrlOracle, t: Table, url: string)
    requires WellFormed(t) && t.pk == ["url"]
    requires BuzzRecord(o, url, None).Keys <= ColumnSet(t.columns)
    requires Lookup(t, [url]).Some?
    ensures Fits(t, BuzzRecord(o, url, None))
    ensures var before := Lookup(t, [url]).value;
      Lookup(Upsert(t, BuzzRecord(o, url, None)), [url]) == Some(before["work_type" := Some("WebPage")])
  {
    var r := BuzzRecord(o, url, None);
    var before := Lookup(t, [url]).value;
    StoreLaws.StoredLookup(t, [url]);
    StoreLaws.UpsertLookup(t, r, [url]);
    assert KeyOf(t.pk, r).value == [url];
    forall x | x in r && x !in t.pk && x != "work_type"
      ensures r[x].None?
    {
      UnknownUrlNulls(o, url, x);
    }
    StoreLaws.CoalesceOne(before, r, t.pk, "work_type");
  }
}
