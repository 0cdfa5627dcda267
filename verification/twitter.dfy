/** The Twitter collector's records: `NormalizedTweet` and
    `parse_shared_content` of `minall/enrichment/twitter/normalizer.py`,
    and what the links writer of `get_twitter_data` does with them. The
    tweet `minet`'s scraper returns for a URL (or its absence) is an input;
    timestamps arrive already rendered, so `datetime.fromtimestamp` is not
    part of this model. */
module Twitter {
  import opened Wrappers
  import opened Store
  import opened Records
  import PyDict
  import Schema

  /** A tweet as the scraper returns it, a dict: its scalar entries, the
      media keys it holds whatever their value (`media_types` holding `None`
      is still a key of the dict), and its three media lists as
      `tweet.get` reads them (`None` when the key is absent or holds
      `None`). */
  datatype Tweet = Tweet(
    fields: Attrs,
    mediaKeys: set<string>,
    mediaTypes: Option<seq<string>>,
    mediaUrls: Option<seq<string>>,
    mediaFiles: Option<seq<string>>)

  /** `if tweet:` — the scraper found a tweet and the dict is not empty:
      it holds a scalar entry or a media key, `None`-valued ones included. */
  predicate Found(tweet: Option<Tweet>) {
    tweet.Some? &&
    (tweet.value.fields != map[] || tweet.value.mediaKeys != {} || tweet.value.mediaTypes.Some? ||
     tweet.value.mediaUrls.Some? || tweet.value.mediaFiles.Some?)
  }

  /** `tweet[key]` raised `KeyError`. */
  datatype TweetError = KeyError(key: string)

  /** The columns `from_payload` fills from the tweet, in the order it reads
      them. */
  const TweetFields: seq<(string, string)> := [
    ("identifier", "id"), ("date_published", "timestamp_utc"), ("text", "text"),
    ("creator_date_created", "user_timestamp_utc"), ("creator_identifier", "user_id"),
    ("creator_twitter_follow", "user_followers"), ("creator_name", "user_name"),
    ("twitter_share", "retweet_count"), ("twitter_like", "like_count"),
    ("hashtags", "hashtags") ]

  lemma TweetTargets()
    ensures Targets(TweetFields) ==
      [ "identifier", "date_published", "text", "creator_date_created", "creator_identifier",
        "creator_twitter_follow", "creator_name", "twitter_share", "twitter_like", "hashtags" ]
  {
  }

  /** The defaults of `NormalizedTweet` that `from_payload` never
      overrides. */
  function TweetFixed(url: string): Row {
    map["url" := Some(url), "domain" := Some("twitter.com"),
        "work_type" := Some("SocialMediaPosting"), "creator_type" := Some("defacto:SocialMediaAccount")]
  }

  /** The fourteen fields of `NormalizedTweet` are distinct. */
  lemma TweetRowNamesDistinct()
    ensures PyDict.Distinct(
      [ "identifier", "date_published", "text", "creator_date_created", "creator_identifier",
        "creator_twitter_follow", "creator_name", "twitter_share", "twitter_like", "hashtags",
        "url", "domain", "work_type", "creator_type" ])
  {
  }

  lemma TweetColumnsApart(url: string)
    ensures PyDict.Distinct(Targets(TweetFields))
    ensures ColumnSet(Targets(TweetFields)) !! TweetFixed(url).Keys
  {
    TweetTargets();
    var fixed := ["url", "domain", "work_type", "creator_type"];
    assert ColumnSet(fixed) == TweetFixed(url).Keys;
    TweetRowNamesDistinct();
    assert Targets(TweetFields) + fixed ==
      [ "identifier", "date_published", "text", "creator_date_created", "creator_identifier",
        "creator_twitter_follow", "creator_name", "twitter_share", "twitter_like", "hashtags",
        "url", "domain", "work_type", "creator_type" ];
    DistinctApart(Targets(TweetFields), fixed);
  }

  /** The first key of the table the tweet lacks, in reading order. */
  function FirstMissing(fields: seq<(string, string)>, tweet: Attrs): (r: Option<string>)
    ensures r.None? <==> forall i :: 0 <= i < |fields| ==> fields[i].1 in tweet
    ensures r.Some? ==> exists i :: 0 <= i < |fields| && fields[i].1 == r.value && r.value !in tweet &&
                                  forall j :: 0 <= j < i ==> fields[j].1 in tweet
    decreases |fields|
  {
    if |fields| == 0 then None
    else if fields[0].1 !in tweet then Some(fields[0].1)
    else
      var rest := FirstMissing(fields[1..], tweet);
      assert forall i :: 0 < i < |fields| ==> fields[i] == fields[1..][i - 1];
      if rest.Some? then
        var k :| 0 <= k < |fields[1..]| && fields[1..][k].1 == rest.value && rest.value !in tweet &&
          forall j :: 0 <= j < k ==> fields[1..][j].1 in tweet;
        assert fields[k + 1].1 == rest.value;
        assert forall j :: 0 <= j < k + 1 ==> fields[j].1 in tweet by {
          forall j | 0 <= j < k + 1
            ensures fields[j].1 in tweet
          {
            if j > 0 {
              assert fields[j] == fields[1..][j - 1];
            }
          }
        }
        rest
      else rest
  }

  /** The tweet has every key `from_payload` reads, or there is no tweet
      to read. */
  predicate Complete(tweet: Option<Tweet>) {
    !Found(tweet) || FirstMissing(TweetFields, tweet.value.fields).None?
  }

  /** `NormalizedTweet.from_payload(url, tweet).as_csv_dict_row()`: with a
      tweet, every column of the table read from it, or `KeyError` for the
      first key it lacks; without one, the URL and the defaults. The two
      records have the same fourteen fields. */
  function TweetRecord(url: string, tweet: Option<Tweet>): (r: Result<Row, TweetError>)
    ensures Found(tweet) ==>
      (r.Failure? <==> FirstMissing(TweetFields, tweet.value.fields).Some?)
    ensures Found(tweet) && r.Failure? ==> r.error == KeyError(FirstMissing(TweetFields, tweet.value.fields).value)
    ensures !Found(tweet) ==> r.Success?
    ensures r.Success? <==> Complete(tweet)
    ensures r.Success? ==>
      && r.value.Keys == ColumnSet(Targets(TweetFields)) + {"url", "domain", "work_type", "creator_type"}
      && r.value["url"] == Some(url) && r.value["domain"] == Some("twitter.com")
      && r.value["work_type"] == Some("SocialMediaPosting")
      && r.value["creator_type"] == Some("defacto:SocialMediaAccount")
  {
    var fixed := TweetFixed(url);
    assert fixed.Keys == {"url", "domain", "work_type", "creator_type"};
    if !Found(tweet) then Success(Fill(TweetFields, map[], fixed))
    else
      match FirstMissing(TweetFields, tweet.value.fields)
      case Some(key) => Failure(KeyError(key))
      case None => Success(Fill(TweetFields, tweet.value.fields, fixed))
  }

  /** A dict holding only `media_types: None` is not empty, so it counts as
      a tweet and `from_payload` raises on its first read, `tweet["id"]`; it
      carries no media. */
  lemma NoneMediaTweet(url: string)
    ensures var tweet := Some(Tweet(map[], {"media_types"}, None, None, None));
      && Found(tweet)
      && TweetRecord(url, tweet) == Failure(KeyError("id"))
      && SharedContent(url, tweet) == []
  {
    var tweet := Some(Tweet(map[], {"media_types"}, None, None, None));
    assert TweetFields[0].1 == "id";
    assert FirstMissing(TweetFields, map[]) == Some("id");
  }

  /** Each column of a tweet's record holds the tweet's value, and is NULL
      when there was no tweet. */
  lemma TweetRecordFields(url: string, tweet: Option<Tweet>, i: nat)
    requires TweetRecord(url, tweet).Success? && i < |TweetFields|
    ensures TweetRecord(url, tweet).value[TweetFields[i].0] ==
      if Found(tweet) then CellOf(tweet.value.fields, TweetFields[i].1) else None
  {
    TweetColumnsApart(url);
    assert TweetFields[i].0 in ColumnSet(Targets(TweetFields)) by {
      assert Targets(TweetFields)[i] == TweetFields[i].0;
    }
    FillAt(TweetFields, if Found(tweet) then tweet.value.fields else map[], TweetFixed(url), i);
  }

  // ---------------------------------------------------------------------------
  // The links writer of get_twitter_data
  // ---------------------------------------------------------------------------

  /** Every tweet record, the default one included, carries `twitter_like`,
      which `links` does not declare; the writer `get_twitter_data` borrows
      from the CrowdTangle collector writes only `links` columns and
      refuses the record, naming that one field. */
  lemma TweetRecordRefused(url: string, tweet: Option<Tweet>)
    requires TweetRecord(url, tweet).Success?
    ensures WriteRow(LinksColumns(), TweetRecord(url, tweet).value) == Failure(ExtraFields({"twitter_like"}))
  {
    var r := TweetRecord(url, tweet).value;
    var links := ColumnSet(LinksColumns());
    TweetLinksApart();
    assert r.Keys - {"twitter_like"} <= links;
    OnlyExtra(r.Keys, links, "twitter_like");
  }

  lemma OnlyExtra(keys: set<string>, allowed: set<string>, x: string)
    requires x in keys && x !in allowed && keys - {x} <= allowed
    ensures keys - allowed == {x}
  {
  }

  /** Every field of a tweet record but the like count is a `links`
      column; the like count is not. */
  lemma TweetLinksApart()
    ensures ColumnSet(Targets(TweetFields)) - {"twitter_like"} <= ColumnSet(LinksColumns())
    ensures {"url", "domain", "work_type", "creator_type"} <= ColumnSet(LinksColumns())
    ensures "twitter_like" !in ColumnSet(LinksColumns())
    ensures "twitter_like" in ColumnSet(Targets(TweetFields))
  {
    TweetTargetSet();
    LinksColumnSet();
    NoLikeColumn();
  }

  /** `links` has no column for likes on Twitter. */
  lemma NoLikeColumn()
    ensures "twitter_like" !in ColumnSet(LinksColumns())
  {
    Schema.LinksKeysRuns();
    var n0, n1, n2, n3 := Schema.LinksNames0(), Schema.LinksNames1(), Schema.LinksNames2(), Schema.LinksNames3();
    assert "twitter_like" !in n0;
    assert "twitter_like" !in n1;
    assert "twitter_like" !in n2;
    assert "twitter_like" !in n3;
    assert LinksColumns() == n0 + n1 + n2 + n3;
  }

  lemma TweetTargetSet()
    ensures ColumnSet(Targets(TweetFields)) ==
      { "identifier", "date_published", "text", "creator_date_created", "creator_identifier",
        "creator_twitter_follow", "creator_name", "twitter_share", "twitter_like", "hashtags" }
  {
    TweetTargets();
  }

  /** The like count has no column in `links`: the record the writer can
      take is the tweet's record without it. */
  function LinksTweetRecord(url: string, tweet: Option<Tweet>): (r: Result<Row, TweetError>)
    ensures r.Success? <==> TweetRecord(url, tweet).Success?
    ensures r.Failure? ==> r.error == TweetRecord(url, tweet).error
    ensures r.Success? ==> "twitter_like" !in r.value && r.value.Keys == TweetRecord(url, tweet).value.Keys - {"twitter_like"}
    ensures r.Success? ==> forall c :: c in r.value ==> r.value[c] == TweetRecord(url, tweet).value[c]
  {
    match TweetRecord(url, tweet)
    case Success(row) => Success(row - {"twitter_like"})
    case Failure(e) => Failure(e)
  }

  /** The corrected record is accepted, and read back it is the tweet's
      record on every `links` column. */
  lemma LinksTweetRecordWritten(url: string, tweet: Option<Tweet>)
    requires LinksTweetRecord(url, tweet).Success?
    ensures WriteRow(LinksColumns(), LinksTweetRecord(url, tweet).value).Success?
    ensures forall c :: c in ColumnSet(LinksColumns()) ==>
      CellOf(LinksTweetRecord(url, tweet).value, c) == CellOf(TweetRecord(url, tweet).value, c)
  {
    var r := LinksTweetRecord(url, tweet).value;
    TweetLinksApart();
    assert r.Keys <= ColumnSet(LinksColumns());
  }

  // ---------------------------------------------------------------------------
  // parse_shared_content
  // ---------------------------------------------------------------------------

  /** One embedded medium: `NormalizedSharedLink(post_url, content_url,
      media_type)`, without height or width. */
  function SharedLink(url: string, mediaType: string, mediaUrl: string): (r: Row)
    ensures r.Keys == {"post_url", "content_url", "media_type", "height", "width"}
    ensures r["post_url"] == Some(url) && r["content_url"] == Some(mediaUrl)
    ensures r["media_type"] == Some(MediaType(Some(mediaType)))
    ensures r["height"].None? && r["width"].None?
  {
    map["post_url" := Some(url), "content_url" := Some(mediaUrl),
        "media_type" := Some(MediaType(Some(mediaType))), "height" := None, "width" := None]
  }

  /** The three media lists are all present, non-empty and of one length. */
  predicate MediaAligned(t: Tweet) {
    && t.mediaTypes.Some? && t.mediaUrls.Some? && t.mediaFiles.Some?
    && t.mediaTypes.value != [] && t.mediaUrls.value != [] && t.mediaFiles.value != []
    && |t.mediaFiles.value| == |t.mediaUrls.value| && |t.mediaUrls.value| == |t.mediaTypes.value|
  }

  /** `parse_shared_content(url, tweet)`: one record per medium, in order,
      when there is a tweet whose media lists line up; nothing otherwise. */
  function SharedContent(url: string, tweet: Option<Tweet>): (rs: seq<Row>)
    ensures !(Found(tweet) && MediaAligned(tweet.value)) ==> rs == []
    ensures Found(tweet) && MediaAligned(tweet.value) ==>
      |rs| == |tweet.value.mediaUrls.value| &&
      forall i :: 0 <= i < |rs| ==>
        rs[i] == SharedLink(url, tweet.value.mediaTypes.value[i], tweet.value.mediaUrls.value[i])
  {
    if Found(tweet) && MediaAligned(tweet.value) then
      var types := tweet.value.mediaTypes.value;
      var urls := tweet.value.mediaUrls.value;
      seq(|urls|, i requires 0 <= i < |urls| => SharedLink(url, types[i], urls[i]))
    else []
  }

  /** Every medium lands in `shared_content` under the key (the tweet's
      URL, the medium's URL), and the writer accepts it. */
  lemma SharedContentKey(url: string, tweet: Option<Tweet>, i: nat)
    requires i < |SharedContent(url, tweet)|
    ensures var r := SharedContent(url, tweet)[i];
      && WriteRow(SharedColumns(), r).Success?
      && KeyOf(["post_url", "content_url"], r) == Some([url, tweet.value.mediaUrls.value[i]])
  {
    SharedColumnSet();
    var r := SharedContent(url, tweet)[i];
    assert KeyOf(["post_url", "content_url"], r).value == [url, tweet.value.mediaUrls.value[i]];
  }

  // ---------------------------------------------------------------------------
  // get_twitter_data
  // ---------------------------------------------------------------------------

  /** Why a run of the Twitter collector stops. */
  datatype RunError = MissingKey(key: string) | Refused(error: WriteError)

  /** The records a run hands its two writers, in writing order. */
  datatype Written = Written(links: seq<Row>, shared: seq<Row>)

  /** The record the links writer is given for one URL: the tweet's own
      record as the code builds it, or the corrected one. */
  function RecordFor(url: string, tweet: Option<Tweet>, corrected: bool): Result<Row, TweetError> {
    if corrected then LinksTweetRecord(url, tweet) else TweetRecord(url, tweet)
  }

  /** One URL's record, once the links writer has taken it. With the
      corrected record only a missing key stops it. */
  function Accepted(url: string, tweet: Option<Tweet>, corrected: bool): (r: Result<Row, RunError>)
    ensures corrected ==> (r.Success? <==> Complete(tweet))
  {
    match RecordFor(url, tweet, corrected)
    case Failure(e) => Failure(MissingKey(e.key))
    case Success(row) =>
      assert corrected ==> WriteRow(LinksColumns(), row).Success? by {
        if corrected {
          LinksTweetRecordWritten(url, tweet);
        }
      }
      match WriteRow(LinksColumns(), row)
      case Failure(w) => Failure(Refused(w))
      case Success(_) => Success(row)
  }

  /** What the links writer takes from a complete tweet is its corrected
      record. */
  lemma AcceptedCorrected(url: string, tweet: Option<Tweet>)
    requires Complete(tweet)
    ensures LinksTweetRecord(url, tweet).Success?
    ensures Accepted(url, tweet, true) == Success(LinksTweetRecord(url, tweet).value)
  {
    LinksTweetRecordWritten(url, tweet);
  }

  lemma AcceptedAsWritten(url: string, tweet: Option<Tweet>)
    ensures Accepted(url, tweet, false) ==
      match TweetRecord(url, tweet)
      case Failure(e) => Failure(MissingKey(e.key))
      case Success(_) => Failure(Refused(ExtraFields({"twitter_like"})))
  {
    if TweetRecord(url, tweet).Success? {
      TweetRecordRefused(url, tweet);
    }
  }

  /** What one URL hands the two writers: its record, or why the run stops
      there, and its media. */
  datatype Outcome = Outcome(record: Result<Row, RunError>, media: seq<Row>)

  /** The outcome of every URL, in URL order (`executor.map` keeps the
      URLs' order, and the batches of ten it walks concatenate back to the
      URLs). */
  function Outcomes(scraped: seq<(string, Option<Tweet>)>, corrected: bool): (os: seq<Outcome>)
    ensures |os| == |scraped|
  {
    seq(|scraped|, i requires 0 <= i < |scraped| =>
      Outcome(Accepted(scraped[i].0, scraped[i].1, corrected), SharedContent(scraped[i].0, scraped[i].1)))
  }

  /** The media of the outcomes, in order. */
  function Media(os: seq<Outcome>): seq<Row>
    decreases |os|
  {
    if |os| == 0 then [] else os[0].media + Media(os[1..])
  }

  /** The loop of `get_twitter_data`: each URL's record goes to the links
      writer, then its media to the shared-content writer; the first
      `KeyError` or refused record ends the run. */
  function Collect(os: seq<Outcome>): (r: Result<Written, RunError>)
    ensures r.Success? ==> |r.value.links| == |os|
    decreases |os|
  {
    if |os| == 0 then Success(Written([], []))
    else
      var row :- os[0].record;
      var rest :- Collect(os[1..]);
      Success(Written([row] + rest.links, os[0].media + rest.shared))
  }

  /** `get_twitter_data` over the URLs and the tweets the scraper returned
      for them. */
  function GetTwitterData(scraped: seq<(string, Option<Tweet>)>, corrected: bool): Result<Written, RunError> {
    Collect(Outcomes(scraped, corrected))
  }

  /** The run stops at the first URL whose record is not taken, with that
      URL's error. */
  lemma {:induction false} CollectStops(os: seq<Outcome>, k: nat)
    requires k < |os| && os[k].record.Failure?
    requires forall i :: 0 <= i < k ==> os[i].record.Success?
    ensures Collect(os) == Failure(os[k].record.error)
    decreases k
  {
    if k > 0 {
      assert os[0].record.Success?;
      var tail := os[1..];
      assert forall i :: 0 <= i < k - 1 ==> tail[i] == os[i + 1];
      CollectStops(tail, k - 1);
    }
  }

  /** The run finishes exactly when every URL's record is taken. */
  lemma {:induction false} CollectRuns(os: seq<Outcome>)
    ensures Collect(os).Success? <==> forall i :: 0 <= i < |os| ==> os[i].record.Success?
    decreases |os|
  {
    if |os| > 0 {
      var tail := os[1..];
      CollectRuns(tail);
      assert forall i :: 0 < i < |os| ==> os[i] == tail[i - 1];
    }
  }

  /** A finished run has written every URL's record, in order, and every
      URL's media, in order. */
  lemma {:induction false} CollectWrites(os: seq<Outcome>)
    requires Collect(os).Success?
    ensures Collect(os).value.shared == Media(os)
    ensures forall i :: 0 <= i < |os| ==> os[i].record.Success? && Collect(os).value.links[i] == os[i].record.value
    decreases |os|
  {
    if |os| > 0 {
      var tail := os[1..];
      CollectWrites(tail);
      var w := Collect(os).value;
      forall i | 0 <= i < |os|
        ensures os[i].record.Success? && w.links[i] == os[i].record.value
      {
        if i > 0 {
          assert os[i] == tail[i - 1];
          assert w.links[i] == Collect(tail).value.links[i - 1];
        }
      }
    }
  }

  /** The media of every tweet, in URL order. */
  function SharedAll(scraped: seq<(string, Option<Tweet>)>): seq<Row>
    decreases |scraped|
  {
    if |scraped| == 0 then [] else SharedContent(scraped[0].0, scraped[0].1) + SharedAll(scraped[1..])
  }

  /** Outcomes that carry each tweet's media have, between them, all the
      tweets' media in URL order. */
  lemma {:induction false} MediaInOrder(os: seq<Outcome>, scraped: seq<(string, Option<Tweet>)>)
    requires |os| == |scraped|
    requires forall i :: 0 <= i < |os| ==> os[i].media == SharedContent(scraped[i].0, scraped[i].1)
    ensures Media(os) == SharedAll(scraped)
    decreases |os|
  {
    if |os| > 0 {
      var tail := scraped[1..];
      assert forall i :: 0 <= i < |tail| ==> os[1..][i] == os[i + 1] && tail[i] == scraped[i + 1];
      MediaInOrder(os[1..], tail);
    }
  }

  /** The record a finished corrected run took for a URL is that URL's
      corrected record. */
  lemma OutcomeCorrected(scraped: seq<(string, Option<Tweet>)>, i: nat)
    requires i < |scraped| && Outcomes(scraped, true)[i].record.Success?
    ensures LinksTweetRecord(scraped[i].0, scraped[i].1).Success?
    ensures Outcomes(scraped, true)[i].record.value == LinksTweetRecord(scraped[i].0, scraped[i].1).value
  {
    AcceptedCorrected(scraped[i].0, scraped[i].1);
  }

  /** `get_twitter_data` as written never gets past its first URL: that
      URL's tweet either lacks a key or yields a record the links writer
      refuses for its `twitter_like` field. */
  lemma TwitterDataStops(scraped: seq<(string, Option<Tweet>)>)
    requires |scraped| > 0
    ensures GetTwitterData(scraped, false) ==
      match TweetRecord(scraped[0].0, scraped[0].1)
      case Failure(e) => Failure(MissingKey(e.key))
      case Success(_) => Failure(Refused(ExtraFields({"twitter_like"})))
  {
    var os := Outcomes(scraped, false);
    AcceptedAsWritten(scraped[0].0, scraped[0].1);
    assert os[0].record.Failure?;
    CollectStops(os, 0);
  }

  /** With the corrected record, the run stops only on a tweet that lacks
      a key. */
  lemma CorrectedTwitterDataRuns(scraped: seq<(string, Option<Tweet>)>)
    ensures GetTwitterData(scraped, true).Success? <==> forall i :: 0 <= i < |scraped| ==> Complete(scraped[i].1)
  {
    var os := Outcomes(scraped, true);
    CollectRuns(os);
    assert forall i :: 0 <= i < |scraped| ==> (os[i].record.Success? <==> Complete(scraped[i].1));
  }

  /** A corrected run hands the shared-content writer every tweet's
      media, in URL order. */
  lemma CorrectedTwitterDataMedia(scraped: seq<(string, Option<Tweet>)>)
    requires GetTwitterData(scraped, true).Success?
    ensures GetTwitterData(scraped, true).value.shared == SharedAll(scraped)
  {
    var os := Outcomes(scraped, true);
    CollectWrites(os);
    MediaInOrder(os, scraped);
  }

  /** A corrected run hands the links writer every URL's corrected record,
      in URL order. */
  lemma CorrectedTwitterDataWrites(scraped: seq<(string, Option<Tweet>)>)
    requires GetTwitterData(scraped, true).Success?
    ensures forall i :: 0 <= i < |scraped| ==>
      LinksTweetRecord(scraped[i].0, scraped[i].1).Success? &&
      GetTwitterData(scraped, true).value.links[i] == LinksTweetRecord(scraped[i].0, scraped[i].1).value
  {
    var os := Outcomes(scraped, true);
    CollectWrites(os);
    forall i | 0 <= i < |scraped|
      ensures LinksTweetRecord(scraped[i].0, scraped[i].1).Success? &&
        GetTwitterData(scraped, true).value.links[i] == LinksTweetRecord(scraped[i].0, scraped[i].1).value
    {
      OutcomeCorrected(scraped, i);
    }
  }
}
