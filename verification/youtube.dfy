/** The YouTube collector's records: `ParsedLink` and `normalize` of
    `minall/enrichment/youtube/normalizer.py`. What `ural` makes of a URL
    and what `minet` returns for a video or a channel are inputs. */
module YouTube {
  import opened Wrappers
  import opened Store
  import opened Records
  import PyDict
  import StoreLaws

  /** What `ural.youtube.parse_youtube_url` makes of a URL: a video, a
      channel, or anything else (a short, a user page, not YouTube). */
  datatype YoutubeUrl = VideoUrl(id: string) | ChannelUrl(id: string) | OtherUrl

  /** A `ParsedLink`: the target URL, how it parsed, the two ids the
      constructor sets, and the `minet` results collected for it (a video's
      attributes; a channel's `as_csv_dict_row()`). */
  datatype ParsedLink = ParsedLink(
    linkId: string, kind: YoutubeUrl, videoId: Attr, channelId: Attr,
    videoResult: Option<Attrs>, channelResult: Option<Attrs>)

  /** `ParsedLink(url)`: a video URL gets its video id and no channel id, a
      channel URL the other way round; any other URL gets neither
      attribute, and reading one raises `AttributeError`. No result is
      stored yet. */
  function NewParsedLink(parse: string -> YoutubeUrl, url: string): (p: ParsedLink)
    ensures p.linkId == url && p.kind == parse(url)
    ensures p.videoResult.None? && p.channelResult.None?
    ensures p.videoId.Present? <==> !parse(url).OtherUrl?
    ensures p.channelId.Present? <==> !parse(url).OtherUrl?
    ensures !(p.videoId.Present? && p.videoId.value.Some? && p.channelId.Present? && p.channelId.value.Some?)
    ensures p.videoId.Present? && p.videoId.value.Some? <==> parse(url).VideoUrl?
    ensures p.channelId.Present? && p.channelId.value.Some? <==> parse(url).ChannelUrl?
    ensures p.videoId.Present? && p.videoId.value.Some? ==> parse(url) == VideoUrl(p.videoId.value.value)
    ensures p.channelId.Present? && p.channelId.value.Some? ==> parse(url) == ChannelUrl(p.channelId.value.value)
  {
    match parse(url)
    case VideoUrl(id) => ParsedLink(url, parse(url), Present(Some(id)), Present(None), None, None)
    case ChannelUrl(id) => ParsedLink(url, parse(url), Present(None), Present(Some(id)), None, None)
    case OtherUrl => ParsedLink(url, parse(url), Missing, Missing, None, None)
  }

  /** The columns `NormalizedYouTubeVideo.from_payload` fills from the
      video result. */
  const VideoFields: seq<(string, string)> := [
    ("identifier", "video_id"), ("date_published", "published_at"), ("duration", "duration"),
    ("title", "title"), ("abstract", "description"), ("youtube_watch", "view_count"),
    ("youtube_comment", "comment_count"), ("youtube_like", "like_count"),
    ("creator_name", "channel_title"), ("creator_identifier", "channel_id") ]

  /** The columns it fills from the channel's row, `None` without one. */
  const CreatorFields: seq<(string, string)> := [
    ("keywords", "keywords"), ("creator_date_created", "published_at"),
    ("creator_location_created", "country"), ("creator_youtube_subscribe", "subscriber_count"),
    ("creator_create_video", "video_count") ]

  /** The columns `NormalizedYouTubeChannel.from_payload` fills from the
      channel result. */
  const ChannelFields: seq<(string, string)> := [
    ("identifier", "channel_id"), ("date_published", "published_at"),
    ("country_of_origin", "country"), ("title", "title"), ("abstract", "description"),
    ("keywords", "keywords"), ("youtube_subscribe", "subscriber_count"),
    ("create_video", "video_count") ]

  lemma VideoTargets()
    ensures Targets(VideoFields) ==
      [ "identifier", "date_published", "duration", "title", "abstract", "youtube_watch",
        "youtube_comment", "youtube_like", "creator_name", "creator_identifier" ]
  {
  }

  lemma VideoDistinct()
    ensures PyDict.Distinct(Targets(VideoFields))
  {
    VideoTargets();
  }

  lemma CreatorTargets()
    ensures Targets(CreatorFields) ==
      [ "keywords", "creator_date_created", "creator_location_created",
        "creator_youtube_subscribe", "creator_create_video" ]
  {
  }

  lemma CreatorDistinct()
    ensures PyDict.Distinct(Targets(CreatorFields))
  {
    CreatorTargets();
  }

  lemma ChannelTargets()
    ensures Targets(ChannelFields) ==
      [ "identifier", "date_published", "country_of_origin", "title", "abstract",
        "keywords", "youtube_subscribe", "create_video" ]
  {
  }

  lemma ChannelDistinct()
    ensures PyDict.Distinct(Targets(ChannelFields))
  {
    ChannelTargets();
  }

  /** The constant columns of a video's row. */
  function VideoFixed(url: string): Row {
    map["url" := Some(url), "domain" := Some("youtube.com"),
        "work_type" := Some("VideoObject"), "creator_type" := Some("WebPage")]
  }

  /** The channel's row as the video reads it: empty without a channel. */
  function ChannelRow(channel: Option<Attrs>): Attrs {
    if channel.Some? then channel.value else map[]
  }

  /** The columns a video's row fills from the channel, with its constants. */
  function VideoInner(url: string, channel: Option<Attrs>): Row {
    Fill(CreatorFields, ChannelRow(channel), VideoFixed(url))
  }

  /** A video's row: `NormalizedYouTubeVideo.from_payload(url, channel,
      video).as_csv_dict_row()`, its nineteen fields. */
  function VideoRecord(url: string, channel: Option<Attrs>, video: Attrs): (r: Row)
    ensures r.Keys == ColumnSet(Targets(VideoFields)) + ColumnSet(Targets(CreatorFields)) + VideoFixed(url).Keys
    ensures r["url"] == Some(url) && r["domain"] == Some("youtube.com")
    ensures r["work_type"] == Some("VideoObject") && r["creator_type"] == Some("WebPage")
  {
    var inner := VideoInner(url, channel);
    assert inner["url"] == Some(url) && inner["domain"] == Some("youtube.com");
    assert inner["work_type"] == Some("VideoObject") && inner["creator_type"] == Some("WebPage");
    Fill(VideoFields, video, inner)
  }

  /** No column is filled from both the video and the channel, and none of
      them is a constant. */
  /** The nineteen fields of `NormalizedYouTubeVideo` are distinct: those
      read from the video, those read from the channel, and the constants. */
  lemma VideoRowNamesDistinct()
    ensures PyDict.Distinct(
      [ "identifier", "date_published", "duration", "title", "abstract", "youtube_watch",
        "youtube_comment", "youtube_like", "creator_name", "creator_identifier",
        "keywords", "creator_date_created", "creator_location_created",
        "creator_youtube_subscribe", "creator_create_video",
        "url", "domain", "work_type", "creator_type" ])
  {
  }

  lemma VideoApart()
    ensures ColumnSet(Targets(VideoFields)) !! ColumnSet(Targets(CreatorFields)) + {"url", "domain", "work_type", "creator_type"}
    ensures ColumnSet(Targets(CreatorFields)) !! {"url", "domain", "work_type", "creator_type"}
  {
    VideoTargets();
    CreatorTargets();
    var fixed := ["url", "domain", "work_type", "creator_type"];
    assert ColumnSet(fixed) == {"url", "domain", "work_type", "creator_type"};
    VideoRowNamesDistinct();
    assert Targets(VideoFields) + (Targets(CreatorFields) + fixed) ==
      [ "identifier", "date_published", "duration", "title", "abstract", "youtube_watch",
        "youtube_comment", "youtube_like", "creator_name", "creator_identifier",
        "keywords", "creator_date_created", "creator_location_created",
        "creator_youtube_subscribe", "creator_create_video",
        "url", "domain", "work_type", "creator_type" ];
    DistinctApart(Targets(VideoFields), Targets(CreatorFields) + fixed);
    DistinctApart(Targets(CreatorFields), fixed);
  }

  lemma CreatorTargetSet()
    ensures ColumnSet(Targets(CreatorFields)) ==
      { "keywords", "creator_date_created", "creator_location_created",
        "creator_youtube_subscribe", "creator_create_video" }
  {
    CreatorTargets();
  }

  lemma VideoColumnsApart(url: string, channel: Option<Attrs>)
    ensures ColumnSet(Targets(VideoFields)) !! VideoInner(url, channel).Keys
    ensures ColumnSet(Targets(CreatorFields)) !! VideoFixed(url).Keys
  {
    VideoApart();
    assert VideoFixed(url).Keys == {"url", "domain", "work_type", "creator_type"};
  }

  /** Every column of a video's row read from the video holds the video's
      attribute. */
  lemma VideoRecordFromVideo(url: string, channel: Option<Attrs>, video: Attrs, i: nat)
    requires i < |VideoFields|
    ensures VideoRecord(url, channel, video)[VideoFields[i].0] == CellOf(video, VideoFields[i].1)
  {
    VideoDistinct();
    VideoColumnsApart(url, channel);
    assert VideoFields[i].0 in ColumnSet(Targets(VideoFields)) by {
      assert Targets(VideoFields)[i] == VideoFields[i].0;
    }
    FillAt(VideoFields, video, VideoInner(url, channel), i);
  }

  /** Every column of a video's row read from the channel holds the
      channel's value, and is NULL when no channel was found. */
  lemma VideoRecordFromChannel(url: string, channel: Option<Attrs>, video: Attrs, i: nat)
    requires i < |CreatorFields|
    ensures VideoRecord(url, channel, video)[CreatorFields[i].0] ==
      if channel.Some? then CellOf(channel.value, CreatorFields[i].1) else None
  {
    CreatorDistinct();
    VideoColumnsApart(url, channel);
    assert CreatorFields[i].0 in ColumnSet(Targets(CreatorFields)) by {
      assert Targets(CreatorFields)[i] == CreatorFields[i].0;
    }
    FillAt(CreatorFields, ChannelRow(channel), VideoFixed(url), i);
  }

  /** The constant columns of a channel's row. */
  function ChannelFixed(url: string): Row {
    map["url" := Some(url), "domain" := Some("youtube.com"), "work_type" := Some("WebPage")]
  }

  /** A channel's row: `NormalizedYouTubeChannel.from_payload(url,
      channel).as_csv_dict_row()`, its eleven fields. */
  function ChannelRecord(url: string, channel: Attrs): (r: Row)
    ensures r.Keys == ColumnSet(Targets(ChannelFields)) + ChannelFixed(url).Keys
    ensures r["url"] == Some(url) && r["domain"] == Some("youtube.com") && r["work_type"] == Some("WebPage")
  {
    Fill(ChannelFields, channel, ChannelFixed(url))
  }

  /** Every other column of a channel's row holds the channel's value. */
  lemma ChannelRecordFields(url: string, channel: Attrs, i: nat)
    requires i < |ChannelFields|
    ensures ChannelRecord(url, channel)[ChannelFields[i].0] == CellOf(channel, ChannelFields[i].1)
  {
    ChannelDistinct();
    ChannelApart();
    assert ChannelFields[i].0 in ColumnSet(Targets(ChannelFields)) by {
      assert Targets(ChannelFields)[i] == ChannelFields[i].0;
    }
    assert ChannelFixed(url).Keys == {"url", "domain", "work_type"};
    FillAt(ChannelFields, channel, ChannelFixed(url), i);
  }

  /** No column of a channel's row copied from the channel is a constant. */
  lemma ChannelApart()
    ensures ColumnSet(Targets(ChannelFields)) !! {"url", "domain", "work_type"}
  {
    ChannelTargets();
    assert "url" !in Targets(ChannelFields) && "domain" !in Targets(ChannelFields) && "work_type" !in Targets(ChannelFields);
  }

  /** `normalize(parsed_link)`: the video's row when a video result was
      stored, else the channel's row when a channel result was, else the
      URL alone. */
  function Normalize(p: ParsedLink): (r: Row)
    ensures p.videoResult.Some? ==> r == VideoRecord(p.linkId, p.channelResult, p.videoResult.value)
    ensures p.videoResult.None? && p.channelResult.Some? ==> r == ChannelRecord(p.linkId, p.channelResult.value)
    ensures p.videoResult.None? && p.channelResult.None? ==> r == map["url" := Some(p.linkId)]
  {
    match (p.videoResult, p.channelResult)
    case (Some(video), _) => VideoRecord(p.linkId, p.channelResult, video)
    case (None, Some(channel)) => ChannelRecord(p.linkId, channel)
    case (None, None) => map["url" := Some(p.linkId)]
  }

  /** A video's row names only `links` columns. */
  lemma VideoRecordWritable(url: string, channel: Option<Attrs>, video: Attrs)
    ensures VideoRecord(url, channel, video).Keys <= ColumnSet(LinksColumns())
  {
    LinksColumnSet();
    VideoTargetSet();
    assert ColumnSet(Targets(VideoFields)) <= ColumnSet(LinksColumns());
    CreatorTargets();
    assert ColumnSet(Targets(CreatorFields)) <= ColumnSet(LinksColumns());
  }

  lemma VideoTargetSet()
    ensures ColumnSet(Targets(VideoFields)) ==
      { "identifier", "date_published", "duration", "title", "abstract", "youtube_watch",
        "youtube_comment", "youtube_like", "creator_name", "creator_identifier" }
  {
    VideoTargets();
  }

  /** A channel's row names only `links` columns. */
  lemma ChannelRecordWritable(url: string, channel: Attrs)
    ensures ChannelRecord(url, channel).Keys <= ColumnSet(LinksColumns())
  {
    LinksColumnSet();
    ChannelTargets();
  }

  /** Whatever was collected, the row names only `links` columns, so the
      writer accepts it. */
  lemma NormalizeWritable(p: ParsedLink)
    ensures WriteRow(LinksColumns(), Normalize(p)).Success?
  {
    if p.videoResult.Some? {
      VideoRecordWritable(p.linkId, p.channelResult, p.videoResult.value);
    } else if p.channelResult.Some? {
      ChannelRecordWritable(p.linkId, p.channelResult.value);
    } else {
      LinksColumnSet();
    }
  }

  /** Whatever was collected, the row is keyed by the link's own URL. */
  lemma NormalizeKey(p: ParsedLink)
    ensures KeyOf(["url"], Normalize(p)) == Some([p.linkId])
  {
    var r := Normalize(p);
    assert r["url"] == Some(p.linkId);
    assert KeyOf(["url"], r).value == [p.linkId];
  }

  /** A link with nothing collected writes the URL alone, so its upsert
      leaves every stored row as it was. */
  lemma NothingCollectedKeepsRows(p: ParsedLink, t: Table, k: Key)
    requires p.videoResult.None? && p.channelResult.None?
    requires WellFormed(t) && t.pk == ["url"] && "url" in ColumnSet(t.columns)
    requires Lookup(t, [p.linkId]).Some?
    ensures Fits(t, Normalize(p))
    ensures Lookup(Upsert(t, Normalize(p)), k) == Lookup(t, k)
  {
    var r := Normalize(p);
    StoreLaws.UpsertLookup(t, r, k);
    if KeyOf(t.pk, r) == Some(k) {
      var s := Lookup(t, k).value;
      var m := Coalesce(s, r, t.pk);
      forall c | c in s
        ensures m[c] == s[c]
      {
      }
      assert m == s;
    }
  }
}
