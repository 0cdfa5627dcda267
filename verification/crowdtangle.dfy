/** The CrowdTangle collector's pure parts: the rate limit and post-id
    helpers of `minall/enrichment/crowdtangle/client.py`, and the records
    `minall/enrichment/crowdtangle/normalizer.py` makes of a post. What
    `minet` and `ural` compute from a URL is a parameter. */
module CrowdTangle {
  import opened Wrappers
  import opened Store
  import opened Records
  import PyText
  import PyDict
  import Config
  import Schema

  // ---------------------------------------------------------------------------
  // parse_rate_limit
  // ---------------------------------------------------------------------------

  /** `int(rate_limit)` raised `ValueError`. */
  datatype RateLimitError = NotAnInteger(text: string)

  /** The rate limit used when none is configured. */
  const DefaultRateLimit: int := 10

  /** `parse_rate_limit(rate_limit)`: a false value (absent, `0`, empty)
      becomes the default, a string is converted with `int()`, anything else
      is returned as it is. */
  function ParseRateLimit(v: Config.Value): (r: Result<Config.Value, RateLimitError>)
    ensures !Config.Truthy(v) ==> r == Success(Config.Int(DefaultRateLimit))
    ensures Config.Truthy(v) && v.Str? ==>
      && (r.Failure? <==> PyText.ParseInt(v.s).None?)
      && (r.Success? ==> r.value == Config.Int(PyText.ParseInt(v.s).value))
    ensures Config.Truthy(v) && !v.Str? ==> r == Success(v)
    ensures r.Success? ==> !r.value.Str?
  {
    if !Config.Truthy(v) then Success(Config.Int(DefaultRateLimit))
    else if v.Str? then
      match PyText.ParseInt(v.s)
      case Some(n) => Success(Config.Int(n))
      case None => Failure(NotAnInteger(v.s))
    else Success(v)
  }

  /** Once parsed, a limit that is not zero parses to itself: the function
      is idempotent on its own results except on `0`. */
  lemma RateLimitSettles(v: Config.Value)
    requires ParseRateLimit(v).Success? && ParseRateLimit(v).value != Config.Int(0)
    ensures ParseRateLimit(ParseRateLimit(v).value) == ParseRateLimit(v)
  {
  }

  /** The exception: the string `"0"` is kept as the limit `0`, while the
      integer `0` is replaced by the default. */
  lemma RateLimitZero()
    ensures ParseRateLimit(Config.Str("0")) == Success(Config.Int(0))
    ensures ParseRateLimit(Config.Int(0)) == Success(Config.Int(DefaultRateLimit))
  {
    assert PyText.Strip("0") == "0";
    assert PyText.DigitGroups("0");
    assert PyText.DigitsValue("0") == PyText.DigitsValue("") * 10 + PyText.DigitValue('0');
  }

  /** The two ways the limit reaches the client agree: the string the
      environment holds, parsed here, is the integer `parse_env_vars` reads
      from the same text, or the default when that text is absent or
      empty. */
  lemma RateLimitAgreesWithEnv(dotenv: map<string, Option<string>>)
    requires Config.ParseEnvVars(dotenv).Success?
    ensures var text := Config.DotenvGet(dotenv, "CROWDTANGLE_RATE_LIMIT");
      var given := if text.Some? then Config.Str(text.value) else Config.Null;
      var limit := Config.ParseEnvVars(dotenv).value.ctRateLimit;
      ParseRateLimit(given) ==
        if limit.Some? && limit.value != 0 then Success(Config.Int(limit.value))
        else if limit.Some? then Success(Config.Int(0))
        else Success(Config.Int(DefaultRateLimit))
  {
  }

  // ---------------------------------------------------------------------------
  // adhoc_post_id_parser
  // ---------------------------------------------------------------------------

  /** The attributes of a parsed Facebook URL the helper looks at. */
  datatype FacebookUrl = FacebookUrl(id: Attr, parentHandle: Attr, parentId: Attr)

  /** `minet.facebook.post_id_from_url` and `ural.facebook.parse_facebook_url`. */
  datatype FacebookParsers = FacebookParsers(
    postIdFromUrl: string -> Option<string>,
    parseFacebookUrl: string -> Option<FacebookUrl>)

  /** The parent of a parsed URL: its handle when it has that attribute,
      else its id; `None` when it has neither attribute. */
  function Parent(p: FacebookUrl): (r: Option<Option<string>>)
    ensures p.parentHandle.Present? ==> r == Some(p.parentHandle.value)
    ensures p.parentHandle.Missing? && p.parentId.Present? ==> r == Some(p.parentId.value)
    ensures r.None? <==> p.parentHandle.Missing? && p.parentId.Missing?
  {
    match (p.parentHandle, p.parentId)
    case (Present(h), _) => Some(h)
    case (Missing, Present(i)) => Some(i)
    case (Missing, Missing) => None
  }

  /** The post id and parent the fallback composes, when the parsed URL has
      both and both are non-empty. */
  function FallbackParts(f: FacebookParsers, url: string): Option<(string, string)> {
    match f.parseFacebookUrl(url)
    case None => None
    case Some(p) =>
      if p.id.Missing? || Parent(p).None? then None
      else
        var postId := p.id.value;
        var parent := Parent(p).value;
        if PyText.Truthy(postId) && PyText.Truthy(parent) then Some((postId.value, parent.value)) else None
  }

  /** `int(s)` accepts `s`. */
  predicate Numeric(s: string) {
    PyText.ParseInt(s).Some?
  }

  /** `adhoc_post_id_parser(url)`: `minet`'s post id when it finds one;
      otherwise the parsed URL's post id and parent joined by `_`, provided
      `int()` accepts both. */
  function AdhocPostIdParser(f: FacebookParsers, url: string): (r: Option<string>)
    ensures PyText.Truthy(f.postIdFromUrl(url)) ==> r == f.postIdFromUrl(url)
    ensures !PyText.Truthy(f.postIdFromUrl(url)) ==>
      (r.Some? <==> FallbackParts(f, url).Some? && Numeric(FallbackParts(f, url).value.0) && Numeric(FallbackParts(f, url).value.1))
    ensures !PyText.Truthy(f.postIdFromUrl(url)) && r.Some? ==>
      r.value == FallbackParts(f, url).value.0 + "_" + FallbackParts(f, url).value.1
  {
    var postId := f.postIdFromUrl(url);
    if PyText.Truthy(postId) then postId
    else
      match f.parseFacebookUrl(url)
      case None => None
      case Some(parsed) =>
        match parsed.id
        case Missing => None
        case Present(id) =>
          match Parent(parsed)
          case None => None
          case Some(parent) =>
            if PyText.Truthy(id) && PyText.Truthy(parent) then
              if !Numeric(id.value) then None
              else if !Numeric(parent.value) then None
              else Some(id.value + "_" + parent.value)
            else None
  }

  /** A fallback id splits back into the two numbers it was made of, when
      neither is written with `_` digit separators. */
  lemma FallbackIdSplits(f: FacebookParsers, url: string)
    requires !PyText.Truthy(f.postIdFromUrl(url)) && AdhocPostIdParser(f, url).Some?
    requires '_' !in FallbackParts(f, url).value.0 && '_' !in FallbackParts(f, url).value.1
    ensures var (p, q) := FallbackParts(f, url).value;
      PyText.Split(AdhocPostIdParser(f, url).value, '_') == [p, q] && Numeric(p) && Numeric(q)
  {
    var (p, q) := FallbackParts(f, url).value;
    assert PyText.Join([p, q], '_') == p + "_" + q by {
      assert [p, q][1..] == [q];
    }
    PyText.SplitJoin([p, q], '_');
  }

  /** A parsed URL with a parent handle uses it even when it also has a
      parent id. */
  lemma HandleBeforeId(f: FacebookParsers, url: string, id: string, handle: string, parentId: Option<string>)
    requires !PyText.Truthy(f.postIdFromUrl(url))
    requires f.parseFacebookUrl(url) == Some(FacebookUrl(Present(Some(id)), Present(Some(handle)), Present(parentId)))
    requires Numeric(id) && Numeric(handle)
    ensures AdhocPostIdParser(f, url) == Some(id + "_" + handle)
  {
    assert id != "" && handle != "" by {
      assert |PyText.Strip(id)| > 0 && |PyText.Strip(handle)| > 0;
    }
  }

  // ---------------------------------------------------------------------------
  // normalizer.py
  // ---------------------------------------------------------------------------

  /** `minet`'s `CrowdTanglePost` as the normaliser reads it: its
      attributes, its `type` attribute, and its `media` attribute when that
      is a list (each medium a dict). */
  datatype Post = Post(attrs: Attrs, postType: Attr, media: Option<seq<Attrs>>)

  /** The work type of a post: `photo` and `video` posts are images and
      videos, any other post (or one without a `type`) a social media
      posting. */
  function PostWorkType(t: Attr): (r: string)
    ensures r == "ImageObject" <==> t == Present(Some("photo"))
    ensures r == "VideoObject" <==> t == Present(Some("video"))
    ensures r == "SocialMediaPosting" <==> t != Present(Some("photo")) && t != Present(Some("video"))
  {
    match t
    case Present(Some("photo")) => "ImageObject"
    case Present(Some("video")) => "VideoObject"
    case _ => "SocialMediaPosting"
  }

  /** A post's work type is its medium's type when that is a photo or a
      video; where the medium would be a generic `MediaObject` the post is a
      `SocialMediaPosting`. */
  lemma PostAndMediaTypes(t: Option<string>)
    ensures PostWorkType(Present(t)) ==
      if MediaType(t) == "MediaObject" then "SocialMediaPosting" else MediaType(t)
  {
  }

  /** The columns `NormalizedFacebookPost.from_payload` fills from the post,
      with the attribute each one is read from. */
  const PostFields: seq<(string, string)> := [
    ("duration", "video_length_ms"), ("identifier", "id"), ("date_published", "date"),
    ("date_modified", "updated"), ("title", "title"), ("abstract", "description"),
    ("text", "message"), ("creator_identifier", "account.id"),
    ("creator_facebook_subscribe", "account.subscriber_count"),
    ("creator_name", "account.name"),
    ("creator_location_created", "account.page_admin_top_country"),
    ("creator_url", "account.url"), ("facebook_comment", "actual_comment_count"),
    ("facebook_like", "actual_like_count"), ("facebook_share", "actual_share_count") ]

  /** The constant columns of a post's record. */
  function PostFixed(url: string, post: Post): Row {
    map["url" := Some(url), "work_type" := Some(PostWorkType(post.postType)),
        "domain" := Some("facebook.com"), "creator_type" := Some("defacto:SocialMediaAccount")]
  }

  lemma PostTargets()
    ensures Targets(PostFields) ==
      [ "duration", "identifier", "date_published", "date_modified", "title", "abstract",
        "text", "creator_identifier", "creator_facebook_subscribe", "creator_name",
        "creator_location_created", "creator_url", "facebook_comment", "facebook_like",
        "facebook_share" ]
  {
  }

  /** The nineteen fields of `NormalizedFacebookPost` are distinct: the
      copied ones and the constants. */
  lemma PostRowNamesDistinct()
    ensures PyDict.Distinct(
      [ "duration", "identifier", "date_published", "date_modified", "title", "abstract",
        "text", "creator_identifier", "creator_facebook_subscribe", "creator_name",
        "creator_location_created", "creator_url", "facebook_comment", "facebook_like",
        "facebook_share", "url", "work_type", "domain", "creator_type" ])
  {
  }

  /** No copied column is a constant one, and no two copied columns are
      the same. */
  lemma PostColumnsApart(url: string, post: Post)
    ensures PyDict.Distinct(Targets(PostFields))
    ensures ColumnSet(Targets(PostFields)) !! PostFixed(url, post).Keys
  {
    PostTargets();
    var fixed := ["url", "work_type", "domain", "creator_type"];
    assert ColumnSet(fixed) == PostFixed(url, post).Keys;
    PostRowNamesDistinct();
    assert Targets(PostFields) + fixed ==
      [ "duration", "identifier", "date_published", "date_modified", "title", "abstract",
        "text", "creator_identifier", "creator_facebook_subscribe", "creator_name",
        "creator_location_created", "creator_url", "facebook_comment", "facebook_like",
        "facebook_share", "url", "work_type", "domain", "creator_type" ];
    DistinctApart(Targets(PostFields), fixed);
  }

  /** `parse_facebook_post(url, result)`: without a post, the URL with the
      Facebook domain and the posting type and nothing else; with one, the
      copied attributes, its work type, and the defaults `facebook.com` and
      `defacto:SocialMediaAccount`. */
  function PostRecord(url: string, result: Option<Post>): (r: Row)
    ensures result.None? ==>
      r == map["url" := Some(url), "domain" := Some("facebook.com"), "work_type" := Some("SocialMediaPosting")]
    ensures result.Some? ==>
      && r.Keys == ColumnSet(Targets(PostFields)) + {"url", "work_type", "domain", "creator_type"}
      && r["url"] == Some(url)
      && r["work_type"] == Some(PostWorkType(result.value.postType))
      && r["domain"] == Some("facebook.com")
      && r["creator_type"] == Some("defacto:SocialMediaAccount")
  {
    match result
    case None => map["url" := Some(url), "domain" := Some("facebook.com"), "work_type" := Some("SocialMediaPosting")]
    case Some(post) =>
      var fixed := PostFixed(url, post);
      assert fixed.Keys == {"url", "work_type", "domain", "creator_type"};
      Fill(PostFields, post.attrs, fixed)
  }

  /** With a post, every copied column holds the post's attribute. */
  lemma PostRecordFields(url: string, post: Post, i: nat)
    requires i < |PostFields|
    ensures PostRecord(url, Some(post))[PostFields[i].0] == CellOf(post.attrs, PostFields[i].1)
  {
    PostColumnsApart(url, post);
    assert PostFields[i].0 in ColumnSet(Targets(PostFields)) by {
      assert Targets(PostFields)[i] == PostFields[i].0;
    }
    FillAt(PostFields, post.attrs, PostFixed(url, post), i);
  }

  /** One medium of a post: `NormalizedSharedContent.from_payload`. */
  function MediaRecord(url: string, m: Attrs): (r: Row)
    ensures r.Keys == {"post_url", "media_type", "content_url", "height", "width"}
    ensures r["post_url"] == Some(url)
    ensures r["content_url"] == CellOf(m, "url")
    ensures r["media_type"] == Some(MediaType(CellOf(m, "type")))
    ensures r["height"] == CellOf(m, "height") && r["width"] == CellOf(m, "width")
  {
    map["post_url" := Some(url), "content_url" := CellOf(m, "url"),
        "media_type" := Some(MediaType(CellOf(m, "type"))),
        "height" := CellOf(m, "height"), "width" := CellOf(m, "width")]
  }

  /** `parse_shared_content(url, result)`: one record per medium, in order,
      when there is a post and its `media` is a list; nothing otherwise. */
  function SharedRecords(url: string, result: Option<Post>): (rs: seq<Row>)
    ensures result.None? || result.value.media.None? ==> rs == []
    ensures result.Some? && result.value.media.Some? ==>
      |rs| == |result.value.media.value| &&
      forall i :: 0 <= i < |rs| ==> rs[i] == MediaRecord(url, result.value.media.value[i])
  {
    match result
    case None => []
    case Some(post) =>
      match post.media
      case None => []
      case Some(media) => seq(|media|, i requires 0 <= i < |media| => MediaRecord(url, media[i]))
  }

  /** Every post record names only `links` columns, so the links writer
      accepts it. */
  lemma PostRecordWritable(url: string, result: Option<Post>)
    ensures WriteRow(LinksColumns(), PostRecord(url, result)).Success?
  {
    LinksColumnSet();
    if result.Some? {
      PostTargetSet();
      assert ColumnSet(Targets(PostFields)) <= ColumnSet(LinksColumns());
    }
  }

  lemma PostTargetSet()
    ensures ColumnSet(Targets(PostFields)) ==
      { "duration", "identifier", "date_published", "date_modified", "title", "abstract",
        "text", "creator_identifier", "creator_facebook_subscribe", "creator_name",
        "creator_location_created", "creator_url", "facebook_comment", "facebook_like",
        "facebook_share" }
  {
    PostTargets();
  }

  /** Every medium lands in `shared_content` under the key (the post's URL,
      the medium's URL); a medium without a URL has no key. */
  lemma MediaRecordKey(url: string, result: Option<Post>, i: nat)
    requires i < |SharedRecords(url, result)|
    ensures var r := SharedRecords(url, result)[i];
      var m := result.value.media.value[i];
      && WriteRow(SharedColumns(), r).Success?
      && KeyOf(["post_url", "content_url"], r) ==
           if CellOf(m, "url").Some? then Some([url, CellOf(m, "url").value]) else None
  {
    SharedColumnSet();
    var r := SharedRecords(url, result)[i];
    var m := result.value.media.value[i];
    var k := KeyOf(["post_url", "content_url"], r);
    if CellOf(m, "url").Some? {
      assert k.Some?;
      assert k.value == [url, CellOf(m, "url").value];
    }
  }
}
