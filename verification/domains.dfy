/** `minall/enrichment/utils.py`: the domain of a link, the statement that
    records it in the `links` table, and the split of the table's URLs among
    the collectors. The `ural` library is not part of this model: the three
    functions and the alias set the module takes from it are the fields of a
    `UrlOracle`. */
module Domains {
  import opened Wrappers
  import opened Store
  import PyText

  /** What the module uses of `ural`. */
  datatype UrlOracle = UrlOracle(
    /** `ural.get_domain_name` */
    domainName: string -> Option<string>,
    /** `ural.youtube.is_youtube_url` */
    isYoutubeUrl: string -> bool,
    /** `ural.facebook.is_facebook_url` */
    isFacebookUrl: string -> bool,
    /** `ural.youtube.YOUTUBE_DOMAINS` */
    youtubeDomains: set<string>)

  /** The platforms whose links are not scraped, in the order of the source's
      list literal. */
  const SocialDomains: seq<string> :=
    ["facebook.com", "youtube.com", "tiktok.com", "instagram.com", "twitter.com", "snapchat.com"]

  // ---------------------------------------------------------------------------
  // get_domain and apply_domain
  // ---------------------------------------------------------------------------

  /** `get_domain(url)`: the registered domain, every YouTube alias folded
      into `youtube.com`. */
  function GetDomain(o: UrlOracle, url: string): (d: Option<string>)
    ensures d.None? <==> o.domainName(url).None?
    ensures d == Some("youtube.com") <==>
      o.domainName(url) == Some("youtube.com") || (o.domainName(url).Some? && o.domainName(url).value in o.youtubeDomains)
    ensures d != Some("youtube.com") ==> d == o.domainName(url)
    ensures d.Some? && d.value in o.youtubeDomains ==> d.value == "youtube.com"
  {
    var name := o.domainName(url);
    if name.Some? && name.value in o.youtubeDomains then Some("youtube.com") else name
  }

  /** `UPDATE links SET domain = <domain> WHERE url = <url>`, as the values
      it binds. */
  datatype DomainUpdate = DomainUpdate(url: string, domain: string)

  /** `apply_domain(url)`: the update and the domain. The update is built
      only when the domain is truthy, so it never writes an empty domain. */
  function ApplyDomain(o: UrlOracle, url: string): (r: (Option<DomainUpdate>, Option<string>))
    ensures r.1 == GetDomain(o, url)
    ensures r.0.Some? <==> PyText.Truthy(GetDomain(o, url))
    ensures r.0.Some? ==> r.0.value.url == url && Some(r.0.value.domain) == r.1 && r.0.value.domain != ""
  {
    var domain := GetDomain(o, url);
    if PyText.Truthy(domain) then (Some(DomainUpdate(url, domain.value)), domain) else (None, domain)
  }

  // ---------------------------------------------------------------------------
  // The UPDATE statement on the links table
  // ---------------------------------------------------------------------------

  /** Columns other than `domain`, and so every key column, agree. */
  ghost predicate SameButDomain(a: Row, b: Row) {
    forall c :: c != "domain" ==> CellOf(a, c) == CellOf(b, c)
  }

  /** The row after the update: its domain set when its URL matches. */
  function UpdatedRow(r: Row, u: DomainUpdate): Row {
    if CellOf(r, "url") == Some(u.url) then r["domain" := Some(u.domain)] else r
  }

  lemma UpdatedRowFacts(r: Row, u: DomainUpdate, columns: set<string>)
    requires r.Keys == columns && "domain" in columns
    ensures UpdatedRow(r, u).Keys == columns
    ensures SameButDomain(UpdatedRow(r, u), r)
    ensures CellOf(UpdatedRow(r, u), "domain") ==
      if CellOf(r, "url") == Some(u.url) then Some(u.domain) else CellOf(r, "domain")
  {
  }

  /** Running the update on the `links` table: every row whose URL is the
      update's gets the domain, and nothing else changes, keys included. */
  function SetDomain(t: Table, u: DomainUpdate): (r: Table)
    requires WellFormed(t) && "domain" in t.columns && "domain" !in t.pk
    ensures WellFormed(r) && r.columns == t.columns && r.pk == t.pk && |r.rows| == |t.rows|
    ensures forall i :: 0 <= i < |t.rows| ==> SameButDomain(r.rows[i], t.rows[i])
    ensures forall i :: 0 <= i < |t.rows| ==>
      CellOf(r.rows[i], "domain") ==
        if CellOf(t.rows[i], "url") == Some(u.url) then Some(u.domain) else CellOf(t.rows[i], "domain")
  {
    var rows := seq(|t.rows|, i requires 0 <= i < |t.rows| => UpdatedRow(t.rows[i], u));
    SetDomainFacts(t, u, rows);
    Table(t.columns, t.pk, rows)
  }

  lemma SetDomainFacts(t: Table, u: DomainUpdate, rows: seq<Row>)
    requires WellFormed(t) && "domain" in t.columns && "domain" !in t.pk
    requires |rows| == |t.rows| && forall i :: 0 <= i < |t.rows| ==> rows[i] == UpdatedRow(t.rows[i], u)
    ensures WellFormed(Table(t.columns, t.pk, rows))
    ensures forall i :: 0 <= i < |t.rows| ==> SameButDomain(rows[i], t.rows[i])
    ensures forall i :: 0 <= i < |t.rows| ==>
      CellOf(rows[i], "domain") ==
        if CellOf(t.rows[i], "url") == Some(u.url) then Some(u.domain) else CellOf(t.rows[i], "domain")
  {
    forall i | 0 <= i < |t.rows|
      ensures rows[i].Keys == ColumnSet(t.columns) && SameButDomain(rows[i], t.rows[i])
      ensures KeyOf(t.pk, rows[i]) == KeyOf(t.pk, t.rows[i])
      ensures CellOf(rows[i], "domain") ==
        if CellOf(t.rows[i], "url") == Some(u.url) then Some(u.domain) else CellOf(t.rows[i], "domain")
    {
      UpdatedRowFacts(t.rows[i], u, ColumnSet(t.columns));
      KeyOfAgree(t.pk, rows[i], t.rows[i]);
    }
  }

  // ---------------------------------------------------------------------------
  // FilteredLinks
  // ---------------------------------------------------------------------------

  /** `SELECT url FROM links`, NULL URLs left out. */
  function Urls(rows: seq<Row>): (urls: seq<string>)
    ensures |urls| <= |rows|
    ensures forall u :: u in urls <==> exists i :: 0 <= i < |rows| && CellOf(rows[i], "url") == Some(u)
    decreases |rows|
  {
    if |rows| == 0 then []
    else
      var n := |rows| - 1;
      var front := Urls(rows[..n]);
      assert forall i :: 0 <= i < n ==> rows[..n][i] == rows[i];
      match CellOf(rows[n], "url")
      case Some(u) => front + [u]
      case None => front
  }

  /** A list comprehension with a condition: the elements that pass, in
      their order. */
  function Filter(s: seq<string>, p: string -> bool): (r: seq<string>)
    ensures |r| <= |s|
    ensures forall x :: x in r <==> x in s && p(x)
    decreases |s|
  {
    if |s| == 0 then []
    else
      var n := |s| - 1;
      assert s == s[..n] + [s[n]];
      if p(s[n]) then Filter(s[..n], p) + [s[n]] else Filter(s[..n], p)
  }

  /** Filtering keeps the order: it distributes over concatenation. */
  lemma {:induction false} FilterAppend(a: seq<string>, b: seq<string>, p: string -> bool)
    ensures Filter(a + b, p) == Filter(a, p) + Filter(b, p)
    decreases |b|
  {
    if |b| == 0 {
      assert a + b == a;
    } else {
      var n := |b| - 1;
      var ab := a + b;
      assert ab[..|ab| - 1] == a + b[..n];
      assert ab[|ab| - 1] == b[n];
      FilterAppend(a, b[..n], p);
      FilterLast(ab, p);
      FilterLast(b, p);
      var fa, fb := Filter(a, p), Filter(b[..n], p);
      if p(b[n]) {
        assert fa + fb + [b[n]] == fa + (fb + [b[n]]);
      }
    }
  }

  /** One step of `Filter`, on the last element. */
  lemma FilterLast(s: seq<string>, p: string -> bool)
    requires |s| > 0
    ensures Filter(s, p) == if p(s[|s| - 1]) then Filter(s[..|s| - 1], p) + [s[|s| - 1]] else Filter(s[..|s| - 1], p)
  {
  }

  /** A condition and its negation split a list: every element lands in
      exactly one of the two filters, as often as it occurs. */
  lemma {:induction false} FilterSplit(s: seq<string>, p: string -> bool, q: string -> bool)
    requires forall x :: q(x) == !p(x)
    ensures multiset(Filter(s, p)) + multiset(Filter(s, q)) == multiset(s)
    decreases |s|
  {
    if |s| > 0 {
      var n := |s| - 1;
      FilterSplit(s[..n], p, q);
      assert s == s[..n] + [s[n]];
    }
  }

  /** The condition of `other_social`. */
  predicate IsSocial(o: UrlOracle, url: string) {
    GetDomain(o, url).Some? && GetDomain(o, url).value in SocialDomains
  }

  /** `FilteredLinks.youtube` */
  function YoutubeLinks(o: UrlOracle, all: seq<string>): seq<string> {
    Filter(all, o.isYoutubeUrl)
  }

  /** `FilteredLinks.facebook` */
  function FacebookLinks(o: UrlOracle, all: seq<string>): seq<string> {
    Filter(all, o.isFacebookUrl)
  }

  /** `FilteredLinks.other_social` */
  function OtherSocialLinks(o: UrlOracle, all: seq<string>): seq<string> {
    Filter(all, u => IsSocial(o, u))
  }

  /** `FilteredLinks.to_scrape` */
  function ToScrapeLinks(o: UrlOracle, all: seq<string>): seq<string> {
    Filter(all, u => !IsSocial(o, u))
  }

  /** Each subset keeps the table's order: the subset of a concatenation is
      the concatenation of the subsets. */
  lemma SubsetsKeepOrder(o: UrlOracle, a: seq<string>, b: seq<string>)
    ensures YoutubeLinks(o, a + b) == YoutubeLinks(o, a) + YoutubeLinks(o, b)
    ensures FacebookLinks(o, a + b) == FacebookLinks(o, a) + FacebookLinks(o, b)
    ensures OtherSocialLinks(o, a + b) == OtherSocialLinks(o, a) + OtherSocialLinks(o, b)
    ensures ToScrapeLinks(o, a + b) == ToScrapeLinks(o, a) + ToScrapeLinks(o, b)
  {
    FilterAppend(a, b, o.isYoutubeUrl);
    FilterAppend(a, b, o.isFacebookUrl);
    FilterAppend(a, b, u => IsSocial(o, u));
    FilterAppend(a, b, u => !IsSocial(o, u));
  }

  /** `other_social` and `to_scrape` partition the links: each occurrence of
      a URL is in exactly one of them, decided by its domain. */
  lemma SocialPartition(o: UrlOracle, all: seq<string>)
    ensures multiset(OtherSocialLinks(o, all)) + multiset(ToScrapeLinks(o, all)) == multiset(all)
    ensures |OtherSocialLinks(o, all)| + |ToScrapeLinks(o, all)| == |all|
    ensures forall u :: u in OtherSocialLinks(o, all) <==> u in all && IsSocial(o, u)
    ensures forall u :: u in ToScrapeLinks(o, all) <==> u in all && !IsSocial(o, u)
  {
    FilterSplit(all, u => IsSocial(o, u), u => !IsSocial(o, u));
    assert |multiset(OtherSocialLinks(o, all)) + multiset(ToScrapeLinks(o, all))| == |multiset(all)|;
  }

  /** No link on Facebook or on any YouTube domain is scraped: each goes to
      `other_social`. A link without a domain is scraped. */
  lemma PlatformsNotScraped(o: UrlOracle, all: seq<string>, u: string)
    requires u in all
    ensures GetDomain(o, u) == Some("facebook.com") ==> u in OtherSocialLinks(o, all) && u !in ToScrapeLinks(o, all)
    ensures o.domainName(u).Some? && o.domainName(u).value in o.youtubeDomains + {"youtube.com"} ==>
      u in OtherSocialLinks(o, all) && u !in ToScrapeLinks(o, all)
    ensures GetDomain(o, u).None? ==> u in ToScrapeLinks(o, all)
  {
    SocialPartition(o, all);
    assert "facebook.com" == SocialDomains[0] && "youtube.com" == SocialDomains[1];
  }

  // ---------------------------------------------------------------------------
  // The domain pass of Enrichment.__call__
  // ---------------------------------------------------------------------------

  /** One link of the pass: its update runs when `apply_domain` built one
      and the domain is truthy. The update is the intended one, on the
      values themselves (see `DomainQuery.DomainPassAsWritten` for the
      statement text the source builds). Each row whose URL is the link
      takes the link's domain; nothing else changes. */
  function DomainStep(o: UrlOracle, t: Table, link: string): (r: Table)
    requires WellFormed(t) && "domain" in t.columns && "domain" !in t.pk
    ensures WellFormed(r) && r.columns == t.columns && r.pk == t.pk && |r.rows| == |t.rows|
    ensures forall i :: 0 <= i < |t.rows| ==> SameButDomain(r.rows[i], t.rows[i])
    ensures forall i :: 0 <= i < |t.rows| ==>
      CellOf(r.rows[i], "domain") ==
        if CellOf(t.rows[i], "url") == Some(link) && PyText.Truthy(GetDomain(o, link)) then GetDomain(o, link)
        else CellOf(t.rows[i], "domain")
  {
    var (query, domain) := ApplyDomain(o, link);
    if query.Some? && PyText.Truthy(domain) then SetDomain(t, query.value) else t
  }

  /** The loop over `all_links`, in order. */
  function DomainPass(o: UrlOracle, t: Table, links: seq<string>): (r: Table)
    requires WellFormed(t) && "domain" in t.columns && "domain" !in t.pk
    ensures WellFormed(r) && r.columns == t.columns && r.pk == t.pk && |r.rows| == |t.rows|
    decreases |links|
  {
    if |links| == 0 then t
    else DomainStep(o, DomainPass(o, t, links[..|links| - 1]), links[|links| - 1])
  }

  /** What the domain of a row is after the pass: the domain of its URL when
      the URL is one of the links and that domain is truthy, else the domain
      it had. Every other column is as it was. */
  function DomainAfter(o: UrlOracle, r: Row, links: seq<string>): Cell {
    var url := CellOf(r, "url");
    if url.Some? && url.value in links && PyText.Truthy(GetDomain(o, url.value)) then GetDomain(o, url.value)
    else CellOf(r, "domain")
  }

  lemma {:induction false} DomainPassRows(o: UrlOracle, t: Table, links: seq<string>, i: nat)
    requires WellFormed(t) && "domain" in t.columns && "domain" !in t.pk
    requires i < |t.rows|
    ensures SameButDomain(DomainPass(o, t, links).rows[i], t.rows[i])
    ensures CellOf(DomainPass(o, t, links).rows[i], "domain") == DomainAfter(o, t.rows[i], links)
    decreases |links|
  {
    if |links| > 0 {
      var n := |links| - 1;
      var front := DomainPass(o, t, links[..n]);
      DomainPassRows(o, t, links[..n], i);
      var url := CellOf(t.rows[i], "url");
      assert CellOf(front.rows[i], "url") == url;
      assert links == links[..n] + [links[n]];
    }
  }

  /** After the pass over every URL of the table, each row with a URL whose
      domain `get_domain` can name carries that domain; the other rows keep
      theirs, and no other column changes. */
  lemma DomainPassSetsDomains(o: UrlOracle, t: Table, i: nat)
    requires WellFormed(t) && "domain" in t.columns && "domain" !in t.pk
    requires i < |t.rows|
    ensures var after := DomainPass(o, t, Urls(t.rows)).rows[i];
      && SameButDomain(after, t.rows[i])
      && (var url := CellOf(t.rows[i], "url");
          CellOf(after, "domain") ==
            if url.Some? && PyText.Truthy(GetDomain(o, url.value)) then GetDomain(o, url.value)
            else CellOf(t.rows[i], "domain"))
  {
    DomainPassRows(o, t, Urls(t.rows), i);
    var url := CellOf(t.rows[i], "url");
    if url.Some? {
      assert url.value in Urls(t.rows);
    }
  }
}
