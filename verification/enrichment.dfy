/** `Enrichment.__call__` of `minall/enrichment/enrichment.py`: the domain
    pass over every link, then the collectors in a fixed order, each
    coalescing the file it wrote into `links` (and, for CrowdTangle, into
    `shared_content`). What a collector fetches over the network is an
    input: the update file it leaves behind. The one collector that fetches
    nothing, `other_social_media`, is modelled with its file. */
module Enrichment {
  import opened Wrappers
  import opened Store
  import opened CsvRows
  import opened Records
  import TableCsv
  import StoreLaws
  import Domains
  import Config
  import PyDict
  import Schema

  /** The collector steps of `__call__`. */
  datatype Collector = Youtube | Facebook | OtherSocial | Scraper | Buzzsumo

  /** The position of a step in `__call__`. */
  function Rank(c: Collector): nat {
    match c
    case Youtube => 0
    case Facebook => 1
    case OtherSocial => 2
    case Scraper => 3
    case Buzzsumo => 4
  }

  /** `FilteredLinks(links_table)`: every URL of the table and its four
      subsets, taken when the class is built, before the domain pass. */
  datatype FilteredLinks = FilteredLinks(
    all: seq<string>, youtube: seq<string>, facebook: seq<string>,
    otherSocial: seq<string>, toScrape: seq<string>)

  function Filtered(o: Domains.UrlOracle, t: Table): FilteredLinks {
    var all := Domains.Urls(t.rows);
    FilteredLinks(all, Domains.YoutubeLinks(o, all), Domains.FacebookLinks(o, all),
                  Domains.OtherSocialLinks(o, all), Domains.ToScrapeLinks(o, all))
  }

  /** The URLs a step hands its collector; Buzzsumo takes them all. */
  function Subset(f: FilteredLinks, c: Collector): seq<string> {
    match c
    case Youtube => f.youtube
    case Facebook => f.facebook
    case OtherSocial => f.otherSocial
    case Scraper => f.toScrape
    case Buzzsumo => f.all
  }

  /** The credential a step's method checks before collecting: the YouTube
      key list, the CrowdTangle token, the Buzzsumo token; the other two
      steps need none. */
  predicate HasCredential(keys: Config.ApiKeys, c: Collector) {
    match c
    case Youtube => keys.youtubeKey != []
    case Facebook => Config.Truthy(keys.crowdtangleToken)
    case Buzzsumo => Config.Truthy(keys.buzzsumoToken)
    case OtherSocial => true
    case Scraper => true
  }

  /** Whether `__call__` reaches a step's collection and update. */
  predicate Runs(keys: Config.ApiKeys, f: FilteredLinks, buzzsumoOnly: bool, c: Collector) {
    HasCredential(keys, c) && (c == Buzzsumo || (!buzzsumoOnly && |Subset(f, c)| > 0))
  }

  function Opt(b: bool, c: Collector): seq<Collector> {
    if b then [c] else []
  }

  /** Five optional steps in a row keep their order. */
  lemma Chain(a: bool, b: bool, c: bool, d: bool, e: bool)
    ensures var p := Opt(a, Youtube) + Opt(b, Facebook) + Opt(c, OtherSocial) + Opt(d, Scraper) + Opt(e, Buzzsumo);
      && (forall i, j :: 0 <= i < j < |p| ==> Rank(p[i]) < Rank(p[j]))
      && (forall x :: x in p <==>
            (x == Youtube && a) || (x == Facebook && b) || (x == OtherSocial && c) ||
            (x == Scraper && d) || (x == Buzzsumo && e))
  {
    var p := Opt(a, Youtube) + Opt(b, Facebook) + Opt(c, OtherSocial) + Opt(d, Scraper) + Opt(e, Buzzsumo);
    forall i, j | 0 <= i < j < |p|
      ensures Rank(p[i]) < Rank(p[j])
    {
    }
  }

  /** The steps of `__call__(buzzsumo_only)` that collect and coalesce, in
      the order they run: YouTube, Facebook, the other social media, the
      scraper, then Buzzsumo. Unless `buzzsumo_only`, each of the first four
      runs when its subset of URLs is non-empty and its credential is set;
      Buzzsumo runs whenever its token is set, over every URL. */
  function Plan(keys: Config.ApiKeys, f: FilteredLinks, buzzsumoOnly: bool): (p: seq<Collector>)
    ensures forall i, j :: 0 <= i < j < |p| ==> Rank(p[i]) < Rank(p[j])
    ensures forall c :: c in p <==>
      HasCredential(keys, c) && (c == Buzzsumo || (!buzzsumoOnly && |Subset(f, c)| > 0))
    ensures buzzsumoOnly ==> forall c :: c in p ==> c == Buzzsumo
  {
    var a, b, c, d, e :=
      Runs(keys, f, buzzsumoOnly, Youtube), Runs(keys, f, buzzsumoOnly, Facebook),
      Runs(keys, f, buzzsumoOnly, OtherSocial), Runs(keys, f, buzzsumoOnly, Scraper),
      Runs(keys, f, buzzsumoOnly, Buzzsumo);
    Chain(a, b, c, d, e);
    Opt(a, Youtube) + Opt(b, Facebook) + Opt(c, OtherSocial) + Opt(d, Scraper) + Opt(e, Buzzsumo)
  }

  // ---------------------------------------------------------------------------
  // The files the steps coalesce
  // ---------------------------------------------------------------------------

  /** What the network collectors leave behind: each one's update file for
      `links`, and CrowdTangle's for `shared_content`. */
  datatype Outputs = Outputs(links: Collector -> CsvFile, shared: CsvFile)

  /** The row `add_data` writes for a social-media URL. */
  function SocialRecord(url: string): Row {
    map["url" := Some(url), "work_type" := Some("SocialMediaPosting")]
  }

  /** `add_data(other_social, outfile)`: the `links` header, then one line
      per URL naming it a social-media posting. */
  function SocialFile(urls: seq<string>): CsvFile {
    CsvFile(Some(LinksColumns()),
            seq(|urls|, i requires 0 <= i < |urls| => TableCsv.Render(LinksColumns(), SocialRecord(urls[i]))))
  }

  /** The file a step coalesces into `links`. */
  function LinksFile(c: Collector, f: FilteredLinks, out: Outputs): CsvFile {
    if c == OtherSocial then SocialFile(f.otherSocial) else out.links(c)
  }

  /** The steps of a plan, in order, each updating `links` from its file
      and Facebook's also updating `shared_content`; the first failing
      update ends the run. */
  function Steps(plan: seq<Collector>, f: FilteredLinks, out: Outputs, links: Table, shared: Table): (r: Result<(Table, Table), TableCsv.UpdateError>)
    requires WellFormed(links) && WellFormed(shared)
    ensures r.Success? ==>
      && WellFormed(r.value.0) && r.value.0.columns == links.columns && r.value.0.pk == links.pk
      && WellFormed(r.value.1) && r.value.1.columns == shared.columns && r.value.1.pk == shared.pk
    decreases |plan|
  {
    if |plan| == 0 then Success((links, shared))
    else
      var next :- Step(plan[0], f, out, links, shared);
      Steps(plan[1..], f, out, next.0, next.1)
  }

  /** One step: `links` updated from the step's file, then, for Facebook,
      `shared_content` from CrowdTangle's. */
  function Step(c: Collector, f: FilteredLinks, out: Outputs, links: Table, shared: Table): (r: Result<(Table, Table), TableCsv.UpdateError>)
    requires WellFormed(links) && WellFormed(shared)
    ensures r.Success? ==>
      && WellFormed(r.value.0) && r.value.0.columns == links.columns && r.value.0.pk == links.pk
      && WellFormed(r.value.1) && r.value.1.columns == shared.columns && r.value.1.pk == shared.pk
    ensures r.Success? && c != Facebook ==> r.value.1 == shared
  {
    var l :- TableCsv.UpdateFromCsv(links, LinksFile(c, f, out));
    var s :- if c == Facebook then TableCsv.UpdateFromCsv(shared, out.shared) else Success(shared);
    Success((l, s))
  }

  /** `Enrichment(links, shared_content, keys)(buzzsumo_only)`: the subsets
      taken, every link's domain applied, then the planned steps. */
  function Run(o: Domains.UrlOracle, keys: Config.ApiKeys, links: Table, shared: Table, buzzsumoOnly: bool, out: Outputs): (r: Result<(Table, Table), TableCsv.UpdateError>)
    requires WellFormed(links) && "domain" in links.columns && "domain" !in links.pk && WellFormed(shared)
    ensures r.Success? ==>
      && WellFormed(r.value.0) && r.value.0.columns == links.columns && r.value.0.pk == links.pk
      && WellFormed(r.value.1) && r.value.1.columns == shared.columns && r.value.1.pk == shared.pk
  {
    var f := Filtered(o, links);
    var named := Domains.DomainPass(o, links, f.all);
    Steps(Plan(keys, f, buzzsumoOnly), f, out, named, shared)
  }

  // ---------------------------------------------------------------------------
  // What a run keeps
  // ---------------------------------------------------------------------------

  /** Column `c` of the row stored under `k` holds a value. */
  predicate Holds(t: Table, k: Key, c: string) {
    Lookup(t, k).Some? && CellOf(Lookup(t, k).value, c).Some?
  }

  /** `update_from_csv` never erases a value. */
  lemma UpdateKeeps(t: Table, file: CsvFile, k: Key, c: string)
    requires WellFormed(t) && TableCsv.UpdateFromCsv(t, file).Success?
    requires c in t.columns && Holds(t, k, c)
    ensures Holds(TableCsv.UpdateFromCsv(t, file).value, k, c)
  {
    TableCsv.UpdateFromCsvUpserts(t, file);
    StoreLaws.StoredLookup(t, k);
    StoreLaws.NonNullPersists(t, Bound(file), k, c);
    var after := TableCsv.UpdateFromCsv(t, file).value;
    StoreLaws.StoredLookup(after, k);
  }

  /** One step never erases a value in either table. */
  lemma StepKeeps(c: Collector, f: FilteredLinks, out: Outputs, links: Table, shared: Table, k: Key, x: string)
    requires WellFormed(links) && WellFormed(shared)
    requires Step(c, f, out, links, shared).Success?
    ensures x in links.columns && Holds(links, k, x) ==> Holds(Step(c, f, out, links, shared).value.0, k, x)
    ensures x in shared.columns && Holds(shared, k, x) ==> Holds(Step(c, f, out, links, shared).value.1, k, x)
  {
    if x in links.columns && Holds(links, k, x) {
      UpdateKeeps(links, LinksFile(c, f, out), k, x);
    }
    if c == Facebook && x in shared.columns && Holds(shared, k, x) {
      UpdateKeeps(shared, out.shared, k, x);
    }
  }

  /** Coalescing never erases: a value stored in either table before the
      steps is still non-NULL after them. */
  lemma {:induction false} StepsKeepValues(plan: seq<Collector>, f: FilteredLinks, out: Outputs, links: Table, shared: Table, k: Key, c: string)
    requires WellFormed(links) && WellFormed(shared)
    requires Steps(plan, f, out, links, shared).Success?
    ensures c in links.columns && Holds(links, k, c) ==> Holds(Steps(plan, f, out, links, shared).value.0, k, c)
    ensures c in shared.columns && Holds(shared, k, c) ==> Holds(Steps(plan, f, out, links, shared).value.1, k, c)
    decreases |plan|
  {
    if |plan| > 0 {
      var next := Step(plan[0], f, out, links, shared).value;
      StepKeeps(plan[0], f, out, links, shared, k, c);
      StepsKeepValues(plan[1..], f, out, next.0, next.1, k, c);
    }
  }

  function Bound(file: CsvFile): seq<Row> {
    TableCsv.Bound(ReadRows(file))
  }

  /** Only the Facebook step touches `shared_content`. */
  lemma {:induction false} SharedOnlyFromFacebook(plan: seq<Collector>, f: FilteredLinks, out: Outputs, links: Table, shared: Table)
    requires WellFormed(links) && WellFormed(shared)
    requires Facebook !in plan && Steps(plan, f, out, links, shared).Success?
    ensures Steps(plan, f, out, links, shared).value.1 == shared
    decreases |plan|
  {
    if |plan| > 0 {
      var next := Step(plan[0], f, out, links, shared).value;
      assert plan[0] != Facebook && Facebook !in plan[1..];
      SharedOnlyFromFacebook(plan[1..], f, out, next.0, next.1);
    }
  }

  /** The domain pass never erases a value: it only writes truthy
      domains, and keeps every key. */
  lemma DomainPassKeepsValues(o: Domains.UrlOracle, t: Table, links: seq<string>, k: Key, c: string)
    requires WellFormed(t) && "domain" in t.columns && "domain" !in t.pk
    requires c in t.columns && Holds(t, k, c)
    ensures Holds(Domains.DomainPass(o, t, links), k, c)
  {
    var a := Domains.DomainPass(o, t, links);
    forall j | 0 <= j < |t.rows|
      ensures KeyOf(t.pk, a.rows[j]) == KeyOf(t.pk, t.rows[j])
    {
      Domains.DomainPassRows(o, t, links, j);
      KeyOfAgree(t.pk, a.rows[j], t.rows[j]);
    }
    IndexOfSameKeys(t.pk, a.rows, t.rows, k);
    var i := IndexOf(t.pk, t.rows, k).value;
    Domains.DomainPassRows(o, t, links, i);
    assert CellOf(t.rows[i], c).Some?;
    assert CellOf(a.rows[i], c).Some?;
  }

  /** A run never erases a value: whatever either table held before it is
      still non-NULL after the domain pass and every step. */
  lemma RunKeepsValues(o: Domains.UrlOracle, keys: Config.ApiKeys, links: Table, shared: Table, buzzsumoOnly: bool, out: Outputs, k: Key, c: string)
    requires WellFormed(links) && "domain" in links.columns && "domain" !in links.pk && WellFormed(shared)
    requires Run(o, keys, links, shared, buzzsumoOnly, out).Success?
    ensures c in links.columns && Holds(links, k, c) ==> Holds(Run(o, keys, links, shared, buzzsumoOnly, out).value.0, k, c)
    ensures c in shared.columns && Holds(shared, k, c) ==> Holds(Run(o, keys, links, shared, buzzsumoOnly, out).value.1, k, c)
  {
    var f := Filtered(o, links);
    var named := Domains.DomainPass(o, links, f.all);
    if c in links.columns && Holds(links, k, c) {
      DomainPassKeepsValues(o, links, f.all, k, c);
    }
    StepsKeepValues(Plan(keys, f, buzzsumoOnly), f, out, named, shared, k, c);
  }

  /** `shared_content` changes only when the Facebook step runs: never
      with `buzzsumo_only`, without a CrowdTangle token, or without a
      Facebook URL. */
  lemma RunKeepsSharedContent(o: Domains.UrlOracle, keys: Config.ApiKeys, links: Table, shared: Table, buzzsumoOnly: bool, out: Outputs)
    requires WellFormed(links) && "domain" in links.columns && "domain" !in links.pk && WellFormed(shared)
    requires Run(o, keys, links, shared, buzzsumoOnly, out).Success?
    requires buzzsumoOnly || !Config.Truthy(keys.crowdtangleToken) || Filtered(o, links).facebook == []
    ensures Run(o, keys, links, shared, buzzsumoOnly, out).value.1 == shared
  {
    var f := Filtered(o, links);
    var named := Domains.DomainPass(o, links, f.all);
    SharedOnlyFromFacebook(Plan(keys, f, buzzsumoOnly), f, out, named, shared);
  }

  // ---------------------------------------------------------------------------
  // The other_social_media step
  // ---------------------------------------------------------------------------

  lemma SocialColumns()
    ensures "url" in ColumnSet(LinksColumns()) && "work_type" in ColumnSet(LinksColumns())
  {
    LinksColumnSet();
  }

  /** The social file has no blank line, so the reader yields one row per
      URL. */
  lemma SocialRead(urls: seq<string>)
    ensures ReadRows(SocialFile(urls)) ==
      seq(|urls|, i requires 0 <= i < |urls| => ToDictRow(LinksColumns(), SocialFile(urls).records[i]))
  {
    var h := LinksColumns();
    var records := SocialFile(urls).records;
    SocialColumns();
    forall i | 0 <= i < |records|
      ensures records[i] != []
    {
      assert |records[i]| == |h| && h != [];
    }
    ReadRowsNoBlank(h, records);
  }

  /** Read back, the line of the social file for a URL binds the URL (NULL
      when empty), the work type `SocialMediaPosting`, and NULL in every
      other `links` column. */
  lemma SocialRow(urls: seq<string>, i: nat)
    requires i < |urls|
    ensures |Bound(SocialFile(urls))| == |urls|
    ensures Bound(SocialFile(urls))[i].Keys == ColumnSet(LinksColumns())
    ensures forall c :: c in ColumnSet(LinksColumns()) ==>
      Bound(SocialFile(urls))[i][c] ==
        if c == "url" && urls[i] != "" then Some(urls[i])
        else if c == "work_type" then Some("SocialMediaPosting")
        else None
  {
    var h := LinksColumns();
    var u := urls[i];
    SocialRead(urls);
    SocialColumns();
    Schema.LinksNamesDistinct();
    WrittenRowReadsBack(h, SocialRecord(u));
    var line := SocialFile(urls).records[i];
    assert WriteRow(h, SocialRecord(u)).value == line;
    var bound := TableCsv.NullEmpty(ToDictRow(h, line).fields);
    assert Bound(SocialFile(urls))[i] == bound;
    forall c | c in ColumnSet(h)
      ensures bound[c] ==
        if c == "url" && u != "" then Some(u)
        else if c == "work_type" then Some("SocialMediaPosting")
        else None
    {
      SocialCell(u, c);
    }
  }

  lemma SocialCell(u: string, c: string)
    ensures (if CellOf(SocialRecord(u), c) == Some("") then None else CellOf(SocialRecord(u), c)) ==
      if c == "url" && u != "" then Some(u)
      else if c == "work_type" then Some("SocialMediaPosting")
      else None
  {
  }

  /** The two cells of a line of the social file that hold values. */
  lemma SocialRowCells(urls: seq<string>, i: nat)
    requires i < |urls|
    ensures |Bound(SocialFile(urls))| == |urls|
    ensures CellOf(Bound(SocialFile(urls))[i], "url") == if urls[i] != "" then Some(urls[i]) else None
    ensures CellOf(Bound(SocialFile(urls))[i], "work_type") == Some("SocialMediaPosting")
  {
    SocialRow(urls, i);
    SocialColumns();
  }

  /** No line of the social file carries a value outside the URL and the
      work type. */
  lemma SocialRowsElsewhereNull(urls: seq<string>, c: string)
    requires c != "url" && c != "work_type"
    ensures forall j :: 0 <= j < |Bound(SocialFile(urls))| ==> CellOf(Bound(SocialFile(urls))[j], c).None?
  {
    forall j | 0 <= j < |Bound(SocialFile(urls))|
      ensures CellOf(Bound(SocialFile(urls))[j], c).None?
    {
      SocialRow(urls, j);
    }
  }

  /** Every line of the social file sets the work type. */
  lemma SocialRowsWorkType(urls: seq<string>)
    ensures forall j :: 0 <= j < |Bound(SocialFile(urls))| ==>
      CellOf(Bound(SocialFile(urls))[j], "work_type") == Some("SocialMediaPosting")
  {
    forall j | 0 <= j < |Bound(SocialFile(urls))|
      ensures CellOf(Bound(SocialFile(urls))[j], "work_type") == Some("SocialMediaPosting")
    {
      SocialRowCells(urls, j);
    }
  }

  /** A non-empty URL of the list is the key of its line. */
  lemma SocialKey(urls: seq<string>, i: nat)
    requires i < |urls| && urls[i] != ""
    ensures StoreLaws.HasKey(["url"], Bound(SocialFile(urls)), [urls[i]])
  {
    var rows := Bound(SocialFile(urls));
    SocialRowCells(urls, i);
    KeyOfOne("url", rows[i]);
  }

  /** The other-social step on a `links` table keyed by URL stores every
      non-empty URL of its list as a social-media posting. */
  lemma OtherSocialMarks(t: Table, urls: seq<string>, i: nat)
    requires WellFormed(t) && t.pk == ["url"] && "work_type" in t.columns
    requires TableCsv.UpdateFromCsv(t, SocialFile(urls)).Success?
    requires i < |urls| && urls[i] != ""
    ensures var after := Lookup(TableCsv.UpdateFromCsv(t, SocialFile(urls)).value, [urls[i]]);
      after.Some? && CellOf(after.value, "work_type") == Some("SocialMediaPosting")
  {
    var rows := Bound(SocialFile(urls));
    assert AllFit(t, rows) && TableCsv.UpdateFromCsv(t, SocialFile(urls)).value == UpsertAll(t, rows) by {
      TableCsv.UpdateFromCsvUpserts(t, SocialFile(urls));
    }
    assert StoreLaws.LastNonNull(t.pk, rows, [urls[i]], "work_type") == Some("SocialMediaPosting") by {
      SocialKey(urls, i);
      SocialRowsWorkType(urls);
      StoreLaws.LastNonNullConstant(t.pk, rows, [urls[i]], "work_type", "SocialMediaPosting");
    }
    assert "work_type" !in t.pk;
    StoreLaws.UpsertAllColumn(t, rows, [urls[i]], "work_type");
  }

  /** ... and leaves every other column of that URL's row as it was
      stored, NULL for a URL not stored before. */
  lemma OtherSocialKeeps(t: Table, urls: seq<string>, i: nat, c: string)
    requires WellFormed(t) && t.pk == ["url"]
    requires TableCsv.UpdateFromCsv(t, SocialFile(urls)).Success?
    requires i < |urls| && urls[i] != ""
    requires c in t.columns && c != "url" && c != "work_type"
    ensures var after := Lookup(TableCsv.UpdateFromCsv(t, SocialFile(urls)).value, [urls[i]]);
      && after.Some?
      && CellOf(after.value, c) == if Lookup(t, [urls[i]]).Some? then CellOf(Lookup(t, [urls[i]]).value, c) else None
  {
    var rows := Bound(SocialFile(urls));
    assert AllFit(t, rows) && TableCsv.UpdateFromCsv(t, SocialFile(urls)).value == UpsertAll(t, rows) by {
      TableCsv.UpdateFromCsvUpserts(t, SocialFile(urls));
    }
    SocialRowsElsewhereNull(urls, c);
    SocialKey(urls, i);
    StoreLaws.UpsertAllUntouched(t, rows, [urls[i]], c);
  }
}
