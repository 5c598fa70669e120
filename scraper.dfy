/** `scrape_tesla_connectors.py`: discovering the connector pages from the
    side navigation, extracting one record per connector page, and the
    sequential scrape loop that skips the pages that fail.

    Fetching and parsing a page (`requests` plus BeautifulSoup) is the
    parameter `fetch`, which yields the elements the scraper looks at, or
    `None` when the request fails; `urljoin` is the parameter `resolve`. */
module Scraper {
  import opened Wrappers
  import opened Text
  import opened Pinout

  /** `urljoin(base, ref)` */
  type Resolver = (string, string) -> string

  /** A `div.wrapper` of the connector meta panel: the stripped texts of its
      `div.label` and `div.value`, `None` when the element is missing. */
  datatype Wrapper = Wrapper(labelDiv: Option<string>, valueDiv: Option<string>)

  /** An `a` element of the side navigation. */
  datatype Anchor = Anchor(navItem: bool, href: Option<string>)

  /** The `aside` of the page layout, with its `nav.tds-sidenav` if any. */
  datatype Aside = Aside(nav: Option<seq<Anchor>>)

  /** The main section, with the stripped text of its `h1` if any. */
  datatype MainSection = MainSection(h1: Option<string>)

  /** What the scraper reads of a parsed page. */
  datatype Page = Page(
    aside: Option<Aside>,
    mainSection: Option<MainSection>,
    meta: Option<seq<Wrapper>>,       // div.connector-meta: its wrappers
    captions: Option<seq<string>>,    // div.connector-images: its figcaption texts
    table: Option<Table>,             // the first table of the page
    imgSrcs: seq<Option<string>>)     // the src of every img, None when absent

  /** The dictionary `parse_connector_page` returns. */
  datatype Record = Record(
    url: string,
    name: Option<string>,
    teslaPartNumber: Option<string>,
    connector: Option<string>,
    color: Option<string>,
    description: Option<string>,
    pinoutTable: Option<seq<Row>>,
    imageUrls: seq<string>)

  /** The exceptions that end a page or the link discovery. */
  datatype ScrapeError =
    | FetchFailed(url: string)   // requests error or raise_for_status
    | NoAside                    // "Sidebar <aside> not found."
    | NoNav                      // "Sidebar <nav> not found."
    | PinoutFailed(cause: TableError)

  // ---------------------------------------------------------------------------
  // Meta fields (lines 53-70)

  datatype MetaField = PartNumberField | ConnectorField | ColorField | Unrecognised

  datatype Meta = Meta(teslaPartNumber: Option<string>, connector: Option<string>, color: Option<string>)

  const NO_META := Meta(None, None, None)

  /** The field a lower-cased label selects. The substring test for
      "part number" comes first; "connector" and "color" must match exactly. */
  function Classify(labelText: string): (f: MetaField)
    ensures f == PartNumberField <==> Contains(labelText, "part number")
    ensures f == ConnectorField <==> labelText == "connector"
    ensures f == ColorField <==> labelText == "color"
  {
    if Contains(labelText, "part number") then
      ContainsShorter(labelText, "part number");
      PartNumberField
    else if labelText == "connector" then ConnectorField
    else if labelText == "color" then ColorField
    else Unrecognised
  }

  /** `value_text if value_text else None` */
  function NoneIfEmpty(s: string): (o: Option<string>)
    ensures o.None? <==> s == ""
    ensures o.Some? ==> o.value == s
  {
    if s == "" then None else Some(s)
  }

  /** The field a wrapper writes, if it has both a label and a value. */
  function Target(w: Wrapper): MetaField {
    if w.labelDiv.None? || w.valueDiv.None? then Unrecognised else Classify(Lower(w.labelDiv.value))
  }

  function FieldOf(m: Meta, f: MetaField): Option<string> {
    match f
    case PartNumberField => m.teslaPartNumber
    case ConnectorField => m.connector
    case ColorField => m.color
    case Unrecognised => None
  }

  /** One turn of the loop over the wrappers. */
  function ApplyWrapper(m: Meta, w: Wrapper): Meta {
    match Target(w)
    case PartNumberField => m.(teslaPartNumber := NoneIfEmpty(w.valueDiv.value))
    case ConnectorField => m.(connector := NoneIfEmpty(w.valueDiv.value))
    case ColorField => m.(color := NoneIfEmpty(w.valueDiv.value))
    case Unrecognised => m
  }

  /** The three fields after all of `ws`, starting from `None`. */
  function MetaOf(ws: seq<Wrapper>): Meta {
    if ws == [] then NO_META else ApplyWrapper(MetaOf(ws[..|ws| - 1]), ws[|ws| - 1])
  }

  /** Lines 53-70. */
  method ParseMeta(meta: Option<seq<Wrapper>>) returns (m: Meta)
    ensures m == if meta.None? then NO_META else MetaOf(meta.value)
  {
    m := NO_META;
    if meta.None? {
      return;
    }
    var ws := meta.value;
    var i := 0;
    while i < |ws|
      invariant 0 <= i <= |ws|
      invariant m == MetaOf(ws[..i])
    {
      assert ws[..i + 1][..i] == ws[..i];
      var w := ws[i];
      if w.labelDiv.None? || w.valueDiv.None? {
        i := i + 1;
        continue;
      }
      var labelText := Lower(w.labelDiv.value);
      var valueText := w.valueDiv.value;
      if Contains(labelText, "part number") {
        m := m.(teslaPartNumber := if valueText != "" then Some(valueText) else None);
      } else if labelText == "connector" {
        m := m.(connector := if valueText != "" then Some(valueText) else None);
      } else if labelText == "color" {
        m := m.(color := if valueText != "" then Some(valueText) else None);
      }
      i := i + 1;
    }
    assert ws[..i] == ws;
  }

  /** A wrapper only ever changes the field its label selects. */
  lemma ApplyWrapperFrame(m: Meta, w: Wrapper, f: MetaField)
    requires f != Target(w)
    ensures FieldOf(ApplyWrapper(m, w), f) == FieldOf(m, f)
  {
  }

  /** A field that no wrapper selects stays `None`. */
  lemma {:induction false} MetaUnset(ws: seq<Wrapper>, f: MetaField)
    requires forall j :: 0 <= j < |ws| ==> Target(ws[j]) != f
    ensures FieldOf(MetaOf(ws), f) == None
    decreases |ws|
  {
    if ws != [] {
      MetaUnset(ws[..|ws| - 1], f);
      ApplyWrapperFrame(MetaOf(ws[..|ws| - 1]), ws[|ws| - 1], f);
    }
  }

  /** A field holds the value of the last wrapper that selects it, `None`
      when that value is empty: later wrappers overwrite earlier ones. */
  lemma {:induction false} MetaLastWins(ws: seq<Wrapper>, i: nat)
    requires i < |ws| && Target(ws[i]) != Unrecognised
    requires forall j :: i < j < |ws| ==> Target(ws[j]) != Target(ws[i])
    ensures FieldOf(MetaOf(ws), Target(ws[i])) == NoneIfEmpty(ws[i].valueDiv.value)
    decreases |ws|
  {
    var last := |ws| - 1;
    if i < last {
      MetaLastWins(ws[..last], i);
      assert ws[..last][i] == ws[i];
      ApplyWrapperFrame(MetaOf(ws[..last]), ws[last], Target(ws[i]));
    }
  }

  // ---------------------------------------------------------------------------
  // Description (lines 72-78)

  function DescriptionOf(captions: Option<seq<string>>): (d: Option<string>)
    ensures d.None? <==> captions.None? || captions.value == []
  {
    if captions.None? || captions.value == [] then None else Some(Join(captions.value, " "))
  }

  /** Collects the figcaption texts, then joins them with single spaces. */
  method ParseDescription(captions: Option<seq<string>>) returns (d: Option<string>)
    ensures d.None? <==> captions.None? || captions.value == []
    ensures d.Some? ==> d.value == Join(captions.value, " ")
  {
    var parts: seq<string> := [];
    if captions.Some? {
      var i := 0;
      while i < |captions.value|
        invariant 0 <= i <= |captions.value|
        invariant parts == captions.value[..i]
      {
        parts := parts + [captions.value[i]];
        i := i + 1;
      }
      assert parts == captions.value;
    }
    d := if parts != [] then Some(Join(parts, " ")) else None;
  }

  // ---------------------------------------------------------------------------
  // Images (lines 106-109)

  const IMAGE_EXTENSIONS: seq<string> := [".jpg", ".jpeg", ".png", ".svg", ".gif", ".bmp", ".webp"]

  /** `url.lower().endswith(valid_exts)` */
  predicate HasImageExtension(url: string) {
    exists ext :: ext in IMAGE_EXTENSIONS && EndsWith(Lower(url), ext)
  }

  /** The src of an `img` the filter keeps, resolved against `pageUrl`. */
  predicate KeepsImage(pageUrl: string, src: Option<string>, resolve: Resolver) {
    src.Some? && src.value != "" && HasImageExtension(resolve(pageUrl, src.value))
  }

  /** The list comprehension of line 108. */
  function ImageUrls(pageUrl: string, srcs: seq<Option<string>>, resolve: Resolver): (urls: seq<string>)
    ensures |urls| <= |srcs|
    ensures forall u :: u in urls ==> HasImageExtension(u)
  {
    if srcs == [] then []
    else
      var init := ImageUrls(pageUrl, srcs[..|srcs| - 1], resolve);
      var src := srcs[|srcs| - 1];
      if KeepsImage(pageUrl, src, resolve) then init + [resolve(pageUrl, src.value)] else init
  }

  /** The filter keeps source order: the images of `a + b` are those of `a`
      followed by those of `b`. */
  lemma {:induction false} ImageUrlsAppend(pageUrl: string, a: seq<Option<string>>, b: seq<Option<string>>, resolve: Resolver)
    ensures ImageUrls(pageUrl, a + b, resolve) == ImageUrls(pageUrl, a, resolve) + ImageUrls(pageUrl, b, resolve)
    decreases |b|
  {
    if b == [] {
      assert a + b == a;
    } else {
      var init := b[..|b| - 1];
      assert (a + b)[..|a + b| - 1] == a + init;
      ImageUrlsAppend(pageUrl, a, init, resolve);
    }
  }

  /** A URL is listed exactly when some `img` with a non-empty src resolves
      to it and it ends in an image extension; the stored URL is the
      resolved one, not its lower-cased form. */
  lemma {:induction false} ImageUrlsMember(pageUrl: string, srcs: seq<Option<string>>, resolve: Resolver, u: string)
    ensures u in ImageUrls(pageUrl, srcs, resolve) <==>
            exists i :: 0 <= i < |srcs| && KeepsImage(pageUrl, srcs[i], resolve) && u == resolve(pageUrl, srcs[i].value)
    decreases |srcs|
  {
    if srcs != [] {
      var init := srcs[..|srcs| - 1];
      ImageUrlsMember(pageUrl, init, resolve, u);
      if exists i :: 0 <= i < |init| && KeepsImage(pageUrl, init[i], resolve) && u == resolve(pageUrl, init[i].value) {
        var i :| 0 <= i < |init| && KeepsImage(pageUrl, init[i], resolve) && u == resolve(pageUrl, init[i].value);
        assert srcs[i] == init[i];
      }
      if i :| 0 <= i < |srcs| && KeepsImage(pageUrl, srcs[i], resolve) && u == resolve(pageUrl, srcs[i].value) {
        if i < |srcs| - 1 {
          assert init[i] == srcs[i];
        }
      }
    }
  }

  // ---------------------------------------------------------------------------
  // Link discovery (lines 23-39)

  /** `nav.find_all("a", class_="tds-site-nav-item", href=True)`: the hrefs of
      the marked anchors that have one, in document order. */
  function NavHrefs(anchors: seq<Anchor>): (hrefs: seq<string>)
    ensures |hrefs| <= |anchors|
  {
    if anchors == [] then []
    else
      var init := NavHrefs(anchors[..|anchors| - 1]);
      var a := anchors[|anchors| - 1];
      if a.navItem && a.href.Some? then init + [a.href.value] else init
  }

  /** The selection keeps document order: the hrefs of `a + b` are those of
      `a` followed by those of `b`, duplicates included. */
  lemma {:induction false} NavHrefsAppend(a: seq<Anchor>, b: seq<Anchor>)
    ensures NavHrefs(a + b) == NavHrefs(a) + NavHrefs(b)
    decreases |b|
  {
    if b == [] {
      assert a + b == a;
    } else {
      var init := b[..|b| - 1];
      assert (a + b)[..|a + b| - 1] == a + init;
      NavHrefsAppend(a, init);
    }
  }

  /** One anchor contributes its href exactly when it carries the nav-item
      class and has an href. */
  lemma NavHrefsOne(x: Anchor)
    ensures NavHrefs([x]) == if x.navItem && x.href.Some? then [x.href.value] else []
  {
    assert [x][..0] == [];
  }

  /** An href is selected exactly when some marked anchor carries it. */
  lemma {:induction false} NavHrefsMember(anchors: seq<Anchor>, h: string)
    ensures h in NavHrefs(anchors) <==>
            exists i :: 0 <= i < |anchors| && anchors[i].navItem && anchors[i].href == Some(h)
    decreases |anchors|
  {
    if anchors != [] {
      var init := anchors[..|anchors| - 1];
      NavHrefsMember(init, h);
      if i :| 0 <= i < |init| && init[i].navItem && init[i].href == Some(h) {
        assert anchors[i] == init[i];
      }
      if i :| 0 <= i < |anchors| && anchors[i].navItem && anchors[i].href == Some(h) {
        if i < |init| {
          assert init[i] == anchors[i];
        }
      }
    }
  }

  /** Every href resolved against `base`, one URL per href, in order. */
  function ResolveAll(base: string, hrefs: seq<string>, resolve: Resolver): (urls: seq<string>)
    ensures |urls| == |hrefs|
    ensures forall i :: 0 <= i < |hrefs| ==> urls[i] == resolve(base, hrefs[i])
  {
    if hrefs == [] then []
    else ResolveAll(base, hrefs[..|hrefs| - 1], resolve) + [resolve(base, hrefs[|hrefs| - 1])]
  }

  /** The links found on the fetched entry page, or why there are none. */
  function DiscoverLinks(mainUrl: string, page: Option<Page>, resolve: Resolver): (r: Result<seq<string>, ScrapeError>)
    ensures r.Failure? <==> page.None? || page.value.aside.None? || page.value.aside.value.nav.None?
    ensures r.Success? ==> r.value == ResolveAll(mainUrl, NavHrefs(page.value.aside.value.nav.value), resolve)
  {
    match page
    case None => Failure(FetchFailed(mainUrl))
    case Some(p) =>
      match p.aside
      case None => Failure(NoAside)
      case Some(aside) =>
        match aside.nav
        case None => Failure(NoNav)
        case Some(anchors) => Success(ResolveAll(mainUrl, NavHrefs(anchors), resolve))
  }

  /** `get_connector_links` */
  method GetConnectorLinks(mainUrl: string, fetch: string -> Option<Page>, resolve: Resolver)
    returns (r: Result<seq<string>, ScrapeError>)
    ensures r == DiscoverLinks(mainUrl, fetch(mainUrl), resolve)
  {
    var page := fetch(mainUrl);
    if page.None? {
      return Failure(FetchFailed(mainUrl));
    }
    var aside := page.value.aside;
    if aside.None? {
      return Failure(NoAside);
    }
    var nav := aside.value.nav;
    if nav.None? {
      return Failure(NoNav);
    }
    var links := NavHrefs(nav.value);
    var connectorLinks: seq<string> := [];
    var i := 0;
    while i < |links|
      invariant 0 <= i <= |links|
      invariant |connectorLinks| == i
      invariant forall j :: 0 <= j < i ==> connectorLinks[j] == resolve(mainUrl, links[j])
    {
      connectorLinks := connectorLinks + [resolve(mainUrl, links[i])];
      i := i + 1;
    }
    assert connectorLinks == ResolveAll(mainUrl, links, resolve);
    return Success(connectorLinks);
  }

  // ---------------------------------------------------------------------------
  // One connector page (lines 41-110)

  function NameOf(p: Page): Option<string> {
    if p.mainSection.Some? then p.mainSection.value.h1 else None
  }

  /** The record of a fetched page, or the exception that ends it. */
  function Extract(url: string, p: Page, resolve: Resolver): (r: Result<Record, ScrapeError>)
    ensures r.Failure? <==> PinoutOf(p.table).Failure?
    ensures r.Success? ==> r.value.url == url
  {
    var meta := if p.meta.None? then NO_META else MetaOf(p.meta.value);
    match PinoutOf(p.table)
    case Failure(e) => Failure(PinoutFailed(e))
    case Success(pinout) =>
      Success(Record(url, NameOf(p), meta.teslaPartNumber, meta.connector, meta.color,
                     DescriptionOf(p.captions), pinout, ImageUrls(url, p.imgSrcs, resolve)))
  }

  /** What `parse_connector_page(url)` returns or raises. */
  function PageOutcome(url: string, fetch: string -> Option<Page>, resolve: Resolver): Result<Record, ScrapeError> {
    match fetch(url)
    case None => Failure(FetchFailed(url))
    case Some(p) => Extract(url, p, resolve)
  }

  /** `parse_connector_page` */
  method ParseConnectorPage(url: string, fetch: string -> Option<Page>, resolve: Resolver)
    returns (r: Result<Record, ScrapeError>)
    ensures r == PageOutcome(url, fetch, resolve)
  {
    var soup := fetch(url);
    if soup.None? {
      return Failure(FetchFailed(url));
    }
    var page := soup.value;
    var name: Option<string> := None;
    if page.mainSection.Some? {
      name := page.mainSection.value.h1;
    }
    var meta := ParseMeta(page.meta);
    var description := ParseDescription(page.captions);
    var pinout := ParsePinout(page.table);
    if pinout.Failure? {
      return Failure(PinoutFailed(pinout.error));
    }
    var imgUrls := ImageUrls(url, page.imgSrcs, resolve);
    assert name == NameOf(page);
    assert description == DescriptionOf(page.captions);
    assert PinoutOf(page.table) == Success(pinout.value);
    return Success(Record(url, name, meta.teslaPartNumber, meta.connector, meta.color,
                          description, pinout.value, imgUrls));
  }

  // ---------------------------------------------------------------------------
  // The scrape loop (lines 112-134)

  const BASE_URL := "https://service.tesla.com/docs/Model3/ElectricalReference/prog-18/connector/g011/index.html"

  /** `links[:limit]` when a limit is set. */
  function Take(links: seq<string>, limit: Option<nat>): (r: seq<string>)
    ensures limit.None? ==> r == links
    ensures limit.Some? ==> |r| == if limit.value < |links| then limit.value else |links|
    ensures r <= links
  {
    if limit.None? || limit.value >= |links| then links else links[..limit.value]
  }

  /** The records of the pages of `urls` that succeed, in link order. */
  function Scraped(urls: seq<string>, fetch: string -> Option<Page>, resolve: Resolver): (records: seq<Record>)
    ensures |records| <= |urls|
  {
    if urls == [] then []
    else
      var init := Scraped(urls[..|urls| - 1], fetch, resolve);
      match PageOutcome(urls[|urls| - 1], fetch, resolve)
      case Success(record) => init + [record]
      case Failure(_) => init
  }

  /** The number of pages of `urls` that fail. */
  function FailureCount(urls: seq<string>, fetch: string -> Option<Page>, resolve: Resolver): nat {
    if urls == [] then 0
    else FailureCount(urls[..|urls| - 1], fetch, resolve)
         + (if PageOutcome(urls[|urls| - 1], fetch, resolve).Failure? then 1 else 0)
  }

  /** `main` up to the file write: `None` when link discovery raised (nothing
      is written), otherwise the list that would be saved. `limit` is the
      `CONNECTOR_LIMIT` setting: `None`, as shipped, scrapes every link. */
  method ScrapeConnectors(fetch: string -> Option<Page>, resolve: Resolver, limit: Option<nat>)
    returns (saved: Option<seq<Record>>)
    ensures saved.None? <==> DiscoverLinks(BASE_URL, fetch(BASE_URL), resolve).Failure?
    ensures saved.Some? ==>
      saved.value == Scraped(Take(DiscoverLinks(BASE_URL, fetch(BASE_URL), resolve).value, limit), fetch, resolve)
  {
    var found := GetConnectorLinks(BASE_URL, fetch, resolve);
    if found.Failure? {
      return None;
    }
    var connectorLinks := found.value;
    if limit.Some? && limit.value < |connectorLinks| {
      connectorLinks := connectorLinks[..limit.value];
    }
    var allData: seq<Record> := [];
    var i := 0;
    while i < |connectorLinks|
      invariant 0 <= i <= |connectorLinks|
      invariant allData == Scraped(connectorLinks[..i], fetch, resolve)
    {
      assert connectorLinks[..i + 1][..i] == connectorLinks[..i];
      var data := ParseConnectorPage(connectorLinks[i], fetch, resolve);
      if data.Success? {
        allData := allData + [data.value];
      }
      i := i + 1;
    }
    assert connectorLinks[..i] == connectorLinks;
    return Some(allData);
  }

  /** Every page either yields a record or is counted as a failure. */
  lemma {:induction false} ScrapedCount(urls: seq<string>, fetch: string -> Option<Page>, resolve: Resolver)
    ensures |Scraped(urls, fetch, resolve)| + FailureCount(urls, fetch, resolve) == |urls|
    decreases |urls|
  {
    if urls != [] {
      ScrapedCount(urls[..|urls| - 1], fetch, resolve);
    }
  }

  /** A failing page never stops the pages after it: the records of `a + b`
      are those of `a` followed by those of `b`. */
  lemma {:induction false} ScrapedAppend(a: seq<string>, b: seq<string>, fetch: string -> Option<Page>, resolve: Resolver)
    ensures Scraped(a + b, fetch, resolve) == Scraped(a, fetch, resolve) + Scraped(b, fetch, resolve)
    decreases |b|
  {
    if b == [] {
      assert a + b == a;
    } else {
      var init := b[..|b| - 1];
      assert (a + b)[..|a + b| - 1] == a + init;
      ScrapedAppend(a, init, fetch, resolve);
    }
  }

  /** Each saved record is the one its page produced, for a page among the
      links, and carries that page's URL. */
  lemma {:induction false} ScrapedFromLinks(urls: seq<string>, fetch: string -> Option<Page>, resolve: Resolver, k: nat)
    requires k < |Scraped(urls, fetch, resolve)|
    ensures exists i :: 0 <= i < |urls| && PageOutcome(urls[i], fetch, resolve) == Success(Scraped(urls, fetch, resolve)[k])
    ensures Scraped(urls, fetch, resolve)[k].url in urls
    decreases |urls|
  {
    var init := urls[..|urls| - 1];
    var last := urls[|urls| - 1];
    var prev := Scraped(init, fetch, resolve);
    if k < |prev| {
      ScrapedFromLinks(init, fetch, resolve, k);
      var i :| 0 <= i < |init| && PageOutcome(init[i], fetch, resolve) == Success(prev[k]);
      assert urls[i] == init[i];
    } else {
      assert PageOutcome(last, fetch, resolve) == Success(Scraped(urls, fetch, resolve)[k]);
    }
    var i :| 0 <= i < |urls| && PageOutcome(urls[i], fetch, resolve) == Success(Scraped(urls, fetch, resolve)[k]);
    PageOutcomeUrl(urls[i], fetch, resolve);
  }

  lemma PageOutcomeUrl(url: string, fetch: string -> Option<Page>, resolve: Resolver)
    ensures PageOutcome(url, fetch, resolve).Success? ==> PageOutcome(url, fetch, resolve).value.url == url
  {
  }
}
