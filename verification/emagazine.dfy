/** The electronic-magazine spider: it fetches an OPDS catalog (an Atom feed,
    RFC 4287) and turns every `atom:entry` into an item. XML parsing and the date
    library are oracles; entries arrive already parsed. */
module EMagazine {
  import opened Wrappers
  import opened Strings
  import Json
  import CacheStore
  import opened BaseSpider

  /** The catalog this spider reads. */
  const OpdsUrl := "https://emagazine.link/opds/new"

  /** The host relative hrefs are resolved against. */
  const Host := "https://emagazine.link"

  /** The OPDS Catalog relation of a link to the publication itself. */
  const AcquisitionRel := "http://opds-spec.org/acquisition"

  /** The path segment that marks the EPUB download among acquisition links. */
  const EpubMarker := "/epub/"

  const UnknownTitle := "Unknown Title"
  const AuthorLabel := "作者: "
  const PublisherLabel := "出版社: "
  const SummaryLabel := "内容: "
  const Separator := "<br>"

  /** The description used when an entry has no author, publisher or summary. */
  const FallbackDescription := "电子杂志"

  /** The spider instance: catalogs change slowly, so pages are kept for two hours. */
  const Spider := NewSpider(Some("emagazine"), "EMagazineSpider", 7200)

  /** A child element that is present; `text` is `None` when it is empty. */
  datatype Element = Element(text: Option<string>)

  /** An `atom:link` with its `rel` and `href` attributes, each possibly missing. */
  datatype Link = Link(rel: Option<string>, href: Option<string>)

  /** One parsed `atom:entry`: the children the spider reads (absent ones are `None`),
      and its `atom:link` children in document order. */
  datatype Entry = Entry(
    title: Option<Element>,
    id: Option<Element>,
    updated: Option<Element>,
    authorName: Option<Element>,
    publisherName: Option<Element>,
    summary: Option<Element>,
    links: seq<Link>)

  /** A document that is not well-formed XML. */
  datatype XmlError = XmlError

  /** The two `strptime` formats, tried in this order: a numeric offset (`%z`) or a
      literal `Z`. */
  datatype IsoFormat = OffsetFormat | ZuluFormat

  const DateFormats := [OffsetFormat, ZuluFormat]

  /** What `_parse_opds_date` can raise before trying the formats. */
  datatype DateError = IndexError

  // ---------------------------------------------------------------------
  // Title
  // ---------------------------------------------------------------------

  /** The title element's text when the element is present, else the placeholder. */
  function EntryTitle(e: Entry): (t: Option<string>)
    ensures e.title.Some? ==> t == e.title.value.text
    ensures e.title.None? ==> t == Some(UnknownTitle)
  {
    match e.title
    case Some(el) => el.text
    case None => Some(UnknownTitle)
  }

  // ---------------------------------------------------------------------
  // Link choice
  // ---------------------------------------------------------------------

  predicate IsAcquisition(l: Link) {
    l.rel == Some(AcquisitionRel)
  }

  /** An acquisition link with a non-empty href: a candidate for the item link. */
  predicate IsCandidate(l: Link) {
    IsAcquisition(l) && Truthy(l.href)
  }

  /** A candidate whose href contains `/epub/`. */
  predicate IsEpubCandidate(l: Link) {
    IsCandidate(l) && Contains(l.href.value, EpubMarker)
  }

  /** The first loop: the href of the first EPUB candidate. */
  function FirstEpubHref(links: seq<Link>): (r: Option<string>)
    ensures r.Some? <==> exists i :: 0 <= i < |links| && IsEpubCandidate(links[i])
    ensures r.Some? ==> exists i :: 0 <= i < |links| && IsEpubCandidate(links[i]) && links[i].href == r
    decreases |links|
  {
    if |links| == 0 then None
    else if IsEpubCandidate(links[0]) then links[0].href
    else
      var r := FirstEpubHref(links[1..]);
      assert forall i :: 1 <= i < |links| ==> links[i] == links[1..][i - 1];
      r
  }

  /** The second loop: the href of the first candidate. */
  function FirstCandidateHref(links: seq<Link>): (r: Option<string>)
    ensures r.Some? <==> exists i :: 0 <= i < |links| && IsCandidate(links[i])
    ensures r.Some? ==> exists i :: 0 <= i < |links| && IsCandidate(links[i]) && links[i].href == r
    decreases |links|
  {
    if |links| == 0 then None
    else if IsCandidate(links[0]) then links[0].href
    else
      var r := FirstCandidateHref(links[1..]);
      assert forall i :: 1 <= i < |links| ==> links[i] == links[1..][i - 1];
      r
  }

  /** The chosen href: an EPUB candidate if there is one, else the first candidate.
      `None` stands for every falsy value the code may be left with. */
  function ChooseHref(links: seq<Link>): (r: Option<string>)
    ensures r.Some? <==> exists i :: 0 <= i < |links| && IsCandidate(links[i])
    ensures r.Some? ==> |r.value| > 0
    ensures r.Some? ==> exists i :: 0 <= i < |links| && IsCandidate(links[i]) && links[i].href == r
  {
    var epub := FirstEpubHref(links);
    if epub.Some? then epub else FirstCandidateHref(links)
  }

  /** The first EPUB candidate wins, even when other candidates come before it. */
  lemma {:induction false} EpubCandidateWins(links: seq<Link>, i: int)
    requires 0 <= i < |links| && IsEpubCandidate(links[i])
    requires forall j :: 0 <= j < i ==> !IsEpubCandidate(links[j])
    ensures ChooseHref(links) == links[i].href
  {
    FirstEpubIs(links, i);
  }

  lemma {:induction false} FirstEpubIs(links: seq<Link>, i: int)
    requires 0 <= i < |links| && IsEpubCandidate(links[i])
    requires forall j :: 0 <= j < i ==> !IsEpubCandidate(links[j])
    ensures FirstEpubHref(links) == links[i].href
    decreases i
  {
    if i > 0 {
      assert !IsEpubCandidate(links[0]);
      FirstEpubIs(links[1..], i - 1);
    }
  }

  /** Without an EPUB candidate the first candidate is chosen. */
  lemma {:induction false} FirstCandidateWins(links: seq<Link>, i: int)
    requires forall j :: 0 <= j < |links| ==> !IsEpubCandidate(links[j])
    requires 0 <= i < |links| && IsCandidate(links[i])
    requires forall j :: 0 <= j < i ==> !IsCandidate(links[j])
    ensures ChooseHref(links) == links[i].href
  {
    FirstCandidateIs(links, i);
  }

  lemma {:induction false} FirstCandidateIs(links: seq<Link>, i: int)
    requires 0 <= i < |links| && IsCandidate(links[i])
    requires forall j :: 0 <= j < i ==> !IsCandidate(links[j])
    ensures FirstCandidateHref(links) == links[i].href
    decreases i
  {
    if i > 0 {
      assert !IsCandidate(links[0]);
      FirstCandidateIs(links[1..], i - 1);
    }
  }

  // ---------------------------------------------------------------------
  // Href resolution
  // ---------------------------------------------------------------------

  predicate IsAbsolute(href: string) {
    StartsWith(href, "http://") || StartsWith(href, "https://")
  }

  /** An href made absolute against the catalog's host. */
  function Resolve(href: string): (r: string)
    ensures IsAbsolute(href) ==> r == href
    ensures !IsAbsolute(href) && StartsWith(href, "/") ==> r == Host + href
    ensures !IsAbsolute(href) && !StartsWith(href, "/") ==> r == Host + "/" + href
  {
    if !IsAbsolute(href) then
      if StartsWith(href, "/") then Host + href else Host + "/" + href
    else href
  }

  /** Resolution always yields an absolute URL, so resolving again changes nothing. */
  lemma ResolveIsAbsoluteAndIdempotent(href: string)
    ensures IsAbsolute(Resolve(href))
    ensures Resolve(Resolve(href)) == Resolve(href)
  {
    var r := Resolve(href);
    if !IsAbsolute(href) {
      assert r[..8] == "https://";
    }
  }

  /** The item link: the resolved chosen href; failing that the `atom:id` text when the
      element exists; failing that the empty string. */
  function EntryLink(e: Entry): (link: Option<string>)
    ensures ChooseHref(e.links).Some? ==> link == Some(Resolve(ChooseHref(e.links).value)) && IsAbsolute(link.value)
    ensures ChooseHref(e.links).None? && e.id.Some? ==> link == e.id.value.text
    ensures ChooseHref(e.links).None? && e.id.None? ==> link == Some("")
  {
    var href := ChooseHref(e.links);
    var link := if href.Some? then Some(Resolve(href.value)) else Some("");
    ResolveIsAbsoluteAndIdempotent(if href.Some? then href.value else "");
    if Truthy(link) then link
    else if e.id.Some? then e.id.value.text
    else link
  }

  // ---------------------------------------------------------------------
  // Description
  // ---------------------------------------------------------------------

  /** The text `find(...).text if ... is not None else ''` yields for an optional element. */
  function ElementText(el: Option<Element>): Option<string> {
    match el
    case Some(e) => e.text
    case None => Some("")
  }

  /** The labelled parts of the description, for the truthy fields, in order. */
  function DescriptionParts(author: Option<string>, publisher: Option<string>, summary: Option<string>): seq<string> {
    (if Truthy(author) then [AuthorLabel + author.value] else [])
    + (if Truthy(publisher) then [PublisherLabel + publisher.value] else [])
    + (if Truthy(summary) then [SummaryLabel + summary.value] else [])
  }

  /** Two parts joined by a separator. */
  lemma JoinPair(sep: string, a: string, b: string)
    ensures Join(sep, [a, b]) == a + sep + b
  {
    assert [a, b][1..] == [b];
    assert Join(sep, [b]) == b;
  }

  /** Three parts joined by a separator. */
  lemma JoinTriple(sep: string, a: string, b: string, c: string)
    ensures Join(sep, [a, b, c]) == a + sep + b + sep + c
  {
    assert [a, b, c][1..] == [b, c];
    JoinPair(sep, b, c);
    assert Join(sep, [a, b, c]) == a + sep + (b + sep + c);
  }

  /** The joined parts for each combination of truthy fields, written out. */
  lemma {:induction false} JoinedParts(author: Option<string>, publisher: Option<string>, summary: Option<string>)
    ensures Truthy(author) && Truthy(publisher) && Truthy(summary) ==>
              Join(Separator, DescriptionParts(author, publisher, summary))
              == AuthorLabel + author.value + Separator + PublisherLabel + publisher.value + Separator + SummaryLabel + summary.value
    ensures Truthy(author) && Truthy(publisher) && !Truthy(summary) ==>
              Join(Separator, DescriptionParts(author, publisher, summary))
              == AuthorLabel + author.value + Separator + PublisherLabel + publisher.value
    ensures Truthy(author) && !Truthy(publisher) && Truthy(summary) ==>
              Join(Separator, DescriptionParts(author, publisher, summary))
              == AuthorLabel + author.value + Separator + SummaryLabel + summary.value
    ensures !Truthy(author) && Truthy(publisher) && Truthy(summary) ==>
              Join(Separator, DescriptionParts(author, publisher, summary))
              == PublisherLabel + publisher.value + Separator + SummaryLabel + summary.value
  {
    var parts := DescriptionParts(author, publisher, summary);
    if |parts| == 2 {
      assert parts == [parts[0], parts[1]];
      JoinPair(Separator, parts[0], parts[1]);
    } else if |parts| == 3 {
      assert parts == [parts[0], parts[1], parts[2]];
      JoinTriple(Separator, parts[0], parts[1], parts[2]);
    }
  }

  /** The item description: the labelled truthy fields, in the order author,
      publisher, summary, joined by `<br>`; the fallback phrase when none is truthy. */
  function Describe(author: Option<string>, publisher: Option<string>, summary: Option<string>): (d: string)
    ensures d == FallbackDescription <==> !Truthy(author) && !Truthy(publisher) && !Truthy(summary)
    ensures |d| > 0
    ensures Truthy(author) && Truthy(publisher) && Truthy(summary) ==>
              d == AuthorLabel + author.value + Separator + PublisherLabel + publisher.value + Separator + SummaryLabel + summary.value
    ensures Truthy(author) && Truthy(publisher) && !Truthy(summary) ==>
              d == AuthorLabel + author.value + Separator + PublisherLabel + publisher.value
    ensures Truthy(author) && !Truthy(publisher) && Truthy(summary) ==>
              d == AuthorLabel + author.value + Separator + SummaryLabel + summary.value
    ensures !Truthy(author) && Truthy(publisher) && Truthy(summary) ==>
              d == PublisherLabel + publisher.value + Separator + SummaryLabel + summary.value
    ensures Truthy(author) && !Truthy(publisher) && !Truthy(summary) ==> d == AuthorLabel + author.value
    ensures !Truthy(author) && Truthy(publisher) && !Truthy(summary) ==> d == PublisherLabel + publisher.value
    ensures !Truthy(author) && !Truthy(publisher) && Truthy(summary) ==> d == SummaryLabel + summary.value
  {
    var parts := DescriptionParts(author, publisher, summary);
    if |parts| == 0 then FallbackDescription
    else
      JoinStartsWithFirst(Separator, parts);
      assert parts[0][0] in {'作', '出', '内'};
      JoinedParts(author, publisher, summary);
      Join(Separator, parts)
  }

  /** Every truthy field appears in the description behind its label. */
  lemma DescriptionMentionsFields(author: Option<string>, publisher: Option<string>, summary: Option<string>)
    ensures Truthy(author) ==> Contains(Describe(author, publisher, summary), AuthorLabel + author.value)
    ensures Truthy(publisher) ==> Contains(Describe(author, publisher, summary), PublisherLabel + publisher.value)
    ensures Truthy(summary) ==> Contains(Describe(author, publisher, summary), SummaryLabel + summary.value)
  {
    var parts := DescriptionParts(author, publisher, summary);
    var a := if Truthy(author) then 1 else 0;
    var p := if Truthy(publisher) then 1 else 0;
    if Truthy(author) {
      JoinContainsEachPart(Separator, parts, 0);
    }
    if Truthy(publisher) {
      JoinContainsEachPart(Separator, parts, a);
    }
    if Truthy(summary) {
      JoinContainsEachPart(Separator, parts, a + p);
    }
  }

  // ---------------------------------------------------------------------
  // Publication date
  // ---------------------------------------------------------------------

  /** The colon clean-up before `strptime`: when the third character from the end is
      `:` (and so a `:` is among the last six), that character is deleted. Indexing
      the third character from the end of a shorter string raises. */
  function StripOffsetColon(s: string): (r: Result<string, DateError>)
    ensures r.Err? <==> |s| < 3 && ':' in s
    ensures |s| >= 3 && s[|s| - 3] == ':' ==>
              r.Ok? && |r.value| == |s| - 1 && r.value[..|s| - 3] == s[..|s| - 3] && r.value[|s| - 3..] == s[|s| - 2..]
    ensures r.Ok? && !(|s| >= 3 && s[|s| - 3] == ':') ==> r.value == s
  {
    var tail := if |s| >= 6 then s[|s| - 6..] else s;
    if ':' !in tail then Ok(s)
    else if |s| < 3 then Err(IndexError)
    else if s[|s| - 3] == ':' then Ok(s[..|s| - 3] + s[|s| - 2..])
    else Ok(s)
  }

  /** The offset example the date clean-up is written for, and a literal-`Z` timestamp. */
  lemma StripOffsetColonExamples()
    ensures StripOffsetColon("2025-11-01T23:16:11+00:00") == Ok("2025-11-01T23:16:11+0000")
    ensures StripOffsetColon("2025-11-01T23:16:11Z") == Ok("2025-11-01T23:16:11Z")
  {
    var s := "2025-11-01T23:16:11+00:00";
    assert s[|s| - 3] == ':';
    assert s[..|s| - 3] + s[|s| - 2..] == "2025-11-01T23:16:11+0000";
    var z := "2025-11-01T23:16:11Z";
    assert z[|z| - 3] != ':';
  }

  /** The formats in order: the rendering of the first that parses `s`. The oracle
      `read(s, f)` is `strptime(s, f)` followed by the RFC 822 `strftime`. */
  function FirstParse(s: string, formats: seq<IsoFormat>, read: (string, IsoFormat) -> Option<string>): (r: Option<string>)
    ensures r.None? <==> forall i :: 0 <= i < |formats| ==> read(s, formats[i]).None?
    ensures r.Some? ==> exists i :: 0 <= i < |formats| && read(s, formats[i]) == r &&
                                    forall j :: 0 <= j < i ==> read(s, formats[j]).None?
    decreases |formats|
  {
    if |formats| == 0 then None
    else if read(s, formats[0]).Some? then read(s, formats[0])
    else
      var r := FirstParse(s, formats[1..], read);
      assert forall i :: 1 <= i < |formats| ==> formats[i] == formats[1..][i - 1];
      r
  }

  /** `_parse_opds_date`: the text of `atom:updated` (RFC 4287 section 3.3) rendered in
      RFC 822 style, or the current time `nowText` when it cannot be parsed or the
      element has no text. It never raises. */
  function ParseOpdsDate(text: Option<string>, read: (string, IsoFormat) -> Option<string>, nowText: string): (d: string)
    ensures text.None? ==> d == nowText
    ensures text.Some? && StripOffsetColon(text.value).Err? ==> d == nowText
    ensures text.Some? && StripOffsetColon(text.value).Ok? ==>
              var t := StripOffsetColon(text.value).value;
              && (read(t, OffsetFormat).Some? ==> d == read(t, OffsetFormat).value)
              && (read(t, OffsetFormat).None? && read(t, ZuluFormat).Some? ==> d == read(t, ZuluFormat).value)
              && (read(t, OffsetFormat).None? && read(t, ZuluFormat).None? ==> d == nowText)
  {
    match text
    case None => nowText
    case Some(s) =>
      match StripOffsetColon(s)
      case Err(_) => nowText
      case Ok(t) =>
        match FirstParse(t, DateFormats, read)
        case Some(d) => d
        case None => nowText
  }

  // ---------------------------------------------------------------------
  // Entries and the feed
  // ---------------------------------------------------------------------

  /** The item for one entry; an absent `atom:updated` gives the current time. */
  function NormalizeEntry(e: Entry, read: (string, IsoFormat) -> Option<string>, nowText: string): (it: Item)
    ensures it.title == EntryTitle(e) && it.link == EntryLink(e)
    ensures it.description == Describe(ElementText(e.authorName), ElementText(e.publisherName), ElementText(e.summary))
    ensures e.updated.None? ==> it.pubDate == Some(nowText)
    ensures e.updated.Some? ==> it.pubDate == Some(ParseOpdsDate(e.updated.value.text, read, nowText))
  {
    var pubDate := if e.updated.Some? then ParseOpdsDate(e.updated.value.text, read, nowText) else nowText;
    CreateItem(EntryTitle(e), EntryLink(e),
               Describe(ElementText(e.authorName), ElementText(e.publisherName), ElementText(e.summary)),
               Some(pubDate))
  }

  /** One item per entry, in document order. */
  function NormalizeEntries(entries: seq<Entry>, read: (string, IsoFormat) -> Option<string>, nowText: string): (items: seq<Item>)
    ensures |items| == |entries|
    ensures forall i :: 0 <= i < |entries| ==> items[i] == NormalizeEntry(entries[i], read, nowText)
    decreases |entries|
  {
    if |entries| == 0 then []
    else [NormalizeEntry(entries[0], read, nowText)] + NormalizeEntries(entries[1..], read, nowText)
  }

  /** `_parse_opds_feed`: the `atom:entry` elements the XML oracle finds, as items; a
      malformed document, or content that is not text at all, gives no items. */
  function ParseFeed(content: Json.Value, parseXml: string -> Result<seq<Entry>, XmlError>,
                     read: (string, IsoFormat) -> Option<string>, nowText: string): (items: seq<Item>)
    ensures !content.Str? ==> items == []
    ensures content.Str? && parseXml(content.s).Err? ==> items == []
    ensures content.Str? && parseXml(content.s).Ok? ==>
              |items| == |parseXml(content.s).value| &&
              forall i :: 0 <= i < |items| ==> items[i] == NormalizeEntry(parseXml(content.s).value[i], read, nowText)
  {
    match content
    case Str(doc) =>
      (match parseXml(doc)
       case Ok(entries) => NormalizeEntries(entries, read, nowText)
       case Err(_) => [])
    case _ => []
  }

  /** A catalog of two entries, the first with author, publisher and summary and the
      second with none of them, gives two items: the first description lists the three
      labelled fields joined by `<br>`, the second is the fallback phrase. */
  lemma TwoEntryCatalog(doc: string, parseXml: string -> Result<seq<Entry>, XmlError>,
                        read: (string, IsoFormat) -> Option<string>, nowText: string,
                        full: Entry, bare: Entry, author: string, publisher: string, summary: string)
    requires parseXml(doc) == Ok([full, bare])
    requires |author| > 0 && |publisher| > 0 && |summary| > 0
    requires full.authorName == Some(Element(Some(author)))
    requires full.publisherName == Some(Element(Some(publisher)))
    requires full.summary == Some(Element(Some(summary)))
    requires bare.authorName.None? && bare.publisherName.None? && bare.summary.None?
    ensures |ParseFeed(Json.Str(doc), parseXml, read, nowText)| == 2
    ensures ParseFeed(Json.Str(doc), parseXml, read, nowText)[0].description
            == AuthorLabel + author + Separator + PublisherLabel + publisher + Separator + SummaryLabel + summary
    ensures ParseFeed(Json.Str(doc), parseXml, read, nowText)[1].description == FallbackDescription
  {
  }

  /** What `fetch_items` returns, with the cache it leaves and the requests it sent. */
  datatype Harvest = Harvest(items: seq<Item>, store: CacheStore.Store, networkCalls: nat)

  /** `fetch_items`: fetch the catalog through the cache and parse it; a fetch error
      gives no items instead of raising. */
  function FetchItems(store: CacheStore.Store, now: int, network: string -> Response,
                      parseXml: string -> Result<seq<Entry>, XmlError>,
                      read: (string, IsoFormat) -> Option<string>, nowText: string): (h: Harvest)
    ensures h.store == FetchUrl(Spider, store, OpdsUrl, true, now, network).store
    ensures h.networkCalls == FetchUrl(Spider, store, OpdsUrl, true, now, network).networkCalls
    ensures FetchUrl(Spider, store, OpdsUrl, true, now, network).result.Err? ==> h.items == []
    ensures FetchUrl(Spider, store, OpdsUrl, true, now, network).result.Ok? ==>
              h.items == ParseFeed(FetchUrl(Spider, store, OpdsUrl, true, now, network).result.value, parseXml, read, nowText)
  {
    var fetched := FetchUrl(Spider, store, OpdsUrl, true, now, network);
    match fetched.result
    case Err(_) => Harvest([], fetched.store, fetched.networkCalls)
    case Ok(content) => Harvest(ParseFeed(content, parseXml, read, nowText), fetched.store, fetched.networkCalls)
  }

  /** A failing network never makes `fetch_items` raise: with nothing usable cached it
      yields no items. */
  lemma UnreachableCatalogGivesNoItems(store: CacheStore.Store, now: int, network: string -> Response,
                                       parseXml: string -> Result<seq<Entry>, XmlError>,
                                       read: (string, IsoFormat) -> Option<string>, nowText: string)
    requires network(OpdsUrl).Unreachable? || IsErrorStatus(network(OpdsUrl).status)
    requires !(CacheStore.Live(store.files, CacheStore.FileName(UrlKey(OpdsUrl)), now) &&
               Json.Truthy(store.files[CacheStore.FileName(UrlKey(OpdsUrl))].data.value))
    ensures FetchItems(store, now, network, parseXml, read, nowText).items == []
    ensures FetchItems(store, now, network, parseXml, read, nowText).networkCalls == 1
  {
  }

  /** A cache directory that refuses writes loses every downloaded catalog: the
      store after a successful download raises, so `fetch_items` yields no items even
      though the request succeeded. */
  lemma ReadOnlyCacheGivesNoItems(store: CacheStore.Store, now: int, network: string -> Response,
                                  parseXml: string -> Result<seq<Entry>, XmlError>,
                                  read: (string, IsoFormat) -> Option<string>, nowText: string)
    requires !store.writable
    requires network(OpdsUrl).Response? && !IsErrorStatus(network(OpdsUrl).status)
    requires !(CacheStore.Live(store.files, CacheStore.FileName(UrlKey(OpdsUrl)), now) &&
               Json.Truthy(store.files[CacheStore.FileName(UrlKey(OpdsUrl))].data.value))
    ensures FetchItems(store, now, network, parseXml, read, nowText).items == []
    ensures FetchItems(store, now, network, parseXml, read, nowText).networkCalls == 1
    ensures FetchItems(store, now, network, parseXml, read, nowText).store == store
  {
  }

  /** A second `fetch_items` within the spider's TTL after one that downloaded a
      non-empty catalog sends no request and yields the same items. */
  lemma SecondFetchItemsFromCache(store: CacheStore.Store, now: int, later: int,
                                  network: string -> Response, network': string -> Response,
                                  parseXml: string -> Result<seq<Entry>, XmlError>,
                                  read: (string, IsoFormat) -> Option<string>, nowText: string)
    requires FetchItems(store, now, network, parseXml, read, nowText).networkCalls == 1
    requires store.writable
    requires network(OpdsUrl).Response? && !IsErrorStatus(network(OpdsUrl).status) && |network(OpdsUrl).text| > 0
    requires now <= later <= now + Spider.cacheTtl
    ensures FetchItems(FetchItems(store, now, network, parseXml, read, nowText).store, later, network', parseXml, read, nowText).networkCalls == 0
    ensures FetchItems(FetchItems(store, now, network, parseXml, read, nowText).store, later, network', parseXml, read, nowText).items
            == FetchItems(store, now, network, parseXml, read, nowText).items
  {
    SecondFetchHitsCache(Spider, store, OpdsUrl, now, later, network, network');
  }
}
