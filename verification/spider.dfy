/** The shared spider behaviour: memoised fetching through the cache, item records
    and whitespace clean-up. The network is an oracle from URL to response. */
module BaseSpider {
  import opened Wrappers
  import opened Strings
  import Json
  import CacheStore

  /** A spider's name and the TTL it caches fetched pages with. */
  datatype Spider = Spider(name: string, cacheTtl: int)

  /** The item record handed to the RSS generator. Title and link are `None` when
      the source element has no text. */
  datatype Item = Item(title: Option<string>, link: Option<string>, description: string, pubDate: Option<string>)

  /** What the network returns for a URL: a response with its status code and
      decoded body, or a failure to get one (connection error, timeout). */
  datatype Response = Response(status: int, text: string) | Unreachable

  /** What `fetch_url` raises: the request failed, the status was an error, or the
      cache refused to store a successful body. */
  datatype FetchError = RequestFailed | HttpError(status: int) | CacheWriteFailed

  /** The result of `fetch_url`, the cache after it, and how many requests it sent. */
  datatype Fetched = Fetched(result: Result<Json.Value, FetchError>, store: CacheStore.Store, networkCalls: nat)

  /** Python truthiness of an optional string. */
  predicate Truthy(t: Option<string>) {
    t.Some? && |t.value| > 0
  }

  /** The spider constructor: the given name unless it is falsy, else the class name. */
  function NewSpider(name: Option<string>, className: string, cacheTtl: int := 3600): (sp: Spider)
    ensures Truthy(name) ==> sp.name == name.value
    ensures !Truthy(name) ==> sp.name == className
    ensures sp.cacheTtl == cacheTtl
  {
    Spider(if Truthy(name) then name.value else className, cacheTtl)
  }

  /** `create_item`; the source's defaults are an empty description and no date. */
  function CreateItem(title: Option<string>, link: Option<string>, description: string := "", pubDate: Option<string> := None): (it: Item)
    ensures it.title == title && it.link == link
    ensures it.description == description && it.pubDate == pubDate
  {
    Item(title, link, description, pubDate)
  }

  /** `clean_text`: empty for a falsy input, else the words joined by single spaces. */
  function CleanText(text: Option<string>): (r: string)
    ensures !Truthy(text) ==> r == ""
  {
    if !Truthy(text) then "" else Join(" ", Words(text.value))
  }

  /** Cleaning keeps the input's words, in order. */
  lemma CleanTextKeepsWords(text: string)
    ensures Words(CleanText(Some(text))) == Words(text)
  {
    if |text| > 0 {
      WordsAreWords(text);
      WordsOfJoin(Words(text));
    } else {
      assert Words(text) == [];
    }
  }

  /** The cleaned text has no leading or trailing whitespace, no whitespace other than
      spaces, and no two spaces in a row. */
  lemma CleanTextSingleSpaced(text: Option<string>)
    ensures SingleSpaced(CleanText(text))
  {
    if Truthy(text) {
      WordsAreWords(text.value);
      JoinOfWordsSingleSpaced(Words(text.value));
    }
  }

  /** Cleaning twice is cleaning once. */
  lemma CleanTextIdempotent(text: Option<string>)
    ensures CleanText(Some(CleanText(text))) == CleanText(text)
  {
    var once := CleanText(text);
    if Truthy(text) {
      CleanTextKeepsWords(text.value);
    }
  }

  /** `raise_for_status()` raises for client and server errors. */
  predicate IsErrorStatus(status: int) {
    400 <= status < 600
  }

  /** The cache key a URL's body is stored under. */
  function UrlKey(url: string): (k: string)
    ensures |k| == |url| + 4 && k[4..] == url
    ensures StartsWith(k, "url_")
  {
    "url_" + url
  }

  /** `fetch_url(url, use_cache=useCache)` at time `now`. With the cache on, a truthy
      cached value is returned without a request; otherwise one request is sent, and
      a successful body is stored for the spider's TTL before it is returned. A store
      that fails raises out of `fetch_url`, so the downloaded body is lost. */
  function FetchUrl(sp: Spider, store: CacheStore.Store, url: string, useCache: bool, now: int,
                    network: string -> Response): (r: Fetched)
    ensures r.networkCalls <= 1
    ensures r.networkCalls == 0 <==>
              useCache && CacheStore.Get(store, UrlKey(url), now).value.Some? &&
              Json.Truthy(CacheStore.Get(store, UrlKey(url), now).value.value)
    ensures r.networkCalls == 0 ==>
              r.result == Ok(CacheStore.Get(store, UrlKey(url), now).value.value) && r.store == store
    ensures r.networkCalls == 1 ==>
              match network(url)
              case Unreachable => r.result == Err(RequestFailed)
              case Response(status, text) =>
                if IsErrorStatus(status) then r.result == Err(HttpError(status))
                else if useCache && !store.writable then r.result == Err(CacheWriteFailed)
                else r.result == Ok(Json.Str(text))
    ensures !useCache ==> r.store == store
    ensures useCache && r.networkCalls == 1 && r.result.Err? ==>
              r.store == CacheStore.Get(store, UrlKey(url), now).after
    ensures useCache && r.networkCalls == 1 && r.result.Ok? ==>
              CacheStore.Set(CacheStore.Get(store, UrlKey(url), now).after,
                             UrlKey(url), r.result.value, Some(sp.cacheTtl), now) == Ok(r.store)
  {
    var key := UrlKey(url);
    var lookup := if useCache then CacheStore.Get(store, key, now) else CacheStore.Lookup(None, store);
    if useCache && lookup.value.Some? && Json.Truthy(lookup.value.value) then
      Fetched(Ok(lookup.value.value), store, 0)
    else
      match network(url)
      case Unreachable => Fetched(Err(RequestFailed), lookup.after, 1)
      case Response(status, text) =>
        if IsErrorStatus(status) then Fetched(Err(HttpError(status)), lookup.after, 1)
        else if !useCache then Fetched(Ok(Json.Str(text)), store, 1)
        else
          match CacheStore.Set(lookup.after, key, Json.Str(text), Some(sp.cacheTtl), now)
          case Err(_) => Fetched(Err(CacheWriteFailed), lookup.after, 1)
          case Ok(after) => Fetched(Ok(Json.Str(text)), after, 1)
  }

  /** Memoisation: after a fetch that went to the network and got a non-empty body, fetching the same URL
      again up to the expiry instant sends no request, whatever the network would say,
      and returns the same body. */
  lemma SecondFetchHitsCache(sp: Spider, store: CacheStore.Store, url: string, now: int, later: int,
                             network: string -> Response, network': string -> Response)
    requires FetchUrl(sp, store, url, true, now, network).networkCalls == 1
    requires store.writable
    requires 0 <= sp.cacheTtl
    requires now <= later <= now + sp.cacheTtl
    requires network(url).Response? && !IsErrorStatus(network(url).status) && |network(url).text| > 0
    ensures FetchUrl(sp, FetchUrl(sp, store, url, true, now, network).store, url, true, later, network').networkCalls == 0
    ensures FetchUrl(sp, FetchUrl(sp, store, url, true, now, network).store, url, true, later, network').result
            == FetchUrl(sp, store, url, true, now, network).result
  {
    var first := FetchUrl(sp, store, url, true, now, network);
    CacheStore.SetThenGet(CacheStore.Get(store, UrlKey(url), now).after, UrlKey(url), UrlKey(url),
                          first.result.value, Some(sp.cacheTtl), now, later);
  }

  /** An empty cached body is falsy, so it counts as a miss and a request is sent. */
  lemma EmptyCachedBodyIsMiss(sp: Spider, store: CacheStore.Store, url: string, now: int, network: string -> Response)
    requires CacheStore.Live(store.files, CacheStore.FileName(UrlKey(url)), now)
    requires store.files[CacheStore.FileName(UrlKey(url))].data == Some(Json.Str(""))
    ensures FetchUrl(sp, store, url, true, now, network).networkCalls == 1
  {
  }
}
