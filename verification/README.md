# rsshub-py core in Dafny

A model of the three pieces of pure logic behind rsshub-py's electronic-magazine feed:

- **CacheStore** (`cache.dfy`): the file-backed expiring cache. The cache directory is a map from
  file name to content, and the clock is an integer passed to each operation. A file holds either
  `Record(data, timestamp, expiresAt)`, whose `data` and `timestamp` may be missing, or `Corrupt`.
  The directory also carries a flag saying whether it accepts writes and removals. The model covers
  key sanitisation, `set`, `get` with lazy and strict expiry, removal of corrupt records on read,
  `delete`, `clear` restricted to `.json` names, and `get_stats`.
- **BaseSpider** (`spider.dfy`): `fetch_url`'s cache hit, miss and store logic around a network
  oracle, plus `create_item`, `clean_text` and the spider constructor.
- **EMagazine** (`emagazine.dfy`): the OPDS catalog spider. It turns each already-parsed Atom
  entry (RFC 4287: `atom:entry`, `atom:link`, `atom:id`, `atom:updated`) into an item. It covers
  the title fallback, the three-stage choice of link (an OPDS acquisition link whose href contains
  `/epub/`, else the first acquisition link, else `atom:id`), resolution of relative hrefs against
  `https://emagazine.link`, the labelled description, the timezone-colon clean-up of dates, and
  `fetch_items`, which never raises.

Supporting modules: `Wrappers` (Option/Result), `Strings` (the Python `str` operations used:
`startswith`, `endswith`, `in`, `join`, `replace`, argument-less `split`) and `Json` (cached
values and their Python truthiness).

Oracles. These are parameters rather than code:
- the network is a function from URL to `Response(status, text)` or `Unreachable`;
- XML parsing is a function from document text to `Ok(entries)` or `Err(XmlError)`;
- `strptime` followed by the RFC 822 `strftime` is a function `(text, format) -> Option<string>`;
- `datetime.now()` rendered as text is a string parameter, and `time.time()` is the integer `now`.

Behaviour of the code that its own docstrings or names do not suggest, and that the model keeps:
- An item's title and link can be `None`. `create_item`'s docstring types both as `str`
  (app/spiders/base_spider.py:88-89). But ElementTree gives an empty element `text == None`, and
  the emagazine spider passes that text on as is.
- `set` accepts any TTL, including zero and negative ones. A negative TTL writes a record that is
  already expired.
- `clean_text` and the description only test truthiness, so `None` and `''` behave alike.
- `set` writes without a `try` (app/core/cache.py:67-68). If the cache directory refuses the
  write, `fetch_url` raises after a successful download, and `fetch_items` returns no items. A
  read-only `./cache` that already exists passes the constructor's `makedirs(exist_ok=True)`, so
  the `/tmp` fallback does not help there.
- `get` and `get_stats` read a record differently. `get` needs both `expires_at` and `data`.
  `get_stats` reads only `expires_at`. So an unexpired record without `data` is removed by `get`
  but counted as valid by `get_stats`.

## Model

| member | source | states |
|---|---|---|
| Strings.ReplaceChar | app/core/cache.py:45 | `str.replace` of one character: same length, every occurrence replaced, nothing else changed, the old character gone |
| Strings.WordsAreWords | app/spiders/base_spider.py:116 | `split()` produces only non-empty words without whitespace |
| CacheStore.NewStore | app/core/cache.py:11-19 | a new cache over a directory keeps its files and writability, and a `set` without a TTL there expires 3600 seconds after it is written |
| CacheStore.SafeKey | app/core/cache.py:45 | both `/` and `\` become `_` (the two replaces compose to a per-character map), length is kept, no separator survives |
| CacheStore.FileName | app/core/cache.py:45-46 | file name is the sanitised key plus `.json`: separator-free, ends in `.json`, key length kept before the suffix |
| CacheStore.SameFileIff | app/core/cache.py:45-46 | two keys share a file exactly when they agree position by position once separators read as `_` |
| CacheStore.SeparatorCollision | app/core/cache.py:45-46 | for any x and y, `x/y`, `x_y` and `x\y` name the same file (so `a/b` and `a_b` both use `a_b.json`) |
| CacheStore.Set | app/core/cache.py:57-68 | in a writable directory, writes `{data, timestamp: now, expires_at: now + ttl}` with the default TTL when none is given, and only that key's file is added or overwritten; in a directory that refuses writes it raises |
| CacheStore.Get | app/core/cache.py:80-102 | returns the data exactly when the file holds a record with `now <= expires_at` and a `data` field, leaving the cache unchanged; otherwise returns nothing and removes that one file, unless the directory refuses the removal (no-op when the file is missing) |
| CacheStore.Delete | app/core/cache.py:111-116 | removes the key's file and no other; a missing file or a refused removal leaves the cache unchanged |
| CacheStore.Clear | app/core/cache.py:122-127 | in a writable directory, removes exactly the `.json` files, and other files keep their content; when removal is refused, nothing changes |
| CacheStore.GetStats | app/core/cache.py:136-156 | the directory scan counts total = number of `.json` files and expired = those whose `expires_at` cannot be read or is in the past; valid = total - expired; 0 <= expired <= total |
| CacheStore.SetThenGet | app/core/cache.py:88-95 | in a writable directory, after `set`, `get` through any key naming the same file returns the value up to and including the expiry instant, without changing the cache |
| CacheStore.SetThenGetExpired | app/core/cache.py:90-93 | in a writable directory, past the expiry instant `get` returns nothing, the file is removed and the stats total drops by one |
| CacheStore.SetLeavesOtherKeys | app/core/cache.py:57-68 | a successful `set` does not change what `get` returns for a key in another file |
| CacheStore.GetCorrupt | app/core/cache.py:96-102 | a corrupt record reads as absent; only its file is removed, and nothing is removed if the directory refuses it |
| CacheStore.DatalessRecordCountedValid | app/core/cache.py:90-99 | an unexpired record without `data` reads as absent and is removed by `get`, yet `get_stats` counts it as a valid `.json` file (it reads only `expires_at`, app/core/cache.py:147) |
| CacheStore.ClearEmpties | app/core/cache.py:122-127 | in a writable directory, after `clear` no key has a value and both stats counts are zero |
| CacheStore.DeleteThenGet | app/core/cache.py:111-116 | in a writable directory, after `delete`, `get` returns nothing for the key and every key sharing its file |
| CacheStore.ReadOnlyKeepsFiles | app/core/cache.py:67-68 | in a directory that refuses writes, `set` raises, and the guarded removals of `get`, `delete` and `clear` change nothing |
| BaseSpider.NewSpider | app/spiders/base_spider.py:20-21 | the name is the given one when truthy, else the class name; the TTL is kept |
| BaseSpider.CreateItem | app/spiders/base_spider.py:96-101 | the record holds exactly the title, link, description and pub_date passed |
| BaseSpider.CleanText | app/spiders/base_spider.py:113-114 | a falsy input gives `''` |
| BaseSpider.CleanTextKeepsWords | app/spiders/base_spider.py:116 | the cleaned text has the same words as the input, in the same order |
| BaseSpider.CleanTextSingleSpaced | app/spiders/base_spider.py:116 | the cleaned text has no leading or trailing whitespace, no whitespace but spaces, and no two spaces in a row |
| BaseSpider.CleanTextIdempotent | app/spiders/base_spider.py:113-116 | cleaning twice equals cleaning once |
| BaseSpider.UrlKey | app/spiders/base_spider.py:46 | the cache key is `url_` followed by the URL |
| BaseSpider.FetchUrl | app/spiders/base_spider.py:46-69 | at most one request; no request exactly when the cache is on and holds a truthy value, which is returned with the cache untouched; otherwise the response decides the result (connection failure or 4xx/5xx raises). With the cache on, a success is stored under `url_`+url with the spider's TTL, and a refused store makes the call raise; with the cache off, nothing is stored. An error stores nothing |
| BaseSpider.SecondFetchHitsCache | app/spiders/base_spider.py:49-69 | with a writable cache, after a fetch that downloaded a non-empty body, a second fetch up to the expiry instant sends no request and returns the same body |
| BaseSpider.EmptyCachedBodyIsMiss | app/spiders/base_spider.py:49-52 | an empty cached body is falsy, so a request is sent |
| EMagazine.EntryTitle | app/spiders/emagazine.py:64-65 | the title element's text when present, `Unknown Title` when absent |
| EMagazine.FirstEpubHref | app/spiders/emagazine.py:72-78 | finds an href exactly when some acquisition link has a non-empty href containing `/epub/`, and returns that link's href |
| EMagazine.FirstCandidateHref | app/spiders/emagazine.py:84-90 | finds an href exactly when some acquisition link has a non-empty href, and returns such an href |
| EMagazine.ChooseHref | app/spiders/emagazine.py:72-91 | an href is chosen exactly when some acquisition link has a non-empty href; the chosen one is non-empty and comes from an acquisition link, never from another rel |
| EMagazine.EpubCandidateWins | app/spiders/emagazine.py:72-82 | the first `/epub/` acquisition href wins even when other acquisition links precede it |
| EMagazine.FirstCandidateWins | app/spiders/emagazine.py:83-91 | without an `/epub/` href, the first acquisition link with a non-empty href wins |
| EMagazine.Resolve | app/spiders/emagazine.py:93-101 | `http://`/`https://` hrefs pass unchanged, `/`-rooted hrefs get the host prepended, others the host and `/` |
| EMagazine.ResolveIsAbsoluteAndIdempotent | app/spiders/emagazine.py:93-101 | the result always starts with `http://` or `https://`, and resolving twice equals resolving once |
| EMagazine.EntryLink | app/spiders/emagazine.py:68-107 | the link is the resolved chosen href (absolute); without one it is the `atom:id` text when the element exists, else `''` |
| EMagazine.Describe | app/spiders/emagazine.py:126-134 | the description is the labelled non-empty fields, in the order author, publisher, summary, joined by `<br>`; the exact string is stated for each of the seven non-empty combinations. It is the fallback `电子杂志` exactly when all three are empty, and it is never empty |
| EMagazine.DescriptionMentionsFields | app/spiders/emagazine.py:126-132 | every non-empty field occurs in the description behind its label |
| EMagazine.StripOffsetColon | app/spiders/emagazine.py:164-165 | deletes exactly the character at index len-3 when it is `:` (which puts a `:` in the last six), else keeps the text; raises exactly when the text is shorter than 3 and has a `:` |
| EMagazine.StripOffsetColonExamples | app/spiders/emagazine.py:162-165 | `…+00:00` becomes `…+0000` and `…Z` is unchanged |
| EMagazine.FirstParse | app/spiders/emagazine.py:168-176 | formats are tried in order: the result is the first success, and there is none exactly when every format fails |
| EMagazine.ParseOpdsDate | app/spiders/emagazine.py:161-183 | never raises: no text or the short-string `IndexError` gives the current time; otherwise the offset format's rendering if it parses, else the literal-`Z` format's, else the current time |
| EMagazine.NormalizeEntry | app/spiders/emagazine.py:62-142 | the item's title, link and description follow the rules above; an absent `atom:updated` gives the current time, a present one the parsed date |
| EMagazine.NormalizeEntries | app/spiders/emagazine.py:62-142 | one item per entry, in document order |
| EMagazine.ParseFeed | app/spiders/emagazine.py:55-149 | a malformed document or non-text content yields no items; otherwise one item per entry in document order |
| EMagazine.TwoEntryCatalog | app/spiders/emagazine.py:113-142 | two entries, one with author, publisher and summary and one with none, give two items: the first description is the three labelled fields joined by `<br>`, the second is `电子杂志` |
| EMagazine.FetchItems | app/spiders/emagazine.py:23-34 | fetches the catalog through the cache; a fetch error yields no items instead of raising, and a success yields the parsed items |
| EMagazine.UnreachableCatalogGivesNoItems | app/spiders/emagazine.py:23-34 | with the network failing and no truthy live value cached, one request is sent and no items come back |
| EMagazine.ReadOnlyCacheGivesNoItems | app/spiders/emagazine.py:23-34 | with a cache directory that refuses writes and no truthy live value cached, a successful download still yields no items, because storing it raises |
| EMagazine.SecondFetchItemsFromCache | app/spiders/emagazine.py:23-30 | with a writable cache, a second `fetch_items` within two hours of one that downloaded the catalog sends no request and yields the same items |

## Left out

- Filesystem and JSON I/O in the cache. The directory is a map. A file from which `expires_at` cannot be read is `Corrupt`: not JSON, not a JSON object, without `expires_at`, or with an `expires_at` that does not compare with a number. A file that exists but cannot be opened is not distinguished from a corrupt one.
- CacheStore.Set: write failures are modelled only for a directory that refuses every write and removal (the `writable` flag). A failure tied to one file name, such as a name over the file-system limit for a long URL, is not modelled, and neither is a directory that accepts writes but refuses removals.
- The cache constructor's directory creation and its `/tmp` fallback (app/core/cache.py:11-33). This is mkdir I/O; the directory it settles on is the `Store` value's files and `writable` flag. The process-wide instance (app/core/cache.py:159) becomes a `Store` value passed explicitly, built by `NewStore` with the 3600-second `DefaultTtl`.
- Concurrency. Every cache operation is modelled as one atomic step, and operations run one after another. Flask's threaded server can run requests at the same time over the shared cache. That interleaving is not modelled. In particular, `set` opens its file with `'w'`, which truncates it, before `json.dump` writes the record (app/core/cache.py:67-68). A `get` in that window finds an empty or partial file. It treats the file as corrupt and removes it (app/core/cache.py:96-99), so the record being written is lost. A `get_stats` in the same window counts the file as expired (app/core/cache.py:149-150).
- Clock readings. `time.time()` is an integer `now`, sampled once per operation. `set` reads the clock twice in the source, so its `expires_at` can exceed `timestamp + ttl` by a fraction of a second. The network call takes no time, so `fetch_url` reads and writes the cache at the same instant.
- Floating-point numbers. Timestamps and JSON numbers are integers.
- `requests.get`: headers, the default User-Agent and the 30-second timeout. The network oracle's `Unreachable` covers a timeout or connection error.
- `parse_html`. It wraps BeautifulSoup; no modelled operation uses it.
- `ElementTree` parsing and `findall`. Entries arrive already parsed, in document order. An exception in the middle of the entry loop would keep the items built so far, but none of the modelled steps can raise there, so the model has no such path.
- `strptime`/`strftime` and `datetime.now()`. They are oracles. Every `datetime.now()` call in one parse is the same `nowText`.
- `clean_text`'s `strip()`. It cannot change the result of the argument-less `split()` that follows, so it is not modelled separately.
- `print` logging, and the abstract `fetch_items` of the base class.
- app/core/rss_generator.py, app/routes.py, main.py and config.py (XML serialisation, Flask routing, environment configuration). None of them is part of this model.
