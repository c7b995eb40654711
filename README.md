# Rick and Morty explorer: cache, API client and pagination

This project models in Dafny the data layer of a small web client for the
Rick and Morty API, and proves properties of that model. It covers three
parts.

- **The response cache** (`CacheService`). It is a Map from request URL to
  an entry holding the data, the time it was stored and a lifetime. The
  Map also keeps its insertion order. A lookup first sweeps every expired
  entry. It then counts a hit or a miss. A store runs the eviction policy:
  once the Map holds more than `maxCacheSize` entries, it deletes the
  oldest fifth (`ceil(max * 0.2)`) by timestamp, with ties broken by
  insertion order. There are also pattern invalidation, statistics and
  the `cacheHelpers` shortcuts around the shared instance.
- **The API client**:
  - `buildQueryString`, which follows the `URLSearchParams` serializer,
    including percent-encoding of UTF-8 bytes;
  - `handleResponse`;
  - `fetchWithCache`, which reads through the cache;
  - the list, item, batch and root accessors for characters, locations
    and episodes;
  - the regex-based id extractors.
- **The pagination bar**:
  - `getPageNumbers`, which picks the page buttons and "..." markers;
  - the previous and next buttons.

Modules:

| file | module | contents |
|---|---|---|
| `wrappers.dfy` | `Wrappers` | `Option`, `Result` |
| `config.dfy` | `Config` | base URL, endpoints, lifetime tiers, maximum size |
| `sequences.dfy` | `Sequences` | associativity of concatenation |
| `numbers.dfy` | `Numbers` | decimal writing (`String(n)`) and reading (`parseInt`) |
| `urls.dfy` | `Urls` | request URLs, id extraction |
| `query.dfy` | `Query` | form-urlencoded serialisation, `buildQueryString` |
| `cache.dfy` | `Cache` | lifetimes, eviction order, class `CacheService` |
| `api.dfy` | `Api` | `handleResponse`, `fetchWithCache`, accessors |
| `cache_helpers.dfy` | `CacheHelpers` | the shared instance and `cacheHelpers` |
| `pagination.dfy` | `Pagination` | `getPageNumbers`, previous/next buttons |

`CacheService` is a class. Its fields are the ones the TypeScript client
updates in place:

- `cache` is the Map;
- `order` is the Map's iteration order;
- `hits`, `misses` and `size` are the statistics.

Its methods carry `modifies` clauses and state the whole new state. They
state it against specification functions: `ExpiredKeys`, `MatchingKeys`,
`Victims`/`Evicted` and `AfterSet`. Lemmas prove what those functions
promise:

- eviction removes only entries no newer than any it keeps;
- a fresh store survives its own eviction;
- a store changes no other entry.

`fetchWithCache` is stated by the predicate `Api.FetchThrough`. It relates
the cache state before and after one request, the answer, and whether the
network was asked. `getPageNumbers` is a method with the TypeScript client's loops,
proved equal to the function `Pagination.Window`. The layout properties
are proved about that function.

Clock and network are parameters:

- `now` stands for `Date.now()`;
- `network(url)` stands for what `fetch(url)` settles to.

## Model

| member | source | states |
|---|---|---|
| Cache.EffectiveTtl | src/services/cache.ts:95 | `ttl \|\| defaultTTL`: an absent or zero lifetime falls back to the default; any other lifetime is used as given |
| Cache.IsLive | src/services/cache.ts:37-40 | `isValid`: an entry is valid at the moment it is stored exactly when its lifetime is positive or `Infinity` |
| Cache.ExpiryIsFinal | src/services/cache.ts:37-40 | validity only runs out: an entry valid at some time was valid at every earlier time |
| Cache.EvictionCount | src/services/cache.ts:62 | `Math.ceil(max * 0.2)`: the least count whose fivefold reaches `max`; at least 1 once `max >= 1`, never more than `max` |
| Cache.Includes | src/services/cache.ts:120 | `url.includes(pattern)` holds exactly when the pattern occurs at some position of the url |
| Cache.InsertByAge | src/services/cache.ts:59-60 | inserting a key into the age order yields a permutation of the order plus that key |
| Cache.SortByAge | src/services/cache.ts:59-60 | the age order of the keys is a permutation of the iteration order |
| Cache.InsertByAgeSorted | src/services/cache.ts:59-60 | inserting a key into a timestamp-sorted order keeps it sorted |
| Cache.SortByAgeSorted | src/services/cache.ts:59-60 | the eviction order really is ascending by timestamp |
| Cache.SortByAgeDistinct | src/services/cache.ts:59-60 | sorting a duplicate-free iteration order keeps it duplicate-free |
| Cache.InsertByAgeStable | src/services/cache.ts:59-60 | insertion puts a key first among the keys of its own age and leaves the others' order alone |
| Cache.SortByAgeStable | src/services/cache.ts:59-60 | the sort is stable: for every timestamp the keys of that age keep their iteration order, so eviction breaks ties by insertion order |
| Cache.Evicted | src/services/cache.ts:59-65 | eviction takes `k` keys, or all of them when fewer exist |
| Cache.Victims | src/services/cache.ts:56-68 | eviction deletes only stored keys, and nothing while the Map is within its bound |
| Cache.EvictedAreOldest | src/services/cache.ts:59-65 | every evicted entry is no newer than every entry that stays |
| Cache.Survivor | src/services/cache.ts:62-65 | an eviction of fewer keys than are stored leaves some key in place |
| Cache.AfterSetChangesOnlyUrl | src/services/cache.ts:89-102 | `set` changes no entry but the one under `url`; a surviving `url` holds exactly the new entry |
| Cache.AfterSetKeepsNewest | src/services/cache.ts:89-102 | when the new entry is newer than all others and `max >= 1`, it survives its own eviction |
| Cache.StoredOrder | src/services/cache.ts:99 | `Map.set` keeps the iteration order duplicate-free and in step with the keys |
| Cache.CacheService.constructor | src/services/cache.ts:22-31 | a new cache is empty, its counters are zero, and it keeps its default lifetime and maximum size |
| Cache.CacheService.Has | src/services/cache.ts:159-163 | true exactly when `url` is stored and its entry is still valid at `now` |
| Cache.CacheService.HitRate | src/services/cache.ts:154-157 | 0 before any lookup; otherwise the hit percentage, which lies between 0 and 100 |
| Cache.CacheService.Delete | src/services/cache.ts:106 | `Map.delete` removes the key and its place in the order, and reports whether it was present |
| Cache.CacheService.DeleteAll | src/services/cache.ts:125-128 | deleting distinct stored keys one by one removes exactly those keys and shortens the order by their number |
| Cache.CacheService.UpdateStats | src/services/cache.ts:70-72 | `stats.size` takes the Map's size; nothing else changes |
| Cache.CacheService.ExpiredInOrder | src/services/cache.ts:44-50 | collects, without repetition, exactly the keys whose entries are invalid at `now` |
| Cache.CacheService.MatchingInOrder | src/services/cache.ts:117-123 | collects, without repetition, exactly the keys whose entry's url contains the pattern |
| Cache.CacheService.CleanupExpired | src/services/cache.ts:42-54 | deletes exactly the expired entries, keeps the order of the rest, and afterwards every entry is valid |
| Cache.CacheService.ManageCacheSize | src/services/cache.ts:56-68 | above the bound, deletes exactly the oldest `ceil(max * 0.2)` entries and updates `size`; within it, changes nothing |
| Cache.CacheService.EvictOldest | src/services/cache.ts:59-66 | deletes the first `count` keys of the age order and shrinks the Map by exactly `count` |
| Cache.CacheService.Get | src/services/cache.ts:74-87 | sweeps the expired entries; returns the data exactly when a valid entry is stored; counts one hit or one miss accordingly |
| Cache.CacheService.Set | src/services/cache.ts:89-102 | files the entry with the effective lifetime, then evicts; the Map keeps its bound when `max >= 1` |
| Cache.CacheService.Store | src/services/cache.ts:99-100 | `Map.set` then `manageCacheSize` yield the state `AfterSet` describes and keep the size bound; `size` is unchanged when the Map stays within its bound after the set, and is the Map's size after an eviction |
| Cache.CacheService.Put | src/services/cache.ts:99 | `Map.set`: a new key goes to the end of the order; an existing key keeps its place |
| Cache.CacheService.Invalidate | src/services/cache.ts:104-113 | removes exactly `url`, and returns true iff it was stored |
| Cache.CacheService.InvalidatePattern | src/services/cache.ts:115-135 | removes exactly the entries whose url contains the pattern, and returns how many it removed |
| Cache.CacheService.Clear | src/services/cache.ts:137-142 | empties the Map and resets hits, misses and size |
| Cache.CacheService.GetStats | src/services/cache.ts:144-147 | sweeps, then reports hits, misses and the size after the sweep |
| Cache.CacheService.Urls | src/services/cache.ts:151 | the url of each entry, in iteration order, is the order itself |
| Cache.CacheService.GetCachedUrls | src/services/cache.ts:149-152 | sweeps, then lists exactly the valid entries' urls, in insertion order |
| Numbers.NatToString | src/services/api.ts:65 | `String(n)`: decimal digits with no leading zero, a single digit exactly below 10 |
| Numbers.ParseNatToString | src/services/api.ts:92 | `parseInt` reads back what `String(n)` writes |
| Numbers.NatToStringInjective | src/services/api.ts:65 | different numbers are written as different decimal texts |
| Urls.Endpoint | src/constants/app-config.ts:3-7 | every endpoint starts with `/` |
| Urls.ListUrl | src/services/api.ts:54 | a list request is the base URL, then the resource's endpoint, then the query string |
| Urls.ItemUrl | src/services/api.ts:59 | an item request is the base URL, then the resource's endpoint, then `/` and the id |
| Urls.BatchUrl | src/services/api.ts:65-66 | a batch request is the base URL, then the resource's endpoint, then `/` and the ids joined by `,` |
| Urls.Join | src/services/api.ts:65 | joining one part gives the part; joining none gives the empty string; `SplitJoin` gives the general case |
| Urls.BatchOfOne | src/services/api.ts:63-67 | a batch of one id asks for the same URL as that single item |
| Urls.SplitJoin | src/services/api.ts:65 | splitting a join at its separator gives the parts back when no part contains it |
| Urls.NoCommaInIdText | src/services/api.ts:65 | the decimal text of an id never contains `,` |
| Urls.IntToStringInjective | src/services/api.ts:59 | different ids are written differently |
| Urls.BatchPathSplits | src/services/api.ts:65 | the batch path of a non-empty id list splits at `,` into the ids' texts, in order |
| Urls.BatchPathEmpty | src/services/api.ts:65 | the batch path is empty exactly for no ids |
| Urls.BatchUrlInjective | src/services/api.ts:63-67 | different id lists are requested at different batch URLs, so they never share a cache entry |
| Urls.FirstMatch | src/services/api.ts:91 | the leftmost position where `/kind/\d+` matches, or none when it matches nowhere |
| Urls.DigitRunEnd | src/services/api.ts:91 | the greedy `\d+` stops at the first non-digit |
| Urls.IdFromUrl | src/services/api.ts:90-93 | `get{Location,Episode,Character}IdFromUrl` (lines 90-93, 114-117, 125-128): null exactly when `/kind/\d+` matches nowhere; otherwise the value of the digits after some match |
| Urls.IdsFromUrls | src/services/api.ts:130-134 | `get{Episode,Character}IdsFromUrls` (lines 119-123, 130-134): at most one id per url |
| Urls.IdFromUrlSome | src/services/api.ts:90-93 | otherwise it yields `parseInt` of the digits after the leftmost match |
| Urls.IdFromItemUrl | src/services/api.ts:125-128 | the extractor reads back the id from the item URL `getCharacter(id)` and its siblings request |
| Urls.Lookups | src/services/api.ts:131-132 | `urls.map(getXIdFromUrl)` has one lookup per url, position by position |
| Urls.PresentAppend | src/services/api.ts:133 | `filter(id !== null)` keeps order: it distributes over concatenation |
| Urls.PresentAll | src/services/api.ts:133 | when nothing is null, filtering keeps every value in place |
| Urls.PresentSound | src/services/api.ts:133 | every value that survives the filter was present in the input |
| Urls.IdsFromUrlsAppend | src/services/api.ts:130-134 | extracting ids from a concatenation gives the ids of each part, in order |
| Urls.IdsFromOneUrl | src/services/api.ts:119-123 | a url contributes its id when it carries one, and nothing otherwise |
| Urls.IdsFromMatchingUrls | src/services/api.ts:119-123 | when every url carries an id, the result lists them position by position |
| Urls.IdsFromUrlsSound | src/services/api.ts:130-134 | every id in the result was read from some url of the input |
| Urls.IdsFromItemUrls | src/services/api.ts:130-134 | extracting the ids of a list of item URLs gives back the ids, in order |
| Query.Utf8 | src/services/api.ts:26 | one to four bytes per code point, each below 256; a single byte exactly for ASCII |
| Query.EncodeChar | src/services/api.ts:26 | every code point is written as at least one character |
| Query.DecodeEncode | src/services/api.ts:26 | percent-decoding the serialised text gives back the UTF-8 bytes of the input |
| Query.EncodeNoSeparators | src/services/api.ts:26 | serialised names and values never contain `&` or `=` |
| Query.EncodeUnreserved | src/services/api.ts:26 | a string of unreserved characters is written as it is |
| Query.SetPairs | src/services/api.ts:20-24 | at most one pair per filter entry |
| Query.Serialize | src/services/api.ts:26 | the serialised text is empty exactly when there are no pairs |
| Query.QueryString | src/services/api.ts:26-27 | empty exactly when no pair is kept; otherwise `?` followed by the serialised pairs |
| Query.BuildQueryString | src/services/api.ts:17-28 | the loop builds exactly `QueryString` of the filters |
| Query.SetPairsAppend | src/services/api.ts:20-24 | skipping unset values keeps the entries' order |
| Query.SetPairsOne | src/services/api.ts:21-22 | a pair survives exactly when its value is not undefined, null or `''`, and then it reads `String(value)` |
| Query.QueryStringEmpty | src/services/api.ts:26-27 | the result is empty exactly when no filter value is set |
| Query.ParsePairText | src/services/api.ts:26 | each serialised pair parses back to the bytes of its name and value |
| Query.QueryRoundTrip | src/services/api.ts:17-28 | parsing the query string gives back every set filter, as the UTF-8 bytes of its name and value, in order |
| Query.QueryExample | src/services/api.ts:17-28 | name "rick", empty status and page 2 give `?name=rick&page=2` |
| Api.ErrorMessage | src/services/api.ts:33 | the thrown message is never empty, and it is the body whenever the body is non-empty |
| Api.EmptyBodyMessage | src/services/api.ts:33 | with an empty body the message is `HTTP Error: <status> <statusText>` |
| Api.HandleResponse | src/services/api.ts:30-36 | an ok response yields its decoded body; any other fails with `ErrorMessage` of its status, status text and body, which is never empty |
| Api.Settle | src/services/api.ts:44-45 | a rejected fetch fails with its reason; an ok response yields its decoded body; any other response fails with `ErrorMessage` of its status, status text and body |
| Api.Swept | src/services/cache.ts:75 | the lookup's sweep keeps, unchanged, exactly the stored entries still valid at `now`, and the survivors keep their iteration order |
| Api.FetchWithCache | src/services/api.ts:38-50 | one request: the network is asked exactly when the cache does not serve the url at lookup time; the answer is the cached data or the settled response; exactly one hit or miss is counted; only successful fetched data is stored, stamped with the clock reading taken when `set` runs |
| Api.Fill | src/services/api.ts:44-47 | the miss path settles the response and, only on success, stores it with the effective lifetime and the store's clock reading |
| Api.SweepShrinks | src/services/cache.ts:75 | the sweep never grows the Map |
| Api.FetchStores | src/services/api.ts:44-49 | after a successful fetch the data is cached under the url with the requested lifetime and the store's time stamp, when every other entry is older and `max >= 1` |
| Api.FailureNotStored | src/services/api.ts:45-47 | a request that fails writes nothing, and leaves no servable entry under its url |
| Api.RefetchServed | src/services/api.ts:39-42 | once non-null data is cached, a later request within its lifetime is answered from the cache without fetching |
| Api.GetList | src/services/api.ts:52-56 | a list request fetches through the cache at base + endpoint + query string with the MEDIUM lifetime |
| Api.GetItem | src/services/api.ts:58-61 | an item request fetches through the cache at base + endpoint + `/id` with the LONG lifetime |
| Api.AsList | src/services/api.ts:68 | an array is returned as is; any other value becomes a one-element list |
| Api.ListAnswer | src/services/api.ts:67-68 | the batch answer succeeds exactly when the request does: its value is the data normalised to a list (`AsList`), and an error keeps its message |
| Api.GetMultiple | src/services/api.ts:63-69 | no ids: an empty list, no fetch, cache and counters unchanged; otherwise one request for all ids with the LONG lifetime, normalised to a list |
| Api.GetApiInfo | src/services/api.ts:136-142 | the API root fetches through the cache with the EXTRA_LONG lifetime |
| CacheHelpers.SharedService | src/services/cache.ts:166-169 | the shared instance starts empty, with the MEDIUM default lifetime and at most 100 entries |
| CacheHelpers.RequestKeepsApiKeys | src/services/api.ts:47 | a request for an API URL keeps every cache key an API URL, so the shared cache only ever holds API URLs |
| CacheHelpers.BaseIsApiUrl | src/services/api.ts:141 | the root `getApiInfo` requests is itself an API URL |
| CacheHelpers.RequestIncludesEndpoint | src/services/api.ts:54 | every request URL starts with the base and contains its resource's endpoint |
| CacheHelpers.ListMatchesKind | src/services/cache.ts:184 | each list URL matches its resource's invalidation pattern |
| CacheHelpers.ItemMatchesKind | src/services/cache.ts:184 | each item URL matches its resource's invalidation pattern |
| CacheHelpers.BatchMatchesKind | src/services/cache.ts:184 | each batch URL matches its resource's invalidation pattern |
| CacheHelpers.InvalidateKind | src/services/cache.ts:184-186 | removes exactly the entries whose url contains the endpoint, the survivors keeping their order; afterwards no list, item or batch URL of the resource is cached |
| CacheHelpers.InvalidateItemAsWritten | src/services/cache.ts:187-189 | as written: deletes the relative key `/character/<id>` and its siblings, and only that key, from the Map and its order |
| CacheHelpers.RelativeKeyNeverStored | src/services/cache.ts:187-189 | no key the accessors store is a relative key, so the as-written helper leaves a cached item in place |
| CacheHelpers.InvalidateCharacterMisses | src/services/cache.ts:187 | after `getCharacter(1)`, `invalidateCharacter(1)` leaves `https://rickandmortyapi.com/api/character/1` cached |
| CacheHelpers.InvalidateItem | src/services/cache.ts:187-189 | corrected: deletes exactly the item's request URL from the Map and its order, so the item is no longer cached |
| CacheHelpers.InvalidateItemHitsRequest | src/services/api.ts:58-61 | the key the corrected helper deletes is the one the item accessor stores, and differs from the relative key |
| CacheHelpers.GetStats | src/services/cache.ts:190 | sweeps the expired entries from the Map and its order, then reports the counters and the size after the sweep |
| CacheHelpers.ClearAll | src/services/cache.ts:191 | empties the shared cache and its order and resets every counter |
| Pagination.Range | src/components/Pagination.tsx:29-31 | the pages from `lo` to `hi`, ascending, one per number |
| Pagination.Window | src/components/Pagination.tsx:24-65 | the bar never holds more than 3 entries on a narrow screen or 7 on a wide one, and never none while there is a page |
| Pagination.PageNumbers | src/components/Pagination.tsx:24-65 | the pushes of `getPageNumbers` build exactly `Window(current, total, mobile)` |
| Pagination.WindowFaithful | src/components/Pagination.tsx:28-62 | pages appear in increasing order; "..." stands exactly where pages are skipped, never at an end; every page lies in `1..total` |
| Pagination.DesktopStart | src/components/Pagination.tsx:40-45 | near the start: pages 1 to 5, "...", the last page |
| Pagination.DesktopEnd | src/components/Pagination.tsx:46-51 | near the end: page 1, "...", the last five pages |
| Pagination.DesktopMiddle | src/components/Pagination.tsx:52-59 | in between: page 1, "...", the current page and its neighbours, "...", the last page |
| Pagination.WindowShowsCurrent | src/components/Pagination.tsx:28-62 | the current page is always among the entries |
| Pagination.WindowEnds | src/components/Pagination.tsx:28-62 | on a wide screen the first entry is page 1 and the last is the last page |
| Pagination.WindowAllFit | src/components/Pagination.tsx:28-31 | when every page fits, the bar lists pages 1 to `total` in order |
| Pagination.MobileWindow | src/components/Pagination.tsx:33-37 | on a narrow screen: the current page with the neighbours that exist |
| Pagination.ButtonsStayInRange | src/components/Pagination.tsx:69-110 | on a page of the range, each button is enabled exactly when the page it asks for exists |
| Pagination.Previous | src/components/Pagination.tsx:69-72 | asks for `current - 1` and is disabled exactly on page 1, that is, exactly when its target is below 1 |
| Pagination.Next | src/components/Pagination.tsx:107-110 | asks for `current + 1` and is disabled exactly on the last page, that is, exactly when its target is past the last |

## Left out

- Network I/O, `async`/`await` and JSON decoding. `network(url)` is a parameter giving what `fetch(url)` settles to, and the decoded body is part of that value.
- The clock. `Date.now()` is a parameter. A request reads it as `now` for the lookup and as `storedAt` when `set` stamps the entry. `get` reads the clock twice, in the sweep and in `isValid`; the model uses the one reading `now` for both.
- Floating point:
  - `getHitRate` is computed on `real`;
  - `Math.ceil(max * 0.2)` is the integer `(max + 4) / 5`;
  - `Infinity` is the lifetime `Never`;
  - a fractional or negative lifetime is an `int`.
- Concurrency: two requests for the same URL in flight at once are not modelled. Each `fetchWithCache` runs to completion.
- `generateKey` is the identity on the URL, so the model files entries under the URL directly.
- React rendering, the resize listener and `isMobile` detection. `mobile` is a parameter. On a narrow screen the component does not render the page numbers; the model still proves the window `getPageNumbers` computes there.
- `Object.entries` lists integer-like keys first. Filter objects are modelled as a sequence of entries in iteration order.
- Urls.IdFromUrl: `parseInt` rounds digit runs beyond 2^53. The model reads them exactly.
- Urls.IdsFromUrls is stated for every resource kind. The source has `getEpisodeIdsFromUrls` and `getCharacterIdsFromUrls` but no `getLocationIdsFromUrls`.
- The filter data service, hooks, routing, components other than the pagination bar, and `utils` are not part of this model.

## Findings

| source | as written | input that shows it | evidently intended | confidence | as-written member | corrected member |
|---|---|---|---|---|---|---|
| src/services/cache.ts:187-189 | `invalidateCharacter(id)`, `invalidateLocation(id)` and `invalidateEpisode(id)` delete the key `/character/${id}` (and siblings), a path without the base URL | `getCharacter(1)` stores `https://rickandmortyapi.com/api/character/1`; `invalidateCharacter(1)` deletes `/character/1`, which is never a key, so the entry stays | delete the entry under the item's full request URL | not executed | CacheHelpers.InvalidateItemAsWritten, CacheHelpers.InvalidateCharacterMisses | CacheHelpers.InvalidateItem |
