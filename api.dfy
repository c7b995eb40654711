/**
 * The fetch-through layer: every request first asks the shared cache, and
 * only on a miss goes to the network, turns the response into data or an
 * error, and files successful data in the cache under the request URL.
 *
 * The network is a parameter: `network(url)` is what `fetch(url)` settles
 * to. JSON decoding is not modelled; a response carries the outcome of
 * `response.json()` as a value.
 */
module Api {
  import opened Wrappers
  import opened Numbers
  import opened Cache
  import opened Urls
  import Query
  import Config

  /** A decoded JSON value. */
  datatype Json =
    | JNull
    | JBool(b: bool)
    | JNum(n: int)
    | JStr(s: string)
    | JArr(items: seq<Json>)
    | JObj(fields: seq<(string, Json)>)

  /** What `fetch(url)` settles to. */
  datatype FetchOutcome =
    | Rejected(reason: string)
    | Answered(ok: bool, status: int, statusText: string, body: string, json: Result<Json>)

  // ---------------------------------------------------------------------------
  // handleResponse.
  // ---------------------------------------------------------------------------

  /** The message `handleResponse` throws for a response that is not ok. */
  function ErrorMessage(status: int, statusText: string, body: string): (m: string)
    ensures m != ""
    ensures body != "" ==> m == body
  {
    if body != "" then body else "HTTP Error: " + IntToString(status) + " " + statusText
  }

  /** `handleResponse`: the decoded body of an ok response, otherwise an error. */
  function HandleResponse(outcome: FetchOutcome): (r: Result<Json>)
    requires outcome.Answered?
    ensures outcome.ok ==> r == outcome.json
    ensures !outcome.ok ==> r.Failure? && r.message != ""
    ensures !outcome.ok ==> r == Failure(ErrorMessage(outcome.status, outcome.statusText, outcome.body))
  {
    if !outcome.ok then Failure(ErrorMessage(outcome.status, outcome.statusText, outcome.body))
    else outcome.json
  }

  /** `await fetch(url)` then `handleResponse`: a rejected fetch propagates its error. */
  function Settle(outcome: FetchOutcome): (r: Result<Json>)
    ensures outcome.Rejected? ==> r == Failure(outcome.reason)
    ensures outcome.Answered? && outcome.ok ==> r == outcome.json
    ensures outcome.Answered? && !outcome.ok ==> r.Failure? && r.message != ""
    ensures outcome.Answered? && !outcome.ok ==>
              r == Failure(ErrorMessage(outcome.status, outcome.statusText, outcome.body))
  {
    match outcome
    case Rejected(reason) => Failure(reason)
    case Answered(_, _, _, _, _) => HandleResponse(outcome)
  }

  /** With an empty body the message names the status code and text. */
  lemma EmptyBodyMessage(status: int, statusText: string)
    ensures ErrorMessage(status, statusText, "") == "HTTP Error: " + IntToString(status) + " " + statusText
  {
  }

  // ---------------------------------------------------------------------------
  // fetchWithCache.
  // ---------------------------------------------------------------------------

  /** The cache serves `url`: a valid entry whose data is not null (`cached !== null`). */
  predicate Served(cache: map<string, Entry<Json>>, url: string, now: int) {
    url in cache && IsLive(cache[url], now) && cache[url].data != JNull
  }

  /** What `fetchWithCache(url)` resolves to, or the error it rejects with. */
  function Answer(cache: map<string, Entry<Json>>, url: string, now: int, network: string -> FetchOutcome): Result<Json> {
    if Served(cache, url, now) then Success(cache[url].data) else Settle(network(url))
  }

  /** The part of a `CacheService` that a request reads and writes. */
  datatype CacheState = CacheState(cache: map<string, Entry<Json>>, order: seq<string>, hits: nat, misses: nat)

  ghost function StateOf(svc: CacheService<Json>): CacheState
    reads svc
  {
    CacheState(svc.cache, svc.order, svc.hits, svc.misses)
  }

  /** The Map and its iteration order once the lookup has swept the entries expired at `now`. */
  function Swept(s: CacheState, now: int): (r: (map<string, Entry<Json>>, seq<string>))
    requires Elems(s.order) == s.cache.Keys
    ensures r.0.Keys <= s.cache.Keys && Elems(r.1) == r.0.Keys
    ensures forall k :: k in r.0 ==> r.0[k] == s.cache[k] && IsLive(s.cache[k], now)
    ensures forall k :: k in s.cache && IsLive(s.cache[k], now) ==> k in r.0
    ensures r.1 == Without(s.order, ExpiredKeys(s.cache, now))
  {
    var expired := ExpiredKeys(s.cache, now);
    (s.cache - expired, Without(s.order, expired))
  }

  /** The lookup counts a hit when a valid entry is stored under `url`, and a miss otherwise. */
  predicate Counted(s0: CacheState, s1: CacheState, url: string, now: int) {
    if url in s0.cache && IsLive(s0.cache[url], now) then s1.hits == s0.hits + 1 && s1.misses == s0.misses
    else s1.hits == s0.hits && s1.misses == s0.misses + 1
  }

  /** From the swept Map `swept`, `set` files `e` under `url` when `store` holds; otherwise nothing is written. */
  predicate Written(swept: (map<string, Entry<Json>>, seq<string>), s1: CacheState, url: string, e: Entry<Json>, store: bool, max: nat)
    requires Elems(swept.1) == swept.0.Keys
  {
    if store then (s1.cache, s1.order) == AfterSet(swept.0, swept.1, url, e, max)
    else s1.cache == swept.0 && s1.order == swept.1
  }

  /**
   * One `fetchWithCache(url, ttl)` whose lookup reads the clock as `now`
   * and whose store reads it again, once the response has settled, as
   * `storedAt`, takes the cache from `s0` to `s1` and settles to `r`:
   *  - the lookup sweeps the expired entries and counts one hit or one miss;
   *  - the network is asked (`fetched`) exactly when the cache does not serve `url`;
   *  - the result is the cached data, or what the response settles to;
   *  - only fetched data that settled successfully is written, by `set`,
   *    stamped `storedAt`; a failure writes nothing.
   */
  ghost predicate FetchThrough(
    s0: CacheState, s1: CacheState, url: string, ttl: Ttl, now: int, storedAt: int,
    network: string -> FetchOutcome, r: Result<Json>, fetched: bool, max: nat)
    requires Elems(s0.order) == s0.cache.Keys
  {
    && fetched == !Served(s0.cache, url, now)
    && r == Answer(s0.cache, url, now, network)
    && Counted(s0, s1, url, now)
    && Written(Swept(s0, now), s1, url, Entry(if r.Success? then r.value else JNull, storedAt, ttl, url), fetched && r.Success?, max)
  }

  /** `fetchWithCache`: answer from the cache, or fetch, settle and store; `now` is the clock at the lookup, `storedAt` the clock when `set` runs. */
  method FetchWithCache(svc: CacheService<Json>, url: string, ttl: Option<Ttl>, now: int, storedAt: int, network: string -> FetchOutcome)
    returns (r: Result<Json>, fetched: bool)
    requires svc.Valid()
    modifies svc`cache, svc`order, svc`size, svc`hits, svc`misses
    ensures svc.Valid()
    ensures FetchThrough(old(StateOf(svc)), StateOf(svc), url, EffectiveTtl(ttl, svc.defaultTTL), now, storedAt, network, r, fetched, svc.maxCacheSize)
    ensures old(svc.Bounded()) && svc.maxCacheSize >= 1 ==> svc.Bounded()
  {
    ghost var s0 := StateOf(svc);
    var cached := svc.Get(url, now);
    ghost var s1 := StateOf(svc);
    ghost var t := EffectiveTtl(ttl, svc.defaultTTL);
    assert (s1.cache, s1.order) == Swept(s0, now) && Counted(s0, s1, url, now);
    SweepShrinks(s0.cache, now);
    if cached.Some? && cached.value != JNull {
      r, fetched := Success(cached.value), false;
      HitThrough(s0, s1, url, t, now, storedAt, network, svc.maxCacheSize);
      return;
    }
    assert !Served(s0.cache, url, now);
    r := Fill(svc, url, ttl, storedAt, network);
    fetched := true;
    MissThrough(s0, s1, StateOf(svc), url, t, now, storedAt, network, r, svc.maxCacheSize);
  }

  /** A lookup the cache serves is a whole request: no fetch, the cached data, the swept Map. */
  lemma HitThrough(s0: CacheState, s1: CacheState, url: string, ttl: Ttl, now: int, storedAt: int,
                   network: string -> FetchOutcome, max: nat)
    requires Elems(s0.order) == s0.cache.Keys
    requires (s1.cache, s1.order) == Swept(s0, now) && Counted(s0, s1, url, now)
    requires Served(s0.cache, url, now)
    ensures FetchThrough(s0, s1, url, ttl, now, storedAt, network, Success(s0.cache[url].data), false, max)
  {
  }

  /** A lookup the cache does not serve, followed by the fetch and the store, is a whole request. */
  lemma MissThrough(s0: CacheState, s1: CacheState, s2: CacheState, url: string, ttl: Ttl, now: int, storedAt: int,
                    network: string -> FetchOutcome, r: Result<Json>, max: nat)
    requires Elems(s0.order) == s0.cache.Keys
    requires (s1.cache, s1.order) == Swept(s0, now) && Counted(s0, s1, url, now)
    requires !Served(s0.cache, url, now) && r == Settle(network(url))
    requires Written((s1.cache, s1.order), s2, url, Entry(if r.Success? then r.value else JNull, storedAt, ttl, url), r.Success?, max)
    requires s2.hits == s1.hits && s2.misses == s1.misses
    ensures FetchThrough(s0, s2, url, ttl, now, storedAt, network, r, true, max)
  {
  }

  /** The miss path of `fetchWithCache`: fetch, settle, and store what settled successfully. */
  method Fill(svc: CacheService<Json>, url: string, ttl: Option<Ttl>, storedAt: int, network: string -> FetchOutcome)
    returns (r: Result<Json>)
    requires svc.Valid()
    modifies svc`cache, svc`order, svc`size
    ensures svc.Valid()
    ensures r == Settle(network(url))
    ensures Written((old(svc.cache), old(svc.order)), StateOf(svc), url,
                    Entry(if r.Success? then r.value else JNull, storedAt, EffectiveTtl(ttl, svc.defaultTTL), url), r.Success?, svc.maxCacheSize)
    ensures old(svc.Bounded()) && svc.maxCacheSize >= 1 ==> svc.Bounded()
  {
    r := Settle(network(url));
    if r.Success? {
      svc.Set(url, r.value, ttl, storedAt);
    }
  }

  /** The sweep a lookup starts with never grows the Map. */
  lemma SweepShrinks(cache: map<string, Entry<Json>>, now: int)
    ensures |cache - ExpiredKeys(cache, now)| <= |cache|
  {
    var swept := cache - ExpiredKeys(cache, now);
    assert swept.Keys <= cache.Keys;
    assert |swept.Keys| <= |cache.Keys|;
  }

  /**
   * After a successful fetch the data is in the cache under `url` with the
   * requested lifetime and the store's time stamp, provided the clock has
   * moved on since every other entry was stored and the cache may hold at
   * least one entry.
   */
  lemma FetchStores(s0: CacheState, s1: CacheState, url: string, ttl: Ttl, now: int, storedAt: int,
                    network: string -> FetchOutcome, r: Result<Json>, max: nat)
    requires Distinct(s0.order) && Elems(s0.order) == s0.cache.Keys && max >= 1
    requires forall k :: k in s0.cache ==> s0.cache[k].timestamp < storedAt
    requires FetchThrough(s0, s1, url, ttl, now, storedAt, network, r, true, max) && r.Success?
    ensures url in s1.cache && s1.cache[url] == Entry(r.value, storedAt, ttl, url)
  {
    var expired := ExpiredKeys(s0.cache, now);
    WithoutDistinct(s0.order, expired);
    var e := Entry(r.value, storedAt, ttl, url);
    AfterSetKeepsNewest(s0.cache - expired, Without(s0.order, expired), url, e, max);
    AfterSetChangesOnlyUrl(s0.cache - expired, Without(s0.order, expired), url, e, max);
  }

  /**
   * A request that settles in an error leaves the cache as the lookup's
   * sweep left it: failures are never stored.
   */
  lemma FailureNotStored(s0: CacheState, s1: CacheState, url: string, ttl: Ttl, now: int, storedAt: int,
                         network: string -> FetchOutcome, r: Result<Json>, fetched: bool, max: nat)
    requires Elems(s0.order) == s0.cache.Keys
    requires FetchThrough(s0, s1, url, ttl, now, storedAt, network, r, fetched, max) && r.Failure?
    ensures s1.cache.Keys <= s0.cache.Keys
    ensures forall k :: k in s1.cache ==> s1.cache[k] == s0.cache[k]
    ensures url in s1.cache ==> !Served(s1.cache, url, now)
  {
  }

  /**
   * Once a fetch has stored non-null data at `storedAt`, the same request
   * made at any `later` time within the entry's lifetime is served by the
   * cache and does not fetch.
   */
  lemma RefetchServed(s1: CacheState, url: string, ttl: Ttl, storedAt: int, later: int, v: Json)
    requires url in s1.cache && s1.cache[url] == Entry(v, storedAt, ttl, url)
    requires v != JNull && (ttl.Finite? ==> later - storedAt < ttl.ms)
    ensures Served(s1.cache, url, later)
    ensures forall network :: Answer(s1.cache, url, later, network) == Success(v)
  {
  }

  // ---------------------------------------------------------------------------
  // The accessors.
  // ---------------------------------------------------------------------------

  /** `getCharacters`, `getLocations`, `getEpisodes`: a filtered page of a resource. */
  method GetList(svc: CacheService<Json>, kind: Kind, filters: seq<(string, Query.ParamValue)>, now: int,
                 storedAt: int, network: string -> FetchOutcome)
    returns (r: Result<Json>, fetched: bool)
    requires svc.Valid()
    modifies svc`cache, svc`order, svc`size, svc`hits, svc`misses
    ensures svc.Valid()
    ensures FetchThrough(old(StateOf(svc)), StateOf(svc), ListUrl(kind, Query.QueryString(filters)), MEDIUM,
                         now, storedAt, network, r, fetched, svc.maxCacheSize)
  {
    var queryString := Query.BuildQueryString(filters);
    var url := ListUrl(kind, queryString);
    r, fetched := FetchWithCache(svc, url, Some(MEDIUM), now, storedAt, network);
  }

  /** `getCharacter`, `getLocation`, `getEpisode`: one item by id. */
  method GetItem(svc: CacheService<Json>, kind: Kind, id: Id, now: int, storedAt: int, network: string -> FetchOutcome)
    returns (r: Result<Json>, fetched: bool)
    requires svc.Valid()
    modifies svc`cache, svc`order, svc`size, svc`hits, svc`misses
    ensures svc.Valid()
    ensures FetchThrough(old(StateOf(svc)), StateOf(svc), ItemUrl(kind, id), LONG,
                         now, storedAt, network, r, fetched, svc.maxCacheSize)
  {
    r, fetched := FetchWithCache(svc, ItemUrl(kind, id), Some(LONG), now, storedAt, network);
  }

  /** `Array.isArray(data) ? data : [data]`. */
  function AsList(data: Json): (r: seq<Json>)
    ensures data.JArr? ==> r == data.items
    ensures !data.JArr? ==> r == [data]
  {
    if data.JArr? then data.items else [data]
  }

  /** A batch answer as a list, or the error it failed with. */
  function ListAnswer(answer: Result<Json>): (r: Result<seq<Json>>)
    ensures answer.Success? <==> r.Success?
    ensures answer.Failure? ==> r.message == answer.message
    ensures answer.Success? ==> r == Success(AsList(answer.value))
  {
    match answer
    case Success(data) => Success(AsList(data))
    case Failure(m) => Failure(m)
  }

  /**
   * `getMultipleCharacters`, `getMultipleLocations`, `getMultipleEpisodes`:
   * no ids is an empty list without touching the cache or the network;
   * otherwise one request for all the ids, normalised to a list.
   */
  method GetMultiple(svc: CacheService<Json>, kind: Kind, ids: seq<int>, now: int, storedAt: int, network: string -> FetchOutcome)
    returns (r: Result<seq<Json>>, fetched: bool)
    requires svc.Valid()
    modifies svc`cache, svc`order, svc`size, svc`hits, svc`misses
    ensures svc.Valid()
    ensures ids == [] ==> r == Success([]) && !fetched && StateOf(svc) == old(StateOf(svc))
    ensures ids != [] ==>
              var answer := Answer(old(svc.cache), BatchUrl(kind, ids), now, network);
              && r == ListAnswer(answer)
              && FetchThrough(old(StateOf(svc)), StateOf(svc), BatchUrl(kind, ids), LONG,
                              now, storedAt, network, answer, fetched, svc.maxCacheSize)
  {
    if |ids| == 0 {
      return Success([]), false;
    }
    var data;
    data, fetched := FetchWithCache(svc, BatchUrl(kind, ids), Some(LONG), now, storedAt, network);
    r := ListAnswer(data);
  }

  /** `getApiInfo`: the API root, kept for the longest tier. */
  method GetApiInfo(svc: CacheService<Json>, now: int, storedAt: int, network: string -> FetchOutcome)
    returns (r: Result<Json>, fetched: bool)
    requires svc.Valid()
    modifies svc`cache, svc`order, svc`size, svc`hits, svc`misses
    ensures svc.Valid()
    ensures FetchThrough(old(StateOf(svc)), StateOf(svc), Config.BASE_URL, EXTRA_LONG,
                         now, storedAt, network, r, fetched, svc.maxCacheSize)
  {
    r, fetched := FetchWithCache(svc, Config.BASE_URL, Some(EXTRA_LONG), now, storedAt, network);
  }
}
