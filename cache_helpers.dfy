/**
 * The application's shared cache and the shortcuts the rest of the client
 * uses to drop groups of entries, drop one item, read the statistics and
 * empty the cache.
 */
module CacheHelpers {
  import opened Wrappers
  import opened Numbers
  import opened Cache
  import opened Urls
  import Config
  import Api
  import Sequences

  /** The shared instance: the MEDIUM lifetime by default and at most `MAX_SIZE` entries. */
  method SharedService() returns (svc: CacheService<Api.Json>)
    ensures fresh(svc) && svc.Valid() && svc.Bounded() && ApiKeysOnly(svc.cache)
    ensures svc.cache == map[] && svc.order == [] && svc.hits == 0 && svc.misses == 0
    ensures svc.defaultTTL == MEDIUM && svc.maxCacheSize == Config.MAX_SIZE
  {
    svc := new CacheService(MEDIUM, Config.MAX_SIZE);
  }

  /** True iff `url` starts with the API base, as every URL the accessors request does. */
  predicate IsApiUrl(url: string) {
    |Config.BASE_URL| <= |url| && url[..|Config.BASE_URL|] == Config.BASE_URL
  }

  /** Every key of the cache is a URL of the API. */
  predicate ApiKeysOnly(cache: map<string, Entry<Api.Json>>) {
    forall k :: k in cache ==> IsApiUrl(k)
  }

  /**
   * A request for an API URL keeps every key an API URL: the lookup only
   * deletes, and the store files at most the requested URL.
   */
  lemma RequestKeepsApiKeys(s0: Api.CacheState, s1: Api.CacheState, url: string, ttl: Ttl, now: int, storedAt: int,
                            network: string -> Api.FetchOutcome, r: Result<Api.Json>, fetched: bool, max: nat)
    requires Elems(s0.order) == s0.cache.Keys
    requires Api.FetchThrough(s0, s1, url, ttl, now, storedAt, network, r, fetched, max)
    requires IsApiUrl(url) && ApiKeysOnly(s0.cache)
    ensures ApiKeysOnly(s1.cache)
  {
    var swept := Api.Swept(s0, now);
    if fetched && r.Success? {
      AfterSetChangesOnlyUrl(swept.0, swept.1, url, Entry(r.value, storedAt, ttl, url), max);
    }
  }

  /** The API root itself, which `getApiInfo` requests, is an API URL. */
  lemma BaseIsApiUrl()
    ensures IsApiUrl(Config.BASE_URL)
  {
  }

  /** Every request of a resource, list, item or batch, has the resource's endpoint right after the base. */
  lemma RequestIncludesEndpoint(kind: Kind, rest: string)
    ensures IsApiUrl(Config.BASE_URL + Endpoint(kind) + rest)
    ensures Includes(Config.BASE_URL + Endpoint(kind) + rest, Endpoint(kind))
  {
    var url := Config.BASE_URL + Endpoint(kind) + rest;
    var i := |Config.BASE_URL|;
    assert url[i..i + |Endpoint(kind)|] == Endpoint(kind);
    assert OccursAt(url, Endpoint(kind), i);
  }

  /** A list URL of a resource matches that resource's invalidation pattern. */
  lemma ListMatchesKind(kind: Kind, query: string)
    ensures IsApiUrl(ListUrl(kind, query)) && Includes(ListUrl(kind, query), Endpoint(kind))
  {
    RequestIncludesEndpoint(kind, query);
  }

  /** An item URL of a resource matches that resource's invalidation pattern. */
  lemma ItemMatchesKind(kind: Kind, id: Id)
    ensures IsApiUrl(ItemUrl(kind, id)) && Includes(ItemUrl(kind, id), Endpoint(kind))
  {
    var rest := "/" + IdText(id);
    Sequences.AppendAssoc(Config.BASE_URL + Endpoint(kind), "/", IdText(id));
    RequestIncludesEndpoint(kind, rest);
  }

  /** A batch URL of a resource matches that resource's invalidation pattern. */
  lemma BatchMatchesKind(kind: Kind, ids: seq<int>)
    ensures IsApiUrl(BatchUrl(kind, ids)) && Includes(BatchUrl(kind, ids), Endpoint(kind))
  {
    var rest := "/" + Join(IdTexts(ids), ",");
    Sequences.AppendAssoc(Config.BASE_URL + Endpoint(kind), "/", Join(IdTexts(ids), ","));
    RequestIncludesEndpoint(kind, rest);
  }

  /**
   * `invalidateCharacters`, `invalidateLocations`, `invalidateEpisodes`:
   * drop every entry whose url contains the resource's endpoint.
   */
  method InvalidateKind(svc: CacheService<Api.Json>, kind: Kind) returns (count: nat)
    requires svc.Valid()
    modifies svc`cache, svc`order, svc`size
    ensures svc.Valid()
    ensures svc.cache == old(svc.cache) - MatchingKeys(old(svc.cache), Endpoint(kind))
    ensures svc.order == Without(old(svc.order), MatchingKeys(old(svc.cache), Endpoint(kind)))
    ensures count == |MatchingKeys(old(svc.cache), Endpoint(kind))|
    ensures forall query :: ListUrl(kind, query) !in svc.cache
    ensures forall id :: ItemUrl(kind, id) !in svc.cache
    ensures forall ids :: BatchUrl(kind, ids) !in svc.cache
  {
    count := svc.InvalidatePattern(Endpoint(kind));
    forall query
      ensures ListUrl(kind, query) !in svc.cache
    {
      ListMatchesKind(kind, query);
    }
    forall id
      ensures ItemUrl(kind, id) !in svc.cache
    {
      ItemMatchesKind(kind, id);
    }
    forall ids
      ensures BatchUrl(kind, ids) !in svc.cache
    {
      BatchMatchesKind(kind, ids);
    }
  }

  /** The key `invalidateCharacter(id)` and its siblings pass: the endpoint and id without the base. */
  function RelativeKey(kind: Kind, id: int): string {
    Endpoint(kind) + "/" + IntToString(id)
  }

  /** `invalidateCharacter`, `invalidateLocation`, `invalidateEpisode` as written: delete the relative key. */
  method InvalidateItemAsWritten(svc: CacheService<Api.Json>, kind: Kind, id: int) returns (deleted: bool)
    requires svc.Valid()
    modifies svc`cache, svc`order, svc`size
    ensures svc.Valid()
    ensures deleted == (RelativeKey(kind, id) in old(svc.cache))
    ensures svc.cache == old(svc.cache) - {RelativeKey(kind, id)}
    ensures svc.order == Without(old(svc.order), {RelativeKey(kind, id)})
  {
    deleted := svc.Invalidate(RelativeKey(kind, id));
  }

  /**
   * No URL an accessor requests is a relative key, so while the cache
   * holds only API URLs the single-item helpers as written delete nothing
   * and leave the item's entry in place. The shared cache always does: it
   * starts empty (`SharedService`), and every request keeps it so
   * (`RequestKeepsApiKeys`, with `ListMatchesKind`, `ItemMatchesKind`,
   * `BatchMatchesKind` and `BaseIsApiUrl` for the URLs requested).
   */
  lemma RelativeKeyNeverStored(cache: map<string, Entry<Api.Json>>, kind: Kind, id: int)
    requires ApiKeysOnly(cache)
    ensures RelativeKey(kind, id) !in cache
    ensures ItemUrl(kind, Num(id)) in cache ==> ItemUrl(kind, Num(id)) in cache - {RelativeKey(kind, id)}
  {
    var key := RelativeKey(kind, id);
    assert key[0] == '/';
    assert !IsApiUrl(key) by {
      assert Config.BASE_URL[0] == 'h';
    }
  }

  /** A concrete case: after `getCharacter(1)`, `invalidateCharacter(1)` leaves its entry cached. */
  lemma InvalidateCharacterMisses(cache: map<string, Entry<Api.Json>>)
    requires ApiKeysOnly(cache)
    requires "https://rickandmortyapi.com/api/character/1" in cache
    ensures RelativeKey(Character, 1) == "/character/1"
    ensures "https://rickandmortyapi.com/api/character/1" in cache - {RelativeKey(Character, 1)}
  {
    RelativeKeyNeverStored(cache, Character, 1);
    assert RelativeKey(Character, 1) == "/character/1";
  }

  /** The single-item helpers as intended: delete the entry filed under the item's request URL. */
  method InvalidateItem(svc: CacheService<Api.Json>, kind: Kind, id: int) returns (deleted: bool)
    requires svc.Valid()
    modifies svc`cache, svc`order, svc`size
    ensures svc.Valid()
    ensures deleted == (ItemUrl(kind, Num(id)) in old(svc.cache))
    ensures svc.cache == old(svc.cache) - {ItemUrl(kind, Num(id))}
    ensures svc.order == Without(old(svc.order), {ItemUrl(kind, Num(id))})
    ensures ItemUrl(kind, Num(id)) !in svc.cache
  {
    deleted := svc.Invalidate(ItemUrl(kind, Num(id)));
  }

  /** The key the corrected helper deletes is the one `getCharacter(id)` and its siblings store. */
  lemma InvalidateItemHitsRequest(kind: Kind, id: int)
    ensures IsApiUrl(ItemUrl(kind, Num(id)))
    ensures ItemUrl(kind, Num(id)) != RelativeKey(kind, id)
  {
    ItemMatchesKind(kind, Num(id));
    RelativeKeyNeverStored(map[ItemUrl(kind, Num(id)) := Entry(Api.JNull, 0, Never, "")], kind, id);
  }

  /** `cacheHelpers.getStats`. */
  method GetStats(svc: CacheService<Api.Json>, now: int) returns (s: CacheStats)
    requires svc.Valid()
    modifies svc`cache, svc`order, svc`size
    ensures svc.Valid()
    ensures svc.cache == old(svc.cache) - ExpiredKeys(old(svc.cache), now)
    ensures svc.order == Without(old(svc.order), ExpiredKeys(old(svc.cache), now))
    ensures s == CacheStats(svc.hits, svc.misses, |svc.cache|)
  {
    s := svc.GetStats(now);
  }

  /** `cacheHelpers.clearAll`. */
  method ClearAll(svc: CacheService<Api.Json>)
    modifies svc`cache, svc`order, svc`size, svc`hits, svc`misses
    ensures svc.Valid() && svc.cache == map[] && svc.order == []
    ensures svc.hits == 0 && svc.misses == 0 && svc.size == 0
  {
    svc.Clear();
  }
}
