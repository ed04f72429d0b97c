/**
 * The caching policy of the worker as pure functions over the stores: the
 * configuration constants, the effect of install and activate, and the
 * response and new stores of each fetch route. Lemmas state what the policy
 * promises.
 */
module CachePolicy {
  import opened Wrappers
  import opened Http
  import opened CacheStorage

  const CACHE_VERSION: string := "v2025-09-06"
  const CACHE_PREFIX: string := "totaldays-"

  /** The name of the store that belongs to deployment `version`. */
  function CacheNameFor(version: string): string {
    CACHE_PREFIX + version
  }

  const CACHE_NAME: string := CacheNameFor(CACHE_VERSION)
  const CORE_ASSETS: seq<string> := ["./", "./index.html", "./app.html", "./icon.png", "./manifest.webmanifest"]
  const RUNTIME_CACHE: string := "runtime"

  /** The offline fallbacks for navigations, in order of preference. */
  const APP_SHELL: string := "./app.html"
  const INDEX_PAGE: string := "./index.html"

  /** The configuration: the versioned name, the five core assets in order, and two distinct store names. */
  lemma Configuration()
    ensures CACHE_NAME == "totaldays-v2025-09-06"
    ensures CORE_ASSETS == ["./", "./index.html", "./app.html", "./icon.png", "./manifest.webmanifest"]
    ensures Distinct(CORE_ASSETS)
    ensures APP_SHELL in CORE_ASSETS && INDEX_PAGE in CORE_ASSETS
    ensures CACHE_NAME != RUNTIME_CACHE
  {
    assert CORE_ASSETS[2] == APP_SHELL && CORE_ASSETS[1] == INDEX_PAGE;
    VersionedNameIsNotRuntime(CACHE_VERSION);
  }

  /** Two deployments share a store name exactly when they share a version. */
  lemma VersionedNamesDistinct(v: string, w: string)
    ensures CacheNameFor(v) == CacheNameFor(w) <==> v == w
  {
    if CacheNameFor(v) == CacheNameFor(w) {
      assert v == CacheNameFor(v)[|CACHE_PREFIX|..];
      assert w == CacheNameFor(w)[|CACHE_PREFIX|..];
    }
  }

  /** No versioned store name is the runtime store's name. */
  lemma VersionedNameIsNotRuntime(v: string)
    ensures CacheNameFor(v) != RUNTIME_CACHE
  {
    assert CacheNameFor(v)[0] == 't';
    assert RUNTIME_CACHE[0] == 'r';
  }

  // ---------------------------------------------------------------- install

  /** Whether every core asset can be fetched, which is when the install succeeds. */
  predicate AllCoreAssetsFetched(network: string -> Option<Response>) {
    forall a :: a in CORE_ASSETS ==> network(a).Some?
  }

  /**
   * The stores after the install handler: open the versioned store, then add
   * all core assets. No store but the versioned one changes, and no entry is lost.
   */
  function Installed(stores: Stores, network: string -> Option<Response>): (r: Stores)
    ensures CACHE_NAME in r
    ensures forall n :: n != CACHE_NAME ==> (n in r <==> n in stores)
    ensures forall n :: n != CACHE_NAME && n in stores ==> r[n] == stores[n]
    ensures forall k :: k in EntriesOf(stores, CACHE_NAME) ==> k in r[CACHE_NAME]
  {
    var ready := Opened(stores, CACHE_NAME);
    match FetchAll(network, CORE_ASSETS)
    case None => ready
    case Some(responses) => ready[CACHE_NAME := PutAll(ready[CACHE_NAME], CORE_ASSETS, responses)]
  }

  /**
   * A successful install leaves every core asset in the versioned store with
   * the response fetched for it, keeps the store's other entries, and changes
   * no other store.
   */
  lemma InstallPopulatesCoreAssets(stores: Stores, network: string -> Option<Response>)
    requires AllCoreAssetsFetched(network)
    ensures var after := Installed(stores, network);
      && CACHE_NAME in after
      && (forall a :: a in CORE_ASSETS ==> a in after[CACHE_NAME] && Some(after[CACHE_NAME][a]) == network(a))
      && (forall k :: k in after[CACHE_NAME] <==> k in EntriesOf(stores, CACHE_NAME) || k in CORE_ASSETS)
      && (forall k :: k in EntriesOf(stores, CACHE_NAME) && k !in CORE_ASSETS ==>
            after[CACHE_NAME][k] == stores[CACHE_NAME][k])
      && (forall n :: n != CACHE_NAME ==> (n in after <==> n in stores))
      && (forall n :: n != CACHE_NAME && n in stores ==> after[n] == stores[n])
  {
    var after := Installed(stores, network);
    var responses := FetchAll(network, CORE_ASSETS).value;
    var entries := PutAll(EntriesOf(stores, CACHE_NAME), CORE_ASSETS, responses);
    assert after[CACHE_NAME] == entries;
    Configuration();
    PutAllLookup(EntriesOf(stores, CACHE_NAME), CORE_ASSETS, responses);
    forall a | a in CORE_ASSETS ensures a in entries && Some(entries[a]) == network(a) {
      var j :| 0 <= j < |CORE_ASSETS| && CORE_ASSETS[j] == a;
      assert network(CORE_ASSETS[j]) == Some(responses[j]);
    }
  }

  /** A failed install adds and changes no entry; it only creates the versioned store if absent. */
  lemma InstallFailureKeepsEntries(stores: Stores, network: string -> Option<Response>)
    requires !AllCoreAssetsFetched(network)
    ensures var after := Installed(stores, network);
      && after.Keys == stores.Keys + {CACHE_NAME}
      && (forall n :: n in stores ==> after[n] == stores[n])
      && after[CACHE_NAME] == EntriesOf(stores, CACHE_NAME)
  {
  }

  // --------------------------------------------------------------- activate

  /** The filter of the activate handler: a store is stale unless it is the versioned or the runtime store. */
  predicate IsStale(name: string) {
    name != CACHE_NAME && name != RUNTIME_CACHE
  }

  /** The names the activate handler deletes. */
  function StaleNames(names: seq<string>): (stale: seq<string>)
    ensures forall n :: n in stale <==> n in names && IsStale(n)
  {
    if names == [] then []
    else if IsStale(names[0]) then [names[0]] + StaleNames(names[1..])
    else StaleNames(names[1..])
  }

  /** The stores after the activate handler: it only deletes, and deletes no fresh store. */
  function Activated(stores: Stores): (r: Stores)
    ensures r.Keys <= stores.Keys
    ensures forall n :: n in r ==> r[n] == stores[n]
    ensures forall n :: n in stores && !IsStale(n) ==> n in r
  {
    map n | n in stores && !IsStale(n) :: stores[n]
  }

  /**
   * Activation keeps exactly the stores named `CACHE_NAME` or `RUNTIME_CACHE`
   * among those present, with their contents unchanged.
   */
  lemma ActivateKeepsOnlyCurrentStores(stores: Stores)
    ensures Activated(stores).Keys == stores.Keys * {CACHE_NAME, RUNTIME_CACHE}
    ensures forall n :: n in Activated(stores) ==> Activated(stores)[n] == stores[n]
  {
  }

  /** Activating twice is the same as activating once. */
  lemma ActivateIdempotent(stores: Stores)
    ensures Activated(Activated(stores)) == Activated(stores)
  {
  }

  /** After activation no store of another deployment survives. */
  lemma ActivateEvictsOtherVersions(stores: Stores, version: string)
    requires version != CACHE_VERSION
    ensures CacheNameFor(version) !in Activated(stores)
  {
    VersionedNamesDistinct(version, CACHE_VERSION);
    VersionedNameIsNotRuntime(version);
  }

  // ------------------------------------------------------------------ fetch

  /** The response and the stores after one intercepted request. */
  datatype Served = Served(response: Response, stores: Stores)

  /**
   * The fallback chain for a failed navigation: the app shell, then the index
   * page, then an error. The result is a cached fallback or the error; the app
   * shell wins when cached, the index page comes next, and the error comes
   * only when neither is cached.
   */
  function NavigationFallback(entries: Entries): (r: Response)
    ensures r == NetworkError
         || (APP_SHELL in entries && r == entries[APP_SHELL])
         || (INDEX_PAGE in entries && r == entries[INDEX_PAGE])
    ensures APP_SHELL in entries ==> r == entries[APP_SHELL]
    ensures APP_SHELL !in entries && INDEX_PAGE in entries ==> r == entries[INDEX_PAGE]
    ensures APP_SHELL !in entries && INDEX_PAGE !in entries ==> r == NetworkError
  {
    if APP_SHELL in entries then entries[APP_SHELL]
    else if INDEX_PAGE in entries then entries[INDEX_PAGE]
    else NetworkError
  }

  /**
   * The request's own entry of the versioned store is the only thing that
   * differs between `before` and `after`, and the versioned store exists in `after`.
   */
  ghost predicate OnlyRequestEntryChanges(before: Stores, after: Stores, url: string) {
    && CACHE_NAME in after
    && (forall n :: n != CACHE_NAME ==> (n in after <==> n in before))
    && (forall n :: n != CACHE_NAME && n in before ==> after[n] == before[n])
    && (forall k :: k != url ==> Lookup(after[CACHE_NAME], k) == Lookup(EntriesOf(before, CACHE_NAME), k))
  }

  /**
   * Network first: a live response is returned and becomes the versioned
   * store's entry for the request; without one, the fallback chain answers
   * and no entry changes.
   */
  function NetworkFirst(stores: Stores, request: Request, network: Option<Response>): (served: Served)
    ensures OnlyRequestEntryChanges(stores, served.stores, request.url)
    ensures network.Some? ==>
      served.response == network.value && Lookup(served.stores[CACHE_NAME], request.url) == network
    ensures network.None? ==>
      served.stores == Opened(stores, CACHE_NAME) && served.response == NavigationFallback(EntriesOf(stores, CACHE_NAME))
  {
    var ready := Opened(stores, CACHE_NAME);
    match network
    case Some(live) => Served(live, Put(ready, CACHE_NAME, request.url, live))
    case None => Served(NavigationFallback(ready[CACHE_NAME]), ready)
  }

  /**
   * Cache first: a hit is returned as it is; a miss is fetched and stored
   * whatever its status. `network` is what a fetch would give.
   */
  function CacheFirst(stores: Stores, request: Request, network: Option<Response>): (served: Served)
    ensures OnlyRequestEntryChanges(stores, served.stores, request.url)
    ensures request.url in EntriesOf(stores, CACHE_NAME) ==>
      served == Served(EntriesOf(stores, CACHE_NAME)[request.url], Opened(stores, CACHE_NAME))
    ensures request.url !in EntriesOf(stores, CACHE_NAME) && network.Some? ==>
      served.response == network.value && Lookup(served.stores[CACHE_NAME], request.url) == network
    ensures request.url !in EntriesOf(stores, CACHE_NAME) && network.None? ==>
      served == Served(NetworkError, Opened(stores, CACHE_NAME))
  {
    var ready := Opened(stores, CACHE_NAME);
    match Lookup(ready[CACHE_NAME], request.url)
    case Some(cached) => Served(cached, ready)
    case None =>
      match network
      case Some(res) => Served(res, Put(ready, CACHE_NAME, request.url, res))
      case None => Served(NetworkError, ready)
  }

  /**
   * The fetch handler. Whatever the route, it only opens the versioned store:
   * every other store, the runtime store included, is left as it was, and
   * within the versioned store only the request's own entry can change.
   */
  function HandleFetch(stores: Stores, request: Request, network: Option<Response>): (served: Served)
    ensures CACHE_NAME in served.stores
    ensures forall n :: n != CACHE_NAME ==> (n in served.stores <==> n in stores)
    ensures forall n :: n != CACHE_NAME && n in stores ==> served.stores[n] == stores[n]
    ensures forall k :: k != request.url ==> Lookup(served.stores[CACHE_NAME], k) == Lookup(EntriesOf(stores, CACHE_NAME), k)
  {
    if request.mode == Navigate then NetworkFirst(stores, request, network)
    else CacheFirst(stores, request, network)
  }

  /** An online navigation returns the fresh response and records it in the versioned store. */
  lemma NavigationOnlineServesFresh(stores: Stores, request: Request, live: Response)
    requires request.mode == Navigate
    ensures var served := HandleFetch(stores, request, Some(live));
      && served.response == live
      && served.stores[CACHE_NAME] == EntriesOf(stores, CACHE_NAME)[request.url := live]
  {
  }

  /**
   * An offline navigation returns the cached app shell if present, otherwise
   * the cached index page, otherwise an error, and changes no entry.
   */
  lemma NavigationOfflineFallsBack(stores: Stores, request: Request)
    requires request.mode == Navigate
    ensures var served := HandleFetch(stores, request, None);
      var entries := EntriesOf(stores, CACHE_NAME);
      && (APP_SHELL in entries ==> served.response == entries[APP_SHELL])
      && (APP_SHELL !in entries && INDEX_PAGE in entries ==> served.response == entries[INDEX_PAGE])
      && (APP_SHELL !in entries && INDEX_PAGE !in entries ==> served.response == NetworkError)
      && served.stores == Opened(stores, CACHE_NAME)
  {
  }

  /** A cached asset is returned as stored, the stores are unchanged and the network is not used. */
  lemma AssetHitServedFromCache(stores: Stores, request: Request, network: Option<Response>, other: Option<Response>)
    requires request.mode != Navigate
    requires CACHE_NAME in stores && request.url in stores[CACHE_NAME]
    ensures HandleFetch(stores, request, network) == Served(stores[CACHE_NAME][request.url], stores)
    ensures HandleFetch(stores, request, network) == HandleFetch(stores, request, other)
  {
  }

  /** A missing asset that the network delivers is returned and stored, whatever its status or origin. */
  lemma AssetMissStoresFetched(stores: Stores, request: Request, res: Response)
    requires request.mode != Navigate
    requires request.url !in EntriesOf(stores, CACHE_NAME)
    ensures var served := HandleFetch(stores, request, Some(res));
      && served.response == res
      && served.stores[CACHE_NAME] == EntriesOf(stores, CACHE_NAME)[request.url := res]
  {
  }

  /** A missing asset that the network cannot deliver gives an error and changes no entry. */
  lemma AssetMissOfflineFails(stores: Stores, request: Request)
    requires request.mode != Navigate
    requires request.url !in EntriesOf(stores, CACHE_NAME)
    ensures HandleFetch(stores, request, None) == Served(NetworkError, Opened(stores, CACHE_NAME))
  {
  }

  /** The response to a request depends on the versioned store alone. */
  lemma FetchReadsOnlyVersionedStore(s: Stores, t: Stores, request: Request, network: Option<Response>)
    requires EntriesOf(s, CACHE_NAME) == EntriesOf(t, CACHE_NAME)
    ensures HandleFetch(s, request, network).response == HandleFetch(t, request, network).response
  {
  }

  /** No handler ever writes the runtime store: install and fetch leave it as it was, activate keeps it. */
  lemma RuntimeStoreNeverWritten(stores: Stores, network: string -> Option<Response>, request: Request, response: Option<Response>)
    ensures RUNTIME_CACHE in Installed(stores, network) <==> RUNTIME_CACHE in stores
    ensures EntriesOf(Installed(stores, network), RUNTIME_CACHE) == EntriesOf(stores, RUNTIME_CACHE)
    ensures RUNTIME_CACHE in Activated(stores) <==> RUNTIME_CACHE in stores
    ensures EntriesOf(Activated(stores), RUNTIME_CACHE) == EntriesOf(stores, RUNTIME_CACHE)
    ensures RUNTIME_CACHE in HandleFetch(stores, request, response).stores <==> RUNTIME_CACHE in stores
    ensures EntriesOf(HandleFetch(stores, request, response).stores, RUNTIME_CACHE) == EntriesOf(stores, RUNTIME_CACHE)
  {
    Configuration();
  }

  /** Once installed, an offline navigation is answered with the app shell fetched at install. */
  lemma OfflineNavigationAfterInstall(stores: Stores, network: string -> Option<Response>, request: Request)
    requires AllCoreAssetsFetched(network)
    requires request.mode == Navigate
    ensures Some(HandleFetch(Installed(stores, network), request, None).response) == network(APP_SHELL)
  {
    InstallPopulatesCoreAssets(stores, network);
    Configuration();
  }

  /**
   * A deployment replacing an older one: after install and activate the
   * older store is gone, the new store holds every core asset, and the
   * runtime store is as it was.
   */
  lemma UpgradeReplacesOldVersion(stores: Stores, network: string -> Option<Response>, previous: string)
    requires previous != CACHE_VERSION
    requires AllCoreAssetsFetched(network)
    ensures var after := Activated(Installed(stores, network));
      && CacheNameFor(previous) !in after
      && after.Keys <= {CACHE_NAME, RUNTIME_CACHE}
      && CACHE_NAME in after
      && (forall a :: a in CORE_ASSETS ==> a in after[CACHE_NAME])
      && (RUNTIME_CACHE in after <==> RUNTIME_CACHE in stores)
      && EntriesOf(after, RUNTIME_CACHE) == EntriesOf(stores, RUNTIME_CACHE)
  {
    var installed := Installed(stores, network);
    InstallPopulatesCoreAssets(stores, network);
    ActivateEvictsOtherVersions(installed, previous);
    ActivateKeepsOnlyCurrentStores(installed);
    RuntimeStoreNeverWritten(stores, network, Request(APP_SHELL, Navigate), None);
    RuntimeStoreNeverWritten(installed, network, Request(APP_SHELL, Navigate), None);
  }
}
