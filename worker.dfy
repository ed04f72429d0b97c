/**
 * The three event handlers of the service worker, each run as one atomic
 * step over the `caches` object and proved against the policy functions.
 * The network is an input: for install, what fetching each URL would give;
 * for a fetch event, what fetching the intercepted request would give.
 */
module Worker {
  import opened Wrappers
  import opened Http
  import opened CacheStorage
  import opened CachePolicy

  /** The install handler: open the versioned store and add every core asset to it. */
  method Install(caches: Caches, network: string -> Option<Response>) returns (installed: bool)
    modifies caches
    ensures installed == AllCoreAssetsFetched(network)
    ensures caches.stores == Installed(old(caches.stores), network)
  {
    Configuration();
    caches.Open(CACHE_NAME);
    installed := caches.AddAll(CACHE_NAME, CORE_ASSETS, network);
  }

  /** The activate handler: list the stores, then delete every stale one. */
  method Activate(caches: Caches)
    modifies caches
    ensures caches.stores == Activated(old(caches.stores))
  {
    var names := caches.Keys();
    var stale := StaleNames(names);
    var i := 0;
    while i < |stale|
      invariant 0 <= i <= |stale|
      invariant forall n :: n in caches.stores <==> n in old(caches.stores) && n !in stale[..i]
      invariant forall n :: n in caches.stores ==> caches.stores[n] == old(caches.stores)[n]
    {
      var existed := caches.Delete(stale[i]);
      assert stale[..i + 1] == stale[..i] + [stale[i]];
      i := i + 1;
    }
    assert stale[..i] == stale;
  }

  /** The fetch handler: network first for navigations, cache first for everything else. */
  method OnFetch(caches: Caches, request: Request, network: Option<Response>) returns (response: Response)
    modifies caches
    ensures Served(response, caches.stores) == HandleFetch(old(caches.stores), request, network)
  {
    if request.mode == Navigate {
      match network {
        case Some(live) =>
          caches.Open(CACHE_NAME);
          caches.PutEntry(CACHE_NAME, request.url, live);
          response := live;
        case None =>
          caches.Open(CACHE_NAME);
          var shell := caches.Match(CACHE_NAME, APP_SHELL);
          if shell.Some? {
            return shell.value;
          }
          var index := caches.Match(CACHE_NAME, INDEX_PAGE);
          if index.Some? {
            return index.value;
          }
          response := NetworkError;
      }
      return;
    }
    caches.Open(CACHE_NAME);
    var cached := caches.Match(CACHE_NAME, request.url);
    if cached.Some? {
      return cached.value;
    }
    match network {
      case Some(res) =>
        caches.PutEntry(CACHE_NAME, request.url, res);
        response := res;
      case None =>
        // `cached` is empty on this path, so the source's `cached || Response.error()` is the error.
        response := NetworkError;
    }
  }
}
