# totaldays service worker: caching policy model

A Dafny model of the offline-first service worker of *totaldays* (`sw.js`).
The worker keeps one piece of state, the browser's Cache Storage: a map from
store name to a map from request URL to response. Three event handlers act on it:

- **install** opens the versioned store `totaldays-v2025-09-06` and adds the
  five core assets `./`, `./index.html`, `./app.html`, `./icon.png` and
  `./manifest.webmanifest`, all or nothing;
- **activate** lists the stores and deletes every one whose name is neither
  the versioned name nor `runtime`;
- **fetch** routes navigations network first (a live response is written to
  the versioned store; offline, the cached `./app.html`, else `./index.html`,
  else an error response) and every other request cache first (a hit is
  returned as it is; a miss is fetched, stored whatever its status, and
  returned; a failed fetch gives an error response).

Layout:

- `wrappers.dfy`, `http.dfy`: `Option`, requests (URL and mode) and responses
  (`NetworkError` stands for `Response.error()`).
- `cache_storage.dfy`: the host's Cache Storage. Pure functions give the
  meaning of `caches.open`, `cache.put` and the two phases of `cache.addAll`;
  the class `Caches` holds the stores and has one method per primitive the
  worker calls.
- `cache_policy.dfy`: the configuration constants and the policy as pure
  functions (`Installed`, `StaleNames`, `Activated`, `NavigationFallback`,
  `NetworkFirst`, `CacheFirst`, `HandleFetch`), with the lemmas about them.
- `worker.dfy`: the three handlers as methods over a `Caches` object, each
  proved to produce exactly the state (and response) the policy functions give.

The network is an input. For install it is a function from URL to
`Option<Response>` (`None`: the fetch fails); for a fetch event it is the
`Option<Response>` that fetching the intercepted request would give. That the
network is not consulted on a cache hit is stated as the result not depending
on that input.

Points about the code's behaviour worth stating:

- `caches.open` creates a store that does not exist. Every fetch path opens the
  versioned store (sw.js:44, 49, 60) before it reads or writes it, so on the
  offline paths "nothing changes" means that no entry changes; an absent
  versioned store appears, empty.
- Activation keeps the versioned and runtime stores only if they exist; it
  creates neither. After an install and an activate the surviving names are a
  subset of the two, with the versioned store always present.
- The versioned store's name is `totaldays-` followed by the version tag.

## Model

| member | source | states |
|---|---|---|
| `CachePolicy.Configuration` | sw.js:2-14 | The versioned name is `totaldays-v2025-09-06`, the core assets are the five paths in order and distinct, both fallbacks are core assets, and the versioned and runtime names differ. |
| `CachePolicy.VersionedNamesDistinct` | sw.js:3 | Two version tags give the same store name exactly when they are equal. |
| `CachePolicy.VersionedNameIsNotRuntime` | sw.js:3-14 | No versioned store name equals `runtime`. |
| `CacheStorage.Opened` | sw.js:19 | Opening a store adds its name if absent (empty) and leaves every existing store as it was. |
| `CacheStorage.FetchAll` | sw.js:19 | The fetch phase of `addAll` succeeds exactly when every URL can be fetched, and then yields each URL's response in order. |
| `CacheStorage.PutAll` | sw.js:19 | The commit phase of `addAll` leaves exactly the old keys plus the batch's keys, and keeps every entry whose key is not in the batch. |
| `CacheStorage.PutAllLookup` | sw.js:19 | Committing a batch of distinct URLs maps each URL to its own response. |
| `CacheStorage.Put` | sw.js:45 | `cache.put` leaves the named store present with the URL mapped to the response; every other entry and every other store is unchanged. |
| `CacheStorage.Caches.Open` | sw.js:60 | `caches.open` leaves the stores as `Opened` gives them. |
| `CacheStorage.Caches.AddAll` | sw.js:19 | For a batch without repeated URLs, `addAll` reports success exactly when every fetch succeeds; on success it commits the batch to the named store, on failure no store changes. |
| `CacheStorage.Caches.Keys` | sw.js:27 | `caches.keys()` lists every store name exactly once and nothing else. |
| `CacheStorage.Caches.Delete` | sw.js:28 | `caches.delete` removes exactly the named store and reports whether it existed. |
| `CacheStorage.Caches.Match` | sw.js:61 | `cache.match` finds a response exactly when the store holds the URL, and it is the stored one. |
| `CacheStorage.Caches.PutEntry` | sw.js:66 | `cache.put` maps the URL to the response in the named store and changes nothing else. |
| `CachePolicy.Installed` | sw.js:16-21 | Install leaves the versioned store present, changes no other store, and loses no entry of the versioned store. |
| `Worker.Install` | sw.js:16-21 | The install handler succeeds exactly when every core asset can be fetched and leaves the stores as `Installed` gives them. |
| `CachePolicy.InstallPopulatesCoreAssets` | sw.js:16-21 | After a successful install every core asset is in the versioned store with the response fetched for it, the store's other entries are kept and no other store changes. |
| `CachePolicy.InstallFailureKeepsEntries` | sw.js:18-19 | A failed install changes no entry of any store; it only creates the versioned store when it is absent. |
| `CachePolicy.StaleNames` | sw.js:28 | The filter keeps exactly the listed names that are neither the versioned nor the runtime name. |
| `CachePolicy.Activated` | sw.js:27-28 | Activation only deletes stores, keeps the contents of every survivor, and keeps every store that is not stale. |
| `Worker.Activate` | sw.js:23-32 | The activate handler deletes the stale stores one by one and leaves the stores as `Activated` gives them. |
| `CachePolicy.ActivateKeepsOnlyCurrentStores` | sw.js:27-28 | After activation the store names are the previous names restricted to the versioned and runtime names, with contents unchanged. |
| `CachePolicy.ActivateIdempotent` | sw.js:27-28 | Activating twice gives the same stores as activating once. |
| `CachePolicy.ActivateEvictsOtherVersions` | sw.js:28 | No store named for another version tag survives activation. |
| `Worker.OnFetch` | sw.js:34-73 | The fetch handler returns the response and leaves the stores that `HandleFetch` gives. |
| `CachePolicy.HandleFetch` | sw.js:34-73 | Every fetch route leaves the versioned store present, leaves every other store (the runtime store included) as it was, and changes at most the request's own entry. |
| `CachePolicy.NavigationFallback` | sw.js:50 | The fallback is a cached app shell or index page or the error response; the app shell wins when cached, otherwise a cached index page, and the error response when neither is cached. |
| `CachePolicy.NetworkFirst` | sw.js:38-53 | A live response is returned and becomes the request's entry in the versioned store; without one the fallback chain answers and no entry changes; nothing but the request's own entry changes. |
| `CachePolicy.CacheFirst` | sw.js:57-72 | A cached request is answered from the store with no entry changed; a miss returns and stores whatever the network gives, or the error response when it gives nothing; nothing but the request's own entry changes. |
| `CachePolicy.NavigationOnlineServesFresh` | sw.js:38-46 | An online navigation returns the live response and the versioned store then maps the request to it, other entries kept. |
| `CachePolicy.NavigationOfflineFallsBack` | sw.js:47-50 | An offline navigation returns the cached app shell, else the cached index page, else an error response, and changes no entry. |
| `CachePolicy.AssetHitServedFromCache` | sw.js:60-62 | A cached non-navigation request returns the stored response, leaves the stores unchanged, and gives the same outcome whatever the network would give. |
| `CachePolicy.AssetMissStoresFetched` | sw.js:63-67 | An uncached request that the network delivers returns that response and stores it, whatever its status or origin. |
| `CachePolicy.AssetMissOfflineFails` | sw.js:68-69 | An uncached request that the network cannot deliver returns an error response and changes no entry. |
| `CachePolicy.FetchReadsOnlyVersionedStore` | sw.js:44-61 | Two states whose versioned stores agree give the same response to every request. |
| `CachePolicy.RuntimeStoreNeverWritten` | sw.js:13-14 | Install, activate and fetch never add, remove or change the runtime store: it is present afterwards exactly when it was before, with the same entries. |
| `CachePolicy.OfflineNavigationAfterInstall` | sw.js:16-50 | After a successful install, an offline navigation is answered with the app shell fetched at install time. |
| `CachePolicy.UpgradeReplacesOldVersion` | sw.js:16-32 | Install then activate from any prior state removes the store of any older version, keeps at most the versioned and runtime stores, holds every core asset, and leaves the runtime store as it was. |

## Left out

- The browser's own Cache Storage rules: URL normalisation, `Vary` matching, the request method, and the rejections of `cache.put` (non-GET requests, status 206) and of `cache.addAll` (non-2xx responses). URLs are already-normalised strings, and a rejection by `addAll` is folded into the network input returning `None`.
- The `credentials: 'omit'` option of the asset fetch (sw.js:64): the network input is the response that fetch would give, however it was made.
- `self.skipWaiting()` (sw.js:17), `self.clients.claim()` (sw.js:29), `waitUntil` and `respondWith`: host lifecycle control with no effect on the stores.
- Asynchrony: the un-awaited `cache.put` calls (sw.js:45, sw.js:66) and races between requests in flight. Each handler is one atomic step that includes its write.
- Order of `caches.keys()` and of the deletions, which run concurrently in the source; `Caches.Keys` promises no order.
- `Response.clone()` and body streams: responses are plain values.
- The network input to a fetch event could be `Some(NetworkError)`, which a real fetch never resolves to (it rejects instead); the model would store that value like any other response.
- Caches.AddAll: requires a batch without repeated URLs instead of modelling the host's rejection of such a batch; the worker's only batch, the core assets, has none.
- Failures of store operations themselves (quota, corruption).
