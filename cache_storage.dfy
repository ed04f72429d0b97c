/**
 * The host's Cache Storage as the worker uses it: named stores, each a map
 * from request URL to response. The pure functions give the meaning of each
 * primitive; the class `Caches` is the mutable `caches` object.
 */
module CacheStorage {
  import opened Wrappers
  import opened Http

  type Entries = map<string, Response>
  type Stores = map<string, Entries>

  predicate Distinct<T(==)>(s: seq<T>) {
    forall i, j :: 0 <= i < j < |s| ==> s[i] != s[j]
  }

  /** The entries of store `name`; a store that does not exist has none. */
  function EntriesOf(stores: Stores, name: string): Entries {
    if name in stores then stores[name] else map[]
  }

  function Lookup(entries: Entries, key: string): Option<Response> {
    if key in entries then Some(entries[key]) else None
  }

  /** The stores after `caches.open(name)`, which creates `name` empty when it is absent. */
  function Opened(stores: Stores, name: string): (r: Stores)
    ensures r.Keys == stores.Keys + {name}
    ensures forall n :: n in stores ==> r[n] == stores[n]
    ensures r[name] == EntriesOf(stores, name)
  {
    if name in stores then stores else stores[name := map[]]
  }

  /**
   * The stores after `cache.put(key, response)` on store `name`: the store
   * exists afterwards and maps `key` to `response`; nothing else changes.
   */
  function Put(stores: Stores, name: string, key: string, response: Response): (r: Stores)
    ensures r.Keys == stores.Keys + {name}
    ensures forall n :: n != name && n in stores ==> r[n] == stores[n]
    ensures Lookup(r[name], key) == Some(response)
    ensures forall k :: k != key ==> Lookup(r[name], k) == Lookup(EntriesOf(stores, name), k)
  {
    stores[name := EntriesOf(stores, name)[key := response]]
  }

  /**
   * The fetch phase of `cache.addAll(keys)`: every key is fetched, and the
   * whole batch fails when any one fetch fails.
   */
  function FetchAll(network: string -> Option<Response>, keys: seq<string>): (r: Option<seq<Response>>)
    ensures r.Some? <==> forall k :: k in keys ==> network(k).Some?
    ensures r.Some? ==> |r.value| == |keys|
    ensures r.Some? ==> forall j :: 0 <= j < |keys| ==> network(keys[j]) == Some(r.value[j])
    decreases |keys|
  {
    if keys == [] then Some([])
    else
      match network(keys[0])
      case None => None
      case Some(first) =>
        match FetchAll(network, keys[1..])
        case None => None
        case Some(rest) => Some([first] + rest)
  }

  /**
   * The commit phase of `cache.addAll(keys)`: every key is put, in order. The
   * result holds the old keys and the batch's keys, and an entry whose key is
   * not in the batch is kept.
   */
  function PutAll(entries: Entries, keys: seq<string>, responses: seq<Response>): (r: Entries)
    requires |keys| == |responses|
    ensures forall k :: k in r <==> k in entries || k in keys
    ensures forall k :: k in entries && k !in keys ==> r[k] == entries[k]
    decreases |keys|
  {
    if keys == [] then entries
    else PutAll(entries[keys[0] := responses[0]], keys[1..], responses[1..])
  }

  /** Committing a batch of distinct keys maps each key to its own response. */
  lemma {:induction false} PutAllLookup(entries: Entries, keys: seq<string>, responses: seq<Response>)
    requires |keys| == |responses| && Distinct(keys)
    ensures forall j :: 0 <= j < |keys| ==> PutAll(entries, keys, responses)[keys[j]] == responses[j]
    decreases |keys|
  {
    if keys != [] {
      var next := entries[keys[0] := responses[0]];
      var r := PutAll(entries, keys, responses);
      assert r == PutAll(next, keys[1..], responses[1..]);
      assert Distinct(keys[1..]);
      PutAllLookup(next, keys[1..], responses[1..]);
      assert keys[0] !in keys[1..] by {
        forall j | 0 <= j < |keys[1..]| ensures keys[1..][j] != keys[0] {
          assert keys[1..][j] == keys[j + 1];
        }
      }
      forall j | 0 <= j < |keys| ensures r[keys[j]] == responses[j] {
        if j > 0 {
          assert keys[j] == keys[1..][j - 1];
          assert responses[j] == responses[1..][j - 1];
        }
      }
    }
  }

  /** The `caches` object: every named store and its entries. */
  class Caches {
    var stores: Stores

    constructor (initial: Stores)
      ensures stores == initial
    {
      stores := initial;
    }

    /** `caches.open(name)`. */
    method Open(name: string)
      modifies this
      ensures stores == Opened(old(stores), name)
    {
      if name !in stores {
        stores := stores[name := map[]];
      }
    }

    /** `caches.keys()`: the name of every store, each once, in no promised order. */
    method Keys() returns (names: seq<string>)
      ensures forall n :: n in names <==> n in stores
      ensures Distinct(names)
    {
      names := [];
      var rest := stores.Keys;
      while rest != {}
        invariant rest <= stores.Keys
        invariant forall n :: n in names <==> n in stores && n !in rest
        invariant Distinct(names)
        decreases rest
      {
        var n :| n in rest;
        names := names + [n];
        rest := rest - {n};
      }
    }

    /** `caches.delete(name)`: reports whether the store existed. */
    method Delete(name: string) returns (existed: bool)
      modifies this
      ensures existed == (name in old(stores))
      ensures stores == old(stores) - {name}
    {
      existed := name in stores;
      stores := stores - {name};
    }

    /** `cache.match(key)` on store `name`. */
    method Match(name: string, key: string) returns (cached: Option<Response>)
      ensures cached.Some? <==> name in stores && key in stores[name]
      ensures cached.Some? ==> cached.value == stores[name][key]
    {
      if name in stores && key in stores[name] {
        cached := Some(stores[name][key]);
      } else {
        cached := None;
      }
    }

    /** `cache.put(key, response)` on store `name`. */
    method PutEntry(name: string, key: string, response: Response)
      modifies this
      ensures stores == Put(old(stores), name, key, response)
    {
      var entries := if name in stores then stores[name] else map[];
      stores := stores[name := entries[key := response]];
    }

    /**
     * `cache.addAll(keys)` on store `name`: all or nothing. Reports whether
     * every fetch succeeded; on failure no entry changes. The host rejects a
     * batch that names a request twice; the worker's only batch has none.
     */
    method AddAll(name: string, keys: seq<string>, network: string -> Option<Response>) returns (ok: bool)
      requires Distinct(keys)
      modifies this
      ensures ok <==> forall k :: k in keys ==> network(k).Some?
      ensures ok ==> stores == old(stores)[name := PutAll(EntriesOf(old(stores), name), keys, FetchAll(network, keys).value)]
      ensures !ok ==> stores == old(stores)
    {
      var fetched := FetchAll(network, keys);
      match fetched {
        case None =>
          ok := false;
        case Some(responses) =>
          stores := stores[name := PutAll(EntriesOf(stores, name), keys, responses)];
          ok := true;
      }
    }
  }
}
