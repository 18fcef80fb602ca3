/** The earlier store hook of `packages/swr-global-state/src/index.ts`: a
    fetcher that always asks the persistor first, a `setState` without an
    unchanged-value check, and `createStore` with an initial override. The
    SWR cache is a map from SWR's serialization of a key to an entry. SWR's
    `mutate` writes under that serialization, `swrKey`, but the fetcher's
    `cache.get(key)` looks the raw key up: `lookup` gives the string that
    key is (a string key), or none (an array or object key, which a map
    with string keys never holds). */
module OlderStore {
  import opened Js
  import opened Persist

  /** `cache.get(key)?.data`: the entry's data when the raw key is a
      string the cache holds, `undefined` otherwise. */
  function CacheRead<K, T>(cache: map<string, CacheState<T>>, lookup: K -> Option<string>, key: K): (r: Nullable<T>)
    ensures lookup(key).None? ==> r == Undefined
    ensures lookup(key).Some? ==> r == CachedData(cache, lookup(key).value)
  {
    if lookup(key).Some? then CachedData(cache, lookup(key).value) else Undefined
  }

  /** The fetcher: what `onGet` gives, else the cached `data`, else
      `initial`, each passed over only when `null` or `undefined`. `onGet`
      runs on every fetch (without a persistor the first link is
      `undefined`), and its failure fails the fetch. */
  function Fetch<K, T, E>(p: LegacyParams<K, T, E>, cache: map<string, CacheState<T>>, lookup: K -> Option<string>)
    : (r: Result<Nullable<T>, E>)
    ensures r.Err? <==> p.persistor.Some? && p.persistor.value.onGet(p.key).Failed()
    ensures r.Err? ==> r.error == p.persistor.value.onGet(p.key).error
    ensures r.Ok? ==>
      var persisted := if p.persistor.Some? then p.persistor.value.onGet(p.key).value else Undefined;
      var cached := CacheRead(cache, lookup, p.key);
      && (persisted.IsDefined() ==> r.value == persisted)
      && (!persisted.IsDefined() && cached.IsDefined() ==> r.value == cached)
      && (!persisted.IsDefined() && !cached.IsDefined() ==> r.value == p.initial)
  {
    var outcome := if p.persistor.Some? then p.persistor.value.onGet(p.key) else Resolved(Undefined);
    match outcome
    case Resolved(v) => Ok(Coalesce(Coalesce(v, CacheRead(cache, lookup, p.key)), p.initial))
    case Rejected(e) => Err(e)
    case Threw(e) => Err(e)
  }

  /** The cache, the outcome, the calls made and the options after one
      `setState`. */
  datatype Update<K, T, E> = Update(
    cache: map<string, CacheState<T>>,
    result: Result<Nullable<T>, E>,
    effects: seq<Effect<K, T, E>>,
    opts: MutatorOptions)

  /** `setState(input, opts)`: a value is taken as is, an updater is applied
      to the hook's `state` (not to the cached data SWR passes in). The new
      value is handed to `onSet` whenever there is a persistor, equal or
      not, and is cached under `swrKey` unless `populateCache` is false.
      A rejection of `onSet` is not awaited and changes nothing; a throw of
      it fails the mutation, leaving the cache as it was. `opts` goes to
      SWR as given. */
  function SetState<K, T, E>(p: LegacyParams<K, T, E>, swrKey: K -> string, cache: map<string, CacheState<T>>,
                             state: Nullable<T>, input: Input<T>, opts: OptsArg): (r: Update<K, T, E>)
    ensures var next := Apply(input, state);
      && r.effects == (if p.persistor.Some? then [OnSetCalled(p.key, next)] else [])
      && (input.Value? && r.result.Ok? ==> r.result.value == input.v)
      && (input.Updater? && r.result.Ok? ==> r.result.value == input.f(state))
      && (r.result.Err? <==> p.persistor.Some? && p.persistor.value.onSet(p.key, next).Threw?)
      && r.opts == SwrOptions(opts)
      && (r.result.Ok? && Populates(r.opts) ==>
            swrKey(p.key) in r.cache && r.cache[swrKey(p.key)].data == r.result.value)
      && (r.result.Err? || !Populates(r.opts) ==> r.cache == cache)
      && (forall k :: k in cache && k != swrKey(p.key) ==> k in r.cache && r.cache[k] == cache[k])
      && r.cache.Keys <= cache.Keys + {swrKey(p.key)}
  {
    var next := Apply(input, state);
    var o := SwrOptions(opts);
    var written := if Populates(o) then cache[swrKey(p.key) := CacheState(next)] else cache;
    if p.persistor.None? then
      Update(written, Ok(next), [], o)
    else
      match p.persistor.value.onSet(p.key, next)
      case Threw(e) => Update(cache, Err(e), [OnSetCalled(p.key, next)], o)
      case _ => Update(written, Ok(next), [OnSetCalled(p.key, next)], o)
  }

  /** Read your own write, for a key that is its own serialization (a
      string key): without a persistor, the fetcher returns what
      `setState` cached, or `initial` for a `null` or `undefined`. */
  lemma ReadYourWrite<K, T, E>(p: LegacyParams<K, T, E>, swrKey: K -> string, lookup: K -> Option<string>,
                               cache: map<string, CacheState<T>>, state: Nullable<T>, input: Input<T>, opts: OptsArg)
    requires lookup(p.key) == Some(swrKey(p.key))
    requires p.persistor.None?
    ensures var u := SetState(p, swrKey, cache, state, input, opts);
      Populates(u.opts) ==> Fetch(p, u.cache, lookup) == Ok(Coalesce(u.result.value, p.initial))
  {
  }

  /** For a key the fetcher's `cache.get(key)` cannot find under SWR's
      serialization (an array or object key), `setState` is invisible to
      the fetcher: it reads exactly what it read before. */
  lemma {:induction false} ForeignKeyHidesWrite<K, T, E>(p: LegacyParams<K, T, E>, swrKey: K -> string,
                                                         lookup: K -> Option<string>, cache: map<string, CacheState<T>>,
                                                         state: Nullable<T>, input: Input<T>, opts: OptsArg)
    requires lookup(p.key) != Some(swrKey(p.key))
    ensures Fetch(p, SetState(p, swrKey, cache, state, input, opts).cache, lookup) == Fetch(p, cache, lookup)
  {
    var u := SetState(p, swrKey, cache, state, input, opts);
    if lookup(p.key).Some? {
      var k := lookup(p.key).value;
      if k in cache {
        assert k in u.cache && u.cache[k] == cache[k];
      } else {
        assert k !in u.cache;
      }
    }
    assert CacheRead(u.cache, lookup, p.key) == CacheRead(cache, lookup, p.key);
  }

  /** `createStore(data)` called as `hook(initial)`: the parameters the
      hook hands to `useStore`. An argument that is neither `null` nor
      `undefined` replaces `data.initial`; nothing else changes. */
  function CreateStore<K, T, E>(data: LegacyParams<K, T, E>, initial: Nullable<T>): (r: LegacyParams<K, T, E>)
    ensures r.key == data.key && r.persistor == data.persistor
    ensures initial.IsDefined() ==> r.initial == initial
    ensures !initial.IsDefined() ==> r.initial == data.initial
  {
    data.(initial := Coalesce(initial, data.initial))
  }
}
