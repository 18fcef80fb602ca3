/** The first store hook, `src/index.ts`, written against an SWR whose cache
    holds the data itself: `cache.get(key)` is the value, not an entry with
    a `data` field. Otherwise its fetcher and `setState` have the shape of
    the later `packages/swr-global-state/src/index.ts`, and `createStore`
    takes no initial override. As there, SWR's `mutate` writes under
    SWR's serialization `swrKey` of the key, and `cache.get(key)` looks
    the raw key up, which `lookup` turns into the string it is, if any. */
module OldestStore {
  import opened Js
  import opened Persist

  /** `cache.get(key)` on the raw cache of this SWR: the value when the
      raw key is a string the cache holds, `undefined` otherwise. */
  function CacheGet<K, T>(cache: map<string, Nullable<T>>, lookup: K -> Option<string>, key: K): (r: Nullable<T>)
    ensures lookup(key).None? || lookup(key).value !in cache ==> r == Undefined
    ensures lookup(key).Some? && lookup(key).value in cache ==> r == cache[lookup(key).value]
  {
    if lookup(key).Some? && lookup(key).value in cache then cache[lookup(key).value] else Undefined
  }

  /** The fetcher: what `onGet` gives, else the raw cached value, else
      `initial`; `onGet` runs on every fetch, and its failure fails it. */
  function Fetch<K, T, E>(p: LegacyParams<K, T, E>, cache: map<string, Nullable<T>>, lookup: K -> Option<string>)
    : (r: Result<Nullable<T>, E>)
    ensures r.Err? <==> p.persistor.Some? && p.persistor.value.onGet(p.key).Failed()
    ensures r.Err? ==> r.error == p.persistor.value.onGet(p.key).error
    ensures r.Ok? ==>
      var persisted := if p.persistor.Some? then p.persistor.value.onGet(p.key).value else Undefined;
      var cached := CacheGet(cache, lookup, p.key);
      && (persisted.IsDefined() ==> r.value == persisted)
      && (!persisted.IsDefined() && cached.IsDefined() ==> r.value == cached)
      && (!persisted.IsDefined() && !cached.IsDefined() ==> r.value == p.initial)
  {
    var outcome := if p.persistor.Some? then p.persistor.value.onGet(p.key) else Resolved(Undefined);
    match outcome
    case Resolved(v) => Ok(Coalesce(Coalesce(v, CacheGet(cache, lookup, p.key)), p.initial))
    case Rejected(e) => Err(e)
    case Threw(e) => Err(e)
  }

  /** The cache, the outcome, the calls made and the options after one
      `setState`. */
  datatype Update<K, T, E> = Update(
    cache: map<string, Nullable<T>>,
    result: Result<Nullable<T>, E>,
    effects: seq<Effect<K, T, E>>,
    opts: MutatorOptions)

  /** `setState(input, opts)`: a value is taken as is, an updater is applied
      to the hook's `state`; whenever there is a persistor the new value is
      handed to `onSet`, and it is cached under `swrKey` unless
      `populateCache` is false. A throw of `onSet` fails the mutation; a
      rejection of it is not awaited. `opts` goes to SWR as given. */
  function SetState<K, T, E>(p: LegacyParams<K, T, E>, swrKey: K -> string, cache: map<string, Nullable<T>>,
                             state: Nullable<T>, input: Input<T>, opts: OptsArg): (r: Update<K, T, E>)
    ensures var next := Apply(input, state);
      && r.effects == (if p.persistor.Some? then [OnSetCalled(p.key, next)] else [])
      && (input.Value? && r.result.Ok? ==> r.result.value == input.v)
      && (input.Updater? && r.result.Ok? ==> r.result.value == input.f(state))
      && (r.result.Err? <==> p.persistor.Some? && p.persistor.value.onSet(p.key, next).Threw?)
      && r.opts == SwrOptions(opts)
      && (r.result.Ok? && Populates(r.opts) ==>
            swrKey(p.key) in r.cache && r.cache[swrKey(p.key)] == r.result.value)
      && (r.result.Err? || !Populates(r.opts) ==> r.cache == cache)
      && (forall k :: k in cache && k != swrKey(p.key) ==> k in r.cache && r.cache[k] == cache[k])
      && r.cache.Keys <= cache.Keys + {swrKey(p.key)}
  {
    var next := Apply(input, state);
    var o := SwrOptions(opts);
    var written := if Populates(o) then cache[swrKey(p.key) := next] else cache;
    if p.persistor.None? then
      Update(written, Ok(next), [], o)
    else
      match p.persistor.value.onSet(p.key, next)
      case Threw(e) => Update(cache, Err(e), [OnSetCalled(p.key, next)], o)
      case _ => Update(written, Ok(next), [OnSetCalled(p.key, next)], o)
  }

  /** `createStore(data)` called as `hook()`: the parameters the hook hands
      to `useStore`, which are `data` itself. */
  function CreateStore<K, T, E>(data: LegacyParams<K, T, E>): (r: LegacyParams<K, T, E>)
    ensures r.key == data.key && r.initial == data.initial && r.persistor == data.persistor
  {
    data
  }
}
