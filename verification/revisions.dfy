/** How the three revisions of the store differ, and where they agree. The
    current hook is given the parameters of an older one with no `onError`,
    the default `retryOnError`, no rate limit, and keys that are their own
    cache keys. */
module Revisions {
  import opened Js
  import opened Persist
  import Store
  import OlderStore
  import OldestStore

  /** The current hook configured like an older one. */
  function Current<K, T, E>(lp: LegacyParams<K, T, E>): Store.StoreParams<K, T, E> {
    Store.StoreParams(lp.key, lp.initial, lp.persistor, false, None, None)
  }

  /** The raw cache the first hook sees for a cache of entries. */
  function Entries<T>(cache: map<string, CacheState<T>>): map<string, Nullable<T>> {
    map k | k in cache :: cache[k].data
  }

  lemma CacheGetEntries<K, T>(cache: map<string, CacheState<T>>, lookup: K -> Option<string>, key: K)
    ensures OldestStore.CacheGet(Entries(cache), lookup, key) == OlderStore.CacheRead(cache, lookup, key)
  {
  }

  /** The two older hooks are the same store over different caches: on a
      cache and its raw view they fetch alike, and a `setState` gives the
      same outcome, the same calls and the same options, and leaves the
      caches in the same relation. */
  lemma OlderRevisionsAgree<K, T, E>(lp: LegacyParams<K, T, E>, swrKey: K -> string, lookup: K -> Option<string>,
                                     cache: map<string, CacheState<T>>, state: Nullable<T>, input: Input<T>,
                                     opts: OptsArg)
    ensures OldestStore.Fetch(lp, Entries(cache), lookup) == OlderStore.Fetch(lp, cache, lookup)
    ensures var older := OlderStore.SetState(lp, swrKey, cache, state, input, opts);
      var oldest := OldestStore.SetState(lp, swrKey, Entries(cache), state, input, opts);
      && oldest.result == older.result
      && oldest.effects == older.effects
      && oldest.opts == older.opts
      && oldest.cache == Entries(older.cache)
  {
    CacheGetEntries(cache, lookup, lp.key);
    var older := OlderStore.SetState(lp, swrKey, cache, state, input, opts);
    var oldest := OldestStore.SetState(lp, swrKey, Entries(cache), state, input, opts);
    if older.result.Ok? && Populates(older.opts) {
      var next := older.result.value;
      assert Entries(cache[swrKey(lp.key) := CacheState(next)]) == Entries(cache)[swrKey(lp.key) := next];
    }
  }

  /** With something cached, the current hook serves the cache and never
      asks `onGet`, while the older one serves `onGet` first: they differ
      exactly when `onGet` gives a defined value other than the cached one. */
  lemma ReadPrecedenceDiffers<T, E>(lp: LegacyParams<string, T, E>, cache: map<string, CacheState<T>>)
    requires lp.persistor.Some? && lp.persistor.value.onGet(lp.key).Resolved?
    requires CachedData(cache, lp.key).IsDefined()
    ensures var cached := CachedData(cache, lp.key);
      var persisted := lp.persistor.value.onGet(lp.key).value;
      && Store.Fetch(Current(lp), cache, s => s).result == Ok(cached)
      && !Store.Fetch(Current(lp), cache, s => s).calledOnGet
      && OlderStore.Fetch(lp, cache, s => Some(s)) == Ok(if persisted.IsDefined() then persisted else cached)
  {
  }

  /** With nothing cached, the current and the older hook read alike:
      `onGet`, else `initial`, and the same error when `onGet` fails. */
  lemma ReadAgreesWhenUncached<T, E>(lp: LegacyParams<string, T, E>, cache: map<string, CacheState<T>>)
    requires CachedData(cache, lp.key) == Undefined
    ensures Store.Fetch(Current(lp), cache, s => s).result == OlderStore.Fetch(lp, cache, s => Some(s))
  {
  }

  /** Setting a value that serializes like the current one: the current
      hook persists nothing, the older ones still call `onSet` once. */
  lemma EqualWriteDiffers<T, E>(lp: LegacyParams<string, T, E>, cache: map<string, CacheState<T>>, state: Nullable<T>,
                                input: Input<T>, opts: OptsArg, serialize: Nullable<T> -> string, now: int)
    requires lp.persistor.Some?
    requires var current := Coalesce(CachedData(cache, lp.key), state);
      serialize(Apply(input, current)) == serialize(current)
    ensures Store.SetState(Current(lp), s => s, cache, state, None, input, opts, serialize, now).mutation.effects == []
    ensures OlderStore.SetState(lp, s => s, cache, state, input, opts).effects == [OnSetCalled(lp.key, Apply(input, state))]
  {
  }

  /** Without options the current hook does not revalidate after a
      `setState` but the older ones do; with options the two agree. */
  lemma RevalidationDiffers(opts: OptsArg)
    ensures Revalidates(Store.MutateOpts(opts)) == Revalidates(SwrOptions(opts)) <==> !opts.NoOpts?
  {
  }

  /** With a cached 20 and a hook state of 10, the updater `prev + 5` gives
      25 in the current hook, which reads the cache, and 15 in the older one,
      which reads its own `state`. */
  lemma UpdaterBaseDiffers(serialize: Nullable<int> -> string)
    requires serialize(Present(25)) != serialize(Present(20))
    ensures var lp: LegacyParams<string, int, string> := LegacyParams("k", Present(0), None);
      var cache := map["k" := CacheState(Present(20))];
      var inc := Updater((x: Nullable<int>) => if x.Present? then Present(x.value + 5) else x);
      && Store.SetState(Current(lp), s => s, cache, Present(10), None, inc, NoOpts, serialize, 0).mutation.result
         == Ok(Present(25))
      && OlderStore.SetState(lp, s => s, cache, Present(10), inc, NoOpts).result == Ok(Present(15))
  {
  }

  /** `createStore`: the older hook takes an override of `initial` (so
      `hook(100)` starts at 100 and `hook()` at the store's own value); the
      first one has no override and matches the older hook called with
      nothing. */
  lemma CreateStoreOverride<K, T, E>(data: LegacyParams<K, T, E>, initial: Nullable<T>)
    ensures OldestStore.CreateStore(data) == OlderStore.CreateStore(data, Undefined)
    ensures OlderStore.CreateStore(data, initial) == OldestStore.CreateStore(data) <==> !initial.IsDefined() || initial == data.initial
  {
  }

  /** The override in use: a counter store created at 0 and called with 100
      fetches 100 on an empty cache; called with nothing, 0. */
  lemma CreateStoreExample()
    ensures var data: LegacyParams<string, int, string> := LegacyParams("counter-2", Present(0), None);
      && OlderStore.Fetch(OlderStore.CreateStore(data, Present(100)), map[], s => Some(s)) == Ok(Present(100))
      && OlderStore.Fetch(OlderStore.CreateStore(data, Undefined), map[], s => Some(s)) == Ok(Present(0))
  {
  }
}
