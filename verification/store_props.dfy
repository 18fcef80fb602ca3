/** What the current store hook guarantees about reads, writes, errors and
    the lifecycle of its rate-limited persister. */
module StoreProps {
  import opened Js
  import opened Gate
  import opened Limiter
  import opened Persist
  import opened Store

  /** The fetcher's precedence. Without a persistor: the cached data, else
      `initial`. With one and nothing cached: what `onGet` gives, else
      `initial`. With one and something cached, even `null`: that, without
      calling `onGet`. */
  lemma FetchPrecedence<K, T, E>(p: StoreParams<K, T, E>, cache: map<string, CacheState<T>>, show: K -> string)
    ensures var cached := CachedData(cache, CacheKey(Present(p.key), show));
      var r := Fetch(p, cache, show);
      && (p.persistor.None? ==> r.result == Ok(Coalesce(cached, p.initial)) && !r.calledOnGet)
      && (p.persistor.Some? && cached != Undefined ==> r.result == Ok(cached) && !r.calledOnGet)
      && (p.persistor.Some? && cached == Undefined && p.persistor.value.onGet(p.key).Resolved? ==>
            r.result == Ok(Coalesce(p.persistor.value.onGet(p.key).value, p.initial)) && r.calledOnGet)
  {
  }

  /** A cached `null` reads back as `null` when a persistor is present but
      as `initial` when none is: the two branches treat `null` differently. */
  lemma FetchCachedNull<K, T, E>(p: StoreParams<K, T, E>, cache: map<string, CacheState<T>>, show: K -> string)
    requires CachedData(cache, CacheKey(Present(p.key), show)) == Null
    ensures p.persistor.Some? ==> Fetch(p, cache, show).result == Ok(Null)
    ensures p.persistor.None? ==> Fetch(p, cache, show).result == Ok(p.initial)
  {
  }

  /** A read failure is always reported when `onError` is given; it is
      rethrown exactly when retrying is on, and otherwise the fetcher falls
      back to `initial`: `onGet` is taken to settle with no write in
      between, so the cache is as empty as when `onGet` was called. */
  lemma FetchFailurePolicy<K, T, E>(p: StoreParams<K, T, E>, cache: map<string, CacheState<T>>, show: K -> string)
    requires p.persistor.Some? && p.persistor.value.onGet(p.key).Failed()
    requires CachedData(cache, CacheKey(Present(p.key), show)) == Undefined
    ensures var r := Fetch(p, cache, show);
      var e := p.persistor.value.onGet(p.key).error;
      && (r.effects == [ErrorReported(e)] <==> p.onError)
      && (r.effects == [] <==> !p.onError)
      && (r.result == Err(e) <==> RetryOnError(p))
      && (r.result == Ok(p.initial) <==> !RetryOnError(p))
  {
  }

  /** The read path and the persistence path handle the same flag in
      opposite ways: for a read failure and a write failure under the same
      parameters, exactly one of the two is rethrown, and both are reported
      alike. */
  lemma ReadWritePolicyOpposite<K, T, E>(p: StoreParams<K, T, E>, cache: map<string, CacheState<T>>,
                                         show: K -> string, key: K, data: Nullable<T>)
    requires p.persistor.Some?
    requires p.persistor.value.onGet(p.key).Failed() && p.persistor.value.onSet(key, data).Failed()
    requires CachedData(cache, CacheKey(Present(p.key), show)) == Undefined
    ensures Fetch(p, cache, show).result.Err? != PersistFunction(p, key, data).result.Err?
    ensures |Fetch(p, cache, show).effects| + 1 == |PersistFunction(p, key, data).effects|
  {
  }

  /** The mutator calls out at most once: on a change with a persistor, the
      one call goes to the rate-limited persister when there is one and to
      `onSet` otherwise, with the key and the new value. */
  lemma MutatorCallsOnce<K, T, E>(p: StoreParams<K, T, E>, persister: Persister<K, T>, state: Nullable<T>,
                                                     input: Input<T>, serialize: Nullable<T> -> string, now: int,
                                                     currentData: Nullable<T>)
    requires p.persistor.Some?
    ensures var current := Coalesce(currentData, state);
      var next := Apply(input, current);
      var r := Mutator(p, persister, state, input, serialize, now, currentData);
      serialize(next) != serialize(current) ==>
        && |r.effects| >= 1
        && r.effects[0] == (if persister.Some? then RateLimitedCalled(p.key, next) else OnSetCalled(p.key, next))
        && forall i :: 1 <= i < |r.effects| ==> r.effects[i].ErrorReported?
  {
  }

  /** Read your own write, for a key whose SWR serialization is its
      `toString` (a string key, say): once `setState` has cached a value
      other than `undefined`, the fetcher returns it without consulting
      `onGet`, except that a `null` reads back as `initial` when there is
      no persistor. With `populateCache: false` the read is what it was. */
  lemma ReadYourWrite<K, T, E>(p: StoreParams<K, T, E>, swrKey: K -> string, show: K -> string,
                               cache: map<string, CacheState<T>>, state: Nullable<T>, persister: Persister<K, T>,
                               input: Input<T>, opts: OptsArg, serialize: Nullable<T> -> string, now: int)
    requires swrKey(p.key) == CacheKey(Present(p.key), show)
    requires SetState(p, swrKey, cache, state, persister, input, opts, serialize, now).mutation.result.Ok?
    requires SetState(p, swrKey, cache, state, persister, input, opts, serialize, now).mutation.result.value != Undefined
    ensures var u := SetState(p, swrKey, cache, state, persister, input, opts, serialize, now);
      var v := u.mutation.result.value;
      && (Populates(u.opts) ==>
            && !Fetch(p, u.cache, show).calledOnGet
            && (p.persistor.Some? || v != Null ==> Fetch(p, u.cache, show).result == Ok(v))
            && (p.persistor.None? && v == Null ==> Fetch(p, u.cache, show).result == Ok(p.initial)))
      && (!Populates(u.opts) ==> Fetch(p, u.cache, show) == Fetch(p, cache, show))
  {
  }

  /** When SWR's serialization of the key differs from its `toString` (an
      array or object key), `setState` writes where the fetcher does not
      look: the fetcher reads exactly what it read before the write. */
  lemma {:induction false} ForeignKeyHidesWrite<K, T, E>(p: StoreParams<K, T, E>, swrKey: K -> string, show: K -> string,
                                      cache: map<string, CacheState<T>>, state: Nullable<T>, persister: Persister<K, T>,
                                      input: Input<T>, opts: OptsArg, serialize: Nullable<T> -> string, now: int)
    requires swrKey(p.key) != CacheKey(Present(p.key), show)
    ensures Fetch(p, SetState(p, swrKey, cache, state, persister, input, opts, serialize, now).cache, show)
         == Fetch(p, cache, show)
  {
    var u := SetState(p, swrKey, cache, state, persister, input, opts, serialize, now);
    var ck := CacheKey(Present(p.key), show);
    if ck in cache {
      assert ck in u.cache && u.cache[ck] == cache[ck];
    } else {
      assert ck !in u.cache;
    }
    assert CachedData(u.cache, ck) == CachedData(cache, ck);
  }

  /** A store at 10 with nothing cached, given the updater `prev + 5`, holds
      15 afterwards and reads back 15. */
  lemma UpdaterExample(serialize: Nullable<int> -> string)
    requires serialize(Present(15)) != serialize(Present(10))
    ensures var p: StoreParams<string, int, string> := StoreParams("test-key-3", Present(10), None, false, None, None);
      var u := SetState(p, s => s, map[], Present(10), None,
                        Updater((x: Nullable<int>) => if x.Present? then Present(x.value + 5) else x), NoOpts, serialize, 0);
      && u.mutation.result == Ok(Present(15))
      && u.mutation.effects == []
      && Fetch(p, u.cache, s => s).result == Ok(Present(15))
  {
  }

  /** A direct `onSet` that rejects, with `onError` given and retrying off:
      the failure is reported, the new value is still returned, and nothing
      is rethrown (only the rate-limited path rethrows). */
  lemma DirectRejectionExample(serialize: Nullable<string> -> string, onGet: string -> Settled<Nullable<string>, string>)
    requires serialize(Present("new-value")) != serialize(Present("initial"))
    ensures var persistor := Persistor((k: string, d: Nullable<string>) => Rejected("Persist error"), onGet);
      var p := StoreParams("test-key-5", Present("initial"), Some(persistor), true, Some(false), None);
      var persister := Mount(p, None);
      var m := Mutator(p, persister, Present("initial"), Value(Present("new-value")), serialize, 0, Undefined);
      && persister == None
      && m.result == Ok(Present("new-value"))
      && m.effects == [OnSetCalled("test-key-5", Present("new-value")), ErrorReported("Persist error")]
  {
  }

  /** `setState` revalidates only when asked to: with `true`, or with an
      object whose `revalidate` is not `false`; never with no options. */
  lemma MutateOptsRevalidation(opts: OptsArg)
    ensures Revalidates(MutateOpts(opts))
        <==> (opts.FlagOpts? && opts.flag) || (opts.ObjectOpts? && opts.o.revalidate != Some(false))
  {
  }

  /** The effect creates at most one persister: running it again keeps
      the one it made, and only a cleanup in between (a dependency change)
      makes the next run build a fresh one, with nothing scheduled. */
  lemma MountCreatesOnce<K, T, E>(p: StoreParams<K, T, E>, persister: Persister<K, T>)
    ensures Mount(p, Mount(p, persister)) == Mount(p, persister)
    ensures Mount(p, Unmount(Mount(p, persister)).persister) == CreateRateLimitedPersist(p)
  {
  }

  /** The cleanup effect empties the slot. A library persister it cleaned
      up is idle and writes nothing more, whatever host ticks follow; a
      custom one is left as it was, and the library itself emits nothing
      for it either. */
  lemma UnmountSilences<K, T>(persister: Persister<K, T>, evs: seq<Event<(K, Nullable<T>)>>)
    requires NoCalls(evs)
    ensures Unmount(persister).persister == None
    ensures Unmount(persister).cleaned.Some? <==> persister.Some?
    ensures Unmount(persister).cleaned.Some? && !persister.value.Custom? ==>
      && Idle(Run(LimiterStep, Unmount(persister).cleaned.value, evs).next)
      && Run(LimiterStep, Unmount(persister).cleaned.value, evs).out == []
    ensures Unmount(persister).cleaned.Some? && persister.value.Custom? ==>
      && Unmount(persister).cleaned.value == persister.value
      && Run(LimiterStep, Unmount(persister).cleaned.value, evs).out == []
  {
    if persister.Some? {
      CleanupIdles(persister.value);
      if persister.value.Custom? {
        CustomQuietWithoutCalls(persister.value.delay, evs);
      } else {
        IdleLimiterSilent(LimiterStep(persister.value, Cleanup).next, evs);
      }
    }
  }

  /** One run of the persister's `wrappedFunc` around `persistFunction`:
      `onStart`, the write, `onEnd`, so `isPersisting` is back to false
      afterwards even when the write fails; the promise rejects exactly when
      `onSet` failed and retrying is off. */
  lemma PersistWrappedSettles<K, T, E>(p: StoreParams<K, T, E>, at: int, key: K, data: Nullable<T>)
    requires p.persistor.Some?
    ensures var w := Wrapped(at, (key, data), (a: (K, Nullable<T>)) => if p.persistor.Some? then PersistSettled(p, a) else Resolved(()));
      && w.signals == Bracket(at, (key, data))
      && Starts(w.signals) == 1 && Ends(w.signals) == 1
      && !Persisting(false, w.signals)
      && (w.result.Err? <==> p.persistor.value.onSet(key, data).Failed() && !RetryOnError(p))
  {
    var b := Bracket(at, (key, data));
    CallPrefixes(b);
  }
}
