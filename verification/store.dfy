/** The current store hook, `useStore` of
    `packages/swr-global-state/src/lib/useStore.ts`: its read path (the SWR
    fetcher), its write path (the mutator inside `setState`), the
    rate-limited persister and its create/cleanup lifecycle. The SWR cache is
    a map from cache key to entry, `mutate` applies the mutator to the
    cached value, and `JSON.stringify` is an uninterpreted `serialize`. */
module Store {
  import opened Js
  import opened Gate
  import opened Limiter
  import opened Persist

  /** `StoreParams`; `onError` records whether the callback was given. */
  datatype StoreParams<!K, !T, E> = StoreParams(
    key: K,
    initial: Nullable<T>,
    persistor: Option<Persistor<K, T, E>>,
    onError: bool,
    retryOnError: Option<bool>,
    rateLimit: Option<RateLimitConfig>)

  /** `retryOnError = true` in the destructuring: an omitted flag is true. */
  function RetryOnError<K, T, E>(p: StoreParams<K, T, E>): bool {
    p.retryOnError.GetOr(true)
  }

  /** `onError?.(error)`: a report when the callback was given. */
  function Report<K, T, E>(p: StoreParams<K, T, E>, e: E): seq<Effect<K, T, E>> {
    if p.onError then [ErrorReported(e)] else []
  }

  /** `key?.toString() || ''`, with `show` standing for `toString`. The
      `|| ''` only matters for a nullish key, whose `?.` yields
      `undefined`: an empty string maps to itself. */
  function CacheKey<K>(key: Nullable<K>, show: K -> string): (r: string)
    ensures key.IsDefined() ==> r == show(key.value)
    ensures !key.IsDefined() ==> r == ""
  {
    if key.Present? then show(key.value) else ""
  }

  // ---------------------------------------------------------------------
  // Read path

  /** What one run of the fetcher did: what it returned or threw, whether
      it called `onGet`, and which errors it reported. */
  datatype Fetched<K, T, E> = Fetched(result: Result<Nullable<T>, E>, calledOnGet: bool, effects: seq<Effect<K, T, E>>)

  /** The `catch` of the fetcher: report, then rethrow when retrying is on,
      else fall back to the cached data or `initial`. */
  function ReadFailed<K, T, E>(p: StoreParams<K, T, E>, cached: Nullable<T>, e: E): Fetched<K, T, E> {
    Fetched(if RetryOnError(p) then Err(e) else Ok(Coalesce(cached, p.initial)), true, Report(p, e))
  }

  /** `swrFetcher`. With a persistor, cached data that is not `undefined`
      wins (even `null`) and `onGet` is consulted only otherwise; without
      one, the cached data or else `initial`. */
  function Fetch<K, T, E>(p: StoreParams<K, T, E>, cache: map<string, CacheState<T>>, show: K -> string): (r: Fetched<K, T, E>)
    ensures var cached := CachedData(cache, CacheKey(Present(p.key), show));
      && (r.calledOnGet <==> p.persistor.Some? && cached == Undefined)
      && (!r.calledOnGet ==> r.effects == [] && r.result.Ok?
                             && r.result.value in {cached, p.initial}
                             && (cached.IsDefined() ==> r.result.value == cached))
      && (r.calledOnGet ==>
            var outcome := p.persistor.value.onGet(p.key);
            && (outcome.Resolved? ==> r.effects == [] && r.result.Ok?
                                      && r.result.value in {outcome.value, p.initial}
                                      && (outcome.value.IsDefined() ==> r.result.value == outcome.value))
            && (outcome.Failed() ==> r.effects == Report(p, outcome.error)
                                     && (r.result.Err? <==> RetryOnError(p))
                                     && (r.result.Err? ==> r.result.error == outcome.error)
                                     && (r.result.Ok? ==> r.result.value == p.initial)))
  {
    var cached := CachedData(cache, CacheKey(Present(p.key), show));
    if p.persistor.Some? then
      if cached.Undefined? then
        match p.persistor.value.onGet(p.key)
        case Resolved(v) => Fetched(Ok(Coalesce(v, p.initial)), true, [])
        case Rejected(e) => ReadFailed(p, cached, e)
        case Threw(e) => ReadFailed(p, cached, e)
      else Fetched(Ok(cached), false, [])
    else Fetched(Ok(Coalesce(cached, p.initial)), false, [])
  }

  // ---------------------------------------------------------------------
  // Write path

  /** What one persistence attempt did: the calls it made and how its
      promise settled. */
  datatype Persisted<K, T, E> = Persisted(effects: seq<Effect<K, T, E>>, result: Result<(), E>)

  /** `persistFunction`, the function the rate limiter runs: `onSet`, and
      on any failure (a throw or a rejection) a report, then a rethrow
      exactly when retrying is OFF. */
  function PersistFunction<K, T, E>(p: StoreParams<K, T, E>, key: K, data: Nullable<T>): (r: Persisted<K, T, E>)
    requires p.persistor.Some?
    ensures var outcome := p.persistor.value.onSet(key, data);
      && r.effects == [OnSetCalled(key, data)] + (if outcome.Failed() then Report(p, outcome.error) else [])
      && (r.result.Err? <==> outcome.Failed() && !RetryOnError(p))
      && (r.result.Err? ==> r.result.error == outcome.error)
  {
    match p.persistor.value.onSet(key, data)
    case Resolved(_) => Persisted([OnSetCalled(key, data)], Ok(()))
    case Rejected(e) => Persisted([OnSetCalled(key, data)] + Report(p, e), if RetryOnError(p) then Ok(()) else Err(e))
    case Threw(e) => Persisted([OnSetCalled(key, data)] + Report(p, e), if RetryOnError(p) then Ok(()) else Err(e))
  }

  /** How the promise of `persistFunction(key, data)` settles: being
      `async`, it never throws synchronously, and it rejects exactly when
      it rethrows. */
  function PersistSettled<K, T, E>(p: StoreParams<K, T, E>, args: (K, Nullable<T>)): (r: Settled<(), E>)
    requires p.persistor.Some?
    ensures !r.Threw?
    ensures r.Rejected? <==> p.persistor.value.onSet(args.0, args.1).Failed() && !RetryOnError(p)
    ensures r.Rejected? ==> r.error == p.persistor.value.onSet(args.0, args.1).error
  {
    match PersistFunction(p, args.0, args.1).result
    case Ok(_) => Resolved(())
    case Err(e) => Rejected(e)
  }

  /** The rate-limited persister `rateLimitedPersistRef.current`, whose
      calls carry `(key, data)`. */
  type Persister<K, T> = Option<Limiter<(K, Nullable<T>)>>

  /** What one run of the mutator did: the value it returned (or the error
      that escaped it), the calls it made, the persister afterwards, and
      the signals the persister emitted. */
  datatype Mutation<K, T, E> = Mutation(
    result: Result<Nullable<T>, E>,
    effects: seq<Effect<K, T, E>>,
    persister: Persister<K, T>,
    signals: seq<Signal<(K, Nullable<T>)>>)

  /** The persistence calls among some effects, as `(key, data)`. */
  function PersistCalls<K, T, E>(effects: seq<Effect<K, T, E>>): seq<(K, Nullable<T>)>
    decreases |effects|
  {
    if |effects| == 0 then []
    else (if effects[0].ErrorReported? then [] else [(effects[0].key, effects[0].data)])
         + PersistCalls(effects[1..])
  }

  /** The errors reported among some effects. */
  function Reports<K, T, E>(effects: seq<Effect<K, T, E>>): seq<E>
    decreases |effects|
  {
    if |effects| == 0 then []
    else (if effects[0].ErrorReported? then [effects[0].error] else []) + Reports(effects[1..])
  }

  lemma EffectsCons<K, T, E>(e: Effect<K, T, E>, rest: seq<Effect<K, T, E>>)
    ensures PersistCalls([e] + rest)
         == (if e.ErrorReported? then [] else [(e.key, e.data)]) + PersistCalls(rest)
    ensures Reports([e] + rest) == (if e.ErrorReported? then [e.error] else []) + Reports(rest)
  {
    assert ([e] + rest)[1..] == rest;
  }

  /** The `mutator` inside `setState`, run by SWR's `mutate` on the cached
      value `currentData` at time `now`. The current value is `currentData
      ?? state`; a value is taken as is and an updater is applied to it. An
      unchanged serialization returns the current value and calls nothing.
      Otherwise, with a persistor, exactly one of the rate-limited persister
      (when one exists) or `onSet` is called. A rejection of the direct
      `onSet` is reported to `onError` when one is given, and swallowed; a synchronous throw of it is
      outside the `.catch` and escapes. */
  function Mutator<K, T, E>(p: StoreParams<K, T, E>, persister: Persister<K, T>, state: Nullable<T>,
                            input: Input<T>, serialize: Nullable<T> -> string, now: int,
                            currentData: Nullable<T>): (r: Mutation<K, T, E>)
    ensures var current := Coalesce(currentData, state);
      var next := Apply(input, current);
      && (serialize(next) == serialize(current) ==> r == Mutation(Ok(current), [], persister, []))
      && (serialize(next) != serialize(current) ==>
            && PersistCalls(r.effects) == (if p.persistor.Some? then [(p.key, next)] else [])
            && (r.effects != [] ==>
                  (r.effects[0].RateLimitedCalled? <==> persister.Some?))
            // only a synchronous throw of a direct `onSet` escapes the mutator
            && r.result == (if persister.None? && p.persistor.Some? && p.persistor.value.onSet(p.key, next).Threw?
                            then Err(p.persistor.value.onSet(p.key, next).error)
                            else Ok(next))
            // a rejection of a direct `onSet` goes to `onError` when one is given, and nothing else does
            && Reports(r.effects)
               == (if persister.None? && p.persistor.Some? && p.persistor.value.onSet(p.key, next).Rejected? && p.onError
                   then [p.persistor.value.onSet(p.key, next).error]
                   else [])
            // the persister takes one step exactly when it is called
            && (persister.Some? && p.persistor.Some? ==>
                  && r.persister == Some(LimiterStep(persister.value, Call(now, (p.key, next))).next)
                  && r.signals == LimiterStep(persister.value, Call(now, (p.key, next))).out)
            && (persister.None? || p.persistor.None? ==> r.persister == persister && r.signals == []))
  {
    var current := Coalesce(currentData, state);
    var next := Apply(input, current);
    if serialize(next) == serialize(current) then
      Mutation(Ok(current), [], persister, [])
    else if p.persistor.None? then
      Mutation(Ok(next), [], persister, [])
    else if persister.Some? then
      var s := LimiterStep(persister.value, Call(now, (p.key, next)));
      EffectsCons<K, T, E>(RateLimitedCalled(p.key, next), []);
      Mutation(Ok(next), [RateLimitedCalled(p.key, next)], Some(s.next), s.out)
    else
      EffectsCons<K, T, E>(OnSetCalled(p.key, next), []);
      match p.persistor.value.onSet(p.key, next)
      case Resolved(_) => Mutation(Ok(next), [OnSetCalled(p.key, next)], persister, [])
      case Rejected(e) =>
        EffectsCons(OnSetCalled(p.key, next), Report(p, e));
        EffectsCons<K, T, E>(ErrorReported(e), []);
        Mutation(Ok(next), [OnSetCalled(p.key, next)] + Report(p, e), persister, [])
      case Threw(e) => Mutation(Err(e), [OnSetCalled(p.key, next)], persister, [])
  }

  /** `mutateOpts`: a boolean `b` becomes `{ revalidate: b }`, no options
      become `{ revalidate: false }`, an object is copied as is. */
  function MutateOpts(opts: OptsArg): (r: MutatorOptions)
    ensures opts.FlagOpts? ==> r == MutatorOptions(Some(opts.flag), None, None, None)
    ensures opts.NoOpts? ==> r == MutatorOptions(Some(false), None, None, None)
    ensures opts.ObjectOpts? ==> r == opts.o
  {
    match opts
    case FlagOpts(b) => MutatorOptions(Some(b), None, None, None)
    case ObjectOpts(o) => o
    case NoOpts => MutatorOptions(Some(false), None, None, None)
  }

  /** The cache, the mutator run and the options after one `setState`. */
  datatype Update<K, T, E> = Update(cache: map<string, CacheState<T>>, mutation: Mutation<K, T, E>, opts: MutatorOptions)

  /** `setState(input, opts)`: `mutate(mutator, mutateOpts)`. SWR keeps its
      cache under its own serialization `swrKey` of the hook's key, runs the
      mutator on the data cached there and, unless `populateCache` is
      `false`, caches what it returns. */
  function SetState<K, T, E>(p: StoreParams<K, T, E>, swrKey: K -> string, cache: map<string, CacheState<T>>,
                             state: Nullable<T>, persister: Persister<K, T>, input: Input<T>, opts: OptsArg,
                             serialize: Nullable<T> -> string, now: int): (r: Update<K, T, E>)
    ensures var sk := swrKey(p.key);
      && r.opts == MutateOpts(opts)
      && r.mutation == Mutator(p, persister, state, input, serialize, now, CachedData(cache, sk))
      // a returned value is cached under SWR's key exactly when populating
      && (r.mutation.result.Ok? && Populates(r.opts) ==>
            sk in r.cache && r.cache[sk].data == r.mutation.result.value)
      // an escaped error, or `populateCache: false`, leaves the cache alone
      && (r.mutation.result.Err? || !Populates(r.opts) ==> r.cache == cache)
      // no other entry changes and no other key appears
      && (forall k :: k in cache && k != sk ==> k in r.cache && r.cache[k] == cache[k])
      && r.cache.Keys <= cache.Keys + {sk}
  {
    var sk := swrKey(p.key);
    var m := Mutator(p, persister, state, input, serialize, now, CachedData(cache, sk));
    var o := MutateOpts(opts);
    Update(if m.result.Ok? && Populates(o) then cache[sk := CacheState(m.result.value)] else cache, m, o)
  }

  // ---------------------------------------------------------------------
  // Persister lifecycle

  /** `createRateLimitedPersist`: a persister exists only when both `onSet`
      and `rateLimit` are given. */
  function CreateRateLimitedPersist<K, T, E>(p: StoreParams<K, T, E>): (r: Persister<K, T>)
    ensures r.Some? <==> p.persistor.Some? && p.rateLimit.Some?
    ensures r.Some? ==> r.value == Create(p.rateLimit.value)
  {
    if p.persistor.None? || p.rateLimit.None? then None
    else Some(Create(p.rateLimit.value))
  }

  /** The effect body: with `rateLimit` and no persister yet, create one. */
  function Mount<K, T, E>(p: StoreParams<K, T, E>, persister: Persister<K, T>): (r: Persister<K, T>)
    // an existing persister is kept, timers and all
    ensures persister.Some? ==> r == persister
    // otherwise one exists afterwards exactly when `onSet` and `rateLimit` are both given
    ensures persister.None? ==> (r.Some? <==> p.persistor.Some? && p.rateLimit.Some?)
    ensures persister.None? && r.Some? ==>
      r.value == Create(p.rateLimit.value) && (Idle(r.value) <==> !p.rateLimit.value.customFunction)
  {
    if p.rateLimit.Some? && persister.None? then
      var created := CreateRateLimitedPersist(p);
      if created.Some? then created else persister
    else persister
  }

  /** The persister slot after the effect's cleanup, and the cleaned-up
      limiter (a library gate's pending timer is cancelled; a custom
      function's cleanup is a no-op). */
  datatype Teardown<K, T> = Teardown(persister: Persister<K, T>, cleaned: Persister<K, T>)

  /** The effect's cleanup: clean the persister up, then clear the slot. */
  function Unmount<K, T>(persister: Persister<K, T>): (r: Teardown<K, T>)
    ensures r.persister == None
    ensures r.cleaned.Some? <==> persister.Some?
    // cleanup itself calls nothing; it cancels what a library gate had
    // scheduled and leaves a custom function as it was
    ensures r.cleaned.Some? ==>
      && r.cleaned.value == LimiterStep(persister.value, Cleanup).next
      && (persister.value.Custom? ==> r.cleaned.value == persister.value)
      && (Idle(r.cleaned.value) <==> !persister.value.Custom?)
      && LimiterStep(persister.value, Cleanup).out == []
  {
    if persister.Some? then Teardown(None, Some(LimiterStep(persister.value, Cleanup).next))
    else Teardown(None, None)
  }
}
