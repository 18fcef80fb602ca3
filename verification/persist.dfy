/** Notions every revision of the store shares: the persistor, the argument
    of `setState`, the SWR cache and its mutate options, and the effects a
    store has on the outside world. */
module Persist {
  import opened Js

  /** A `StatePersistor`, each callback given by how it finishes for each
      input. Both callbacks are required by the type, so a persistor that
      is present has both. */
  datatype Persistor<!K, !T, E> = Persistor(
    onSet: (K, Nullable<T>) -> Settled<(), E>,
    onGet: K -> Settled<Nullable<T>, E>)

  /** The argument of `setState`: a value, or an updater of the current
      state (a function, which `typeof data === 'function'` detects). */
  datatype Input<!T> = Value(v: Nullable<T>) | Updater(f: Nullable<T> -> Nullable<T>)

  /** The new state `setState(input)` asks for, given the current one. */
  function Apply<T>(input: Input<T>, current: Nullable<T>): (r: Nullable<T>)
    ensures input.Value? ==> r == input.v
    ensures input.Updater? ==> r == input.f(current)
  {
    match input
    case Value(v) => v
    case Updater(f) => f(current)
  }

  /** An SWR cache entry; `data` is `undefined` while nothing is cached. */
  datatype CacheState<T> = CacheState(data: Nullable<T>)

  /** `cache.get(key)?.data`: `undefined` for a missing entry. */
  function CachedData<K, T>(cache: map<K, CacheState<T>>, key: K): (r: Nullable<T>)
    ensures key !in cache ==> r == Undefined
    ensures key in cache ==> r == cache[key].data
  {
    if key in cache then cache[key].data else Undefined
  }

  /** A call the store makes on the outside world. */
  datatype Effect<K, T, E> =
    | OnSetCalled(key: K, data: Nullable<T>)         // `persistor.onSet(key, data)`
    | RateLimitedCalled(key: K, data: Nullable<T>)   // the rate-limited persister
    | ErrorReported(error: E)                        // `onError(error)`

  /** SWR's `MutatorOptions`, reduced to the fields this store touches. */
  datatype MutatorOptions = MutatorOptions(
    revalidate: Option<bool>,
    populateCache: Option<bool>,
    rollbackOnError: Option<bool>,
    throwOnError: Option<bool>)

  /** The `opts` argument of `setState`: absent, a boolean, or an object. */
  datatype OptsArg = NoOpts | FlagOpts(flag: bool) | ObjectOpts(o: MutatorOptions)

  /** Whether SWR's `mutate` revalidates with these options: it does unless
      `revalidate` is explicitly false. */
  function Revalidates(o: MutatorOptions): bool {
    o.revalidate.GetOr(true)
  }

  /** Whether SWR's `mutate` caches the value it is given or computes: it
      does unless `populateCache` is explicitly false. */
  predicate Populates(o: MutatorOptions) {
    o.populateCache != Some(false)
  }

  /** How SWR's `mutate` reads an `opts` argument handed to it as is: a
      boolean is the `revalidate` flag, an object is taken as given, and
      nothing means every default (so it revalidates). */
  function SwrOptions(opts: OptsArg): (r: MutatorOptions)
    ensures Revalidates(r) <==> !(opts.FlagOpts? && !opts.flag) && !(opts.ObjectOpts? && opts.o.revalidate == Some(false))
  {
    match opts
    case NoOpts => MutatorOptions(None, None, None, None)
    case FlagOpts(b) => MutatorOptions(Some(b), None, None, None)
    case ObjectOpts(o) => o
  }

  /** The parameters of the two earlier store hooks: a key, an initial
      value and an optional persistor; neither has error handling nor rate
      limiting. */
  datatype LegacyParams<!K, !T, E> = LegacyParams(key: K, initial: Nullable<T>, persistor: Option<Persistor<K, T, E>>)
}
