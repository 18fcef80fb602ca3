# swr-global-state, modelled in Dafny

This project models the core of `swr-global-state`, a global-state hook built on
SWR. The model covers four parts:

- **The rate-limit gate** (`packages/swr-global-state/src/lib/utils.ts`).
  - `debounceWithCleanup` and `throttleWithCleanup` are state machines over an explicit clock. A call is `Call(now, args)`; the host running a due `setTimeout` callback is `Fire(now)`; `cleanup()` is `Cleanup`.
  - The trace of what the gate does is a sequence of `Start` (`onStart`), `Invoke` (the persisted write) and `End` (`onEnd`).
  - `createRateLimitedFunctionWithCleanup` chooses a custom function, a debounce gate, a throttle gate, or a pass-through, and wraps the real function in `wrappedFunc`.
- **The current store** (`packages/swr-global-state/src/lib/useStore.ts`). It covers:
  - the SWR fetcher and its read-error policy;
  - `persistFunction` and its write-error policy;
  - the `setState` mutator, which normalises `opts`;
  - `cacheKey`;
  - the mount/cleanup lifecycle of the rate-limited persister.
- **The two earlier revisions of the store**, each kept as its own module so the revisions can be compared line for line:
  - `packages/swr-global-state/src/index.ts` is `OlderStore`.
  - `src/index.ts` is `OldestStore`.
  - The `Revisions` module proves where the revisions agree and where they differ.
- **`hasValue`** of `src/utils.ts`.

How JavaScript is represented:

- Values are `Nullable<T>` (`undefined`, `null`, or a value).
- `??` is `Coalesce`.
- A user callback that may return a value or a promise finishes in one of three ways (`Settled`): resolved, rejected, or thrown synchronously. The three are kept apart because the direct `onSet` path treats a synchronous throw differently from a rejection.
- SWR's cache is a map.
- SWR's `mutate` is "run the mutator on the value cached under SWR's key and, unless `populateCache` is `false`, cache what it returns".
- `JSON.stringify` is an uninterpreted `serialize` parameter.

Behaviour of the code that the model keeps as written:

- **Read-error policy.** The fetcher rethrows a read failure when `retryOnError` is true. It falls back to the cached value or `initial` when the flag is false. This is the reverse of the write path.
- **Write-error policy.** `retryOnError = false` never makes `setState` reject:
  - only the rate-limited `persistFunction` rethrows;
  - its promise is awaited by nothing in the library except `wrappedFunc`;
  - on the direct path a rejection is reported to `onError` when one is given, and swallowed.
- **Stale throttle writes.** Throttle can write a stale value. Its immediate branch leaves a pending trailing timer armed, so an older argument can be written after a newer one (`ThrottleProps.ThrottleStaleTrailing`).
- **Throttle start value.** `lastCall` starts at 0, not at "never".
- **One flag for overlapping writes.** `isPersisting` is a single boolean. When two runs of `wrappedFunc` overlap, the first `onEnd` clears it while the second run is still going (`Limiter.OverlappingWritesClearFlag`).
- **Two key serialisations.** SWR's `mutate` writes under SWR's own serialisation of the key. The current fetcher reads under `key.toString()`, and the two older fetchers read under the raw key with `cache.get(key)`. Both reads agree with the write for string keys. For an array or object key, the write is invisible to the fetcher (`StoreProps.ForeignKeyHidesWrite`, `OlderStore.ForeignKeyHidesWrite`).

## Model

| member | source | states |
|---|---|---|
| Utils.HasValue | src/utils.ts:6-7 | `hasValue(x)` is false exactly when `x` is `undefined` or `null` |
| Utils.HasValueDecidesCoalesce | src/utils.ts:6-7 | `hasValue` is the test `??` makes: `x ?? y` keeps `x` exactly when `hasValue(x)` |
| Utils.HasValueExamples | test/utils.test.ts:6-11 | 1, `''`, 0 and NaN have a value; `null` and `undefined` do not |
| Gate.TimerDelay | packages/swr-global-state/src/lib/utils.ts:26 | a timer waits its delay, and a negative delay counts as 0; this matters for the debounce's `setTimeout(…, delay)`, while the throttle's remaining window (utils.ts lines 57-60) is always positive |
| Gate.DebounceStep | packages/swr-global-state/src/lib/utils.ts:18-34 | a call runs nothing and leaves exactly one timer, the latest, due `delay` later with its arguments; a host tick runs the function exactly when that timer is due, with the timer's arguments, and clears it; cleanup clears it and runs nothing |
| Gate.ThrottleStep | packages/swr-global-state/src/lib/utils.ts:42-69 | the function runs exactly on a call at least `delay` after `lastCall` or on a due timer, and `lastCall` moves to that time and only then; an immediate run leaves the pending timer alone; a call inside the window leaves one timer due when the window closes, with its arguments; cleanup clears the timer |
| DebounceProps.DebounceCallReschedules | packages/swr-global-state/src/lib/utils.ts:24-27 | a call replaces whatever timer was pending with exactly one timer, due `delay` after the call and carrying its arguments; it runs nothing, and nothing runs before that deadline |
| DebounceProps.DebounceQuietBurst | packages/swr-global-state/src/lib/utils.ts:24-27 | a burst whose gaps are all shorter than `delay` runs the function once, when the last timer is due, with the last call's arguments, and leaves nothing pending |
| DebounceProps.DebounceBurstCount | packages/swr-global-state/src/lib/utils.ts:24-27 | for any burst, the number of runs is one per gap of at least `delay`, plus one at the end, plus one if a timer was already due; the last run carries the last call's arguments |
| DebounceProps.DebounceOnceIffQuiet | packages/swr-global-state/src/lib/utils.ts:24-27 | from a gate with nothing due, a burst runs the function exactly once if and only if every gap is shorter than `delay` |
| DebounceProps.DebounceCleanupSilences | packages/swr-global-state/src/lib/utils.ts:29-31 | after `cleanup` the debounced function never runs until it is called again, whatever host ticks follow |
| DebounceProps.DebounceExample | packages/swr-global-state/src/lib/utils.ts:24-27 | calls at 0, 10 and 20 ms with a 500 ms delay give one write, of the third value, at 520 ms |
| ThrottleProps.ThrottleCall | packages/swr-global-state/src/lib/utils.ts:52-61 | a call at least `delay` after `lastCall` runs at once, sets `lastCall := now` and leaves the pending timer alone; otherwise it runs nothing and replaces the pending timer with one due at `lastCall + delay` carrying this call's arguments |
| ThrottleProps.ThrottleFire | packages/swr-global-state/src/lib/utils.ts:57-59 | a due trailing timer runs the function with the arguments it captured and records its firing time as `lastCall` |
| ThrottleProps.ThrottleFirstCall | packages/swr-global-state/src/lib/utils.ts:46-54 | with `lastCall = 0`, a first call at `now >= delay` runs at once; an earlier one is deferred to time `delay` |
| ThrottleProps.ThrottleWindow | packages/swr-global-state/src/lib/utils.ts:55-60 | calls inside the window collapse into one pending trailing timer at the window's end, carrying the last call's arguments; nothing runs meanwhile |
| ThrottleProps.ThrottleBurst | packages/swr-global-state/src/lib/utils.ts:49-62 | from an idle gate, a first call out of the window runs at once, and later calls within `delay` of it become one trailing run at `first + delay` with the latest arguments |
| ThrottleProps.ThrottleExample | packages/swr-global-state/src/lib/utils.ts:49-62 | with 500 ms, values set at 10000, 10100 and 10200 ms are written as 1 at 10000 and 3 at 10500 |
| ThrottleProps.ThrottleSpacing | packages/swr-global-state/src/lib/utils.ts:52-60 | when every timer fires before the next call arrives, each run is at least `delay` after the previous one (and after the initial `lastCall`), and a pending timer stays due at `lastCall + delay` |
| ThrottleProps.ThrottleRateBound | packages/swr-global-state/src/lib/utils.ts:46-60 | from a fresh throttle with punctual timers, runs are never closer than `delay` (one write per second for 1000 ms) |
| ThrottleProps.ThrottleStaleTrailing | packages/swr-global-state/src/lib/utils.ts:52-54 | without punctual timers this fails: calls at 1000, 1500 and 2500 ms with 1000 ms write 1, then 3, then the superseded 2 |
| Limiter.Create | packages/swr-global-state/src/lib/utils.ts:79-121 | a custom function wins over `type`; otherwise `'debounce'`, `'throttle'` and any other type give a debounce gate, a throttle gate and `wrappedFunc` itself; a gate is fresh, with the configured delay and nothing scheduled |
| Limiter.LimiterStep | packages/swr-global-state/src/lib/utils.ts:79-121 | the kind of limiter never changes; without a gate only a call does anything; on the direct path `wrappedFunc` brackets a call, and only a custom function delegates, never bracketing; cleanup emits nothing, leaves every library limiter idle, and leaves a custom function unchanged |
| Limiter.Persisting | packages/swr-global-state/src/lib/useStore.ts:91-92 | the last `onStart` or `onEnd` of a trace, wherever it stands, decides `isPersisting`; a trace with neither leaves it as it was |
| Limiter.Wrapped | packages/swr-global-state/src/lib/utils.ts:96-103 | `wrappedFunc` emits `onStart`, the call, `onEnd`; its promise rejects exactly when the function threw or rejected, with the same error |
| Limiter.LimiterRunWellBracketed | packages/swr-global-state/src/lib/utils.ts:96-119 | every kind of rate-limited function, over any events, emits only whole `onStart`/call/`onEnd` groups (or delegated calls) |
| Limiter.WellBracketedFlag | packages/swr-global-state/src/lib/useStore.ts:88-93 | in such a trace `onStart` and `onEnd` balance, `isPersisting` ends false, and at every point it is true exactly when more calls have started than ended |
| Limiter.LimiterKeepsFlagBalanced | packages/swr-global-state/src/lib/utils.ts:96-103 | for any configuration and any events, starts equal ends and `isPersisting` is set exactly while a call is between `onStart` and `onEnd`, each call being modelled whole |
| Limiter.OverlappingWritesClearFlag | packages/swr-global-state/src/lib/useStore.ts:91-92 | two overlapping calls share the flag: after start, start, end, two calls have started and one has ended, yet `isPersisting` is false |
| Limiter.CreatePrecedence | packages/swr-global-state/src/lib/utils.ts:88-119 | a custom function wins over any `type`; otherwise an unknown type passes each call straight to `wrappedFunc`; both of these have a no-op cleanup |
| Limiter.CustomNeverPersists | packages/swr-global-state/src/lib/utils.ts:88-94 | a custom function is given the raw function, so it never emits `onStart`/`onEnd` and `isPersisting` never becomes true |
| Limiter.DispatchMatchesGate | packages/swr-global-state/src/lib/utils.ts:105-113 | the debounce and throttle branches behave exactly like the debounce and throttle gates, event for event |
| Limiter.CreateDispatches | packages/swr-global-state/src/lib/utils.ts:105-113 | `'debounce'` gives a fresh debounce gate and `'throttle'` a fresh throttle gate with the configured delay |
| Limiter.CleanupIdles | packages/swr-global-state/src/lib/utils.ts:64-66 | cleanup itself calls nothing; it leaves a debounce gate, a throttle gate or the direct path with nothing scheduled; a custom function's no-op cleanup leaves it exactly as it was, so it is not idle |
| Limiter.CustomSurvivesCleanup | packages/swr-global-state/src/lib/utils.ts:88-93 | after its no-op cleanup a custom function is unchanged and still receives every call |
| Limiter.IdleLimiterSilent | packages/swr-global-state/src/lib/utils.ts:29-31 | a library limiter with no timer pending that is not called again never calls anything; a custom function is never idle, so it is not covered |
| Persist.Apply | packages/swr-global-state/src/lib/useStore.ts:135-137 | a value is taken as is, and an updater is applied to the current value |
| Persist.CachedData | packages/swr-global-state/src/lib/useStore.ts:99 | `cache.get(key)?.data` is the entry's data, and `undefined` for a missing entry |
| Persist.SwrOptions | packages/swr-global-state/src/index.ts:83 | options handed to SWR as given revalidate unless they are `false` or carry `revalidate: false` |
| Store.CacheKey | packages/swr-global-state/src/lib/useStore.ts:66 | the cache key is the key's string form, and `''` for a `null` or `undefined` key |
| Store.Fetch | packages/swr-global-state/src/lib/useStore.ts:97-115 | `onGet` is called exactly when there is a persistor and nothing cached; a resolved read gives the persisted value or else `initial`; a failed read is reported, rethrown exactly when `retryOnError`, and otherwise gives `initial` |
| Store.PersistFunction | packages/swr-global-state/src/lib/useStore.ts:77-86 | calls `onSet(key, data)`; any failure is reported and rethrown exactly when `retryOnError` is false |
| Store.PersistSettled | packages/swr-global-state/src/lib/useStore.ts:77-86 | the promise of `persistFunction` never throws synchronously and rejects exactly when `onSet` failed and `retryOnError` is false |
| Store.Mutator | packages/swr-global-state/src/lib/useStore.ts:132-154 | an unchanged serialization returns the current value and calls nothing; otherwise, with a persistor, exactly one call with `(key, newData)`, to the persister when one exists; the new value is returned exactly unless a direct `onSet` throws synchronously, whose error then escapes; a direct rejection is reported to `onError` when one is given, and nothing else is reported; the persister takes one step exactly when it is called, and its signals are returned |
| Store.MutateOpts | packages/swr-global-state/src/lib/useStore.ts:156-158 | a boolean `b` becomes `{revalidate: b}`, no options become `{revalidate: false}`, an object is copied unchanged |
| Store.SetState | packages/swr-global-state/src/lib/useStore.ts:130-160 | the mutator runs on the data cached under SWR's key; its value is cached there when it returns, unless `populateCache` is `false`; a thrown mutation or `populateCache: false` leaves the cache as it was; no other entry changes and no other key appears |
| Store.Mount | packages/swr-global-state/src/lib/useStore.ts:174-183 | an existing persister is kept; otherwise one exists afterwards exactly when `onSet` and `rateLimit` are both given, and it is the dispatcher's fresh limiter |
| Store.Unmount | packages/swr-global-state/src/lib/useStore.ts:186-191 | the slot is emptied; a persister that existed is cleaned up and the cleanup calls nothing; a library gate is left with nothing scheduled, and a custom persister is left as it was, not idle |
| Store.CreateRateLimitedPersist | packages/swr-global-state/src/lib/useStore.ts:74-93 | a persister exists exactly when both `onSet` and `rateLimit` are given, and it is the dispatcher's limiter for `rateLimit` |
| StoreProps.FetchPrecedence | packages/swr-global-state/src/lib/useStore.ts:99-108 | without a persistor: cache, else `initial`; with one and nothing cached: `onGet`, else `initial`; with one and something cached: the cache, without calling `onGet` |
| StoreProps.FetchCachedNull | packages/swr-global-state/src/lib/useStore.ts:101-108 | a cached `null` reads as `null` when a persistor is present and as `initial` when none is |
| StoreProps.FetchFailurePolicy | packages/swr-global-state/src/lib/useStore.ts:109-115 | a read failure is reported exactly when `onError` is given, rethrown exactly when `retryOnError`, and otherwise falls back to `initial` |
| StoreProps.ReadWritePolicyOpposite | packages/swr-global-state/src/lib/useStore.ts:77-115 | for a read failure and a write failure under the same parameters, exactly one is rethrown, and both are reported alike |
| StoreProps.MutatorCallsOnce | packages/swr-global-state/src/lib/useStore.ts:143-151 | on a change with a persistor, the first call is to the persister if one exists and to `onSet` otherwise, with the key and new value; everything after it is an error report |
| StoreProps.ReadYourWrite | packages/swr-global-state/src/lib/useStore.ts:99-108 | for a key whose SWR serialisation is its `toString`: after `setState` caches a value other than `undefined`, the fetcher returns it without calling `onGet`, and only a `null` without a persistor reads as `initial`; with `populateCache: false` the read is what it was |
| StoreProps.ForeignKeyHidesWrite | packages/swr-global-state/src/lib/useStore.ts:66 | when SWR's serialisation of the key differs from its `toString`, the fetcher reads after `setState` exactly what it read before |
| StoreProps.UpdaterExample | packages/swr-global-state/src/test/useStore.test.tsx:49-65 | a store at 10 given `prev => prev + 5` holds and reads back 15 |
| StoreProps.DirectRejectionExample | packages/swr-global-state/src/test/useStore.test.tsx:98-129 | a rejecting `onSet` with `onError` and `retryOnError: false` and no rate limit is reported once; the new value is still returned and nothing is rethrown |
| StoreProps.MutateOptsRevalidation | packages/swr-global-state/src/lib/useStore.ts:156-158 | `setState` revalidates exactly when given `true` or an object whose `revalidate` is not `false` |
| StoreProps.MountCreatesOnce | packages/swr-global-state/src/lib/useStore.ts:174-192 | running the effect again keeps the persister it made; a cleanup in between makes the next run build a fresh one |
| StoreProps.UnmountSilences | packages/swr-global-state/src/lib/useStore.ts:186-191 | teardown clears the slot; a library persister it cleaned up stays idle and writes nothing more; a custom one is left as it was, and the library itself emits nothing for it |
| StoreProps.PersistWrappedSettles | packages/swr-global-state/src/lib/utils.ts:96-103 | one persister run around `persistFunction` is `onStart`, write, `onEnd`, so `isPersisting` returns to false even on failure; it rejects exactly when `onSet` failed and retrying is off |
| OlderStore.CacheRead | packages/swr-global-state/src/index.ts:51 | `cache.get(key)?.data` finds an entry only when the raw key is a string the cache holds; otherwise `undefined` |
| OlderStore.Fetch | packages/swr-global-state/src/index.ts:48-51 | persisted value, else cached `data` under the raw key, else `initial`, each skipped only when `null`/`undefined`; `onGet` failure fails the fetch |
| OlderStore.SetState | packages/swr-global-state/src/index.ts:70-83 | a value is taken as is and an updater is applied to `state`; with a persistor `onSet(key, new)` is called exactly once, even for an equal value; without one nothing is persisted; the new value is cached under SWR's key unless `onSet` throws or `populateCache` is `false`; no other entry changes and no other key appears |
| OlderStore.ReadYourWrite | packages/swr-global-state/src/index.ts:48-51 | for a key that is its own serialisation and no persistor, the fetcher returns what `setState` cached, or `initial` for `null`/`undefined` |
| OlderStore.ForeignKeyHidesWrite | packages/swr-global-state/src/index.ts:51 | when `cache.get(key)` cannot find SWR's serialisation of the key, the fetcher reads after `setState` exactly what it read before |
| OlderStore.CreateStore | packages/swr-global-state/src/index.ts:97-101 | the hook's argument replaces `initial` unless it is `null`/`undefined`; key and persistor are unchanged |
| OldestStore.CacheGet | src/index.ts:61 | `cache.get(key)` is the raw cached value when the raw key is a string the cache holds, `undefined` otherwise |
| OldestStore.Fetch | src/index.ts:58-61 | `onGet` result, else the raw cache entry, else `initial`; `onGet` failure fails the fetch |
| OldestStore.SetState | src/index.ts:81-93 | a value is persisted via `onSet` and cached under SWR's key; an updater is applied to `state`, persisted and cached; a throw of `onSet` fails the mutation; `populateCache: false` leaves the cache alone; no other entry changes |
| OldestStore.CreateStore | src/index.ts:107-109 | the hook hands `data` to `useStore` unchanged: same key, `initial` and persistor |
| Revisions.OlderRevisionsAgree | src/index.ts:58-93 | the two earlier hooks fetch and set alike, over a cache of entries and its raw view |
| Revisions.ReadPrecedenceDiffers | packages/swr-global-state/src/index.ts:50-51 | with something cached the current hook serves the cache without `onGet`, and the older one serves a defined persisted value first |
| Revisions.ReadAgreesWhenUncached | packages/swr-global-state/src/index.ts:50-51 | with nothing cached, the current and older hooks read the same value or fail with the same error |
| Revisions.EqualWriteDiffers | packages/swr-global-state/src/index.ts:70-75 | an equal value is not persisted by the current hook but is handed to `onSet` by the older one |
| Revisions.RevalidationDiffers | packages/swr-global-state/src/index.ts:83 | the current and older hooks revalidate alike except when `setState` gets no options |
| Revisions.UpdaterBaseDiffers | packages/swr-global-state/src/index.ts:76-77 | with cache 20 and state 10, `prev + 5` gives 25 in the current hook and 15 in the older one |
| Revisions.CreateStoreOverride | src/index.ts:107-109 | the first `createStore` equals the older one called without an argument, and differs from it exactly for a defined override other than `initial` |
| Revisions.CreateStoreExample | packages/swr-global-state/src/test/useStore.test.tsx:148-161 | a counter store at 0 called with 100 fetches 100 on an empty cache, and called with nothing fetches 0 |

## Left out

- UnmountSilences: for a custom persister it states only the library's own silence. Calls the caller's function schedules for itself survive teardown and still reach `persistFunction`, and that function's behaviour is outside the model.
- CleanupIdles: for a custom function it states only that the library's cleanup is a no-op. It does not say whether the function stops on its own.
- IdleLimiterSilent: it does not cover custom functions, which are never `Idle`, because what they have scheduled is not visible to the library.
- Unmount: for a custom persister it states only that the cleanup is a no-op and calls nothing. The function's own pending calls are outside the model.
- React lifecycle (`useMemo`, `useCallback`, `useRef`, `useState`, `useEffect` scheduling and dependency lists): only the create/cleanup decision of the persister is kept, as `Store.Mount` and `Store.Unmount`.
- SWR internals: revalidation, deduplication, `fallbackData`, the options spread into `useSWR`, and how SWR serialises a key.
  - SWR's serialisation is a parameter `swrKey` of the three `SetState`s. What the older fetchers' `cache.get(key)` finds for a raw key is a parameter `lookup`: the string itself for a string key, nothing for an array or object key.
  - The cache is a map. `mutate` runs the mutator on the value cached under `swrKey`, and caches the result unless `populateCache` is `false`.
  - A thrown mutation is modelled as leaving the cache unchanged.
- `MutatorOptions` beyond `revalidate` and a boolean `populateCache`: a `populateCache` function, `optimisticData`, `rollbackOnError` and `throwOnError` are not modelled. The options record only has the four flags as `Option<bool>`. Only `revalidate` and `populateCache` affect anything.
- Limiter.LimiterKeepsFlagBalanced: its flag clause holds for writes whose `wrappedFunc` runs do not overlap. A call is modelled whole, `onStart`, write and `onEnd` at one instant. Overlapping runs are not modelled. They happen with an unknown type and back-to-back `setState`, or with an `onSet` slower than the delay. The first `onEnd` then clears the single boolean while another write is in flight, as `Limiter.OverlappingWritesClearFlag` shows.
- Promise timing: each call of a user callback finishes at once with one `Settled` outcome. Interleavings of overlapping writes, unhandled rejections, and the time `onStart` and `onEnd` lie apart are not modelled. `Start`, `Invoke` and `End` of one call are emitted together.
- Asynchronous updaters (`StateMutatorCallback` returning a promise) and updaters that throw: updaters are pure `Nullable<T> -> Nullable<T>` functions.
- `JSON.stringify` is an uninterpreted `serialize` parameter; what it considers equal is not modelled.
- Store.Mutator: `JSON.stringify` is taken to be total. A value it cannot serialise (a BigInt, a cycle) would make the mutator throw before anything is persisted or cached; that error path is not modelled.
- The behaviour of a caller's `customFunction` is caller-owned. The model records only that each call is handed to it (`Delegated`) with the raw `persistFunction`.
- Real timers and clocks: `setTimeout`, `clearTimeout` and `Date.now` become explicit `now` values and `Fire` events. A due timer runs when the host delivers a `Fire`, which may be late. The host's cap on very long delays is not modelled.
- A persistor with only one of `onGet`/`onSet`: the type requires both, so a present persistor has both.
- The `apps/` demo applications and their storage persistors, and all build, test and lint configuration.
- The second cache read in the fetcher's `catch` is not modelled separately. The model assumes `onGet` settles with no write in between, so that read sees the same cache as the first read. That cache is `undefined` whenever `onGet` ran, so the fallback is `initial`. In the code a `setState` that lands while `onGet` is pending is what the `catch` returns instead.
