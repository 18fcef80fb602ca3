/** `createRateLimitedFunctionWithCleanup` of
    `packages/swr-global-state/src/lib/utils.ts`: the dispatcher that picks a
    gate from a rate-limit configuration, and `wrappedFunc`, which brackets
    every real call with `onStart`/`onEnd`. */
module Limiter {
  import opened Js
  import opened Gate

  /** A `type` string other than the two the dispatcher recognises. */
  type OtherName = s: string | s != "debounce" && s != "throttle" witness ""

  /** The `type` field: `'debounce'`, `'throttle'`, or any other string a
      caller passed. */
  datatype RateLimitType = DebounceType | ThrottleType | UnknownType(name: OtherName)

  /** A `RateLimitConfig`; `customFunction` records only whether one was
      given, since its behaviour belongs to the caller. */
  datatype RateLimitConfig = RateLimitConfig(kind: RateLimitType, delay: int, customFunction: bool)

  /** The rate-limited function the dispatcher hands back, with the closure
      state it carries. */
  datatype Limiter<A> =
    | Debounced(d: Debounce<A>)
    | Throttled(t: Throttle<A>)
    | Direct              // unknown type: `wrappedFunc` itself
    | Custom(delay: int)  // the caller's function, given the raw func

  /** The dispatcher: a custom function wins over `type`; otherwise the
      type picks a fresh debounce or throttle gate around `wrappedFunc`, and
      any other type passes calls straight to `wrappedFunc`. */
  function Create<A>(config: RateLimitConfig): (r: Limiter<A>)
    ensures r.Custom? <==> config.customFunction
    ensures r.Custom? ==> r.delay == config.delay
    ensures !config.customFunction ==>
      && (r.Debounced? <==> config.kind == DebounceType)
      && (r.Throttled? <==> config.kind == ThrottleType)
      && (r.Direct? <==> config.kind.UnknownType?)
    // a gate is created fresh, with the configured delay and nothing scheduled
    ensures r.Debounced? ==> r.d == NewDebounce(config.delay)
    ensures r.Throttled? ==> r.t == NewThrottle(config.delay)
    ensures Idle(r) <==> !config.customFunction
  {
    if config.customFunction then Custom(config.delay)
    else match config.kind
      case DebounceType => Debounced(NewDebounce(config.delay))
      case ThrottleType => Throttled(NewThrottle(config.delay))
      case UnknownType(_) => Direct
  }

  /** One event on the dispatcher's result. `cleanup` is the gate's own
      cleanup for debounce and throttle and the no-op `() => {}` otherwise;
      a custom function is called with the raw function, so it emits
      neither `onStart` nor `onEnd`. */
  function LimiterStep<A>(l: Limiter<A>, e: Event<A>): (r: Step<Limiter<A>, A>)
    // the kind of limiter never changes
    ensures (r.next.Debounced? <==> l.Debounced?) && (r.next.Throttled? <==> l.Throttled?)
    ensures l.Direct? || l.Custom? ==> r.next == l
    // only a call reaches a limiter without a gate
    ensures (l.Direct? || l.Custom?) && !e.Call? ==> r.out == []
    ensures l.Direct? && e.Call? ==> r.out == Bracket(e.now, e.args)
    // only a custom limiter delegates, and it never brackets
    ensures forall i :: 0 <= i < |r.out| ==> (r.out[i].Delegated? <==> l.Custom?)
    // cleanup idles every limiter but a custom one, whose cleanup is a no-op
    ensures e.Cleanup? ==> r.out == [] && (Idle(r.next) <==> !l.Custom?)
  {
    match l
    case Debounced(d) =>
      var s := DebounceStep(d, e);
      Step(Debounced(s.next), s.out)
    case Throttled(t) =>
      var s := ThrottleStep(t, e);
      Step(Throttled(s.next), s.out)
    case Direct =>
      Step(l, if e.Call? then Bracket(e.now, e.args) else [])
    case Custom(_) =>
      Step(l, if e.Call? then [Delegated(e.now, e.args)] else [])
  }

  /** The signals and the settled promise of one `wrappedFunc(key, data)`. */
  datatype WrappedCall<A, E> = WrappedCall(signals: seq<Signal<A>>, result: Result<(), E>)

  /** `wrappedFunc`: `onStart`, then `await func(...)`, then `onEnd` in a
      `finally`. Being `async`, it turns a synchronous throw of `func` into
      a rejection, like a rejection of `func`'s own promise. */
  function Wrapped<A, E>(at: int, args: A, func: A -> Settled<(), E>): (r: WrappedCall<A, E>)
    ensures |r.signals| == 3 && r.signals[0] == Start && r.signals[2] == End
    ensures r.signals[1] == Invoke(at, args)
    ensures r.result.Err? <==> func(args).Failed()
    ensures r.result.Err? ==> r.result.error == func(args).error
  {
    var result := match func(args)
      case Resolved(_) => Ok(())
      case Rejected(e) => Err(e)
      case Threw(e) => Err(e);
    WrappedCall(Bracket(at, args), result)
  }

  // ---------------------------------------------------------------------
  // The persisting flag

  /** The `isPersisting` flag after a trace: `onStart` sets it, `onEnd`
      clears it. */
  function Persisting<A>(flag: bool, sigs: seq<Signal<A>>): (r: bool)
    // the last `onStart` or `onEnd` of the trace decides the flag
    ensures |sigs| > 0 && Last(sigs).Start? ==> r
    ensures |sigs| > 0 && Last(sigs).End? ==> !r
    ensures forall i :: 0 <= i < |sigs| && (sigs[i].Start? || sigs[i].End?)
                        && (forall j :: i < j < |sigs| ==> !sigs[j].Start? && !sigs[j].End?)
                        ==> r == sigs[i].Start?
    // a trace with neither leaves the flag as it was
    ensures (forall i :: 0 <= i < |sigs| ==> !sigs[i].Start? && !sigs[i].End?) ==> r == flag
    decreases |sigs|
  {
    if |sigs| == 0 then flag
    else
      assert forall j :: 1 <= j < |sigs| ==> sigs[j] == sigs[1..][j - 1];
      Persisting(if sigs[0].Start? then true else if sigs[0].End? then false else flag, sigs[1..])
  }

  function Starts<A>(sigs: seq<Signal<A>>): nat
    decreases |sigs|
  {
    if |sigs| == 0 then 0 else (if sigs[0].Start? then 1 else 0) + Starts(sigs[1..])
  }

  function Ends<A>(sigs: seq<Signal<A>>): nat
    decreases |sigs|
  {
    if |sigs| == 0 then 0 else (if sigs[0].End? then 1 else 0) + Ends(sigs[1..])
  }

  /** A trace made of whole `wrappedFunc` calls and delegated calls. */
  predicate WellBracketed<A>(sigs: seq<Signal<A>>)
    decreases |sigs|
  {
    |sigs| == 0
    || (|sigs| >= 3 && sigs[0].Start? && sigs[1].Invoke? && sigs[2].End? && WellBracketed(sigs[3..]))
    || (sigs[0].Delegated? && WellBracketed(sigs[1..]))
  }

  lemma {:induction false} PersistingAppend<A>(flag: bool, a: seq<Signal<A>>, b: seq<Signal<A>>)
    ensures Persisting(flag, a + b) == Persisting(Persisting(flag, a), b)
    ensures Starts(a + b) == Starts(a) + Starts(b)
    ensures Ends(a + b) == Ends(a) + Ends(b)
    decreases |a|
  {
    if |a| == 0 {
      assert a + b == b;
    } else {
      assert (a + b)[0] == a[0];
      assert (a + b)[1..] == a[1..] + b;
      PersistingAppend(if a[0].Start? then true else if a[0].End? then false else flag, a[1..], b);
    }
  }

  lemma {:induction false} WellBracketedAppend<A>(a: seq<Signal<A>>, b: seq<Signal<A>>)
    requires WellBracketed(a) && WellBracketed(b)
    ensures WellBracketed(a + b)
    decreases |a|
  {
    if |a| == 0 {
      assert a + b == b;
    } else if |a| >= 3 && a[0].Start? && a[1].Invoke? && a[2].End? && WellBracketed(a[3..]) {
      WellBracketedAppend(a[3..], b);
      assert (a + b)[0] == a[0] && (a + b)[1] == a[1] && (a + b)[2] == a[2];
      assert (a + b)[3..] == a[3..] + b;
    } else {
      WellBracketedAppend(a[1..], b);
      assert (a + b)[0] == a[0];
      assert (a + b)[1..] == a[1..] + b;
    }
  }

  lemma BracketWellBracketed<A>(at: int, args: A)
    ensures WellBracketed(Bracket(at, args))
  {
    var b := Bracket(at, args);
    assert b[..3] == b && b[3..] == [];
  }

  lemma LimiterStepWellBracketed<A>(l: Limiter<A>, e: Event<A>)
    ensures WellBracketed(LimiterStep(l, e).out)
  {
    var out := LimiterStep(l, e).out;
    if |out| == 3 {
      assert out == Bracket(out[1].at, out[1].args);
      BracketWellBracketed(out[1].at, out[1].args);
    } else if |out| == 1 {
      assert out[1..] == [];
    }
  }

  /** Every run of every kind of limiter emits whole calls only. */
  lemma {:induction false} LimiterRunWellBracketed<A>(l: Limiter<A>, evs: seq<Event<A>>)
    ensures WellBracketed(Run(LimiterStep, l, evs).out)
    decreases |evs|
  {
    if |evs| > 0 {
      var s := LimiterStep(l, evs[0]);
      LimiterStepWellBracketed(l, evs[0]);
      LimiterRunWellBracketed(s.next, evs[1..]);
      WellBracketedAppend(s.out, Run(LimiterStep, s.next, evs[1..]).out);
    }
  }

  /** Inside one whole call the flag is set after `onStart` and cleared
      by `onEnd`. */
  lemma CallPrefixes<A>(b: seq<Signal<A>>)
    requires |b| == 3 && b[0].Start? && b[1].Invoke? && b[2].End?
    ensures forall k :: 0 <= k <= 3 ==>
      (Persisting(false, b[..k]) <==> Starts(b[..k]) > Ends(b[..k]))
    ensures !Persisting(false, b) && Starts(b) == 1 && Ends(b) == 1
  {
    var p1, p2 := b[..1], b[..2];
    assert b[..0] == [];
    assert p1[1..] == [];
    assert Persisting(false, p1) == Persisting(true, p1[1..]);
    assert Starts(p1) == 1 + Starts(p1[1..]) && Ends(p1) == Ends(p1[1..]);
    assert p2[1..] == [b[1]] && p2[1..][1..] == [];
    assert Persisting(false, p2) == Persisting(true, p2[1..]) == Persisting(true, p2[1..][1..]);
    assert Starts(p2) == 1 + Starts(p2[1..]) == 1 + Starts(p2[1..][1..]);
    assert Ends(p2) == Ends(p2[1..]) == Ends(p2[1..][1..]);
    assert b[..3] == b;
    assert b[1..] == [b[1], b[2]] && b[1..][1..] == [b[2]] && b[1..][1..][1..] == [];
    assert Persisting(false, b) == Persisting(true, b[1..]) == Persisting(true, b[1..][1..])
        == Persisting(false, b[1..][1..][1..]);
    assert Starts(b) == 1 + Starts(b[1..]) == 1 + Starts(b[1..][1..]) == 1 + Starts(b[1..][1..][1..]);
    assert Ends(b) == Ends(b[1..]) == Ends(b[1..][1..]) == 1 + Ends(b[1..][1..][1..]);
  }

  /** In a trace of whole calls, starts and ends balance, the flag ends
      false, and at every point the flag is set exactly when more calls
      have started than ended. */
  lemma {:induction false} WellBracketedFlag<A>(sigs: seq<Signal<A>>)
    requires WellBracketed(sigs)
    ensures Starts(sigs) == Ends(sigs)
    ensures !Persisting(false, sigs)
    ensures forall k :: 0 <= k <= |sigs| ==>
      (Persisting(false, sigs[..k]) <==> Starts(sigs[..k]) > Ends(sigs[..k]))
    decreases |sigs|
  {
    if |sigs| == 0 {
      assert forall k :: 0 <= k <= |sigs| ==> sigs[..k] == [];
    } else if |sigs| >= 3 && sigs[0].Start? && sigs[1].Invoke? && sigs[2].End? && WellBracketed(sigs[3..]) {
      var b := sigs[..3];
      var rest := sigs[3..];
      assert sigs == b + rest;
      WellBracketedFlag(rest);
      PersistingAppend(false, b, rest);
      CallPrefixes(b);
      forall k | 0 <= k <= |sigs|
        ensures Persisting(false, sigs[..k]) <==> Starts(sigs[..k]) > Ends(sigs[..k])
      {
        if k <= 3 {
          assert sigs[..k] == b[..k];
        } else {
          assert sigs[..k] == b + rest[..k - 3];
          PersistingAppend(false, b, rest[..k - 3]);
        }
      }
    } else {
      var rest := sigs[1..];
      assert sigs == [sigs[0]] + rest;
      WellBracketedFlag(rest);
      PersistingAppend(false, [sigs[0]], rest);
      assert [sigs[0]][1..] == [];
      forall k | 0 <= k <= |sigs|
        ensures Persisting(false, sigs[..k]) <==> Starts(sigs[..k]) > Ends(sigs[..k])
      {
        if k == 0 {
          assert sigs[..k] == [];
        } else {
          assert sigs[..k] == [sigs[0]] + rest[..k - 1];
          PersistingAppend(false, [sigs[0]], rest[..k - 1]);
        }
      }
    }
  }

  /** Whatever the configuration and whatever happens to the limiter,
      `onStart` and `onEnd` stay balanced, `isPersisting` is set exactly
      while a call is between its `onStart` and `onEnd`, and it ends false. */
  lemma LimiterKeepsFlagBalanced<A>(l: Limiter<A>, evs: seq<Event<A>>)
    ensures var out := Run(LimiterStep, l, evs).out;
      && Starts(out) == Ends(out)
      && !Persisting(false, out)
      && forall k :: 0 <= k <= |out| ==> (Persisting(false, out[..k]) <==> Starts(out[..k]) > Ends(out[..k]))
  {
    LimiterRunWellBracketed(l, evs);
    WellBracketedFlag(Run(LimiterStep, l, evs).out);
  }

  /** The balance above rests on every call being a whole `Bracket`. Two
      writes whose `wrappedFunc` runs overlap (an unknown type called twice
      before the first `onSet` settles, or an `onSet` slower than the delay)
      share the one boolean: the first `onEnd` clears it while the second
      call is still running. */
  lemma OverlappingWritesClearFlag()
    ensures var sigs: seq<Signal<int>> := [Start, Start, End];
      && Starts(sigs) == 2 && Ends(sigs) == 1
      && !Persisting(false, sigs)
  {
    var sigs: seq<Signal<int>> := [Start, Start, End];
    assert sigs[1..] == [Start, End] && sigs[1..][1..] == [End] && sigs[1..][1..][1..] == [];
  }

  /** A custom function takes precedence over `type`, whatever the type;
      without one, an unknown type passes calls straight through. Both of
      these get a no-op cleanup. */
  lemma CreatePrecedence<A>(config: RateLimitConfig, now: int, args: A)
    ensures config.customFunction ==> Create<A>(config) == Custom(config.delay)
    ensures !config.customFunction && config.kind.UnknownType? ==>
      && Create<A>(config) == Direct
      && LimiterStep(Create<A>(config), Call(now, args)).out == Bracket(now, args)
    ensures Create<A>(config).Custom? || Create<A>(config).Direct? ==>
      LimiterStep(Create<A>(config), Cleanup) == Step(Create<A>(config), [])
  {
  }

  /** A custom rate-limit function is never bracketed by `onStart`/`onEnd`,
      so with one configured `isPersisting` never becomes true. */
  lemma {:induction false} CustomNeverPersists<A>(delay: int, evs: seq<Event<A>>)
    ensures Starts(Run(LimiterStep, Custom(delay), evs).out) == 0
    ensures !Persisting(false, Run(LimiterStep, Custom(delay), evs).out)
    decreases |evs|
  {
    if |evs| > 0 {
      var s := LimiterStep<A>(Custom(delay), evs[0]);
      CustomNeverPersists(delay, evs[1..]);
      var rest := Run(LimiterStep, Custom(delay), evs[1..]).out;
      PersistingAppend(false, s.out, rest);
      if |s.out| == 1 {
        assert s.out[1..] == [];
      }
    }
  }

  /** Without calls, a custom function gets nothing from the library. */
  lemma {:induction false} CustomQuietWithoutCalls<A>(delay: int, evs: seq<Event<A>>)
    requires NoCalls(evs)
    ensures Run(LimiterStep, Custom(delay), evs).out == []
    decreases |evs|
  {
    if |evs| > 0 {
      assert !evs[0].Call?;
      CustomQuietWithoutCalls(delay, evs[1..]);
    }
  }

  /** A debounce configuration behaves exactly like a fresh debounce gate,
      and a throttle configuration like a fresh throttle gate. */
  lemma {:induction false} DispatchMatchesGate<A>(d: Debounce<A>, t: Throttle<A>, evs: seq<Event<A>>)
    ensures Run(LimiterStep, Debounced(d), evs).out == Run(DebounceStep, d, evs).out
    ensures Run(LimiterStep, Debounced(d), evs).next == Debounced(Run(DebounceStep, d, evs).next)
    ensures Run(LimiterStep, Throttled(t), evs).out == Run(ThrottleStep, t, evs).out
    ensures Run(LimiterStep, Throttled(t), evs).next == Throttled(Run(ThrottleStep, t, evs).next)
    decreases |evs|
  {
    if |evs| > 0 {
      DispatchMatchesGate(DebounceStep(d, evs[0]).next, ThrottleStep(t, evs[0]).next, evs[1..]);
    }
  }

  lemma CreateDispatches<A>(config: RateLimitConfig)
    ensures !config.customFunction && config.kind == DebounceType ==> Create<A>(config) == Debounced(NewDebounce(config.delay))
    ensures !config.customFunction && config.kind == ThrottleType ==> Create<A>(config) == Throttled(NewThrottle(config.delay))
  {
  }

  /** Nothing is scheduled: a debounce or throttle gate without a pending
      timer, or the direct path, which never schedules anything. A custom
      function is never idle: it may hold calls of its own that the
      library neither sees nor cancels. */
  predicate Idle<A>(l: Limiter<A>) {
    match l
    case Debounced(d) => d.pending == None
    case Throttled(t) => t.pending == None
    case Direct => true
    case Custom(_) => false
  }

  /** Cleanup emits nothing. It leaves every library limiter idle; the
      no-op cleanup of a custom function leaves it exactly as it was. */
  lemma CleanupIdles<A>(l: Limiter<A>)
    ensures Idle(LimiterStep(l, Cleanup).next) <==> !l.Custom?
    ensures l.Custom? ==> LimiterStep(l, Cleanup).next == l
    ensures LimiterStep(l, Cleanup).out == []
  {
  }

  /** After its no-op cleanup a custom function still receives every call,
      so whatever it does with one is outside the library's control. */
  lemma CustomSurvivesCleanup<A>(delay: int, now: int, args: A)
    ensures var cleaned := LimiterStep<A>(Custom(delay), Cleanup).next;
      && cleaned == Custom(delay)
      && LimiterStep(cleaned, Call(now, args)).out == [Delegated(now, args)]
  {
  }

  /** An idle limiter that is not called again never calls anything,
      however many host ticks and cleanups follow. */
  lemma {:induction false} IdleLimiterSilent<A>(l: Limiter<A>, evs: seq<Event<A>>)
    requires Idle(l)
    requires NoCalls(evs)
    ensures Run(LimiterStep, l, evs).out == []
    ensures Idle(Run(LimiterStep, l, evs).next)
    decreases |evs|
  {
    if |evs| > 0 {
      assert !evs[0].Call?;
      IdleLimiterSilent(LimiterStep(l, evs[0]).next, evs[1..]);
    }
  }
}
