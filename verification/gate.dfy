/** The rate-limit gate of `packages/swr-global-state/src/lib/utils.ts`:
    `debounceWithCleanup` and `throttleWithCleanup` as state machines over an
    explicit clock. `Date.now()` becomes the `now` carried by each event,
    `setTimeout` becomes the single optional pending `Timer`, and the host
    running a due timer becomes a `Fire(now)` event. */
module Gate {
  import opened Js

  /** A scheduled `setTimeout` callback: when it becomes due and the
      arguments its closure captured. */
  datatype Timer<A> = Timer(deadline: int, args: A)

  /** What happens to a gate: the rate-limited function is called at `now`;
      the host runs whatever timer is due at `now`; the owner cleans up. */
  datatype Event<A> = Call(now: int, args: A) | Fire(now: int) | Cleanup

  /** What a gate does to the outside world. One call of the wrapped
      function is `Start` (`onStart`), `Invoke` (the underlying function) and
      `End` (`onEnd`); `Delegated` is a call handed to a caller-supplied
      rate-limit function. */
  datatype Signal<A> = Start | Invoke(at: int, args: A) | End | Delegated(at: int, args: A)

  /** One transition: the next state and the signals it emitted. */
  datatype Step<S, A> = Step(next: S, out: seq<Signal<A>>)

  /** The delay `setTimeout` actually waits: a negative delay counts as 0. */
  function TimerDelay(ms: int): (r: nat)
    ensures ms >= 0 ==> r == ms
    ensures ms < 0 ==> r == 0
  {
    if ms < 0 then 0 else ms
  }

  /** One call of the wrapped function: `onStart`, the function, `onEnd`. */
  function Bracket<A>(at: int, args: A): seq<Signal<A>> {
    [Start, Invoke(at, args), End]
  }

  /** A timer is pending and due at time `now`. */
  predicate Due<A>(pending: Option<Timer<A>>, now: int) {
    pending.Some? && pending.value.deadline <= now
  }

  /** Feeds `evs` to a gate one by one, concatenating what each step emits. */
  function Run<S, A>(step: (S, Event<A>) -> Step<S, A>, s: S, evs: seq<Event<A>>): Step<S, A>
    decreases |evs|
  {
    if |evs| == 0 then Step(s, [])
    else
      var first := step(s, evs[0]);
      var rest := Run(step, first.next, evs[1..]);
      Step(rest.next, first.out + rest.out)
  }

  /** Running `a + b` is running `a`, then `b` from where `a` left off. */
  lemma {:induction false} RunAppend<S, A>(step: (S, Event<A>) -> Step<S, A>, s: S, a: seq<Event<A>>, b: seq<Event<A>>)
    ensures Run(step, s, a + b)
         == Step(Run(step, Run(step, s, a).next, b).next,
                 Run(step, s, a).out + Run(step, Run(step, s, a).next, b).out)
    decreases |a|
  {
    if |a| == 0 {
      assert a + b == b;
    } else {
      assert (a + b)[0] == a[0];
      assert (a + b)[1..] == a[1..] + b;
      var first := step(s, a[0]);
      RunAppend(step, first.next, a[1..], b);
    }
  }

  /** Running `[e] + rest` is one step on `e`, then `rest`. */
  lemma RunCons<S, A>(step: (S, Event<A>) -> Step<S, A>, s: S, e: Event<A>, rest: seq<Event<A>>)
    ensures Run(step, s, [e] + rest)
         == Step(Run(step, step(s, e).next, rest).next, step(s, e).out + Run(step, step(s, e).next, rest).out)
  {
    assert ([e] + rest)[0] == e;
    assert ([e] + rest)[1..] == rest;
  }

  /** Running a single event is one step. */
  lemma RunOne<S, A>(step: (S, Event<A>) -> Step<S, A>, s: S, e: Event<A>)
    ensures Run(step, s, [e]) == step(s, e)
  {
    assert [e][1..] == [];
    assert step(s, e).out + [] == step(s, e).out;
  }

  /** The `Invoke` signals of a trace, in order. */
  function Invocations<A>(sigs: seq<Signal<A>>): (r: seq<Signal<A>>)
    ensures |r| <= |sigs|
    ensures forall i :: 0 <= i < |r| ==> r[i].Invoke?
  {
    if |sigs| == 0 then []
    else (if sigs[0].Invoke? then [sigs[0]] else []) + Invocations(sigs[1..])
  }

  lemma {:induction false} InvocationsAppend<A>(a: seq<Signal<A>>, b: seq<Signal<A>>)
    ensures Invocations(a + b) == Invocations(a) + Invocations(b)
    decreases |a|
  {
    if |a| == 0 {
      assert a + b == b;
    } else {
      assert (a + b)[0] == a[0];
      assert (a + b)[1..] == a[1..] + b;
      InvocationsAppend(a[1..], b);
    }
  }

  lemma InvocationsOfBracket<A>(at: int, args: A)
    ensures Invocations(Bracket(at, args)) == [Invoke(at, args)]
  {
    var b := Bracket(at, args);
    assert b[1..] == [Invoke(at, args), End];
    assert b[1..][1..] == [End];
    assert b[1..][1..][1..] == [];
    assert Invocations(b[1..][1..]) == [] + Invocations(b[1..][1..][1..]);
    assert Invocations(b[1..]) == [Invoke(at, args)] + Invocations(b[1..][1..]);
    assert Invocations(b) == [] + Invocations(b[1..]);
  }

  /** A burst of calls `(time, args)`. Before each call the host gets the
      chance to run a timer that is due at that moment, as an event loop
      would. */
  function Burst<A>(calls: seq<(int, A)>): seq<Event<A>>
    decreases |calls|
  {
    if |calls| == 0 then []
    else [Fire(calls[0].0), Call(calls[0].0, calls[0].1)] + Burst(calls[1..])
  }

  function Last<X>(s: seq<X>): X
    requires |s| > 0
  {
    s[|s| - 1]
  }

  /** The two events a burst starts with, peeled off. */
  lemma BurstUnfold<A>(calls: seq<(int, A)>, tail: seq<Event<A>>)
    requires |calls| > 0
    ensures Burst(calls) + tail
         == [Fire(calls[0].0)] + ([Call(calls[0].0, calls[0].1)] + (Burst(calls[1..]) + tail))
  {
  }

  /** No `Call` among the events. */
  predicate NoCalls<A>(evs: seq<Event<A>>) {
    forall i :: 0 <= i < |evs| ==> !evs[i].Call?
  }

  // ---------------------------------------------------------------------
  // debounceWithCleanup

  /** The closure state of a debounced function: its delay and the one
      timer `timeoutId` may refer to. */
  datatype Debounce<A> = Debounce(delay: int, pending: Option<Timer<A>>)

  function NewDebounce<A>(delay: int): Debounce<A> {
    Debounce(delay, None)
  }

  /** A call clears the pending timer and schedules a fresh one carrying
      this call's arguments; a due timer runs the function; cleanup clears
      the timer. */
  function DebounceStep<A>(d: Debounce<A>, e: Event<A>): (r: Step<Debounce<A>, A>)
    ensures r.next.delay == d.delay
    // a call never runs the function; it leaves exactly one timer, the latest
    ensures e.Call? ==> r.out == [] && r.next.pending == Some(Timer(e.now + TimerDelay(d.delay), e.args))
    ensures e.Call? ==> r.next.pending.value.deadline >= e.now
    // the function runs only when the pending timer is due, with its arguments
    ensures e.Fire? ==> (r.out != [] <==> Due(d.pending, e.now))
    ensures e.Fire? && Due(d.pending, e.now) ==>
      r.out == Bracket(e.now, d.pending.value.args) && r.next.pending == None
    ensures e.Fire? && !Due(d.pending, e.now) ==> r.next == d
    ensures e.Cleanup? ==> r.out == [] && r.next.pending == None
  {
    match e
    case Call(now, args) =>
      Step(d.(pending := Some(Timer(now + TimerDelay(d.delay), args))), [])
    case Fire(now) =>
      if Due(d.pending, now) then Step(d.(pending := None), Bracket(now, d.pending.value.args))
      else Step(d, [])
    case Cleanup =>
      Step(d.(pending := None), [])
  }

  // ---------------------------------------------------------------------
  // throttleWithCleanup

  /** The closure state of a throttled function: its delay, `lastCall`
      (initially 0) and the one timer `timeoutId` may refer to. */
  datatype Throttle<A> = Throttle(delay: int, lastCall: int, pending: Option<Timer<A>>)

  function NewThrottle<A>(delay: int): Throttle<A> {
    Throttle(delay, 0, None)
  }

  /** A call at least `delay` after `lastCall` runs the function at once and
      leaves any pending timer alone; a call inside the window replaces the
      pending timer by one due `delay - (now - lastCall)` later. A due timer
      records its own firing time as `lastCall` and runs the function. */
  function ThrottleStep<A>(t: Throttle<A>, e: Event<A>): (r: Step<Throttle<A>, A>)
    ensures r.next.delay == t.delay
    // the function runs on a call outside the window or on a due timer
    ensures r.out != [] <==> (e.Call? && e.now - t.lastCall >= t.delay) || (e.Fire? && Due(t.pending, e.now))
    ensures e.Call? && r.out != [] ==>
      r.out == Bracket(e.now, e.args) && r.next.lastCall == e.now && r.next.pending == t.pending
    ensures e.Fire? && r.out != [] ==>
      r.out == Bracket(e.now, t.pending.value.args) && r.next.lastCall == e.now && r.next.pending == None
    // `lastCall` moves only when the function runs
    ensures r.out == [] ==> r.next.lastCall == t.lastCall
    // a call inside the window leaves one timer, due when the window closes
    ensures e.Call? && r.out == [] ==>
      r.next.pending == Some(Timer(t.lastCall + t.delay, e.args)) && t.lastCall + t.delay > e.now
    ensures e.Fire? && r.out == [] ==> r.next == t
    ensures e.Cleanup? ==> r.out == [] && r.next.pending == None
  {
    match e
    case Call(now, args) =>
      if now - t.lastCall >= t.delay then Step(t.(lastCall := now), Bracket(now, args))
      else Step(t.(pending := Some(Timer(now + TimerDelay(t.delay - (now - t.lastCall)), args))), [])
    case Fire(now) =>
      if Due(t.pending, now) then Step(t.(lastCall := now, pending := None), Bracket(now, t.pending.value.args))
      else Step(t, [])
    case Cleanup =>
      Step(t.(pending := None), [])
  }
}
