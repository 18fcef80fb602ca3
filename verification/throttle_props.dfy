/** What `throttleWithCleanup` guarantees, stated over runs of the gate. */
module ThrottleProps {
  import opened Js
  import opened Gate

  /** One call, both branches: at least `delay` after `lastCall` the function
      runs at once with this call's arguments, `lastCall` becomes `now` and
      the pending timer is left as it was; otherwise nothing runs and the
      pending timer is replaced by one due exactly `delay` after `lastCall`
      carrying this call's arguments. */
  lemma ThrottleCall<A>(t: Throttle<A>, now: int, args: A)
    ensures var s := ThrottleStep(t, Call(now, args));
      if now - t.lastCall >= t.delay then
        s.out == Bracket(now, args) && s.next.lastCall == now && s.next.pending == t.pending
      else
        s.out == [] && s.next.lastCall == t.lastCall
        && s.next.pending == Some(Timer(t.lastCall + t.delay, args))
  {
  }

  /** A due timer runs the function with the arguments it captured and
      records the firing time as `lastCall`. */
  lemma ThrottleFire<A>(t: Throttle<A>, now: int)
    requires Due(t.pending, now)
    ensures ThrottleStep(t, Fire(now)).out == Bracket(now, t.pending.value.args)
    ensures ThrottleStep(t, Fire(now)).next.lastCall == now
    ensures ThrottleStep(t, Fire(now)).next.pending == None
  {
  }

  /** With the initial `lastCall = 0`, a first call at `now >= delay` runs
      at once, and an earlier one is deferred until time `delay`. */
  lemma ThrottleFirstCall<A>(delay: int, now: int, args: A)
    ensures now >= delay ==> Run(ThrottleStep, NewThrottle<A>(delay), [Call(now, args)]).out == Bracket(now, args)
    ensures now < delay ==>
      && Run(ThrottleStep, NewThrottle<A>(delay), [Call(now, args)]).out == []
      && Run(ThrottleStep, NewThrottle<A>(delay), [Call(now, args)]).next.pending == Some(Timer(delay, args))
  {
    RunOne(ThrottleStep, NewThrottle<A>(delay), Call(now, args));
  }

  /** A pending timer, if any, is due one `delay` after `lastCall`. */
  predicate Scheduled<A>(t: Throttle<A>) {
    t.pending.Some? ==> t.pending.value.deadline == t.lastCall + t.delay
  }

  /** Calls that all fall within the window opened by `lastCall` collapse
      into a single pending trailing timer, due at the window's end and
      carrying the LAST call's arguments; nothing runs meanwhile. */
  lemma {:induction false} ThrottleWindow<A>(t: Throttle<A>, calls: seq<(int, A)>)
    requires |calls| > 0
    requires Scheduled(t)
    requires forall i :: 0 <= i < |calls| ==> calls[i].0 - t.lastCall < t.delay
    ensures Run(ThrottleStep, t, Burst(calls))
         == Step(t.(pending := Some(Timer(t.lastCall + t.delay, Last(calls).1))), [])
    decreases |calls|
  {
    var c := calls[0];
    BurstUnfold(calls, []);
    assert Burst(calls) + [] == Burst(calls);
    assert Burst(calls[1..]) + [] == Burst(calls[1..]);
    var s0 := ThrottleStep(t, Fire(c.0));
    assert s0 == Step(t, []);
    var t1 := ThrottleStep(t, Call(c.0, c.1)).next;
    assert t1 == t.(pending := Some(Timer(t.lastCall + t.delay, c.1)));
    RunCons(ThrottleStep, t, Fire(c.0), [Call(c.0, c.1)] + Burst(calls[1..]));
    RunCons(ThrottleStep, t, Call(c.0, c.1), Burst(calls[1..]));
    if |calls| == 1 {
      assert calls[1..] == [];
    } else {
      assert Last(calls[1..]) == Last(calls);
      assert forall i :: 0 <= i < |calls[1..]| ==> calls[1..][i] == calls[i + 1];
      ThrottleWindow(t1, calls[1..]);
    }
  }

  /** The throttle scenario: from an idle gate, a first call at least
      `delay` after `lastCall` runs at once; further calls within `delay` of
      it collapse into ONE trailing run at the window's end, with the latest
      arguments. */
  lemma ThrottleBurst<A>(t: Throttle<A>, first: (int, A), rest: seq<(int, A)>, fireAt: int)
    requires t.pending == None
    requires first.0 - t.lastCall >= t.delay
    requires |rest| > 0
    requires forall i :: 0 <= i < |rest| ==> rest[i].0 - first.0 < t.delay
    requires fireAt == first.0 + t.delay
    ensures Run(ThrottleStep, t, Burst([first] + rest) + [Fire(fireAt)]).out
         == Bracket(first.0, first.1) + Bracket(fireAt, Last(rest).1)
    ensures Run(ThrottleStep, t, Burst([first] + rest) + [Fire(fireAt)]).next.lastCall == fireAt
  {
    var calls := [first] + rest;
    assert calls[0] == first && calls[1..] == rest;
    BurstUnfold(calls, [Fire(fireAt)]);
    var tail := Burst(rest) + [Fire(fireAt)];
    var t0 := ThrottleStep(t, Fire(first.0));
    assert t0 == Step(t, []);
    var s1 := ThrottleStep(t, Call(first.0, first.1));
    assert s1 == Step(t.(lastCall := first.0), Bracket(first.0, first.1));
    RunCons(ThrottleStep, t, Fire(first.0), [Call(first.0, first.1)] + tail);
    RunCons(ThrottleStep, t, Call(first.0, first.1), tail);
    ThrottleWindow(s1.next, rest);
    RunAppend(ThrottleStep, s1.next, Burst(rest), [Fire(fireAt)]);
    var t2 := s1.next.(pending := Some(Timer(first.0 + t.delay, Last(rest).1)));
    RunOne(ThrottleStep, t2, Fire(fireAt));
  }

  /** With a 500 ms delay: the value set at 10000 is written at once; the
      two set 100 and 200 ms later become one write of the latest, at 10500. */
  lemma ThrottleExample()
    ensures Run(ThrottleStep, NewThrottle<int>(500),
                Burst([(10000, 1), (10100, 2), (10200, 3)]) + [Fire(10500)]).out
         == Bracket(10000, 1) + Bracket(10500, 3)
  {
    assert [(10000, 1)] + [(10100, 2), (10200, 3)] == [(10000, 1), (10100, 2), (10200, 3)];
    ThrottleBurst(NewThrottle<int>(500), (10000, 1), [(10100, 2), (10200, 3)], 10500);
  }

  /** The timers of a run fire no later than the next call: whenever a call
      arrives while a timer is pending, the timer is not yet due. (A host
      that runs due timers before later calls meets this.) */
  predicate Punctual<A>(t: Throttle<A>, evs: seq<Event<A>>)
    decreases |evs|
  {
    |evs| == 0 ||
    ((evs[0].Call? && t.pending.Some? ==> evs[0].now < t.pending.value.deadline)
     && Punctual(ThrottleStep(t, evs[0]).next, evs[1..]))
  }

  /** The times of the invocations in a trace, in order. */
  function InvokeTimes<A>(sigs: seq<Signal<A>>): (r: seq<int>)
    ensures |r| == |Invocations(sigs)|
    ensures forall i :: 0 <= i < |r| ==> Invocations(sigs)[i].at == r[i]
  {
    var invs := Invocations(sigs);
    seq(|invs|, i requires 0 <= i < |invs| => invs[i].at)
  }

  lemma InvokeTimesAppend<A>(a: seq<Signal<A>>, b: seq<Signal<A>>)
    ensures InvokeTimes(a + b) == InvokeTimes(a) + InvokeTimes(b)
  {
    InvocationsAppend(a, b);
  }

  lemma InvokeTimesOfBracket<A>(at: int, args: A)
    ensures InvokeTimes(Bracket(at, args)) == [at]
  {
    InvocationsOfBracket(at, args);
  }

  /** Consecutive times are at least `delay` apart. */
  predicate Spaced(ts: seq<int>, delay: int) {
    forall i :: 0 < i < |ts| ==> ts[i] - ts[i - 1] >= delay
  }

  lemma SpacedCons(x: int, ts: seq<int>, delay: int)
    requires Spaced(ts, delay)
    requires |ts| > 0 ==> ts[0] - x >= delay
    ensures Spaced([x] + ts, delay)
  {
    var s := [x] + ts;
    forall i | 0 < i < |s|
      ensures s[i] - s[i - 1] >= delay
    {
      assert s[i] == ts[i - 1];
      if i > 1 {
        assert s[i - 1] == ts[i - 2];
      }
    }
  }

  /** When timers fire no later than the next call, every invocation is at
      least `delay` after the previous one, and the first at least `delay`
      after the initial `lastCall`. */
  lemma {:induction false} ThrottleSpacing<A>(t: Throttle<A>, evs: seq<Event<A>>)
    requires Scheduled(t)
    requires Punctual(t, evs)
    ensures Spaced([t.lastCall] + InvokeTimes(Run(ThrottleStep, t, evs).out), t.delay)
    ensures Scheduled(Run(ThrottleStep, t, evs).next)
    decreases |evs|
  {
    if |evs| == 0 {
      assert [t.lastCall] + InvokeTimes<A>([]) == [t.lastCall];
    } else {
      var s := ThrottleStep(t, evs[0]);
      var rest := Run(ThrottleStep, s.next, evs[1..]);
      ThrottleSpacing(s.next, evs[1..]);
      InvokeTimesAppend(s.out, rest.out);
      var ts := InvokeTimes(rest.out);
      if s.out == [] {
        assert s.next.lastCall == t.lastCall;
        assert [t.lastCall] + InvokeTimes(s.out + rest.out) == [s.next.lastCall] + ts;
      } else {
        var now := s.next.lastCall;
        assert s.out == Bracket(now, s.out[1].args);
        assert now - t.lastCall >= t.delay;
        InvokeTimesOfBracket(now, s.out[1].args);
        assert InvokeTimes(s.out + rest.out) == [now] + ts;
        SpacedCons(t.lastCall, [now] + ts, t.delay);
        assert [t.lastCall] + InvokeTimes(s.out + rest.out) == [t.lastCall] + ([now] + ts);
      }
    }
  }

  /** From a fresh throttle, with timers firing no later than the next
      call, invocations are never closer than `delay`: for a 1000 ms delay,
      at most one write per second. */
  lemma ThrottleRateBound<A>(delay: int, evs: seq<Event<A>>)
    requires Punctual(NewThrottle<A>(delay), evs)
    ensures Spaced(InvokeTimes(Run(ThrottleStep, NewThrottle<A>(delay), evs).out), delay)
  {
    ThrottleSpacing(NewThrottle<A>(delay), evs);
    var ts := InvokeTimes(Run(ThrottleStep, NewThrottle<A>(delay), evs).out);
    var s := [0] + ts;
    forall i | 0 < i < |ts|
      ensures ts[i] - ts[i - 1] >= delay
    {
      assert ts[i] == s[i + 1] && ts[i - 1] == s[i];
    }
  }

  /** Without that hypothesis the bound fails and an OLDER value can be
      written last: the immediate branch leaves the trailing timer armed, so
      when that timer runs late (after a call that itself ran at once) it
      writes the superseded argument 2 after the newer 3, at the same
      instant. */
  lemma ThrottleStaleTrailing()
    ensures var evs := [Call(1000, 1), Call(1500, 2), Call(2500, 3), Fire(2500)];
      && !Punctual(NewThrottle<int>(1000), evs)
      && Run(ThrottleStep, NewThrottle<int>(1000), evs).out
         == Bracket(1000, 1) + Bracket(2500, 3) + Bracket(2500, 2)
  {
    var t0 := NewThrottle<int>(1000);
    var s1 := ThrottleStep(t0, Call(1000, 1));
    var s2 := ThrottleStep(s1.next, Call(1500, 2));
    var s3 := ThrottleStep(s2.next, Call(2500, 3));
    var s4 := ThrottleStep(s3.next, Fire(2500));
    assert s2.next.pending == Some(Timer(2000, 2));
    RunCons(ThrottleStep, s3.next, Fire(2500), []);
    RunCons(ThrottleStep, s2.next, Call(2500, 3), [Fire(2500)]);
    RunCons(ThrottleStep, s1.next, Call(1500, 2), [Call(2500, 3), Fire(2500)]);
    RunCons(ThrottleStep, t0, Call(1000, 1), [Call(1500, 2), Call(2500, 3), Fire(2500)]);
    var evs := [Call(1000, 1), Call(1500, 2), Call(2500, 3), Fire(2500)];
    assert evs[1..] == [Call(1500, 2), Call(2500, 3), Fire(2500)];
    assert evs[1..][1..] == [Call(2500, 3), Fire(2500)];
    assert !Punctual(s2.next, evs[1..][1..]);
  }
}
