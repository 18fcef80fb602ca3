/** What `debounceWithCleanup` guarantees, stated over runs of the gate. */
module DebounceProps {
  import opened Js
  import opened Gate

  /** Every call comes before the timer of the previous one is due: the
      gap between consecutive calls is shorter than the delay. */
  predicate Quiet<A>(calls: seq<(int, A)>, delay: int) {
    forall i :: 0 < i < |calls| ==> calls[i].0 < calls[i - 1].0 + TimerDelay(delay)
  }

  /** How many consecutive calls are at least the delay apart. */
  function LongGaps<A>(calls: seq<(int, A)>, delay: int): nat
    decreases |calls|
  {
    if |calls| < 2 then 0
    else (if calls[1].0 >= calls[0].0 + TimerDelay(delay) then 1 else 0) + LongGaps(calls[1..], delay)
  }

  lemma {:induction false} QuietIffNoLongGaps<A>(calls: seq<(int, A)>, delay: int)
    ensures Quiet(calls, delay) <==> LongGaps(calls, delay) == 0
    decreases |calls|
  {
    if |calls| >= 2 {
      QuietIffNoLongGaps(calls[1..], delay);
      if Quiet(calls, delay) {
        forall i | 0 < i < |calls[1..]|
          ensures calls[1..][i].0 < calls[1..][i - 1].0 + TimerDelay(delay)
        {
          assert calls[1..][i] == calls[i + 1] && calls[1..][i - 1] == calls[i];
        }
      }
      if LongGaps(calls, delay) == 0 {
        forall i | 0 < i < |calls|
          ensures calls[i].0 < calls[i - 1].0 + TimerDelay(delay)
        {
          if i > 1 {
            assert calls[1..][i - 1] == calls[i] && calls[1..][i - 2] == calls[i - 1];
          }
        }
      }
    }
  }

  /** Whatever was pending, a call leaves exactly one timer, due `delay`
      after the call and carrying the call's arguments, and runs nothing;
      a host tick before that deadline runs nothing either. */
  lemma DebounceCallReschedules<A>(d: Debounce<A>, now: int, args: A, later: int)
    requires later < now + TimerDelay(d.delay)
    ensures DebounceStep(d, Call(now, args)).out == []
    ensures DebounceStep(d, Call(now, args)).next.pending == Some(Timer(now + TimerDelay(d.delay), args))
    ensures DebounceStep(DebounceStep(d, Call(now, args)).next, Fire(later)).out == []
  {
  }

  /** A quiet burst followed by a host tick once the last timer is due runs
      the function exactly once, at that tick, with the LAST call's
      arguments. */
  lemma {:induction false} DebounceQuietBurst<A>(d: Debounce<A>, calls: seq<(int, A)>, fireAt: int)
    requires |calls| > 0
    requires !Due(d.pending, calls[0].0)
    requires Quiet(calls, d.delay)
    requires fireAt >= Last(calls).0 + TimerDelay(d.delay)
    ensures Run(DebounceStep, d, Burst(calls) + [Fire(fireAt)]).out == Bracket(fireAt, Last(calls).1)
    ensures Run(DebounceStep, d, Burst(calls) + [Fire(fireAt)]).next.pending == None
    decreases |calls|
  {
    var c := calls[0];
    var tail := Burst(calls[1..]) + [Fire(fireAt)];
    BurstUnfold(calls, [Fire(fireAt)]);
    var s0 := DebounceStep(d, Fire(c.0));
    var d1 := DebounceStep(s0.next, Call(c.0, c.1)).next;
    RunCons(DebounceStep, d, Fire(c.0), [Call(c.0, c.1)] + tail);
    RunCons(DebounceStep, s0.next, Call(c.0, c.1), tail);
    assert s0.out == [];
    if |calls| == 1 {
      assert tail == [Fire(fireAt)];
      RunOne(DebounceStep, d1, Fire(fireAt));
    } else {
      assert calls[1..][0] == calls[1];
      assert Quiet(calls[1..], d.delay) by {
        forall i | 0 < i < |calls[1..]|
          ensures calls[1..][i].0 < calls[1..][i - 1].0 + TimerDelay(d.delay)
        {
          assert calls[1..][i] == calls[i + 1] && calls[1..][i - 1] == calls[i];
        }
      }
      assert Last(calls[1..]) == Last(calls);
      DebounceQuietBurst(d1, calls[1..], fireAt);
    }
  }

  /** For ANY burst, the function runs once per long gap, once more at the
      final tick, and once at the start if a timer was already due; the last
      run carries the last call's arguments. */
  lemma {:induction false} DebounceBurstCount<A>(d: Debounce<A>, calls: seq<(int, A)>, fireAt: int)
    requires |calls| > 0
    requires fireAt >= Last(calls).0 + TimerDelay(d.delay)
    ensures var r := Run(DebounceStep, d, Burst(calls) + [Fire(fireAt)]);
      && |Invocations(r.out)| == (if Due(d.pending, calls[0].0) then 1 else 0) + LongGaps(calls, d.delay) + 1
      && |r.out| >= 3
      && r.out[|r.out| - 3..] == Bracket(fireAt, Last(calls).1)
    decreases |calls|
  {
    var c := calls[0];
    var tail := Burst(calls[1..]) + [Fire(fireAt)];
    BurstUnfold(calls, [Fire(fireAt)]);
    var s0 := DebounceStep(d, Fire(c.0));
    var d1 := DebounceStep(s0.next, Call(c.0, c.1)).next;
    var rt := Run(DebounceStep, d1, tail);
    RunCons(DebounceStep, d, Fire(c.0), [Call(c.0, c.1)] + tail);
    RunCons(DebounceStep, s0.next, Call(c.0, c.1), tail);
    assert [] + rt.out == rt.out;
    assert Run(DebounceStep, d, Burst(calls) + [Fire(fireAt)]).out == s0.out + rt.out;
    if Due(d.pending, c.0) {
      InvocationsOfBracket(c.0, d.pending.value.args);
    }
    assert |Invocations(s0.out)| == if Due(d.pending, c.0) then 1 else 0;
    InvocationsAppend(s0.out, rt.out);
    if |calls| == 1 {
      assert tail == [Fire(fireAt)];
      RunOne(DebounceStep, d1, Fire(fireAt));
      assert rt.out == Bracket(fireAt, c.1);
      InvocationsOfBracket(fireAt, c.1);
    } else {
      assert calls[1..][0] == calls[1];
      assert Last(calls[1..]) == Last(calls);
      DebounceBurstCount(d1, calls[1..], fireAt);
      assert Due(d1.pending, calls[1].0) <==> calls[1].0 >= c.0 + TimerDelay(d.delay);
      assert LongGaps(calls, d.delay)
          == (if calls[1].0 >= c.0 + TimerDelay(d.delay) then 1 else 0) + LongGaps(calls[1..], d.delay);
    }
    var out := s0.out + rt.out;
    assert out[|out| - 3..] == rt.out[|rt.out| - 3..];
  }

  /** From a gate with nothing due, a burst runs the function exactly once
      if and only if every gap is shorter than the delay. */
  lemma DebounceOnceIffQuiet<A>(d: Debounce<A>, calls: seq<(int, A)>, fireAt: int)
    requires |calls| > 0
    requires !Due(d.pending, calls[0].0)
    requires fireAt >= Last(calls).0 + TimerDelay(d.delay)
    ensures |Invocations(Run(DebounceStep, d, Burst(calls) + [Fire(fireAt)]).out)| == 1
        <==> Quiet(calls, d.delay)
  {
    DebounceBurstCount(d, calls, fireAt);
    QuietIffNoLongGaps(calls, d.delay);
  }

  lemma {:induction false} IdleStaysIdle<A>(d: Debounce<A>, evs: seq<Event<A>>)
    requires d.pending == None
    requires NoCalls(evs)
    ensures Run(DebounceStep, d, evs).out == []
    ensures Run(DebounceStep, d, evs).next.pending == None
    decreases |evs|
  {
    if |evs| > 0 {
      assert !evs[0].Call?;
      IdleStaysIdle(DebounceStep(d, evs[0]).next, evs[1..]);
    }
  }

  /** After cleanup the debounced function never runs again until it is
      called anew, however many host ticks follow. */
  lemma DebounceCleanupSilences<A>(d: Debounce<A>, evs: seq<Event<A>>)
    requires NoCalls(evs)
    ensures Run(DebounceStep, d, [Cleanup] + evs).out == []
  {
    var e := [Cleanup] + evs;
    assert e[0] == Cleanup && e[1..] == evs;
    IdleStaysIdle(DebounceStep(d, Cleanup).next, evs);
  }

  /** Three calls 10 ms apart with a 500 ms delay: one write, of the third
      value, 500 ms after the last call. */
  lemma DebounceExample()
    ensures Run(DebounceStep, NewDebounce<int>(500), Burst([(0, 1), (10, 2), (20, 3)]) + [Fire(520)]).out
         == Bracket(520, 3)
  {
    var calls := [(0, 1), (10, 2), (20, 3)];
    assert Quiet(calls, 500);
    DebounceQuietBurst(NewDebounce<int>(500), calls, 520);
  }
}
