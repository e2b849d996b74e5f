/**
  The `useDebounce` hook: every call of the returned wrapper clears the one
  pending timeout of its instance and schedules `callback(...args)` to run
  `delay` milliseconds later ("last call wins").

  Time is a discrete clock. The wrapper's own step (`Call`) only rearms the
  slot; the timeout runs when the clock reaches its due time (`Tick`). A
  timeout due at time t runs before a call that arrives at the same t.
 */
module Debounce {
  import opened Base

  /** One instance of the hook: its delay and its single timeout slot
      (`timeoutRef`), holding the due time and the arguments to deliver. */
  datatype Debouncer<A> = Debouncer(delay: nat, pending: Option<Timed<A>>)

  /** The state after a step and the callback invocations the step produced,
      each stamped with the time it ran. */
  datatype Step<A> = Step(state: Debouncer<A>, fired: seq<Timed<A>>)

  /** A freshly mounted instance: nothing scheduled. */
  function Fresh<A>(delay: nat): Debouncer<A> {
    Debouncer(delay, None)
  }

  /** The wrapper called at time `t`: clear whatever was pending, schedule this
      call's arguments. It never runs the callback itself. */
  function Call<A>(d: Debouncer<A>, t: nat, args: A): (r: Debouncer<A>)
    ensures r.delay == d.delay
    ensures r.pending == Some(Timed(t + d.delay, args))
  {
    Debouncer(d.delay, Some(Timed(t + d.delay, args)))
  }

  /** The clock reaches `t`: a pending timeout that is due by then runs, once. */
  function Tick<A>(d: Debouncer<A>, t: nat): (r: Step<A>)
    ensures r.state.delay == d.delay
    ensures d.pending.Some? && d.pending.value.t <= t ==>
              r.fired == [d.pending.value] && r.state.pending == None
    ensures !(d.pending.Some? && d.pending.value.t <= t) ==> r == Step(d, [])
  {
    match d.pending
    case Some(timer) =>
      if timer.t <= t then Step(Debouncer(d.delay, None), [timer]) else Step(d, [])
    case None => Step(d, [])
  }

  /** A sequence of calls of the wrapper, in the order the event loop ran them. */
  function Run<A>(d: Debouncer<A>, calls: seq<Timed<A>>): (r: Step<A>)
    ensures r.state.delay == d.delay
    ensures |calls| == 0 ==> r == Step(d, [])
    ensures |calls| > 0 ==>
              r.state.pending == Some(Timed(calls[|calls| - 1].t + d.delay, calls[|calls| - 1].args))
    decreases |calls|
  {
    if |calls| == 0 then Step(d, [])
    else
      var ticked := Tick(d, calls[0].t);
      var rest := Run(Call(ticked.state, calls[0].t, calls[0].args), calls[1..]);
      Step(rest.state, ticked.fired + rest.fired)
  }

  /** The calls, then the clock running on to `horizon` with no further call. */
  function Trace<A>(d: Debouncer<A>, calls: seq<Timed<A>>, horizon: nat): (r: Step<A>)
    ensures r.state.delay == d.delay
    ensures r.state.pending.None? || horizon < r.state.pending.value.t
  {
    var run := Run(d, calls);
    var end := Tick(run.state, horizon);
    Step(end.state, run.fired + end.fired)
  }

  /** The time the pending timeout competes with: the next call, or the horizon. */
  function NextTime<A>(calls: seq<Timed<A>>, horizon: nat): nat {
    if |calls| == 0 then horizon else calls[0].t
  }

  /** The pending timeout if it is due by `t`. */
  function DueBy<A>(pending: Option<Timed<A>>, t: nat): seq<Timed<A>> {
    if pending.Some? && pending.value.t <= t then [pending.value] else []
  }

  /** Reference semantics without any timer state: a call is delivered,
      `delay` after it was made, exactly when the next call (for the last call,
      the horizon) comes no earlier than that. */
  function Delivered<A>(calls: seq<Timed<A>>, delay: nat, horizon: nat): (r: seq<Timed<A>>)
    ensures |r| <= |calls|
    ensures |calls| > 0 && calls[|calls| - 1].t + delay <= horizon ==>
              |r| > 0 && r[|r| - 1] == Timed(calls[|calls| - 1].t + delay, calls[|calls| - 1].args)
    decreases |calls|
  {
    if |calls| == 0 then []
    else
      var due := calls[0].t + delay;
      (if due <= NextTime(calls[1..], horizon) then [Timed(due, calls[0].args)] else [])
      + Delivered(calls[1..], delay, horizon)
  }

  /** Every call shifted by `delay`: what is delivered when no call is cut short. */
  function Shift<A>(calls: seq<Timed<A>>, delay: nat): (r: seq<Timed<A>>)
    ensures |r| == |calls|
    ensures forall i :: 0 <= i < |calls| ==> r[i] == Timed(calls[i].t + delay, calls[i].args)
  {
    seq(|calls|, i requires 0 <= i < |calls| => Timed(calls[i].t + delay, calls[i].args))
  }

  /** Clearing the slot means the old pending timeout has no influence at all. */
  lemma CallDiscardsPending<A>(d1: Debouncer<A>, d2: Debouncer<A>, t: nat, args: A)
    requires d1.delay == d2.delay
    ensures Call(d1, t, args) == Call(d2, t, args)
  {
  }

  /** The timer machine and the reference agree on every trace, from any state. */
  lemma {:induction false} TraceMatchesDelivered<A>(d: Debouncer<A>, calls: seq<Timed<A>>, horizon: nat)
    ensures Trace(d, calls, horizon).fired
            == DueBy(d.pending, NextTime(calls, horizon)) + Delivered(calls, d.delay, horizon)
    decreases |calls|
  {
    if |calls| > 0 {
      var c := calls[0];
      var ticked := Tick(d, c.t);
      var armed := Call(ticked.state, c.t, c.args);
      TraceMatchesDelivered(armed, calls[1..], horizon);
      var restRun := Run(armed, calls[1..]);
      var end := Tick(restRun.state, horizon);
      assert Run(d, calls) == Step(restRun.state, ticked.fired + restRun.fired);
      assert ticked.fired == DueBy(d.pending, NextTime(calls, horizon));
      calc {
        Trace(d, calls, horizon).fired;
        (ticked.fired + restRun.fired) + end.fired;
        ticked.fired + (restRun.fired + end.fired);
        ticked.fired + Trace(armed, calls[1..], horizon).fired;
      }
    }
  }

  /** The wrapper's calls on a fresh instance produce exactly `Delivered`. */
  lemma FreshTraceIsDelivered<A>(delay: nat, calls: seq<Timed<A>>, horizon: nat)
    ensures Trace(Fresh(delay), calls, horizon).fired == Delivered(calls, delay, horizon)
  {
    TraceMatchesDelivered(Fresh<A>(delay), calls, horizon);
  }

  lemma {:induction false} DeliveredBurst<A>(calls: seq<Timed<A>>, delay: nat, horizon: nat)
    requires |calls| > 0
    requires forall i :: 0 <= i < |calls| - 1 ==> calls[i + 1].t < calls[i].t + delay
    requires calls[|calls| - 1].t + delay <= horizon
    ensures Delivered(calls, delay, horizon)
            == [Timed(calls[|calls| - 1].t + delay, calls[|calls| - 1].args)]
    decreases |calls|
  {
    if |calls| > 1 {
      var rest := calls[1..];
      assert forall i :: 0 <= i < |rest| - 1 ==> rest[i + 1].t < rest[i].t + delay by {
        forall i | 0 <= i < |rest| - 1 ensures rest[i + 1].t < rest[i].t + delay {
          assert rest[i] == calls[i + 1] && rest[i + 1] == calls[i + 2];
        }
      }
      DeliveredBurst(rest, delay, horizon);
      assert calls[1].t < calls[0].t + delay;
    }
  }

  /** A burst of calls, each within `delay` of the previous one, delivers the
      callback exactly once: the last call's arguments, `delay` after it. */
  lemma BurstFiresOnce<A>(delay: nat, calls: seq<Timed<A>>, horizon: nat)
    requires |calls| > 0
    requires forall i :: 0 <= i < |calls| - 1 ==> calls[i + 1].t < calls[i].t + delay
    requires calls[|calls| - 1].t + delay <= horizon
    ensures Trace(Fresh(delay), calls, horizon).fired
            == [Timed(calls[|calls| - 1].t + delay, calls[|calls| - 1].args)]
  {
    FreshTraceIsDelivered(delay, calls, horizon);
    DeliveredBurst(calls, delay, horizon);
  }

  lemma {:induction false} DeliveredSpaced<A>(calls: seq<Timed<A>>, delay: nat, horizon: nat)
    requires forall i :: 0 <= i < |calls| - 1 ==> calls[i].t + delay < calls[i + 1].t
    requires |calls| > 0 ==> calls[|calls| - 1].t + delay <= horizon
    ensures Delivered(calls, delay, horizon) == Shift(calls, delay)
    decreases |calls|
  {
    if |calls| > 0 {
      var rest := calls[1..];
      forall i | 0 <= i < |rest| - 1 ensures rest[i].t + delay < rest[i + 1].t {
        assert rest[i] == calls[i + 1] && rest[i + 1] == calls[i + 2];
      }
      DeliveredSpaced(rest, delay, horizon);
      var due := calls[0].t + delay;
      assert due <= NextTime(rest, horizon) by {
        if |rest| > 0 {
          assert rest[0] == calls[1];
        }
      }
      var tail := Delivered(rest, delay, horizon);
      assert Delivered(calls, delay, horizon) == [Timed(due, calls[0].args)] + tail;
      ShiftCons(calls, delay);
    }
  }

  lemma ShiftCons<A>(calls: seq<Timed<A>>, delay: nat)
    requires |calls| > 0
    ensures Shift(calls, delay) == [Timed(calls[0].t + delay, calls[0].args)] + Shift(calls[1..], delay)
  {
    var lhs := Shift(calls, delay);
    var rhs := [Timed(calls[0].t + delay, calls[0].args)] + Shift(calls[1..], delay);
    assert |lhs| == |rhs|;
    forall i | 0 <= i < |lhs| ensures lhs[i] == rhs[i] {
      if i > 0 {
        assert rhs[i] == Shift(calls[1..], delay)[i - 1];
      }
    }
  }

  /** Calls spaced strictly more than `delay` apart are each delivered once,
      in call order, with their own arguments. */
  lemma SpacedCallsEachDelivered<A>(delay: nat, calls: seq<Timed<A>>, horizon: nat)
    requires forall i :: 0 <= i < |calls| - 1 ==> calls[i].t + delay < calls[i + 1].t
    requires |calls| > 0 ==> calls[|calls| - 1].t + delay <= horizon
    ensures Trace(Fresh(delay), calls, horizon).fired == Shift(calls, delay)
    ensures ArgsOf(Trace(Fresh(delay), calls, horizon).fired) == ArgsOf(calls)
  {
    FreshTraceIsDelivered(delay, calls, horizon);
    DeliveredSpaced(calls, delay, horizon);
    var fired := Shift(calls, delay);
    assert ArgsOf(fired) == ArgsOf(calls) by {
      forall i | 0 <= i < |calls| ensures ArgsOf(fired)[i] == ArgsOf(calls)[i] {
        assert fired[i].args == calls[i].args;
      }
    }
  }

  lemma {:induction false} DeliveredArgsSubseq<A>(calls: seq<Timed<A>>, delay: nat, horizon: nat)
    ensures IsSubseq(ArgsOf(Delivered(calls, delay, horizon)), ArgsOf(calls))
    decreases |calls|
  {
    if |calls| > 0 {
      var rest := calls[1..];
      DeliveredArgsSubseq(rest, delay, horizon);
      var tail := Delivered(rest, delay, horizon);
      var head := Delivered(calls, delay, horizon);
      assert ArgsOf(calls)[1..] == ArgsOf(rest);
      var due := calls[0].t + delay;
      if due <= NextTime(rest, horizon) {
        assert head == [Timed(due, calls[0].args)] + tail;
        assert head[1..] == tail;
        assert ArgsOf(head)[1..] == ArgsOf(tail);
      } else {
        assert head == tail;
      }
    }
  }

  /** The callback never runs more often than the wrapper was called, and every
      argument tuple it receives was passed to some call, in call order. */
  lemma FiringsFromCalls<A>(delay: nat, calls: seq<Timed<A>>, horizon: nat)
    ensures |Trace(Fresh(delay), calls, horizon).fired| <= |calls|
    ensures IsSubseq(ArgsOf(Trace(Fresh(delay), calls, horizon).fired), ArgsOf(calls))
  {
    FreshTraceIsDelivered(delay, calls, horizon);
    DeliveredArgsSubseq(calls, delay, horizon);
    SubseqLength(ArgsOf(Trace(Fresh(delay), calls, horizon).fired), ArgsOf(calls));
  }

  /** After the trace at most one invocation is still pending: the last call's,
      exactly when the horizon comes before its due time. */
  lemma PendingAfterTrace<A>(d: Debouncer<A>, calls: seq<Timed<A>>, horizon: nat)
    requires |calls| > 0
    ensures var last := calls[|calls| - 1];
            Trace(d, calls, horizon).state.pending
            == if last.t + d.delay <= horizon then None else Some(Timed(last.t + d.delay, last.args))
  {
  }

  /** Delay 300 ms; "a" at 0, "ab" at 100, "abc" at 150: one invocation, at 450, with "abc". */
  lemma ThreeQuickKeystrokes()
    ensures Trace(Fresh(300), [Timed(0, "a"), Timed(100, "ab"), Timed(150, "abc")], 1000).fired
            == [Timed(450, "abc")]
  {
    BurstFiresOnce(300, [Timed(0, "a"), Timed(100, "ab"), Timed(150, "abc")], 1000);
  }
}
