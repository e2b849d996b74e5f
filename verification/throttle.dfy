/**
  The `useThrottle` hook: a leading-edge gate. A call while the gate is open
  runs `callback(...args)` at once, closes the gate and schedules its reopening
  `limit` milliseconds later; a call while the gate is closed is dropped
  (neither queued nor replayed later).

  Time is a discrete clock. The reopening timeout is applied when the clock
  reaches it; a reopening due at t happens before a call arriving at t.
 */
module Throttle {
  import opened Base

  /** `inThrottle`: open, or closed until the reopening timeout runs. */
  datatype Gate = Open | Closed(until: nat)

  /** One instance of the hook. */
  datatype Throttler = Throttler(limit: nat, gate: Gate)

  /** The state after a step and the callback invocations it produced. */
  datatype Step<A> = Step(state: Throttler, fired: seq<Timed<A>>)

  /** A freshly mounted instance: `inThrottle` starts false. */
  function Fresh(limit: nat): Throttler {
    Throttler(limit, Open)
  }

  /** The earliest time a call can get through the gate. */
  function OpensAt(g: Gate): nat {
    match g
    case Open => 0
    case Closed(until) => until
  }

  /** The gate as seen at time `t`: the reopening timeout has run iff it was due. */
  function Reopen(g: Gate, t: nat): (r: Gate)
    ensures r.Open? <==> OpensAt(g) <= t
    ensures r.Closed? ==> r == g
  {
    match g
    case Open => Open
    case Closed(until) => if until <= t then Open else g
  }

  /** The wrapper called at time `t`. */
  function Call<A>(th: Throttler, t: nat, args: A): (r: Step<A>)
    ensures r.state.limit == th.limit
    ensures OpensAt(th.gate) <= t ==>
              r.fired == [Timed(t, args)] && r.state.gate == Closed(t + th.limit)
    ensures t < OpensAt(th.gate) ==> r.fired == [] && r.state == th
  {
    if Reopen(th.gate, t).Open? then
      Step(Throttler(th.limit, Closed(t + th.limit)), [Timed(t, args)])
    else
      Step(th, [])
  }

  /** A sequence of calls of the wrapper, in the order the event loop ran them. */
  function Run<A(==)>(th: Throttler, calls: seq<Timed<A>>): (r: Step<A>)
    ensures r.state.limit == th.limit
    ensures IsSubseq(r.fired, calls)
    ensures |r.fired| == 0 ==> r.state == th
    ensures |r.fired| > 0 ==> r.state.gate == Closed(r.fired[|r.fired| - 1].t + th.limit)
    decreases |calls|
  {
    if |calls| == 0 then Step(th, [])
    else
      var first := Call(th, calls[0].t, calls[0].args);
      var rest := Run(first.state, calls[1..]);
      assert first.fired == [] || first.fired == [calls[0]];
      assert first.fired + rest.fired == [] || (first.fired + rest.fired)[1..] == rest.fired
             || first.fired + rest.fired == rest.fired;
      Step(rest.state, first.fired + rest.fired)
  }

  /** Consecutive firings are at least `limit` apart. */
  ghost predicate Spaced<A>(fired: seq<Timed<A>>, limit: nat) {
    forall k :: 0 <= k < |fired| - 1 ==> fired[k].t + limit <= fired[k + 1].t
  }

  /** No firing happens before `t0`. */
  ghost predicate NotBefore<A>(fired: seq<Timed<A>>, t0: nat) {
    forall k :: 0 <= k < |fired| ==> t0 <= fired[k].t
  }

  /** A closed gate holds back every call until it reopens. */
  lemma {:induction false} RunRespectsGate<A>(th: Throttler, calls: seq<Timed<A>>)
    ensures NotBefore(Run(th, calls).fired, OpensAt(th.gate))
    decreases |calls|
  {
    if |calls| > 0 {
      var first := Call(th, calls[0].t, calls[0].args);
      RunRespectsGate(first.state, calls[1..]);
      var rest := Run(first.state, calls[1..]).fired;
      var fired := Run(th, calls).fired;
      assert fired == first.fired + rest;
      if OpensAt(th.gate) <= calls[0].t {
        forall k | 0 <= k < |fired| ensures OpensAt(th.gate) <= fired[k].t {
          if k > 0 {
            assert fired[k] == rest[k - 1];
          }
        }
      } else {
        assert fired == rest;
      }
    }
  }

  /** Safety: consecutive firings are at least `limit` apart. */
  lemma {:induction false} RunSpaced<A>(th: Throttler, calls: seq<Timed<A>>)
    ensures Spaced(Run(th, calls).fired, th.limit)
    decreases |calls|
  {
    if |calls| > 0 {
      var first := Call(th, calls[0].t, calls[0].args);
      RunSpaced(first.state, calls[1..]);
      var rest := Run(first.state, calls[1..]).fired;
      var fired := Run(th, calls).fired;
      assert fired == first.fired + rest;
      if OpensAt(th.gate) <= calls[0].t {
        RunRespectsGate(first.state, calls[1..]);
        assert OpensAt(first.state.gate) == calls[0].t + th.limit;
        forall k | 0 <= k < |fired| - 1 ensures fired[k].t + th.limit <= fired[k + 1].t {
          assert fired[k + 1] == rest[k];
          if k > 0 {
            assert fired[k] == rest[k - 1];
          }
        }
      } else {
        assert fired == rest;
      }
    }
  }

  lemma {:induction false} SpacedApart<A>(fired: seq<Timed<A>>, limit: nat, i: nat, j: nat)
    requires Spaced(fired, limit)
    requires i < j < |fired|
    ensures fired[i].t + limit <= fired[j].t
    decreases j - i
  {
    if i + 1 < j {
      SpacedApart(fired, limit, i, j - 1);
      assert fired[j - 1].t + limit <= fired[j].t;
    }
  }

  /** Liveness: on a clock that never runs backwards, a call that did not fire
      arrived while the gate was still closed, either from the start or by an
      earlier firing less than `limit` before it. */
  lemma {:induction false} RunCovers<A>(th: Throttler, calls: seq<Timed<A>>)
    requires Monotone(calls)
    ensures var fired := Run(th, calls).fired;
            forall i :: 0 <= i < |calls| ==>
              || calls[i] in fired
              || calls[i].t < OpensAt(th.gate)
              || exists k :: 0 <= k < |fired| && fired[k].t <= calls[i].t < fired[k].t + th.limit
    decreases |calls|
  {
    if |calls| > 0 {
      var first := Call(th, calls[0].t, calls[0].args);
      var rest := calls[1..];
      assert Monotone(rest) by {
        forall i, j | 0 <= i < j < |rest| ensures rest[i].t <= rest[j].t {
          assert rest[i] == calls[i + 1] && rest[j] == calls[j + 1];
        }
      }
      RunCovers(first.state, rest);
      var restFired := Run(first.state, rest).fired;
      var fired := Run(th, calls).fired;
      assert fired == first.fired + restFired;
      forall i | 0 <= i < |calls|
        ensures || calls[i] in fired
                || calls[i].t < OpensAt(th.gate)
                || exists k :: 0 <= k < |fired| && fired[k].t <= calls[i].t < fired[k].t + th.limit
      {
        if i == 0 {
          if OpensAt(th.gate) <= calls[0].t {
            assert fired[0] == calls[0];
          }
        } else {
          assert calls[i] == rest[i - 1];
          if calls[i] in restFired {
          } else if calls[i].t < OpensAt(first.state.gate) {
            if OpensAt(th.gate) <= calls[0].t {
              assert fired[0] == calls[0];
              assert calls[0].t <= calls[i].t;
            }
          } else {
            var k :| 0 <= k < |restFired| && restFired[k].t <= calls[i].t < restFired[k].t + th.limit;
            assert fired[k + |first.fired|] == restFired[k];
          }
        }
      }
    }
  }

  /** A fresh instance: the first call always fires, with its own arguments. */
  lemma FreshFiresFirstCall<A>(limit: nat, calls: seq<Timed<A>>)
    requires |calls| > 0
    ensures |Run(Fresh(limit), calls).fired| > 0
    ensures Run(Fresh(limit), calls).fired[0] == calls[0]
  {
  }

  /** Every dropped call of a fresh instance lies within `limit` after a firing. */
  lemma DroppedCallsFallInAWindow<A>(limit: nat, calls: seq<Timed<A>>)
    requires Monotone(calls)
    ensures var fired := Run(Fresh(limit), calls).fired;
            forall i :: 0 <= i < |calls| && calls[i] !in fired ==>
              exists k :: 0 <= k < |fired| && fired[k].t <= calls[i].t < fired[k].t + limit
  {
    RunCovers(Fresh(limit), calls);
  }

  lemma {:induction false} SpacedSpan<A>(fired: seq<Timed<A>>, limit: nat, i: nat, j: nat)
    requires Spaced(fired, limit)
    requires i <= j < |fired|
    ensures fired[i].t + (j - i) * limit <= fired[j].t
    decreases j - i
  {
    if i < j {
      SpacedSpan(fired, limit, i, j - 1);
      assert (j - i) * limit == (j - 1 - i) * limit + limit;
    }
  }

  /** Any two firings, not only neighbours, are at least `limit` apart. */
  lemma FiringsPairwiseApart<A>(th: Throttler, calls: seq<Timed<A>>)
    ensures var fired := Run(th, calls).fired;
            forall i, j :: 0 <= i < j < |fired| ==> fired[i].t + th.limit <= fired[j].t
  {
    var fired := Run(th, calls).fired;
    RunSpaced(th, calls);
    forall i, j | 0 <= i < j < |fired| ensures fired[i].t + th.limit <= fired[j].t {
      SpacedApart(fired, th.limit, i, j);
    }
  }

  /** At most one firing falls in any half-open window of length `limit`. */
  lemma AtMostOnePerWindow<A>(th: Throttler, calls: seq<Timed<A>>, w: nat)
    ensures var fired := Run(th, calls).fired;
            forall i, j :: 0 <= i < |fired| && 0 <= j < |fired|
                           && w <= fired[i].t < w + th.limit && w <= fired[j].t < w + th.limit
                           ==> i == j
  {
    FiringsPairwiseApart(th, calls);
  }

  /** The firing count is bounded by the calls and by the time span:
      (n - 1) * limit never exceeds the time between first and last firing. */
  lemma FiringCountBound<A>(th: Throttler, calls: seq<Timed<A>>)
    ensures |Run(th, calls).fired| <= |calls|
    ensures var fired := Run(th, calls).fired;
            |fired| > 0 ==> fired[0].t + (|fired| - 1) * th.limit <= fired[|fired| - 1].t
  {
    var fired := Run(th, calls).fired;
    SubseqLength(fired, calls);
    RunSpaced(th, calls);
    if |fired| > 0 {
      SpacedSpan(fired, th.limit, 0, |fired| - 1);
    }
  }

  /** Window 100 ms; calls at 0, 30, 60, 110, 140: fires at 0 and 110 only. */
  lemma FiveScrollEvents()
    ensures Run(Fresh(100), [Timed(0, 'a'), Timed(30, 'b'), Timed(60, 'c'), Timed(110, 'd'), Timed(140, 'e')]).fired
            == [Timed(0, 'a'), Timed(110, 'd')]
  {
  }
}
