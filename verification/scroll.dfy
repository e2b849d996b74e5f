/**
  The scroll page: two lists of 50 generated items, one handling every scroll
  event and one whose handler is wrapped in a 100 ms throttle. A handled event
  counts one event and one DOM query for the container, plus one DOM query per
  `.scroll-item` found in it.
 */
module Scroll {
  import opened Base
  import Throttle

  /** The throttle window wired to the optimized list. */
  const ThrottleLimit: nat := 100

  /** The number of generated `.scroll-item` elements in each list. */
  const GeneratedItems: nat := 50

  /** A scroll event, reduced to what the counters depend on: how many
      `.scroll-item` elements its target contains. */
  datatype ScrollEvent = ScrollEvent(scrollItems: nat)

  /** One side's performance counters. */
  datatype Counters = Counters(events: nat, domQueries: nat)

  const Zero: Counters := Counters(0, 0)

  /** DOM queries one handled event costs: the container, then each item. */
  function DomCost(e: ScrollEvent): nat {
    1 + e.scrollItems
  }

  /** The body of `handleUnoptimizedScroll` (and of the throttled callback). */
  function HandleScroll(c: Counters, e: ScrollEvent): (r: Counters)
    ensures r.events == c.events + 1
    ensures r.domQueries == c.domQueries + 1 + e.scrollItems
  {
    Counters(c.events + 1, c.domQueries + 1 + e.scrollItems)
  }

  function HandleAll(c: Counters, events: seq<ScrollEvent>): Counters
    decreases |events|
  {
    if |events| == 0 then c else HandleAll(HandleScroll(c, events[0]), events[1..])
  }

  /** The counters after handling a stream: one event each, and their DOM cost. */
  lemma {:induction false} HandleAllCounts(c: Counters, events: seq<ScrollEvent>)
    ensures HandleAll(c, events).events == c.events + |events|
    ensures HandleAll(c, events).domQueries == c.domQueries + Sum(events, DomCost)
    decreases |events|
  {
    if |events| > 0 {
      HandleAllCounts(HandleScroll(c, events[0]), events[1..]);
    }
  }

  /** On the page's lists every handled event costs exactly 51 DOM queries. */
  lemma {:induction false} GeneratedListCosts51(c: Counters, events: seq<ScrollEvent>)
    requires forall i :: 0 <= i < |events| ==> events[i].scrollItems == GeneratedItems
    ensures HandleAll(c, events).events == c.events + |events|
    ensures HandleAll(c, events).domQueries == c.domQueries + 51 * |events|
    decreases |events|
  {
    if |events| > 0 {
      GeneratedListCosts51(HandleScroll(c, events[0]), events[1..]);
    }
  }

  /** The list without throttling: every scroll event runs the handler. */
  function Unoptimized(stream: seq<Timed<ScrollEvent>>): (r: Counters)
    ensures r.events == |stream|
    ensures r.domQueries == Sum(ArgsOf(stream), DomCost)
  {
    HandleAllCounts(Zero, ArgsOf(stream));
    HandleAll(Zero, ArgsOf(stream))
  }

  /** The throttled list: only the events the 100 ms gate lets through. The
      first scroll event is always handled. */
  function Optimized(stream: seq<Timed<ScrollEvent>>): (r: Counters)
    ensures r.events <= |stream|
    ensures |stream| > 0 ==> r.events >= 1 && r.domQueries >= DomCost(stream[0].args)
  {
    var fired := Throttle.Run(Throttle.Fresh(ThrottleLimit), stream).fired;
    Throttle.FiringCountBound(Throttle.Fresh(ThrottleLimit), stream);
    assert |stream| > 0 ==> |fired| > 0 && ArgsOf(fired)[0] == stream[0].args by {
      if |stream| > 0 {
        Throttle.FreshFiresFirstCall(ThrottleLimit, stream);
      }
    }
    HandleAllCounts(Zero, ArgsOf(fired));
    HandleAll(Zero, ArgsOf(fired))
  }

  /** For the same event stream the throttled side never counts more events or
      DOM queries than the unthrottled side. */
  lemma ThrottledNeverCountsMore(stream: seq<Timed<ScrollEvent>>)
    ensures Optimized(stream).events <= Unoptimized(stream).events
    ensures Optimized(stream).domQueries <= Unoptimized(stream).domQueries
  {
    var fired := Throttle.Run(Throttle.Fresh(ThrottleLimit), stream).fired;
    SubseqArgs(fired, stream);
    SubseqLength(ArgsOf(fired), ArgsOf(stream));
    SubseqSumLe(ArgsOf(fired), ArgsOf(stream), DomCost);
    HandleAllCounts(Zero, ArgsOf(fired));
    HandleAllCounts(Zero, ArgsOf(stream));
  }
}
