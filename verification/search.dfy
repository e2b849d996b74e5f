/**
  The search page: two text inputs drive the same search handler, one on every
  keystroke and one through a 300 ms debounce. Each handler run counts a
  render, and for a non-empty query counts an API call and issues one request;
  the request's outcome is stored as the results whenever it resolves.

  The network is a parameter (`Response`). There is no cancellation and no
  check that a response belongs to the latest query: whatever resolves last is
  stored.
 */
module Search {
  import opened Base
  import Debounce

  /** The debounce delay wired to the optimized input. */
  const DebounceDelay: nat := 300

  /** One post returned by the API; only its title is used. */
  datatype Item = Item(title: string)

  /** What the fetch collaborator produced: a JSON list, a non-ok HTTP status,
      or a thrown error (network failure or malformed JSON). */
  datatype Response = Ok(items: seq<Item>) | NotOk | Thrown

  /** One side of the page: its counters and the stored results; `None` is the
      `undefined` that a failed request stores. */
  datatype Panel = Panel(renders: nat, apiCalls: nat, results: Option<seq<string>>)

  /** Both sides start at zero with an empty result list. */
  const Initial: Panel := Panel(0, 0, Some([]))

  /** `mockApiCall`: the titles of the returned items, or nothing when the
      request failed (the error is caught and logged). */
  function MockApiCall(resp: Response): (r: Option<seq<string>>)
    ensures r.Some? <==> resp.Ok?
    ensures r.Some? ==> |r.value| == |resp.items|
    ensures r.Some? ==> forall i :: 0 <= i < |resp.items| ==> r.value[i] == resp.items[i].title
  {
    match resp
    case Ok(items) => Some(seq(|items|, i requires 0 <= i < |items| => items[i].title))
    case NotOk => None
    case Thrown => None
  }

  /** The synchronous part of a handler run, up to the `await`, and the query
      it sent to the API if any. */
  datatype Started = Started(panel: Panel, request: Option<string>)

  /** `handleOptimizedSearch` / `handleUnoptimizedSearch` (identical bodies). */
  function Handle(p: Panel, query: string): (r: Started)
    ensures r.panel.renders == p.renders + 1
    ensures |query| == 0 ==>
              r.request == None && r.panel.apiCalls == p.apiCalls && r.panel.results == Some([])
    ensures |query| > 0 ==>
              r.request == Some(query) && r.panel.apiCalls == p.apiCalls + 1 && r.panel.results == p.results
  {
    if |query| > 0 then
      Started(Panel(p.renders + 1, p.apiCalls + 1, p.results), Some(query))
    else
      Started(Panel(p.renders + 1, p.apiCalls, Some([])), None)
  }

  /** A request's outcome arrives: stored as the results, counters untouched. */
  function Resolve(p: Panel, resp: Response): (r: Panel)
    ensures r.renders == p.renders && r.apiCalls == p.apiCalls
    ensures r.results == MockApiCall(resp)
  {
    Panel(p.renders, p.apiCalls, MockApiCall(resp))
  }

  /** Outcomes arriving in the given order, whatever queries they answer. */
  function ResolveAll(p: Panel, arrivals: seq<Response>): Panel
    decreases |arrivals|
  {
    if |arrivals| == 0 then p else ResolveAll(Resolve(p, arrivals[0]), arrivals[1..])
  }

  /** No response is discarded as stale: the last one to arrive decides the
      results, even when it answers an older query. */
  lemma {:induction false} LastArrivalWins(p: Panel, arrivals: seq<Response>)
    requires |arrivals| > 0
    ensures ResolveAll(p, arrivals).results == MockApiCall(arrivals[|arrivals| - 1])
    ensures ResolveAll(p, arrivals).apiCalls == p.apiCalls
    decreases |arrivals|
  {
    if |arrivals| > 1 {
      LastArrivalWins(Resolve(p, arrivals[0]), arrivals[1..]);
    }
  }

  /** One API call per non-empty query. */
  function ApiCost(query: string): nat {
    if |query| > 0 then 1 else 0
  }

  /** Handler runs for a sequence of queries, before any response arrives. */
  function HandleAll(p: Panel, queries: seq<string>): Panel
    decreases |queries|
  {
    if |queries| == 0 then p else HandleAll(Handle(p, queries[0]).panel, queries[1..])
  }

  /** Every run counts one render; only the non-empty queries count API calls. */
  lemma {:induction false} HandleAllCounts(p: Panel, queries: seq<string>)
    ensures HandleAll(p, queries).renders == p.renders + |queries|
    ensures HandleAll(p, queries).apiCalls == p.apiCalls + Sum(queries, ApiCost)
    ensures HandleAll(p, queries).apiCalls - p.apiCalls <= |queries|
    decreases |queries|
  {
    if |queries| > 0 {
      HandleAllCounts(Handle(p, queries[0]).panel, queries[1..]);
    }
  }

  /** The input without debouncing: every keystroke runs the handler. */
  function Unoptimized(keystrokes: seq<Timed<string>>): (r: Panel)
    ensures r.renders == |keystrokes|
    ensures r.apiCalls == Sum(ArgsOf(keystrokes), ApiCost)
    ensures r.apiCalls <= r.renders
  {
    HandleAllCounts(Initial, ArgsOf(keystrokes));
    HandleAll(Initial, ArgsOf(keystrokes))
  }

  /** The debounced input, observed at `horizon`: the handler runs only for the
      values the 300 ms debounce delivers by then. */
  function Optimized(keystrokes: seq<Timed<string>>, horizon: nat): (r: Panel)
    ensures r.renders <= |keystrokes|
    ensures r.apiCalls <= r.renders
  {
    var delivered := Debounce.Trace(Debounce.Fresh(DebounceDelay), keystrokes, horizon).fired;
    Debounce.FiringsFromCalls(DebounceDelay, keystrokes, horizon);
    HandleAllCounts(Initial, ArgsOf(delivered));
    HandleAll(Initial, ArgsOf(delivered))
  }

  /** For any keystroke trace, the debounced side never makes more API calls,
      nor counts more renders, than the side that searches on every keystroke. */
  lemma DebouncedNeverMoreApiCalls(keystrokes: seq<Timed<string>>, horizon: nat)
    ensures Optimized(keystrokes, horizon).apiCalls <= Unoptimized(keystrokes).apiCalls
    ensures Optimized(keystrokes, horizon).renders <= Unoptimized(keystrokes).renders
  {
    var delivered := ArgsOf(Debounce.Trace(Debounce.Fresh(DebounceDelay), keystrokes, horizon).fired);
    Debounce.FiringsFromCalls(DebounceDelay, keystrokes, horizon);
    SubseqSumLe(delivered, ArgsOf(keystrokes), ApiCost);
    HandleAllCounts(Initial, delivered);
    HandleAllCounts(Initial, ArgsOf(keystrokes));
  }

  /** Typing a burst faster than the delay costs the debounced side one handler
      run, with the final text, however many keystrokes the burst had. */
  lemma BurstSearchesOnce(keystrokes: seq<Timed<string>>, horizon: nat)
    requires |keystrokes| > 0
    requires forall i :: 0 <= i < |keystrokes| - 1 ==> keystrokes[i + 1].t < keystrokes[i].t + DebounceDelay
    requires keystrokes[|keystrokes| - 1].t + DebounceDelay <= horizon
    ensures Optimized(keystrokes, horizon).renders == 1
    ensures Optimized(keystrokes, horizon).apiCalls == ApiCost(keystrokes[|keystrokes| - 1].args)
  {
    var last := keystrokes[|keystrokes| - 1];
    Debounce.BurstFiresOnce(DebounceDelay, keystrokes, horizon);
    var delivered := ArgsOf(Debounce.Trace(Debounce.Fresh(DebounceDelay), keystrokes, horizon).fired);
    assert delivered == [last.args];
    HandleAllCounts(Initial, delivered);
  }
}
