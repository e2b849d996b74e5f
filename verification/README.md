# React feature demos: rate limiting, filtering and paging, modelled in Dafny

This project models the logic inside a small React demo app. The markup is not modelled.

- **`useDebounce`** (`debounce.dfy`): each call of the wrapper clears the instance's single timeout and schedules the callback with that call's arguments, `delay` ms later. The last call wins.
- **`useThrottle`** (`throttle.dfy`): a leading-edge gate. A call while the gate is open runs the callback at once and closes the gate until `limit` ms later. A call while it is closed is dropped.
- **Search page** (`search.dfy`): the render and API-call counters, the empty versus non-empty query branch, and `mockApiCall`'s mapping of the response to titles. One input runs the handler on every keystroke; the other runs it through a 300 ms debounce.
- **Scroll page** (`scroll.dfy`): the event and DOM-query counters of the plain handler and of the same handler behind a 100 ms throttle.
- **Product filter** (`product_filter.dfy`, `text.dfy`): the filter predicate, the sort comparator, the count statistics and the six-item display cap.
- **Characters page** (`parallel_api.dfy`): Previous/Next page arithmetic and the loading/error outcome of a fetch.
- **Shared vocabulary** (`base.dfy`): `Option`, time-stamped events, the subsequence relation and sums.

## Modelling choices

**Time.** Time is a natural-number clock in milliseconds. `setTimeout` becomes an explicit due time stored in the state:
- A debounce timeout runs when the clock reaches its due time (`Debounce.Tick`).
- The throttle's reopening is applied when the next call arrives (`Throttle.Reopen`).
- Timers run exactly at their due time. A timer due at `t` runs before a call that arrives at the same `t`.

**Traces.** A wrapper's calls form a sequence of `Timed(t, args)` events. A debounce trace also has a horizon: the time up to which the clock runs after the last call.

**Reference definitions.** Each state machine has a property that does not mention its state:
- Debounce: `Debounce.Delivered` says a call is delivered exactly when the next call (or the horizon) is at least `delay` after it.
- Throttle: firings are spaced by `limit` (`Throttle.RunSpaced`), and every dropped call falls within `limit` after a firing (`Throttle.RunCovers`). This reference is partial. When two calls share a timestamp, these two properties do not say which of them fires. For example, with calls `a` and `b` both at time 0, firing only `b` would also satisfy them. `Throttle.Run` fires the first call, `a`, and `Throttle.FreshFiresFirstCall` states this for the first call of a fresh instance.

**Counter comparisons.** The optimized and unoptimized sides are compared through one fact: delivered arguments are a subsequence of the calls' arguments (`Base.IsSubseq`). A sum of non-negative costs over a subsequence is never larger than over the whole.

**No stale-response check.** The code has no request cancellation and no check that a response belongs to the latest query. `Search.Resolve` stores whatever arrives. `Search.LastArrivalWins` states that the last response to arrive decides the results, even when it answers an older query.

**No teardown.** Neither hook clears its timer when the component unmounts, so the model has no dispose operation.

**Failed requests.** A failed `mockApiCall` yields `undefined`, and the handler stores it as the results. This is `Search.Panel.results == None`. The page cannot keep running in that state: the next render reads `.length` and calls `.map` on the results (see "## Left out").

**Error message kept after success.** `fetchSuperHeros` sets `error` only in its `catch` block. A later successful fetch therefore leaves an old error message in place (`ParallelApi.ErrorSurvivesLaterSuccess`).

## Model

| member | source | states |
|---|---|---|
| Debounce.Call | react-features/src/hooks/useDebounce.js:7-8 | a call leaves exactly one timeout pending, carrying that call's arguments and due `delay` after the call; whatever was pending before is gone, and the call itself invokes nothing |
| Debounce.Tick | react-features/src/hooks/useDebounce.js:8 | when the clock reaches the due time the pending callback runs once with the stored arguments and the slot empties; before that nothing happens |
| Debounce.CallDiscardsPending | react-features/src/hooks/useDebounce.js:7 | the state after a call does not depend on what was pending before it: the earlier timeout is cleared, not merely delayed |
| Debounce.Run | react-features/src/hooks/useDebounce.js:6-8 | after any sequence of calls the only timeout that can be pending is the last call's, due `delay` after it |
| Debounce.Trace | react-features/src/hooks/useDebounce.js:6-8 | once the clock has run on to the horizon, no timeout that was due by then is still pending |
| Debounce.TraceMatchesDelivered | react-features/src/hooks/useDebounce.js:7-8 | from any state, the invocations equal the reference: each call is delivered, `delay` after it, iff the next call (or horizon) is not earlier than that |
| Debounce.Delivered | react-features/src/hooks/useDebounce.js:7-8 | the reference delivers at most one invocation per call, and always delivers the last call, `delay` after it, once the horizon reaches that time |
| Debounce.FreshTraceIsDelivered | react-features/src/hooks/useDebounce.js:4-8 | a freshly mounted hook invokes exactly the reference deliveries of its calls |
| Debounce.BurstFiresOnce | react-features/src/hooks/useDebounce.js:7-8 | calls whose consecutive gaps are all below `delay` make the callback fire exactly once, with the last call's arguments, at last-call time + `delay` |
| Debounce.SpacedCallsEachDelivered | react-features/src/hooks/useDebounce.js:7-8 | calls spaced strictly more than `delay` apart are each delivered exactly once, in call order, `delay` after being made |
| Debounce.FiringsFromCalls | react-features/src/hooks/useDebounce.js:6-8 | the callback runs at most as many times as the wrapper was called, and the delivered arguments are a subsequence of the calls' arguments |
| Debounce.PendingAfterTrace | react-features/src/hooks/useDebounce.js:4-8 | at the horizon the last call is still pending exactly when its due time lies beyond the horizon |
| Debounce.ThreeQuickKeystrokes | react-features/src/hooks/useDebounce.js:7-8 | with delay 300, "a"@0, "ab"@100, "abc"@150 produce one invocation, at 450, with "abc" |
| Throttle.Reopen | react-features/src/hooks/useThrottle.js:11-13 | the gate is open at time t iff it was open or its reopening time has passed |
| Throttle.Call | react-features/src/hooks/useThrottle.js:7-14 | an open gate runs the callback immediately with this call's arguments and closes until t + `limit`; a closed gate drops the call and changes nothing |
| Throttle.Run | react-features/src/hooks/useThrottle.js:7-15 | the firings are a subsequence of the calls (each firing is the call that triggered it, with its arguments); after a firing the gate is closed until that firing + `limit` |
| Throttle.RunRespectsGate | react-features/src/hooks/useThrottle.js:8-13 | no firing happens before the gate the run started from reopens |
| Throttle.RunSpaced | react-features/src/hooks/useThrottle.js:8-13 | consecutive firings are at least `limit` apart |
| Throttle.RunCovers | react-features/src/hooks/useThrottle.js:8-14 | on a non-decreasing clock every call either fires, or arrives while the initial gate is closed, or arrives less than `limit` after an earlier firing |
| Throttle.FreshFiresFirstCall | react-features/src/hooks/useThrottle.js:4-9 | a fresh instance starts open, so its first call fires with its own arguments |
| Throttle.DroppedCallsFallInAWindow | react-features/src/hooks/useThrottle.js:8-14 | for a fresh instance, a dropped call always lies within `limit` after some firing; nothing is queued or replayed |
| Throttle.FiringsPairwiseApart | react-features/src/hooks/useThrottle.js:8-13 | any two firings, not only neighbours, are at least `limit` apart |
| Throttle.AtMostOnePerWindow | react-features/src/hooks/useThrottle.js:8-13 | at most one firing falls in any half-open window [w, w + `limit`) |
| Throttle.FiringCountBound | react-features/src/hooks/useThrottle.js:8-13 | firings never outnumber calls, and (n - 1) * `limit` never exceeds the time from first to last firing |
| Throttle.FiveScrollEvents | react-features/src/hooks/useThrottle.js:8-13 | with limit 100, calls at 0, 30, 60, 110, 140 fire at 0 and 110 only |
| Search.MockApiCall | react-features/src/features/Search.jsx:17-29 | a successful response yields the items' titles, same length and order; a non-ok status or a thrown fetch yields no value |
| Search.Handle | react-features/src/features/Search.jsx:31-40 | every run counts one render; an empty query sets the results to [] with no request and no API-call count; a non-empty query counts one API call and issues exactly one request for that query |
| Search.Resolve | react-features/src/features/Search.jsx:35-36 | an arriving response replaces the results with `mockApiCall`'s value and leaves the counters alone |
| Search.LastArrivalWins | react-features/src/features/Search.jsx:35-36 | with no stale-response check, the last response to arrive decides the results whatever query it answers |
| Search.HandleAllCounts | react-features/src/features/Search.jsx:44-53 | over a query sequence, renders grow by its length and API calls by its number of non-empty queries |
| Search.Unoptimized | react-features/src/features/Search.jsx:44-54 | the input without debouncing runs the handler once per keystroke: one render each, and one API call per non-empty value |
| Search.Optimized | react-features/src/features/Search.jsx:41 | the debounced input runs the handler at most once per keystroke, and counts at most one API call per run |
| Search.DebouncedNeverMoreApiCalls | react-features/src/features/Search.jsx:88-116 | for every keystroke trace and horizon, the debounced input makes no more API calls and renders than the input that searches on every keystroke |
| Search.BurstSearchesOnce | react-features/src/features/Search.jsx:41 | a burst typed faster than 300 ms costs the debounced side one handler run, and one API call iff the final text is non-empty |
| Scroll.HandleScroll | react-features/src/features/Scroll.jsx:19-38 | a handled event counts one event and 1 + (number of `.scroll-item` elements) DOM queries |
| Scroll.HandleAllCounts | react-features/src/features/Scroll.jsx:19-38 | over an event stream, events grow by its length and DOM queries by the sum of the per-event costs |
| Scroll.GeneratedListCosts51 | react-features/src/features/Scroll.jsx:60 | on the page's 50-item lists each handled event adds exactly 51 DOM queries |
| Scroll.Unoptimized | react-features/src/features/Scroll.jsx:105 | the list without throttling counts every scroll event and the DOM queries of each |
| Scroll.Optimized | react-features/src/features/Scroll.jsx:41 | the throttled list counts at most one handled event per scroll event, and always handles the first: its event is counted, and so are its DOM queries |
| Scroll.ThrottledNeverCountsMore | react-features/src/features/Scroll.jsx:41-57 | for the same event stream, the 100 ms throttled handler's event and DOM-query counters never exceed the unthrottled ones |
| Text.Lower | react-features/src/features/ProductFilter.jsx:11 | lower-casing keeps the length and maps each character on its own |
| Text.Includes | react-features/src/features/ProductFilter.jsx:11 | `includes`, as a left-to-right scan over the start positions; its meaning is stated by `Text.IncludesIff` |
| Text.IncludesIff | react-features/src/features/ProductFilter.jsx:11 | the left-to-right scan finds the term exactly when it occurs at some position of the name |
| Text.Compare | react-features/src/features/ProductFilter.jsx:19 | the name comparison returns -1, 0 or 1 |
| Text.CompareZeroIffEqual | react-features/src/features/ProductFilter.jsx:19 | the name comparison reports a tie only for equal names |
| Text.CompareFlip | react-features/src/features/ProductFilter.jsx:19 | swapping the two names flips the sign of the comparison |
| Text.CompareTransitive | react-features/src/features/ProductFilter.jsx:19 | the name order is transitive |
| ProductFilter.Keep | react-features/src/features/ProductFilter.jsx:10-14 | the filter callback: the name, category and price tests must all pass; its meaning is stated by `ProductFilter.SearchMeaning` and `ProductFilter.Filter` |
| ProductFilter.Filter | react-features/src/features/ProductFilter.jsx:9-15 | the result keeps the input order and holds exactly the products whose name, category and price all match, each as often as the input holds it |
| ProductFilter.SearchMeaning | react-features/src/features/ProductFilter.jsx:11 | the name test is a case-insensitive substring test, and an empty term matches every product |
| ProductFilter.PriceRangeInclusive | react-features/src/features/ProductFilter.jsx:13 | a price equal to either end of the range passes |
| ProductFilter.OpenFilterIsPriceFilter | react-features/src/features/ProductFilter.jsx:9-15 | with an empty term and category 'all', the filter equals a plain price-range filter, for every list, including lists with products outside the range |
| ProductFilter.Compare | react-features/src/features/ProductFilter.jsx:17-23 | the sort comparator; under 'name' it reports a tie only for equal names |
| ProductFilter.Sort | react-features/src/features/ProductFilter.jsx:17-23 | the sorted list is a permutation of the filtered list, with neighbours in comparator order |
| ProductFilter.SortMeaning | react-features/src/features/ProductFilter.jsx:19-21 | every pair is ordered: ascending price for 'price', descending rating for 'rating', lexicographic names for 'name' |
| ProductFilter.UnknownKeyKeepsOrder | react-features/src/features/ProductFilter.jsx:22 | for any other key the comparator ties every pair and the list is left as it is |
| ProductFilter.CategoriesOfPermutation | react-features/src/features/ProductFilter.jsx:28 | sorting does not change which categories are present |
| ProductFilter.StatsOf | react-features/src/features/ProductFilter.jsx:25-28 | `total` is the list length, `categories` the number of distinct categories, never more than `total` and at least 1 when the list is non-empty |
| ProductFilter.CategorySet | react-features/src/features/ProductFilter.jsx:28 | the distinct categories: a category is in the set exactly when some product of the list has it |
| ProductFilter.CategoryCountBound | react-features/src/features/ProductFilter.jsx:28 | a list has no more distinct categories than products, and at least one when non-empty |
| ProductFilter.Shown | react-features/src/features/ProductFilter.jsx:89 | the page shows a prefix of the sorted list of at most six products |
| ProductFilter.More | react-features/src/features/ProductFilter.jsx:101-103 | the "more" count appears exactly when there are more than six products, and shown + more = all |
| ProductFilter.Render | react-features/src/features/ProductFilter.jsx:9-103 | the page's derived view: filter, sort, statistics, the first six products and the "more" line; what it means is stated by `ProductFilter.RenderMeaning` |
| ProductFilter.RenderMeaning | react-features/src/features/ProductFilter.jsx:9-103 | the statistics describe exactly the matching products, every shown product matches, and shown plus "more" accounts for every match |
| ProductFilter.InitialPage | react-features/src/features/ProductFilter.jsx:4-7 | as first rendered (empty term, 'all', 0 to 1000, by name) the count is the number of products priced 0 to 1000, and the shown products are in that range and in name order |
| ParallelApi.Previous | react-features/src/features/ParllelAPI.jsx:76 | Previous decrements a page above 1 and never goes below 1 |
| ParallelApi.PreviousDisabled | react-features/src/features/ParllelAPI.jsx:77 | the Previous button's `disabled` test, page 1; its meaning is stated by `ParallelApi.PreviousDisabledIffNoOp` |
| ParallelApi.PreviousDisabledIffNoOp | react-features/src/features/ParllelAPI.jsx:76-77 | on valid pages the Previous button is disabled exactly when pressing it would not change the page |
| ParallelApi.Next | react-features/src/features/ParllelAPI.jsx:84 | Next advances by one iff page * 10 < totalCount, otherwise the page is unchanged |
| ParallelApi.LastPage | react-features/src/features/ParllelAPI.jsx:84 | the last page is at least 1 and is the least page whose ten slots cover the count |
| ParallelApi.NextStopsAtLastPage | react-features/src/features/ParllelAPI.jsx:84 | Next leaves the page unchanged exactly when the page is at or beyond max(1, ceil(totalCount / 10)) |
| ParallelApi.Navigate | react-features/src/features/ParllelAPI.jsx:76-84 | a sequence of presses never takes a page of at least 1 below 1 |
| ParallelApi.NavigationStaysInRange | react-features/src/features/ParllelAPI.jsx:76-84 | with the count fixed, any sequence of Previous/Next presses keeps the page within 1 .. max(1, ceil(totalCount / 10)) |
| ParallelApi.PagesFromStartInRange | react-features/src/features/ParllelAPI.jsx:10-84 | from the initial page 1, every sequence of presses stays within 1 .. max(1, ceil(totalCount / 10)) |
| ParallelApi.NoCountStaysOnFirstPage | react-features/src/features/ParllelAPI.jsx:11-84 | while the count is still its initial 0, no sequence of presses leaves page 1 |
| ParallelApi.NextReachesLastPage | react-features/src/features/ParllelAPI.jsx:84 | k presses of Next from a valid page reach page + k, capped at the last page |
| ParallelApi.FetchSuperHeroes | react-features/src/features/ParllelAPI.jsx:19-30 | after a fetch attempt loading is false; success stores the characters and count; failure stores the message and leaves data and count unchanged |
| ParallelApi.Press | react-features/src/features/ParllelAPI.jsx:76-84 | a button press moves only the page number and keeps it at least 1 |
| ParallelApi.ErrorSurvivesLaterSuccess | react-features/src/features/ParllelAPI.jsx:25-26 | an error message set by a failed fetch is still shown after a later successful fetch |

## Left out

- **Timer cleanup on unmount.** Neither hook does it, so nothing is modelled. The timeout handle kept at `useThrottle.js:5` is never read again.
- **React identity.** Not modelled: `useCallback` identity, dependency arrays, re-render semantics and `setState` batching. If `callback` or `delay` changes, a new wrapper shares the old timeout slot; the model assumes one gate and one timeout slot for the lifetime of the instance. `Scroll.jsx:41` passes an inline callback, so a new wrapper is built on every render; this does not matter, because the gate (`inThrottle`) and the timeout handle live in refs that every wrapper shares.
- **The network.** The fetch is a parameter (`Search.Response`, `ParallelApi.FetchResult`). `services/api.js` is only a wrapper around `fetch`/`Promise.all`, so it is not part of this model. The order in which responses arrive is likewise an input.
- **Floating point.** `avgPrice` (`ProductFilter.jsx:27`) and the scroll progress percentage with `Math.round` (`Scroll.jsx:29-30, 49-50`) are not modelled. Prices and ratings are integers; ratings are in tenths.
- **The modal and film list** (`ParllelAPI.jsx:32-37, 95-111`) and all presentational files: these are UI state around a network call, or markup only.
- **The refetch effect** (`ParllelAPI.jsx:15-17`) is not modelled as an event. `FetchSuperHeroes` models one attempt, applied to whatever state it completes on; responses for different pages are not matched to the page that requested them, just as in the code.
- **UI strings.** This includes the placeholder that says 500 ms, while the code uses 300 ms.
- Text.Lower: lower-cases only the ASCII letters A-Z, because JavaScript's full Unicode case mapping is not modelled.
- Text.Compare: plain lexicographic order by code point stands in for `localeCompare`, because locale collation is not modelled. One visible consequence: every upper-case initial sorts before every lower-case one. So on the sample catalogue "iPhone 15" sorts after "Samsung Galaxy S24" and falls outside the six shown, where `localeCompare` in common locales would put it near the top.
- ProductFilter.Sort: stability (ties keep their input order) is proved only for keys the comparator does not know (`UnknownKeyKeepsOrder`), not for ties under 'name', 'price' or 'rating'.
- Throttle.RunCovers: assumes call times never decrease (`Monotone`), which holds for a real event loop.
- Debounce.SpacedCallsEachDelivered: assumes gaps strictly greater than `delay`, as the hook's contract is usually stated. With this model's tie-breaking, `TraceMatchesDelivered` also covers a gap of exactly `delay`.
- Throttle.Call: assumes the callback returns normally and does not call the wrapper again. `useThrottle.js:9` runs the callback before line 10 closes the gate. A callback that throws leaves the gate open with no reopen timer, and a re-entrant call fires a second time inside the window. `Throttle.RunSpaced`, `Throttle.FiringsPairwiseApart` and `Throttle.AtMostOnePerWindow` hold only under this assumption. The scroll page's callback (`Scroll.jsx:41-57`) only updates state, so the scroll results are unaffected.
- Search.Resolve: the model keeps going after a failed request has stored `undefined`, but the page does not. The next render evaluates `unoptimizedResults.length` and `unoptimizedResults.map` (`Search.jsx:98, 100`; `optimizedResults` at lines 122 and 124) on `undefined`. That throws, and with no error boundary React unmounts the tree. So a trace that goes on after a failed resolve describes states the running page never reaches. This is a reading of `Search.jsx:98, 100, 122, 124`, not a property the model proves.
