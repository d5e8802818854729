# Transit departures client: a Dafny model

This project models the logic of the transit web client in
`webapp/static/js/app.js`. The client lets a rider pick a station by its id,
its name or its distance from the rider. It then polls that station's live
departures every ten seconds while auto-refresh is checked and the page is
visible, and lists the vehicles on their way.

The model covers:

- **The polling session** (`polling.dfy`). This is the module-level
  `currQuery` and `currInterval` with the three search handlers,
  `startDepartureUpdates`, `stopDepartureUpdates`, the guard of
  `updateDepartures`, and the auto-refresh, sort-lines and visibility
  listeners.
  - It is a class, `Session`. Its timers are a second class, `Timers`: the
    browser's registry of live intervals, by handle.
  - `currInterval` is kept apart from the set of live intervals. After a
    restart with auto-refresh unchecked, `currInterval` still holds a cancelled
    handle. The invariant `Session.Valid` allows that stale handle and still
    proves that at most one interval is ever live.
  - Every departures fetch is recorded in a ghost log together with its
    `recenter` flag. A timer firing is an explicit `Tick(handle)` call.
- **`formatSeconds`** (`clock.dfy`). The m:ss rendering, with a reader that
  proves the rendering loses nothing.
- **The proximity ranking of `findNearestStations`** (`stations.dfy`). The
  map / filter / stable-sort pipeline, over a given rounded distance per station.
- **The station name search and its five-item cap** (`stations.dfy`).
- **The ordering of the departures table** (`departures.dfy`). Copy the list,
  then either sort it by line and time, or reverse it.
- **The trip planner's from/to/via location slots** (`trip_locations.dfy`).

The JavaScript library functions these rely on are modelled in their own
files:

- `trim`, `toLowerCase`, `includes`, `Number.prototype.toString` for
  non-negative integers, and `padStart` (`text.dfy`).
- `filter`, `reverse` and `slice` (`lists.dfy`).
- The stable `Array.prototype.sort` of ES2019 and later (`stable_sort.dfy`).
  It is defined as an insertion sort (`Sort`) and also implemented on an array
  in place (`SortInPlace`). `SortedStablyIsSort` proves that every stable sort
  gives `Sort`'s result, so the choice of algorithm does not matter.

Both comparators in the client compare integers lexicographically:
`a.distance - b.distance`, and line number then seconds left. The sort is
therefore stated over an integer-pair `Key` per element.
`CompareDistanceIsKeyOrder` and `CompareVehiclesIsKeyOrder` prove that each
comparator's sign agrees with its key.

Two behaviours of the code may surprise a reader, and the model follows the
code in both:

- One might expect the page becoming visible again to resume polling without
  moving the map. In fact the restart fetches with `recenter` set, as every
  `startDepartureUpdates` does (app.js:386).
- One might expect unchecking auto-refresh to stop polling in every case. In
  fact, with no current query, the listener leaves the timers alone, because
  it tests `currQuery` before anything else (app.js:425). In the page as
  written this cannot be observed: `currQuery` returns to null only in
  `stopDepartureUpdates`, which clears the interval first (app.js:396-400),
  and no code calls that function. The model follows the listener's test all
  the same.

## Model

| member | source | states |
|---|---|---|
| Polling.Session.UpdateDepartures | webapp/static/js/app.js:364-365 | with a current query, exactly one fetch for it is logged, with the given `recenter` flag; with none, nothing is logged |
| Polling.Session.Tick | webapp/static/js/app.js:389-391 | an interval firing logs one non-recentring fetch for the current query if its handle is live, and nothing if it was cancelled |
| Polling.Session.Start | webapp/static/js/app.js:381-393 | keeps the invariant; cancels whatever interval was live; with a current query, logs exactly one recentring fetch for it (with none, nothing); the next handle to be given out never goes down; with auto-refresh checked, exactly one interval is live afterwards, under a handle never given out before, which is stored, else none is live and the stored (possibly stale) handle is left as it was |
| Polling.Session.Stop | webapp/static/js/app.js:395-403 | afterwards no interval is live, the stored handle is null and there is no query; of the timers only the live set changes |
| Polling.Session.Search | webapp/static/js/app.js:334-335 | the query becomes the given one, then the session restarts as `Start` states |
| Polling.Session.SearchById | webapp/static/js/app.js:328-336 | refused with "Please enter a station ID" exactly when the input is blank after trimming, changing nothing; otherwise the query is the trimmed id and the session restarts |
| Polling.Session.SearchByName | webapp/static/js/app.js:338-346 | refused with "Please select a station" exactly when the uid is empty (no trimming), changing nothing; otherwise the query is that uid and the session restarts |
| Polling.Session.SearchByCoords | webapp/static/js/app.js:348-356 | refused with "Please select a nearby station" exactly when the uid is empty, changing nothing; otherwise the query is that uid and the session restarts |
| Polling.Session.Submit | webapp/static/js/app.js:416-422 | "id", "name" and "coords" each behave exactly as their handler: the same refusal and message on the same inputs, changing nothing, and otherwise the same query and restart; a mode with no handler changes nothing and reports nothing |
| Polling.Session.Cancel | webapp/static/js/app.js:429-432 | clears the stored interval and nulls the handle; afterwards no interval is live; of the timers only the live set changes |
| Polling.Session.AutoRefreshChanged | webapp/static/js/app.js:424-435 | the checkbox takes the new value; with no query nothing else changes; with one, checking restarts, and unchecking cancels every live interval, logs nothing and keeps the query; in every case the next handle to be given out never goes down |
| Polling.Session.SortLinesChanged | webapp/static/js/app.js:437-441 | the checkbox takes the new value, and with a query one non-recentring fetch is logged |
| Polling.Session.VisibilityChanged | webapp/static/js/app.js:443-454 | with auto-refresh unchecked, or shown with no query, nothing but `hidden` changes; hidden with auto-refresh on, no interval stays live and the query is kept; shown with a query, the session restarts; in every case the next handle to be given out never goes down |
| Polling.Session.constructor | webapp/static/js/app.js:2-4 | a session starts with no query, no stored handle, no live interval and an empty fetch log |
| Polling.Timers.SetInterval | webapp/static/js/app.js:389 | the handle returned is positive and not live, and is never reused; exactly that interval is added |
| Polling.Timers.ClearInterval | webapp/static/js/app.js:383 | exactly that interval stops being live; clearing a handle that is not live does nothing |
| Polling.AtMostOneLive | webapp/static/js/app.js:381-393 | in any valid session at most one interval is live, and a live interval is the stored one |
| Polling.StopSilences | webapp/static/js/app.js:395-403 | after stop, no direct update, interval tick or page-shown event logs a fetch |
| Polling.HideThenShow | webapp/static/js/app.js:443-454 | hiding then showing the page with auto-refresh on keeps the query, logs exactly one recentring fetch and leaves exactly one live interval |
| Polling.SupersededNeverFires | webapp/static/js/app.js:381-454 | after two searches, hiding and showing the page, unchecking and checking auto-refresh, and a third search, the first search's handle is still not live, lies below every handle still to be given out, and is not the stored one |
| Polling.SearchTwice | webapp/static/js/app.js:381-393 | the checkboxes and visibility are untouched; two searches in a row log one recentring fetch each and leave at most one live interval, for the second query; the handle the first search stored is returned, is no longer live and lies below every handle still to be given out, so it never fires again; with auto-refresh checked it differs from the second search's handle |
| Clock.FormatSeconds | webapp/static/js/app.js:12-16 | the result is digits, a colon, then exactly two digits; the minutes have no leading zero; the result is four characters exactly when the count is under ten minutes |
| Clock.SecondsField | webapp/static/js/app.js:14-15 | the padded seconds field is two digits, the first at most 5, spelling the seconds left over |
| Clock.ParseFormatSeconds | webapp/static/js/app.js:12-16 | reading the rendering back as minutes times 60 plus the two-digit seconds gives the original count |
| Clock.FormatSecondsInjective | webapp/static/js/app.js:12-16 | different counts never render the same |
| Text.Trim | webapp/static/js/app.js:329 | the result is the input minus its leading and trailing whitespace: it occurs in the input with only whitespace around it, does not start or end with whitespace, and is empty exactly when the input is all whitespace |
| Text.Includes | webapp/static/js/app.js:519 | true exactly when the needle occurs at some position of the haystack |
| Text.LowerChar | webapp/static/js/app.js:519 | a character is changed exactly when it is a capital (ASCII, Latin-1, Latin Extended-A, basic Cyrillic), and the result is never a capital |
| Text.Lower | webapp/static/js/app.js:519 | same length, each character lower-cased, no capital left |
| Text.UpperChar | webapp/static/js/app.js:519 | the partner of `toLowerCase` on one character: a small letter is changed exactly when it has a capital in the same ranges, and it then becomes a capital |
| Text.UpperOfLower | webapp/static/js/app.js:519 | lowering a capital gives a small letter whose capital is the one it came from |
| Text.LowerOfUpper | webapp/static/js/app.js:519 | every small letter of those ranges is the lower case of its own capital |
| Text.LowerCharInjective | webapp/static/js/app.js:519 | two different capitals never lower to the same small letter |
| Text.LowerIdempotent | webapp/static/js/app.js:519 | lower-casing an already lower-cased string changes nothing |
| Text.Utf16Length | webapp/static/js/app.js:508 | `length` counts UTF-16 units: between the number of characters and twice it, and equal to it exactly when no character lies beyond U+FFFF |
| Text.Decimal | webapp/static/js/app.js:15 | a non-empty string of digits with no leading zero, one digit exactly for values under ten |
| Text.ParseDecimalOfDecimal | webapp/static/js/app.js:15 | reading the decimal rendering back gives the number |
| Text.PadStart | webapp/static/js/app.js:15 | the result is the string preceded by fill characters, up to the width and never shorter than the string |
| Lists.Filter | webapp/static/js/app.js:205 | the result is no longer than the input, and every element kept satisfies the predicate |
| Lists.FilterMembers | webapp/static/js/app.js:205 | an element is kept exactly when it is in the input and satisfies the predicate |
| Lists.FilterConcat | webapp/static/js/app.js:205 | filtering distributes over concatenation, so the kept elements stay in input order |
| Lists.FilterCount | webapp/static/js/app.js:205 | each kept element occurs as often as in the input, and the others do not occur |
| Lists.FilterEmpty | webapp/static/js/app.js:205 | the result is empty exactly when no element satisfies the predicate |
| Lists.Reversed | webapp/static/js/app.js:288 | element i of the result is element n-1-i of the input |
| Lists.ReversedPermutes | webapp/static/js/app.js:288 | reversing is a permutation |
| Lists.ReversedTwice | webapp/static/js/app.js:288 | reversing twice gives the input back |
| Lists.Reverse | webapp/static/js/app.js:288 | reversing in place leaves the reverse of the old contents |
| Lists.Take | webapp/static/js/app.js:541 | the result is the first n elements, or the whole input if it is shorter |
| StableSort.Sort | webapp/static/js/app.js:206 | the sort of `Array.prototype.sort`, defined as insertion sort; its contract is the length, and the lemmas below state that it permutes, orders and is stable |
| StableSort.SortPermutes | webapp/static/js/app.js:206 | the sort only rearranges its input |
| StableSort.SortSorted | webapp/static/js/app.js:206 | the result is ordered by key |
| StableSort.SortStable | webapp/static/js/app.js:206 | elements with equal keys keep their input order |
| StableSort.SortedStablyIsSort | webapp/static/js/app.js:206 | any ordered sequence that keeps every group of equal keys in input order is exactly the result of the sort |
| StableSort.SortedDeterminedByClasses | webapp/static/js/app.js:206 | two ordered sequences whose groups of equal keys agree are equal |
| StableSort.InsertClass | webapp/static/js/app.js:281-286 | inserting an element appends it to its group of equal keys and leaves the other groups unchanged |
| StableSort.SortInPlace | webapp/static/js/app.js:281-286 | sorting the array in place leaves the sort of its old contents |
| StableSort.InsertInPlace | webapp/static/js/app.js:281-286 | one pass of the in-place sort inserts the next element into the sorted prefix and leaves the rest untouched |
| StableSort.ShiftAbove | webapp/static/js/app.js:281-286 | the inner loop moves exactly the prefix elements with a larger key up one place and returns the insertion point |
| Stations.Annotate | webapp/static/js/app.js:197-204 | every catalog station in order, paired with its own rounded distance |
| Stations.WithinReach | webapp/static/js/app.js:205 | a station is within reach only if the maximum is a number (never when `parseInt` gave `NaN`), that number is not negative, and the distance does not exceed it |
| Stations.CompareDistance | webapp/static/js/app.js:206 | the distance comparator is negative exactly when the first station is nearer, and zero exactly when both are equally far |
| Stations.RankByProximity | webapp/static/js/app.js:197-206 | no more entries than the catalog, and every entry is a catalog station, paired with its own distance and within reach |
| Stations.CompareDistanceIsKeyOrder | webapp/static/js/app.js:206 | the distance comparator is positive exactly when the key puts the first station after the second, and zero exactly on ties |
| Stations.ProximityOrdered | webapp/static/js/app.js:197-206 | the ranking lists nearer stations first |
| Stations.ProximityMembers | webapp/static/js/app.js:197-206 | a station is ranked exactly when it is in the catalog and within reach (never when the maximum is NaN), paired with its own distance and as often as the catalog lists it |
| Stations.ProximityMonotone | webapp/static/js/app.js:197-206 | raising the maximum distance never drops a station from the ranking |
| Stations.ProximityTies | webapp/static/js/app.js:197-206 | stations at the same distance appear in catalog order, or not at all when beyond reach |
| Stations.FilteredClass | webapp/static/js/app.js:205-206 | the filter keeps each group of equal distance whole or drops it |
| Stations.ProximityEmpty | webapp/static/js/app.js:197-206 | the ranking is empty, not an error, exactly when no station is within reach |
| Stations.ExampleFilter | webapp/static/js/app.js:205 | of stations at 50, 4000, 10, 2500 and 9999 metres, those at 50, 10 and 2500 are within 3000 |
| Stations.ExampleSort | webapp/static/js/app.js:206 | stations at 50, 10 and 2500 metres sort as 10, 50, 2500 |
| Stations.ProximityExample | webapp/static/js/app.js:197-206 | the whole pipeline on that catalog with a 3000-metre maximum gives the stations at 10, 50 and 2500 metres in that order |
| Stations.NameMatches | webapp/static/js/app.js:519 | a station matches exactly when its lower-cased name contains the lower-cased query; the empty query matches every station, and no query longer than the name matches |
| Stations.SearchLocations | webapp/static/js/app.js:516-520 | no more stations than the catalog |
| Stations.SearchLocationsMembers | webapp/static/js/app.js:518-520 | a station is offered exactly when it is in the catalog and its lower-cased name contains the lower-cased query |
| Stations.SearchIgnoresCase | webapp/static/js/app.js:519 | queries that are equal once lower-cased find the same stations |
| Stations.SearchLowered | webapp/static/js/app.js:519 | searching for the lower-cased query finds the same stations as the query itself |
| Stations.SearchFoldsCaron | webapp/static/js/app.js:518-520 | the query "ŽELE" finds the catalog's "Železnička stanica" |
| Stations.Suggestions | webapp/static/js/app.js:541 | at most five suggestions, the first matches in order, and all of them when there are fewer than five |
| Stations.AutocompleteQuery | webapp/static/js/app.js:506-508 | a search runs exactly when the trimmed input is at least two UTF-16 units long, and it searches for the trimmed input |
| Stations.AutocompleteQueryTrimmed | webapp/static/js/app.js:506-508 | a searched query is at least two UTF-16 units long, is not empty, has no whitespace at either end, and is the input minus surrounding whitespace |
| Stations.AutocompleteQueryLength | webapp/static/js/app.js:506-508 | two characters always start a search, a single character does exactly when it lies beyond U+FFFF, and whitespace alone never does |
| Departures.CompareVehicles | webapp/static/js/app.js:281-286 | the vehicle comparator is negative exactly when the first vehicle's line is lower, or the line is the same and it arrives sooner, and zero exactly when both agree on line and seconds |
| Departures.CompareVehiclesIsKeyOrder | webapp/static/js/app.js:281-286 | the vehicle comparator is positive exactly when the (line, seconds) key puts the first after the second, and zero exactly on ties |
| Departures.DisplayOrder | webapp/static/js/app.js:279-289 | the table has as many rows as the response has vehicles, and shows every vehicle of the response exactly once |
| Departures.DisplayOrderSorted | webapp/static/js/app.js:280-286 | with sort-lines checked and vehicles present, rows go by line number, then seconds left, and full ties keep response order |
| Departures.DisplayOrderReversed | webapp/static/js/app.js:287-289 | otherwise, and for an empty list, the rows are the response backwards |
| Departures.OrderForDisplay | webapp/static/js/app.js:279-289 | the rows are a fresh copy put in display order; the response's own array is not modified |
| TripLocations.Slots.constructor | webapp/static/js/app.js:8-10 | all three slots start empty |
| TripLocations.Slots.SetLocationForInput | webapp/static/js/app.js:556-568 | the input id picks exactly one slot to set; any other id changes nothing |
| TripLocations.Slots.PickSuggestion | webapp/static/js/app.js:545-548 | the clicked input shows the station's name and its slot holds the station; the other two inputs and slots are unchanged |
| TripLocations.Slots.SwapLocations | webapp/static/js/app.js:787-798 | origin and destination exchange both their text and their slot |
| TripLocations.Slots.HideViaInput | webapp/static/js/app.js:826-831 | the via input and the via slot are emptied |
| TripLocations.SwapTwice | webapp/static/js/app.js:787-798 | swapping twice restores every slot and input |

## Left out

- Distance: the haversine `calculateDistance` (app.js:180-189) is floating-point trigonometry. The rounded distance of each station is a parameter, `distance: Station -> nat`, and station coordinates are not modelled.
- Network: `fetch`, `apiRequest` and its mock fallback, `fetchAllStations`, request encoding, geocoding, and the outcome of a departures fetch (success, failure, fallback data). A fetch is only an entry in the ghost log `Session.fetches`.
- Geolocation: `getUserLocation` and `useCurrentLocation` are browser APIs. A location set from the current position is not a catalog `Station`, so it is not modelled.
- Rendering: markers, map, table rows, dropdown elements, loading and error display, and the 5-second auto-hide of errors. The session handlers return the error message instead of showing it.
- Concurrency: each handler runs atomically. The interleaving of a slow fetch with a later search is not modelled.
- Wall-clock time: the 10-second period is recorded with each interval, but time itself is not modelled; ticks are explicit calls. The 300 ms autocomplete debounce is not modelled either.
- Canned itineraries: `generateTransitRoute`, `calculateRoute`, `handleNavigationSearch` and the trip cards.
- Mode switching, `populateStationSelect`, `initMap` and `initApp`.
- Departures.Vehicle: `lineNumber` is an integer. The subtraction comparator gives `NaN` for line names such as "11A", and that case is not modelled.
- Text.Lower: folds the capitals of ASCII, Latin-1, Latin Extended-A and basic Cyrillic (U+0400-U+042F), which cover the station names. `İ` (U+0130), whose lower case is two characters, is left as it is. Greek, the rest of Cyrillic, the other scripts and the context rule for final sigma are not modelled.
- Stations.SearchIgnoresCase: covers queries that agree under the lower-casing of `Text.Lower`, so only the capitals it folds.
- Text.Decimal: covers non-negative integers only. `formatSeconds` on negative or fractional counts, and `toString`'s exponent form for values of 10^21 and above, are not modelled.
- Stations.WithinReach: `maxDistance` is an optional integer, where `None` stands for the `NaN` that `parseInt` gives for a non-numeric input. Fractional inputs are already truncated by `parseInt`.
- Polling.Timers.SetInterval: handles are assumed never to be reused, as the incrementing counters of the major browsers behave. The HTML standard only promises a handle that is not currently in use, and that pool is shared with the page's `setTimeout` calls (app.js:22, app.js:509), which are not modelled. `Restarted`'s fresh handle, the silence of a superseded interval in `SearchTwice`, and the harmlessness of clearing a stale stored handle all rest on this assumption.
- Polling.Session.Submit: the mode is compared against the three handler names. A mode that names an inherited property of the handler object is not modelled; the mode comes from a fixed select element.
