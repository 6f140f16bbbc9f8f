# airline-route-similarity, modelled in Dafny

The project finds flights that look like ten U.S. trunk routes such as SFO–LAX and DEN–ORD.
Each trunk route is averaged into one "trunk vector" from those of its ten member flights that normalise (a flight longer than eight hours does not); with no such member the route has no vector (`None`). Every flight not flown by one of the U.S. carriers UAL, DAL, AAL or ENY is normalised the same way and becomes a candidate; `is_non_us_callsign` is that filter. The similarity step then keeps, for each route, the `k` candidate flights with the lowest dynamic-time-warping (DTW) score against it.

This model covers the core of that pipeline:

- **`src/utils.py`**:
  - the airline lists and constants: `Callsign.AirlineIcaoCodes` is `airline_icao_codes` (src/utils.py:4-25), `Callsign.UsCarrierCodes` the prefixes of `is_non_us_callsign`;
  - callsign validation (`is_valid_callsign`, `is_non_us_callsign`);
  - selecting one flight out of the telemetry table (`extract_flight`);
  - normalising one flight (`preprocess_flight`): sort by time, reject flights over eight hours, resample to 200 rows, re-centre on the first row, keep six columns;
  - the route average (`aggregate_route`).
- **`src/similarity.py`**:
  - the displacement test `moved_enough`;
  - the gate and per-route bounded heaps of `top_k_dtw`, with the parts of Python's `heapq` that it uses (`heappush`, `heappushpop`) and the final `list.sort()`;
  - the mapping of the results to JSON records (lines 69-75).

Modules, one per file:

| file | module | contents |
|---|---|---|
| `py.dfy` | `Py` | a Python call's outcome: a value, `None`, or a raised `IndexError`/`NameError` |
| `pystr.dfy` | `PyStr` | `str.strip`, `str.upper` (ASCII letters), and the `<` order of strings |
| `callsign.dfy` | `Callsign` | `airline_icao_codes`, `is_valid_callsign` (intended and as written), `is_non_us_callsign` |
| `flight.dfy` | `Flight` | telemetry rows, `extract_flight`, sorting by time, `linspace` resampling, `preprocess_flight` |
| `aggregate.dfy` | `Aggregate` | `aggregate_route` as a loop over the member callsigns, and the exact mean |
| `heapq.dfy` | `Heapq` | the `(-score, callsign)` tuples and their order; CPython's `_siftdown`/`_siftup`, `heappush`, `heappushpop`; `sort` |
| `similarity.dfy` | `Similarity` | `moved_enough`, the gate, the top-k specification, `top_k_dtw` as loops over candidates and routes, the result records |

How the source's state is modelled:

- **`aggregate_route` and `top_k_dtw`.** They are methods with loops. Their postconditions tie the result to specification functions:
  - `Survivors` and `Mean` for the route average;
  - `Offered` and `TopKSpec` for the top-k.
- **The `defaultdict(list)` of `top_k_dtw`.** It is a local `map<int, seq<Entry>>` that the loops reassign. Routes are the keys.
- **Each route's list.** It is a `seq<Entry>`. `heappush` and `heappushpop` return its new contents.
- **The top-k property.** `IsTopK` says the list is a top-k of the tuples offered to the route:
  - it holds `min(k, n)` of them;
  - it is a sub-multiset of the offers;
  - no offered tuple that was left out is larger than a kept one.

  Lemmas show what follows from it:
  - the characterisation is unique;
  - sorting any list that satisfies it gives `TopKSpec`, the `min(k, n)` largest offered tuples (those of the lowest raw scores), in ascending order;
  - that is exactly what `top_k_dtw` returns for every route.
- **What the source's code relies on but does not show** becomes a parameter:
  - the DTW score function (`compute_dtw`, which calls `fastdtw`) is the parameter `score`, and nothing is assumed about it;
  - the telemetry table is a sequence of `Flight.Row`.

## Model

| member | source | states |
|---|---|---|
| Callsign.Normalize | src/utils.py:52 | `callsign.strip().upper()`: `Upper` applied to `Strip`, whose properties are stated by the `PyStr` rows. |
| Callsign.SuffixMatches | src/utils.py:65-66 | The full match of `\d{1,4}[A-Z]?`: after dropping one trailing capital, 1 to 4 characters remain and all are digits. `SuffixMatchesIff` states it in the regex's own form. |
| Callsign.IsValidCallsign | src/utils.py:45-69 | The intended `is_valid_callsign`: false for a non-string; for a string, its stripped, upper-cased form has 4-8 characters, a listed airline code as its first three and a suffix of 1-4 digits with an optional capital. Its consequences are stated by `ValidCallsignShape`. |
| Callsign.IsValidCallsignAsWritten | src/utils.py:45-69 | As written, `is_valid_callsign` never returns `True` and never `None`: it returns `False` for a non-string, a bad length or an unknown prefix, and otherwise raises. |
| Callsign.AsWrittenRaisesAtSuffixCheck | src/utils.py:49-67 | The written check raises exactly for strings whose stripped, upper-cased form has 4-8 characters and a listed airline prefix. When it returns, the intended check is false too. Every callsign the intended check accepts raises `NameError`. |
| Callsign.ExampleUal1 | src/utils.py:54-66 | "UAL1", the example in the source's comment, is valid under the intended check. As written it raises `NameError`. |
| Callsign.SuffixMatchesIff | src/utils.py:65-66 | The suffix test holds iff the suffix is 1 to 4 digits followed by nothing or by one capital letter (`\d{1,4}[A-Z]?` as a full match). |
| Callsign.SuffixShape | src/utils.py:65-66 | A matching suffix has 1 to 5 characters. It starts with a digit, all but its last character are digits, and the last is a digit or a capital. When the last is a digit, the suffix has at most 4 characters. |
| Callsign.ValidCallsignShape | src/utils.py:52-69 | A valid callsign, once stripped and upper-cased, has 4 to 8 characters and a listed airline code as its first three. Then come digits and possibly one trailing capital: at most 4 digits when the callsign ends in a digit (it then has at most 7 characters), at most 4 digits and the capital otherwise. |
| Callsign.ValidIgnoresCaseAndSpace | src/utils.py:52 | Validity is unchanged by upper-casing and stripping the input first. |
| Callsign.IsNonUsCallsign | src/utils.py:71-75 | `is_non_us_callsign` is false exactly when the first three characters are UAL, DAL, AAL or ENY. A string shorter than three characters is non-U.S. |
| PyStr.Strip | src/utils.py:52 | `strip()`: `rstrip` after `lstrip`. |
| PyStr.Upper | src/utils.py:52 | `upper()` on the ASCII letters: one output character per input character, the lower-case letters mapped to capitals. |
| PyStr.LStrip | src/utils.py:52 | `lstrip` returns a suffix of the input. Everything it drops is whitespace, and the result does not start with whitespace. |
| PyStr.RStrip | src/utils.py:52 | `rstrip` returns a prefix of the input. Everything it drops is whitespace, and the result does not end with whitespace. |
| PyStr.StripHasNoOuterSpace | src/utils.py:52 | The result of `strip()` neither starts nor ends with whitespace. |
| PyStr.StripIdempotent | src/utils.py:52 | Stripping twice is stripping once. |
| PyStr.UpperIdempotent | src/utils.py:52 | Upper-casing twice is upper-casing once. |
| PyStr.UpperStripCommute | src/utils.py:52 | `s.strip().upper() == s.upper().strip()`. |
| PyStr.StrLt | src/similarity.py:36-42 | Python's `<` on `str`: lexicographic by code point, a proper prefix being smaller. |
| PyStr.StrLtIrreflexive | src/similarity.py:36-39 | No string is below itself under Python's `<`. |
| PyStr.StrLtTransitive | src/similarity.py:36-39 | String `<` is transitive. |
| PyStr.StrLtTotal | src/similarity.py:36-39 | Any two different strings are ordered one way or the other. |
| PyStr.StrLtAsymmetric | src/similarity.py:36-39 | Two strings are never each below the other. |
| Flight.ExtractFlight | src/utils.py:98-99 | `extract_flight` returns no more rows than the table has, and every row it returns carries the callsign. |
| Flight.ExtractFlightCounts | src/utils.py:98-99 | `extract_flight` keeps every row with the callsign as often as the table has it, and no other row. |
| Flight.ExtractFlightConcat | src/utils.py:98-99 | The filter keeps the table's row order: filtering a concatenation concatenates the filtered parts. |
| Flight.ExtractFlightEmpty | src/utils.py:98-99 | The selected flight is empty exactly when no row carries the callsign. |
| Flight.SortByTime | src/utils.py:78 | `sort_values("time")` as an insertion sort by time; the result has as many rows as the flight. |
| Flight.SortByTimeSorted | src/utils.py:78 | `sort_values("time")` gives a time-ordered permutation of the flight's rows. |
| Flight.MinTime | src/utils.py:79 | The earliest timestamp is at most every row's time and is the time of some row. |
| Flight.MaxTime | src/utils.py:79 | The latest timestamp is at least every row's time and is the time of some row. |
| Flight.SortedEnds | src/utils.py:78-79 | After sorting, the first row has the earliest and the last row the latest timestamp, so `duration` is the flight's time span. |
| Flight.ResampleIndex | src/utils.py:87 | Entry `i` of `np.linspace(0, n - 1, 200).astype(int)` in exact arithmetic: `i * (n - 1) / 199`, truncated. |
| Flight.ResampleIndices | src/utils.py:87 | The 200 indices, each the floor of its evenly spaced point: `idxs[i] * 199 <= i * (n - 1) < (idxs[i] + 1) * 199`. |
| Flight.ResampleIndexIsFloor | src/utils.py:87 | Resample index `i` is the floor of `i * (n - 1) / 199`, the `i`-th of 200 evenly spaced points from 0 to `n - 1`. |
| Flight.ResampleIndexStep | src/utils.py:87 | With at most 200 rows, consecutive indices differ by at most one. With at least 200 rows, they differ by at least one. |
| Flight.ResampleIndicesShape | src/utils.py:87 | The 200 indices start at 0, end at `n - 1`, never decrease, and stay within the flight. |
| Flight.ResampleRepeatsIffShort | src/utils.py:87-88 | Some row is taken twice exactly when the flight has fewer than 200 rows. |
| Flight.ResampleCoversShortFlights | src/utils.py:87-88 | With at most 200 rows, every row index is taken at least once. |
| Flight.Resample | src/utils.py:87-88 | `iloc` at the 200 resample indices gives 200 rows; the first is the flight's first row and the last its last row. |
| Flight.Features | src/utils.py:90-96 | The six output columns of one row: latitude and longitude minus the origin's, then velocity, sin_heading, cos_heading and altitude. |
| Flight.Recentred | src/utils.py:90-96 | The feature matrix is 200 x 6. Its first row has `delta_lat == delta_lon == 0`, and column 5 of row `i` is the altitude of resampled row `i`. |
| Flight.PreprocessFlight | src/utils.py:77-96 | It raises `IndexError` exactly for an empty flight. It returns `None` exactly when the time span exceeds eight hours. Otherwise it returns a 200 x 6 matrix whose first row has `delta_lat == delta_lon == 0`. |
| Flight.SampledRowInFlight | src/utils.py:87-88 | Every resampled row is a row of the flight. |
| Flight.SampledRowsInTimeOrder | src/utils.py:78-88 | Resampled rows come in time order. |
| Flight.SampledEnds | src/utils.py:78-90 | The first resampled row is an earliest row of the flight and the last one a latest row. |
| Flight.PreprocessRows | src/utils.py:87-96 | Output row `i` comes from one of the flight's own rows. Its first two columns are latitude and longitude minus those of output row 0. The other four are velocity, sin_heading, cos_heading and altitude, in that order. |
| Flight.PreprocessKeepsShortFlights | src/utils.py:87-96 | A flight of at most 200 rows has every one of its rows among the output rows. |
| Aggregate.MemberOutcomes | src/utils.py:106-108 | One `preprocess_flight(extract_flight(...))` outcome per member callsign. Every returned trajectory has the 200 x 6 shape. |
| Aggregate.Survivors | src/utils.py:105-111 | The list `matrices`: all 200 x 6, and no more of them than members. |
| Aggregate.Mean | src/utils.py:117-118 | The stacked mean is again a 200 x 6 matrix. |
| Aggregate.AggregateRoute | src/utils.py:101-120 | It raises exactly when some member's outcome raises, and then with `IndexError`. Otherwise it returns `None` exactly when no member survives, or the entrywise mean of exactly the surviving trajectories, in member order. |
| Aggregate.OutcomesStep | src/utils.py:106-111 | One more member either raises, or appends its trajectory to the survivors, or is skipped. |
| Aggregate.MemberRaisesIff | src/utils.py:79-108 | A member's outcome raises exactly when the table has no row with its callsign. |
| Aggregate.SurvivorsEmptyIff | src/utils.py:109-114 | There are no survivors exactly when no member gave a trajectory. |
| Aggregate.SurvivorsAreOutcomes | src/utils.py:105-111 | The survivors are exactly the returned trajectories, and there are as many survivors as there are returned trajectories. |
| Aggregate.MeanBounds | src/utils.py:117-118 | Each entry of the mean lies between the smallest and the largest value of that entry among the members. |
| Aggregate.MeanOfCopies | src/utils.py:117-118 | Averaging `n` copies of one trajectory gives it back. |
| Heapq.Lt | src/similarity.py:36-42 | Python's `<` on `(-score, callsign)`: by the first component, then by the callsign. |
| Heapq.LtTransitive | src/similarity.py:36-39 | Tuple `<` on `(-score, callsign)` is transitive. |
| Heapq.NotLtIsGe | src/similarity.py:36-39 | The tuple order is total: not `a < b` means `b <= a`. |
| Heapq.LeAntisymmetric | src/similarity.py:36-39 | `a <= b` and `b <= a` only for equal tuples. |
| Heapq.HeapRootMin | src/similarity.py:35-39 | The root of a heap is no larger than any of its elements. |
| Heapq.SiftDown | src/similarity.py:37 | `_siftdown` restores the heap invariant when only the edge into `pos` may be broken. It keeps the length and the elements. |
| Heapq.SiftUp | src/similarity.py:39 | `_siftup(heap, 0)` (bottom-up: hole to a leaf, then `_siftdown`) restores the heap when only the root may be out of place. It keeps the length and the elements. |
| Heapq.HeapPush | src/similarity.py:36-37 | `heappush` gives a heap that is one longer and holds the old elements plus the item. |
| Heapq.HeapPushPop | src/similarity.py:38-39 | `heappushpop` gives a heap of the same length. Kept plus popped equals old plus item as multisets, and the popped tuple is no larger than the item or any kept tuple. It returns the root exactly when the heap is non-empty and its root is below the item; otherwise the item comes back and the heap is unchanged. |
| Heapq.SortEntries | src/similarity.py:41-42 | `list.sort()` (and `sorted`, line 72) as an insertion sort on the tuple order; the length is kept. |
| Heapq.SortEntriesSorted | src/similarity.py:41-42 | `sort` gives an ascending permutation. |
| Heapq.SortedUnique | src/similarity.py:41-42 | Two ascending lists with the same elements are equal, so the sorted order is determined by the elements. |
| Heapq.SortSortedIsIdentity | src/similarity.py:72 | Sorting an ascending list leaves it unchanged. |
| Similarity.SquaredDisplacement | src/similarity.py:16-18 | The squared norm of `end - start` over the (delta_lat, delta_lon) columns of the first and last rows; never negative. |
| Similarity.MovedEnough | src/similarity.py:14-20 | `moved_enough(vec, min_km)` as a comparison of squares: true for a threshold of at most zero, otherwise 111 squared times the squared displacement is at least `min_km` squared. |
| Similarity.MovedEnoughIsNormTest | src/similarity.py:14-20 | `moved_enough` holds exactly when the Euclidean norm of the (delta_lat, delta_lon) displacement times 111 is at least `min_displacement_km`. |
| Similarity.Accepted | src/similarity.py:26-31 | The gate of the candidate loop: a candidate passes only when the altitude column of both its first and its last row is negative, and it has moved at least 100 km. |
| Similarity.Retained | src/similarity.py:36-39 | A route keeps at most as many tuples as were offered, and at most `k`. |
| Similarity.TopKSpec | src/similarity.py:22-44 | The reference answer has `min(k, n)` tuples, or none when `k <= 0`. |
| Similarity.OfferedLength | src/similarity.py:25-39 | Each route is offered one tuple per candidate that passes the gate. |
| Similarity.OfferedFromAccepted | src/similarity.py:29-37 | Every offered tuple is `(-score, callsign)` of a candidate that passed the gate. |
| Similarity.AcceptedAreOffered | src/similarity.py:29-37 | Every candidate that passes the gate is offered to every route. |
| Similarity.RoutesIndependent | src/similarity.py:33-39 | A route's offers depend only on the scores that the accepted candidates get against that route. |
| Similarity.TopKPush | src/similarity.py:36-37 | While a route holds fewer than `k` tuples, pushing keeps a top-k of the extended offers. |
| Similarity.TopKPushPop | src/similarity.py:38-39 | Once a route holds `k` tuples, `heappushpop` keeps a top-k of the extended offers. |
| Similarity.TopKNoExcess | src/similarity.py:33-42 | No tuple occurs more often in one top-k of the offers than in another. |
| Similarity.TopKUnique | src/similarity.py:33-42 | Any two top-k lists of the same offers have the same elements. |
| Similarity.TopKSpecIsTopK | src/similarity.py:33-42 | The reference answer is a top-k of the offers and is ascending. |
| Similarity.SortedTopKIsSpec | src/similarity.py:41-42 | Sorting any top-k list gives the reference answer, whatever the heap layout. |
| Similarity.TopKKeepsLowestScores | src/similarity.py:35-39 | No left-out candidate has a lower raw DTW score than a kept one. On a tie at the cut-off, the kept candidate has the larger callsign. |
| Similarity.RejectedNeverKept | src/similarity.py:29-31 | A candidate turned away by the gate is in no route's list. |
| Similarity.OffersStep | src/similarity.py:25-39 | An accepted candidate extends every route's offers by its tuple. A rejected one changes nothing. The count of accepted candidates moves the same way. |
| Similarity.DefaultGet | src/similarity.py:36-39 | `topk[i]` of the `defaultdict(list)`: the stored list, or a new empty one for a missing key. |
| Similarity.Offer | src/similarity.py:36-39 | One push or push-pop on a route turns a heap that is a top-k of its offers into a heap that is a top-k of the offers extended by the new tuple. |
| Similarity.OfferToRoute | src/similarity.py:34-39 | For one route: `topk[i]` (a new list when absent) is offered the candidate's tuple. Only key `i` changes, and it is then present. |
| Similarity.OfferToRoutes | src/similarity.py:33-39 | After the loop over the routes, every route is present and holds a heap that is a top-k of its offers extended by the candidate. |
| Similarity.ScanCandidate | src/similarity.py:26-39 | One candidate preserves the loop state: routes are present iff some candidate passed so far, and each holds a top-k heap of its offers. A rejected candidate leaves the mapping unchanged. |
| Similarity.ScanCandidates | src/similarity.py:23-39 | After all candidates, routes are present exactly when some candidate passed the gate. Each route then holds a heap that is a top-k of what it was offered. |
| Similarity.SortRoutes | src/similarity.py:41-42 | The same routes, each list sorted. |
| Similarity.TopKDtw | src/similarity.py:22-44 | Routes are present exactly when some candidate passed. Each holds a top-k of its offered tuples, of size `min(k, accepted)`, in ascending order. It equals `TopKSpec` of the offers. |
| Similarity.TopKDtwAsWritten | src/similarity.py:25 | As written, `top_k_dtw` raises `NameError` on every input, before reading any candidate, because `tqdm` is not imported. |
| Similarity.TopKDtwAsWrittenRaisesOnEmptyInput | src/similarity.py:25 | Even with no routes and no candidates, the written code raises `NameError`. |
| Similarity.MapSeqPermute | src/similarity.py:70-73 | A list comprehension maps a permutation to a permutation. |
| Similarity.Serialize | src/similarity.py:69-75 | `serializable`: the same route keys as `topk`, each mapped to as many records as the route holds tuples. |
| Similarity.SerializeSortedRoutes | src/similarity.py:69-75 | On the sorted lists of `top_k_dtw`, every route's records are its tuples one for one, in the same order, with the raw score restored. |
| Similarity.ToRecord | src/similarity.py:71 | The dict literal `{"callsign": callsign, "dtw_score": -score}` of one stored tuple. |
| Similarity.SerializeRoute | src/similarity.py:70-73 | One route's list of records, one per tuple of `sorted(results)`. |
| Similarity.SerializeRouteContents | src/similarity.py:69-75 | A route's records are those of its tuples, with the score negated back to the raw DTW score. |
| Similarity.SerializeSortedRoute | src/similarity.py:72 | On the already sorted lists of `top_k_dtw`, `sorted` changes nothing, so record `j` is tuple `j`. |
| Similarity.SerializeRouteDescending | src/similarity.py:71-72 | As written, the records run from the largest raw score down. |
| Similarity.SerializeRouteWorstFirst | src/similarity.py:71-72 | For raw scores 1.0 and 2.0, the written order lists the 2.0 (less similar) record first. |
| Similarity.SerializeAscending | src/similarity.py:70-73 | The corrected list of a route, one record per tuple, ordered by raw score. |
| Similarity.SerializeAscendingOrder | src/similarity.py:71-72 | The corrected order runs from the lowest raw score up. |
| Similarity.SerializeAscendingContents | src/similarity.py:69-75 | The corrected order has the same records as the written one. |

## Left out

- Module-level code is outside the model as I/O:
  - the route lists and `routes` of `src/utils.py`;
  - loading `trunk_vectors.npy` and `flight_vectors.pkl`, the `None` filter, `pp(topk)` and writing the JSON file in `src/similarity.py`;
  - `src/preprocess.py` and `src/aggregate.py`.
- `trunk_labels` renaming: `Serialize` keys the records by route index, and the renaming of keys to labels (and the `KeyError` for an index it does not list) is left out.
- `compute_dtw` / `fastdtw` is the uninterpreted parameter `score`, because it is an external library.
- Floating point is left out: all numbers are exact reals. This covers NaN, rounding in `np.linspace`, the mean, the norm and `* 111`. `np.linalg.norm` is replaced by an equivalent comparison of squares (`MovedEnoughIsNormTest`).
- Flight.ResampleIndex: `np.linspace(...).astype(int)` is modelled as the exact floor of `i * (n - 1) / 199`. Floating-point rounding of the evenly spaced points is not modelled.
- pandas is left out as a library:
  - only its semantics are modelled;
  - `df_flight["elapsed"]`, which is computed but not among the returned columns, is left out;
  - the stability of `sort_values`, which makes no promise, is not modelled: `Flight.SortByTime` is one time-ordered permutation of the rows, and lemmas about it may rely only on time order and permutation;
  - NaN callsigns in the table are left out: `Flight.Row.callsign` is a string.
- Callsign.IsValidCallsign: `\d` is modelled as the ASCII digits, and `str.upper()` as ASCII upper-casing. Python's versions also accept and map other Unicode characters.
- Similarity.TopKDtw: the candidates are assumed `Gateable`, that is non-empty with at least six columns in the first and last rows. On other inputs pandas raises inside the gate; every input the pipeline produces has 200 x 6 rows.
- Heapq.SiftDown: only `startpos == 0` is modelled, which is the only way `heappush` calls it.
- Heap lists are `seq` values and the `defaultdict` is a map variable, rather than lists updated in place. Each heap routine returns the new list. Nothing else holds a reference to those lists, so aliasing does not arise.
- The model treats `tqdm` as imported in `Similarity.TopKDtw`. The written code's `NameError` is modelled separately, in `Similarity.TopKDtwAsWritten`.

## Findings

| source | as written | input that shows it | evidently intended | confidence | as-written member | corrected member |
|---|---|---|---|---|---|---|
| src/utils.py:66 | `re.fullmatch` is used, but `re` is never imported, so every callsign that passes the length and prefix checks raises `NameError` | `is_valid_callsign("UAL1")` | return `True` for 1-4 digits with an optional capital after a listed prefix | not executed; high | Callsign.IsValidCallsignAsWritten, Callsign.ExampleUal1 | Callsign.IsValidCallsign, Callsign.ValidCallsignShape |
| src/similarity.py:25 | `tqdm` is used, but it is never imported, so the loop header raises `NameError` on every call | `top_k_dtw([], {})` | iterate over `flight_vectors.items()` with a progress bar | not executed; high | Similarity.TopKDtwAsWritten, Similarity.TopKDtwAsWrittenRaisesOnEmptyInput | Similarity.TopKDtw |
| src/similarity.py:72 | `sorted(results)` orders the `(-score, callsign)` tuples ascending, which lists the largest raw DTW score, the least similar flight, first | one route with tuples `(-1.0, "ABC1")`, `(-2.0, "ABC2")` gives the records with scores 2.0 then 1.0 | list the most similar flight (lowest score) first | not executed; medium | Similarity.SerializeRoute, Similarity.SerializeRouteDescending, Similarity.SerializeRouteWorstFirst | Similarity.SerializeAscending, Similarity.SerializeAscendingOrder |
