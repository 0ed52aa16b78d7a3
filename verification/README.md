# UWB tag position estimation, modelled in Dafny

This project models the position-estimation core of a UWB (ultra-wideband) tag dashboard.

Four anchors sit at the corners of a 40 cm × 40 cm field:

- anchor "1" at (0,0);
- anchor "2" at (W,0);
- anchor "3" at (W,H);
- anchor "4" at (0,H).

Each anchor reports its distance to the tag. The dashboard keeps the latest reading per anchor. On every new reading it:

1. re-solves for the tag position with `calculatePosition`;
2. smooths the position and an error metric with low-pass filters;
3. logs the raw fix and a distance snapshot in bounded histories.

Modules:

- `Field` (field.dfy): the field, the anchors, clamping and squared distances. The square root is a parameter of type `SquareRoot`. Lemmas that need exact roots assume `IsSqrt(sqrt)`.
- `Readings` (readings.dfy): readings, the latest-reading table, and JavaScript truthiness of a possibly-undefined distance (`Truthy`) as opposed to the `> 0` test (`Positive`). It also normalises an inserted database row into a reading.
- `Trilateration` (trilateration.dfy): `calculatePosition` as `Solve`, with these steps:
  - the valid-count gate;
  - the four pair formulas;
  - per-axis averaging;
  - the three-anchor fallback;
  - clamping;
  - the mean absolute residual.

  The file also holds its properties.
- `SolverFinding` (solver_finding.dfy): what the solver's anchor pairing does to exact data, and a corrected pairing with its exactness proof (see Findings).
- `Aggregator` (aggregator.dfy): the dashboard state and `handleNewReading` as the pure step `Ingest`, with the state invariant it keeps.

Every operation is a pure function of its arguments, so the solver and the ingest step are deterministic by construction. The clock and the square root are passed in as arguments.

Two behaviours of the code are worth noting:

- With distances for anchors 2, 3 and 4 only, the code does produce a fix. Its guards `r3 && r4` and `r2 && r4` both hold, so it does not return null. `Trilateration.FixIffThreePositive` proves that three positive distances always give a fix.
- A second identical reading does not in general leave the smoothed position where it is. The table does stay the same, so the solver returns the same fix (`Aggregator.RepeatedReadingSameFix`). The low-pass step still moves the position towards that fix unless the position already equals it (`Aggregator.NoDriftAtFixedPoint`).

## Model

| member | source | states |
|---|---|---|
| Field.Clamp | utils/trilateration.ts:72-73 | `max(lo, min(hi, v))` lies in [lo, hi]; it is `v` when `v` is already inside, `lo` below the range and `hi` above it |
| Readings.NormaliseDistance | App.tsx:69-75 | the distance is `distance_cm` when that is neither undefined nor null; else `distance` × 100 when `distance` is a number (null gives 0); else 0 |
| Readings.MetresAgreeWithCentimetres | App.tsx:69-75 | `distance_cm` wins whatever `distance` holds; a row carrying only `distance` in metres, or a null `distance_cm` beside it, gives the same distance as that many centimetres in `distance_cm` |
| Trilateration.CountPositive | utils/trilateration.ts:16 | the count of present, strictly positive distances is at most the number of slots; it is 0 exactly when none is positive, and full exactly when all are |
| Trilateration.Solve | utils/trilateration.ts:9-94 | a returned fix implies at least three positive distances; its position lies in [0,W]×[0,H] and its error is non-negative |
| Trilateration.FixIffThreePositive | utils/trilateration.ts:16-17 | a fix is returned if and only if at least three of anchors "1".."4" have a distance > 0 |
| Trilateration.XEstimates | utils/trilateration.ts:27-38 | there is an x estimate exactly when the guard of pair (1,2) or of pair (3,4) holds, and two exactly when all four distances are truthy |
| Trilateration.YEstimates | utils/trilateration.ts:41-53 | there is a y estimate exactly when the guard of pair (1,3) or of pair (2,4) holds, and two exactly when all four distances are truthy |
| Trilateration.RawFix | utils/trilateration.ts:55-69 | the unclamped fix exists exactly when both axes have a pair estimate, and then it is the per-axis mean of those estimates: the three-anchor fallback never decides the result |
| Trilateration.ThreePositiveGiveBothAxes | utils/trilateration.ts:30-58 | three positive distances always leave at least one x pair and one y pair whose guards hold |
| Trilateration.FallbackNeverFires | utils/trilateration.ts:58-69 | whenever the fallback's guard `r1 && r2 && r3` holds, both axes already have a pair estimate; the unclamped fix exists exactly when both axes do, so the fallback and its `return null` never decide the result |
| Trilateration.RawFixAveragesPairs | utils/trilateration.ts:30-60 | before clamping, x is the mean of the (1,2) and (3,4) pair formulas when both guards hold, and that pair's value when only one holds; y likewise with pairs (1,3) and (2,4) |
| Trilateration.FixIsClampedRawFix | utils/trilateration.ts:58-73 | with three positive distances there is a fix, and its position is the unclamped fix when that lies in the field; otherwise each axis that falls outside is pinned to the edge it crossed; in all cases x is `max(0, min(W, raw x))` and y is `max(0, min(H, raw y))` |
| Trilateration.ClampedEstimate | utils/trilateration.ts:72-93 | the estimate lies in the field, carries a non-negative error, and keeps an unclamped fix that already lies in the field |
| Trilateration.ResidualTerms | utils/trilateration.ts:80-89 | one non-negative residual term per anchor whose distance is strictly positive |
| Trilateration.MeanResidual | utils/trilateration.ts:77-91 | the mean absolute residual is never negative (`MeanResidualIsAverage` gives its value) |
| Trilateration.MeanResidualIsAverage | utils/trilateration.ts:77-91 | the mean residual is the sum of the per-anchor residuals (0 for anchors with no positive distance) over the valid count, and 0 when nothing is valid |
| Trilateration.ErrorIsMeanResidual | utils/trilateration.ts:77-93 | with three positive distances there is a fix, and its error is the mean of \|dist(fix, anchor) − distance\| at the returned clamped position, over exactly the anchors with a positive distance |
| Trilateration.EqualDistancesGiveCentre | utils/trilateration.ts:31-60 | four equal positive distances put the fix at (W/2, H/2), with zero error when that distance is the half-diagonal |
| Trilateration.OnlyAnchorDistancesMatter | utils/trilateration.ts:10-13 | two tables with the same distances for "1".."4" give the same result |
| Trilateration.ForeignKeyIgnored | utils/trilateration.ts:80-82 | storing a reading under any key other than "1".."4" leaves the result unchanged |
| Trilateration.NegativeDistanceFeedsPairsOnly | utils/trilateration.ts:16-53 | a negative distance on anchor 1 enters pairs (1,2) and (1,3) but is not counted as valid and contributes no residual |
| SolverFinding.AsWrittenPinsXToCentre | utils/trilateration.ts:35-38 | with exact distances from an interior point, the solver as written always reports x = W/2, so it misses every tag off the vertical centre line |
| SolverFinding.SolveCorrected | utils/trilateration.ts:9-94 | the corrected solver keeps the valid-count gate, clamping and residual of `Solve`: a fix implies three positive distances, lies in the field and has a non-negative error |
| SolverFinding.CorrectedFixIffThreePositive | utils/trilateration.ts:16-17 | the corrected solver answers on the same inputs as `Solve`: exactly when three distances are positive |
| SolverFinding.CorrectedRecoversExactFix | utils/trilateration.ts:27-53 | with the pairs that match the anchor table, exact distances from an interior point give back that point with zero error |
| Aggregator.SmoothAxis | App.tsx:128-137 | one position low-pass step lies between the previous value and the fix, and stays put when they agree |
| Aggregator.SmoothError | App.tsx:140 | one error low-pass step lies between the previous error and the fix's error, and stays put when they agree |
| Aggregator.SmoothingShrinksGap | App.tsx:128-140 | each step leaves 85% (position) or 90% (error) of the gap to the fix, so the gap never grows |
| Aggregator.KeepLast | App.tsx:144 | `slice(-n)` keeps min(length, n) elements, and they are the last ones of the input |
| Aggregator.PushCapped | App.tsx:142-145 | appending then keeping the last n grows the buffer by one up to n; the new element is last; the rest is the newest part of the old buffer |
| Aggregator.Snapshot | App.tsx:149-156 | a distance snapshot carries the ingest time (`SnapshotIsSolverInput` gives its distances) |
| Aggregator.SnapshotIsSolverInput | App.tsx:149-156 | a distance snapshot holds exactly the distances of "1".."4" the solver reads, absent ones as none |
| Aggregator.SmoothPosition | App.tsx:131-137 | the first fix is taken as is; a later one moves a position inside the field to a point still inside it; a fix equal to the position leaves it unchanged |
| Aggregator.Upsert | App.tsx:122 | the updated table holds the reading under its anchor id and leaves every other key and its entry unchanged |
| Aggregator.Ingest | App.tsx:120-162 | the table is updated last-write-wins; the distance history grows by one up to 50 and ends with the snapshot of the updated table, after the newest part of the old history |
| Aggregator.IngestPayload | App.tsx:64-85 | a database row ends up in the table under its anchor id as the normalised reading stamped with the receipt time |
| Aggregator.IngestWithoutFix | App.tsx:130-146 | when the updated table gives no fix, the smoothed position, the smoothed error and the position history are unchanged |
| Aggregator.IngestWithFix | App.tsx:130-145 | when the updated table gives a fix, a position exists afterwards, the first one is the raw fix itself, and the raw fix with the given time is logged last in a history of at most 100 whose earlier points are the newest of the old history |
| Aggregator.FilterStep | App.tsx:128-137 | with a fix and a previous position p, the new position is (p.x + 0.15·(fix.x − p.x), p.y + 0.15·(fix.y − p.y)) |
| Aggregator.ErrorFilterStep | App.tsx:140 | with a fix, whether or not there was a position before, the new error is e + 0.1·(fix.error − e) for the previous error e |
| Aggregator.FirstFixError | App.tsx:130-140 | from the initial no-position state with error 0, the first fix becomes the position as is, while the error only reaches a tenth of the fix's error |
| Aggregator.ErrorBetweenPreviousAndFix | App.tsx:140 | the new smoothed error lies between the previous smoothed error and the fix's error |
| Aggregator.NoDriftAtFixedPoint | App.tsx:131-137 | a fix equal to the current smoothed position leaves the position unchanged |
| Aggregator.RepeatedReadingSameFix | App.tsx:122-125 | ingesting the same reading again leaves the table unchanged, so the solver returns the same fix |
| Aggregator.InitialIsGood | App.tsx:16-21 | the initial state (empty table, no position, error 0, empty histories) satisfies the invariant |
| Aggregator.StepPreservesGood | App.tsx:120-162 | for any fix inside the field with a non-negative error, a step keeps the histories bounded, the error non-negative, and the position and every logged fix inside the field |
| Aggregator.IngestPreservesGood | App.tsx:120-162 | one ingest keeps the invariant |
| Aggregator.UpsertAll | App.tsx:122 | after upserting a batch in order no anchor has left the table, every anchor of the batch is in it, and the anchor of the batch's final reading holds that reading |
| Aggregator.UpsertAllLastWins | App.tsx:122 | after upserting a batch in order, every anchor of the batch holds its last reading in the batch, every other entry of the table keeps its reading, and no key appears that is in neither the table nor the batch |
| Aggregator.IngestAll | App.tsx:173 | a demo tick leaves the table as upserting the batch's readings in order does |
| Aggregator.IngestAllPreservesGood | App.tsx:173 | a demo tick, i.e. a batch of readings ingested in order, keeps the invariant |

## Left out

- The Supabase client, its channels and subscriptions, local storage and the API key: network I/O.
- The server-side `localization_results` position: it is only displayed and never enters the estimate.
- The demo-mode timer, mode switching and teardown. A demo tick is modelled as `Aggregator.IngestAll` over a batch.
- The mock reading generator: it depends on randomness and a module-level mutable angle.
- Rendering: the map, the charts, the anchor cards, and the "online" check that depends on the clock.
- CSV export: it depends on the DOM and on number-to-string formatting.
- IEEE-754 behaviour (NaN, infinities, rounding), `Number()` coercion of strings and `String()` coercion of the row's `anchor_id` (App.tsx:80): numbers are `real`, a row's `rssi` is taken as a number and its anchor id as a string.
- `Math.sqrt` is the parameter `sqrt`, because Dafny cannot define an exact real square root. The lemmas that need exact roots require `IsSqrt(sqrt)`.
- Date.now(): each ingest takes one time `now`. It is used for the raw-fix log and the distance snapshot, and `IngestPayload` also stamps the reading with it. The code reads the clock separately for each of these (App.tsx:83, 143, 151).
- Aggregator.IngestAll: the readings of one demo tick all share one `now`. The code calls `handleNewReading` once per reading, and each call reads the clock itself.
- Reading timestamps: readings are stamped with the receipt time and modelled as an `int` in milliseconds.
- React batching and StrictMode double invocation of state updaters: `handleNewReading` is one atomic step.
- Aggregator.KeepLast: requires a positive count, because `slice(-0)` keeps the whole array and the code only uses 100 and 50.
- Anchor labels and colours: display only.

## Findings

| source | as written | input that shows it | evidently intended | confidence | as-written member | corrected member |
|---|---|---|---|---|---|---|
| utils/trilateration.ts:35-38 | the second x pair uses `(r3² − r4² + W²)/(2W)`, which holds only for anchor 3 at (0,H) and anchor 4 at (W,H). The anchor table (constants.ts:27,33) places 3 at (W,H) and 4 at (0,H), so this pair yields W − x, and averaging it with pair (1,2) pins x to W/2 | tag at (10,20) with exact distances r1 = √500, r2 = √1300, r3 = √1300, r4 = √500: the solver reports (20,20) instead of (10,20) | take x from pairs (1,2) and (4,3), and y from pairs (1,4) and (2,3), i.e. the pairs that share an edge in the anchor table | not executed | SolverFinding.AsWrittenPinsXToCentre | SolverFinding.CorrectedRecoversExactFix |

The y pairs (1,3) and (2,4) are diagonal in the anchor table. Their errors are opposite, ±W(2x − W)/(2H), so they cancel in the mean for any field size (`SolverFinding.DiagonalPairsAverageToY`). The dashboard model (`Aggregator.Ingest`) keeps the solver as written, so it models the deployed behaviour. The corrected solver `SolverFinding.SolveCorrected` stands beside it.
