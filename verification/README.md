# Ship route planner core, in Dafny

This project models the route engine of a ship-navigation planner for the
waters around the Indian subcontinent. The engine is an A* search over a
4-pixel grid laid on a 550 x 600 pixel chart. A move goes to one of the eight
neighbouring cells. A cell is usable when it is sea, is not blocked, and is
deeper than 48 metres. The search orders its frontier by a score that blends:

- the path cost so far;
- the straight-line distance to the destination;
- a data-driven heuristic.

The blend depends on the vessel class (cargo, passenger or yacht) and on the
optimisation button pressed (fuel, speed or comfort). A move with the wind
or with the ocean current has its score discounted by 10% for each.

Grid cells and geographic degrees are converted by a linear calibration.
Degrees leaving the grid are snapped to quarter-degree lattices. Degrees
entering the grid are clamped to the calibrated footprint. User input passes
through a coordinate parser and a region validator. A legacy sanitizer is
also defined, although nothing in the program calls it.

Modules, one per file:

- `Rounding` (`rounding.dfy`): Python's `round`, ties to even, on exact reals.
- `CoordConv` (`coord_conv.dfy`): grid/degree conversion, lattice rounding
  and region tests.
- `ShipProfile` (`ship_profile.dfy`): vessel classes and their constants.
- `CoordinateValidator` (`coordinate_validator.dfy`): parsing, validation
  and sanitising of coordinate text.
- `Grid` (`grid.dfy`): grid dimensions and the eight moves.
- `Alignment` (`alignment.dfy`): the ±25° wind and current alignment test.
- `CostModel` (`cost_model.dfy`): the coefficient table and the score.
- `Providers` (`providers.dfy`): the external data sources, and caches of them.
- `Neighbors` (`neighbors.dfy`): the neighbour generator.
- `Search` (`search.dfy`): the A* loop and route reconstruction.
- `Wrappers` (`wrappers.dfy`): `Option` and `Result`.

External data are fields of an `Env` value: land pixels, blocked cells,
depth, wind, current, the heuristic table and `euclidean`. The source keeps
four module-level caches. They are maps threaded through the functions. A
cache is consistent when each entry equals what its provider gives.

## Model

| member | source | states |
|---|---|---|
| Rounding.Round | CoordConv.py:42 | `round(x)` is within one half of `x`, and a tie goes to the even neighbour |
| Rounding.RoundMonotone | CoordConv.py:73 | rounding never reverses the order of two values, which keeps `latitude_to_grid` monotone |
| Rounding.RoundTo3 | CoordConv.py:43 | `round(v, 3)` moves `v` by at most half a thousandth |
| Rounding.RoundTo3OfThousandths | CoordConv.py:43 | `round(v, 3)` leaves a value with three decimals unchanged, so the final rounding never moves a lattice point |
| CoordConv.GridToLatitude | CoordConv.py:35-43 | the latitude of a row is on the 0.25° lattice and within 0.125° of the row's calibrated latitude |
| CoordConv.GridToLongitude | CoordConv.py:46-55 | the longitude of a column is on the lattice 0.125° + k·0.25°, within 0.125° of the column's calibrated longitude |
| CoordConv.LatitudeToGrid | CoordConv.py:58-78 | the row is always in [9, 135]; a latitude north of 37.1° gives row 9 and south of 8.1° gives row 135; inside the footprint the row is within half a row of the latitude |
| CoordConv.LongitudeToGrid | CoordConv.py:81-101 | the column is always in [16, 121]; clamping takes west of 68.1167° to column 16 and east of 97.4167° to column 121; inside, the column is within half a column |
| CoordConv.RoundLatitude | CoordConv.py:104-109 | the result is on the 0.25° lattice and within 0.125° of the input |
| CoordConv.RoundLongitude | CoordConv.py:112-117 | the result is on the 0.125° + k·0.25° lattice and within 0.125° of the input |
| CoordConv.IsWithinGridBounds | CoordConv.py:120-134 | every point of the calibrated footprint (`is_within_grid_bounds`) is acceptable input in the sense of `is_within_input_bounds` (`IsWithinInputBounds`: 60..100 E, 0..40 N) |
| CoordConv.LatitudeLatticeFixed | CoordConv.py:104-109 | `round_latitude` fixes every lattice point |
| CoordConv.LongitudeLatticeFixed | CoordConv.py:112-117 | `round_longitude` fixes every lattice point |
| CoordConv.RoundLatitudeIdempotent | CoordConv.py:104-109 | rounding a latitude twice equals rounding it once, as the callers that re-round converted grid latitudes rely on |
| CoordConv.RoundLongitudeIdempotent | CoordConv.py:112-117 | rounding a longitude twice equals rounding it once |
| CoordConv.LatitudeToGridMonotone | CoordConv.py:58-78 | a more northern latitude never gets a more southern row |
| CoordConv.LongitudeToGridMonotone | CoordConv.py:81-101 | a more eastern longitude never gets a more western column |
| CoordConv.LongitudeRoundTrip | CoordConv.py:46-101 | column → longitude → column returns the column for every column in [16, 121] |
| CoordConv.LatitudeRoundTripWithinOneRow | CoordConv.py:35-78 | row → latitude → row misses by at most one row for every row in [9, 135] |
| CoordConv.LatitudeRoundTripCounterexample | CoordConv.py:35-78 | the miss happens: row 10 becomes 36.75°, which converts back to row 11 |
| ShipProfile.ClassOf | ActualMain.py:84-91 | the cargo flag wins over the passenger flag, and a vessel with neither flag is a yacht |
| ShipProfile.GetSpeed | ActualMain.py:84-91 | the speed is the selected class's cruise speed, between 12 and 20 knots |
| ShipProfile.GetFuelRate | ActualMain.py:93-100 | the fuel rate is the selected class's rate, and it is positive |
| ShipProfile.GetComfort | ActualMain.py:102-109 | the comfort is the selected class's factor, on the 1..10 scale |
| ShipProfile.GetProfileName | ActualMain.py:111-118 | the display name maps back to the selected class |
| ShipProfile.NameIdentifiesClass | ActualMain.py:111-118 | the three display names are distinct, each naming its own class |
| ShipProfile.ProfilesOrdered | ActualMain.py:70-82 | from cargo to passenger to yacht, speed, fuel rate and comfort all strictly increase |
| CoordinateValidator.Strip | ActualMain.py:176-181 | `strip()` gives the empty text exactly for all-whitespace input, and otherwise text that neither starts nor ends with whitespace |
| CoordinateValidator.StripCut | ActualMain.py:176-181 | what `strip()` removes is whitespace at the two ends only: the result is a slice of the input with whitespace before and after it |
| CoordinateValidator.SouthOrWestLetters | ActualMain.py:181-188 | the coordinate is made negative (`IsSouthOrWest`) exactly when the input contains `S`, `s`, `W` or `w` anywhere |
| CoordinateValidator.CleanIsTrimmed | ActualMain.py:181-193 | stripping before upper-casing and marker removal only cuts whitespace the final strip would cut anyway |
| CoordinateValidator.CleanCoordinateText | ActualMain.py:181-193 | the text handed to `float` is the whole input upper-cased with every hemisphere letter and degree mark removed, trimmed of whitespace at both ends; it holds no marker and has no whitespace at either end |
| CoordinateValidator.ParseCoordinate | ActualMain.py:171-200 | blank text is exactly the empty-coordinate error; the parse succeeds exactly when the float parser accepts the cleaned text; a success is that value, negated exactly when an S or W is present; an invalid-format error carries the stripped, upper-cased input |
| CoordinateValidator.HemisphereSuffix | ActualMain.py:181-196 | a plain number with an N or E suffix parses to the number, and with an S or W suffix to its negation, in either case |
| CoordinateValidator.SameCleanTextSameParse | ActualMain.py:187-196 | two texts that clean to the same number parse alike, up to the sign their markers give |
| CoordinateValidator.ValidateCoordinates | ActualMain.py:203-235 | a pair is accepted exactly when it is in 60..100 E, 0..40 N; the longitude, latitude and swap errors each hold under the exact conditions the branch order gives |
| CoordinateValidator.SwapHintMissedAboveNinety | ActualMain.py:212-229 | (20, 95) is refused as an out-of-range latitude although (95, 20) is accepted |
| CoordinateValidator.ValidateCoordinatesSwapFirst | ActualMain.py:223-229 | a swap is reported exactly when the pair is refused but the exchanged pair is accepted |
| CoordinateValidator.SwapDiagnosisIsRight | ActualMain.py:223-229 | after a swap diagnosis, the exchanged pair is accepted |
| CoordinateValidator.ValidatorsAgreeBelowNinety | ActualMain.py:209-235 | the two validators differ only when the latitude is above 90 |
| CoordinateValidator.FirstIndex | ActualMain.py:242 | the index is that of the first occurrence of the character |
| CoordinateValidator.KeepFirstDot | ActualMain.py:242-244 | the text up to and including the first decimal point is unchanged; with decimal points removed, the result equals the input with decimal points removed; exactly one point is left |
| CoordinateValidator.SanitizeCoordinateInput | ActualMain.py:238-249 | only digits, `.` and `-` remain; exactly one `.` remains when the input had any, and likewise one `-`; a repeated minus sign ends up in front; with neither sign repeated the result is the kept characters unchanged; with at most one minus sign, the kept characters up to their first `.` are unchanged and only later points are dropped; with a repeated minus sign, the digits in front of the `.` are exactly the digits in front of the input's first `.`; every digit survives in order |
| CoordinateValidator.SingleMinus | ActualMain.py:246-247 | the result starts with the one minus sign it holds, and with minus signs removed it equals the input with minus signs removed |
| CoordinateValidator.SanitizeDotPlace | ActualMain.py:240-247 | the placement of the kept decimal point, as stated for `SanitizeCoordinateInput`, follows from the three steps of the cleaning |
| CoordinateValidator.FilterSplitsAtDot | ActualMain.py:240 | keeping digits, points and minus signs keeps a point, and the digits in front of the first one |
| CoordinateValidator.SingleMinusSplits | ActualMain.py:246-247 | moving the minus sign to the front keeps the digits in front of the first point |
| Grid.OffsetBetween | ActualMain.py:948 | the offset between two cells leads from the first to the second |
| Grid.CellsInBounds | ActualMain.py:944-950 | the set holds exactly the cells with 0 ≤ x < `GRID_WIDTH // GRID_SIZE` and 0 ≤ y < `GRID_HEIGHT // GRID_SIZE`, that is 137 columns and 150 rows |
| Grid.DirectionsAreKingMoves | ActualMain.py:942 | the direction list holds exactly the eight one-step moves |
| Grid.DirectionsDistinct | ActualMain.py:942 | the eight directions are pairwise different |
| Alignment.MovementAngle | ActualMain.py:832 | the movement angle is a multiple of 45 in [0, 360), in the half-turn and quarter-turn that the signs of `dy` and `dx` select, as with `atan2` |
| Alignment.MovementAngleInjective | ActualMain.py:832 | different directions have different movement angles |
| Alignment.Mod360 | ActualMain.py:834-835 | Python's `% 360` on a float lies in [0, 360) and differs from its argument by whole turns |
| Alignment.Mod360Unique | ActualMain.py:834-835 | any value in [0, 360) that differs from `x` by whole turns is `x % 360` |
| Alignment.CircularDistance | ActualMain.py:834-838 | the short way round between two directions is between 0 and 180 degrees |
| Alignment.AlignedIffWithinArc | ActualMain.py:834-839 | the lower/upper bound test as written (`IsAligned`), with its wrap-around branch, holds exactly when the movement angle is within 25° of the direction |
| Alignment.AlignedAroundTen | ActualMain.py:834-839 | with a direction of 10°, the aligned angles are 345 through 35, wrapping past 0 |
| Neighbors.IsAlignedWithWind | ActualMain.py:818-840 | the wind is read through its cache and the cell is cached; with a consistent cache, the result is the alignment test against the wind sampled at the cell |
| Neighbors.IsAlignedWithCurrent | ActualMain.py:843-865 | the same for the ocean current and its cache |
| Providers.SampleSiteIsGridPoint | ActualMain.py:825-826 | a cell's data are sampled at its grid coordinates converted to degrees, on the lattices |
| Providers.NoCachesAgree | ActualMain.py:812-815 | the empty caches the program starts with are consistent |
| Providers.Memo | ActualMain.py:873-883 | a miss stores the fetched value under the key; a hit returns the stored value; other entries are unchanged |
| Providers.LookupWind | ActualMain.py:819-830 | only the wind cache changes, and it gains the cell; a consistent cache stays consistent and returns the provider's wind |
| Providers.LookupCurrent | ActualMain.py:844-855 | only the current cache changes, and it gains the cell; a consistent cache stays consistent and returns the provider's current |
| Providers.LookupHeuristic | ActualMain.py:872-884 | only the heuristic cache changes, and it gains the cell; a consistent cache stays consistent and returns the provider's heuristic at the cell's sampling site |
| Providers.LookupDepth | ActualMain.py:951-953 | only the depth cache changes, and it gains the cell; a consistent cache stays consistent and returns the provider's depth |
| CostModel.SelectedWeighting | ActualMain.py:900-926 | the optimisation in force is the first pressed button, or none |
| CostModel.SelectBlend | ActualMain.py:899-927 | a pressed button fixes the coefficients whatever the vessel; the plain `g + distance` score is used exactly for a yacht with no button pressed |
| CostModel.SelectBlendIsTable | ActualMain.py:899-927 | the nested branches equal the coefficient table indexed by optimisation and vessel class |
| CostModel.CargoFlagWins | ActualMain.py:899-909 | when the cargo flag is set, the passenger flag has no effect on the score |
| CostModel.FScore | ActualMain.py:929-934 | an aligned wind and an aligned current each multiply the score by 0.9 |
| CostModel.AlignmentNeverRaises | ActualMain.py:929-934 | for a non-negative base score, alignment never raises the score |
| CostModel.TableWeighsPathCost | ActualMain.py:899-927 | every coefficient row gives the path cost a positive weight |
| CostModel.FScoreIncreasingInG | ActualMain.py:899-934 | with a positive path-cost weight, a larger path cost gives a strictly larger score |
| Neighbors.DirectionIndex | ActualMain.py:942 | the index is the direction's position in the direction list |
| Neighbors.CandidateDirection | ActualMain.py:947-961 | a cell that direction `i` contributes is a legal move in that direction |
| Neighbors.NeighborCellsSound | ActualMain.py:947-961 | every listed cell is a legal move: one step, on the chart, not land, not blocked, deeper than 48 m |
| Neighbors.NeighborCellsComplete | ActualMain.py:947-961 | every legal move is listed |
| Neighbors.NeighborCellsExact | ActualMain.py:940-963 | a cell is listed exactly when it is a legal move from the position (`Step`: one of the eight directions, on the chart, and `Navigable`, the test of line 958) |
| Neighbors.NeighborCellsBounded | ActualMain.py:947-961 | at most one cell per direction is listed |
| Neighbors.NeighborCellsOrdered | ActualMain.py:942-961 | cells are listed in the order of the direction list |
| Neighbors.AlignmentFlags | ActualMain.py:959-961 | a kept cell gets the wind and current flags of the move into it, through the caches |
| Neighbors.NavigableThroughCache | ActualMain.py:951-958 | with consistent caches, the cached depth test agrees with the navigability of the cell |
| Neighbors.VisitDirection | ActualMain.py:947-961 | one direction adds the reference cell for that direction, if any, with its flags, and caches the depth of an on-chart cell |
| Neighbors.GetNeighbors | ActualMain.py:940-963 | with consistent caches, the list is exactly the legal moves in direction order, each with its wind and current flags; every on-chart candidate's depth is cached, and the heuristic cache is untouched |
| Search.PopMin | ActualMain.py:1011 | the entry taken is least by score, ties broken by insertion counter |
| Search.LeastEntryUnique | ActualMain.py:1011 | with distinct counters the least entry is unique, so the pop order is determined |
| Search.Without | ActualMain.py:1011 | removing the popped entry keeps the others in order |
| Search.WithoutKeepsOthers | ActualMain.py:1011 | every other queued cell stays queued |
| Search.WithoutKeepsOrder | ActualMain.py:1011 | the counters of the remaining entries still increase |
| Search.ScoreMove | ActualMain.py:1093-1097 | with a consistent heuristic cache, the tentative score is `calculate_fscore` of the tentative cost; only the heuristic cache changes; the weighted blend leaves the neighbour's heuristic cached, the plain one leaves the caches as they were |
| Search.Relax | ActualMain.py:1088-1104 | a closed neighbour is skipped; the queue gains an entry exactly when the neighbour is not closed and has no cost or a higher one than the cost through the current cell; the cost of every other cell is unchanged and no cost rises; only the neighbour's predecessor changes, to the current cell; an update queues one entry with the next counter and the new score, and records the current cell as the neighbour's predecessor |
| Search.PushKeepsQueue | ActualMain.py:1099-1104 | queueing with the next counter (`Push`) keeps the queue well formed |
| Search.PushKeepsCosts | ActualMain.py:1099-1101 | setting a predecessor and a cost together keeps each cell's cost equal to its predecessor's plus the move's length |
| Search.PushKeepsTree | ActualMain.py:1099-1101 | a predecessor set during relaxation is a closed cell one legal move away |
| Search.PushKeepsRecord | ActualMain.py:1099-1101 | relaxing an open neighbour keeps each predecessor explored before its cell |
| Search.PushKeepsFrontier | ActualMain.py:1099-1104 | every cell with a cost that is not closed stays queued |
| Search.CachesOnlyKeepStructure | ActualMain.py:812-815 | replacing consistent caches by other consistent caches leaves the search invariants intact |
| Search.NeighborList | ActualMain.py:1087 | the expanded cells are legal moves, every legal move is among them, and the caches stay consistent |
| Search.KeysGrow | ActualMain.py:1088-1104 | every neighbour relaxed so far has a cost |
| Search.RelaxNeighbor | ActualMain.py:1088-1104 | relaxing one neighbour keeps the search invariants, gives the neighbour a cost and leaves the costs of closed cells unchanged |
| Search.Expand | ActualMain.py:1087-1104 | after the neighbour loop the invariants hold with no cell left to expand: every legal move out of a closed cell has a cost; closed cells keep their costs |
| Search.PoppedKeepsQueue | ActualMain.py:1011 | popping keeps the queue well formed |
| Search.PoppedKeepsFrontier | ActualMain.py:1011-1016 | a popped cell that gets closed leaves every other open cell queued |
| Search.SkipKeepsStructure | ActualMain.py:1013-1014 | skipping a popped cell that is already closed keeps the invariants |
| Search.ClosedKeepsRecord | ActualMain.py:1016-1017 | closing a cell appends it to the exploration record once |
| Search.FirstPopIsStart | ActualMain.py:989-1011 | the first cell popped is the start |
| Search.CloseKeepsStructure | ActualMain.py:1011-1017 | closing a popped open cell keeps the invariants, with only that cell left to expand |
| Search.CloseShrinks | ActualMain.py:1016 | closing a new cell shrinks the set of cells still to close |
| Search.ChainIsWalk | ActualMain.py:1022-1027 | following predecessors gives a walk of legal moves |
| Search.ChainCosts | ActualMain.py:1022-1027 | along a chain of predecessors from the start, every cell has a cost and each move adds its length |
| Search.CostsAddUp | ActualMain.py:1092-1101 | costs that grow by each move's length add up: the last cell's cost is the first's plus the walk's length |
| Search.BacktrackStep | ActualMain.py:1022-1025 | a predecessor was explored before its successor, so following it extends the chain and strictly decreases the position in the record |
| Search.BacktrackDone | ActualMain.py:1022-1027 | the cell without a predecessor is the start, and the chain from it is a walk through explored cells with consistent costs |
| Search.ReconstructPath | ActualMain.py:1022-1027 | the rebuilt path runs from the start to the target by legal moves, through explored cells, and each cell's cost is the previous cell's plus the move's length |
| Search.WalkStaysInside | ActualMain.py:1087-1104 | a walk that starts in a set closed under legal moves ends in it |
| Search.EmptyQueueCloses | ActualMain.py:1010 | once the queue is empty, the start is closed and every legal move from a closed cell leads to a closed cell |
| Search.ExhaustedSearchCoversWalks | ActualMain.py:1010-1108 | once the queue is empty, every walk from the start ends in an explored cell |
| Search.InitialStructure | ActualMain.py:987-997 | the initial queue, with the start under counter 0 and cost 0, satisfies the invariants |
| Search.Universe | ActualMain.py:944-950 | the cells the search may close are the chart's cells and the start |
| Search.SearchStep | ActualMain.py:1010-1104 | one pass closes a new cell or shortens the queue; the costs of closed cells never change; it stops after closing the destination with the predecessor tree and its costs intact, and otherwise keeps the invariants |
| Search.RecordFacts | ActualMain.py:1016-1017 | the record starts at the start, lists each cell once and stays on the chart |
| Search.FoundRoute | ActualMain.py:1021-1068 | the returned path is a walk from start to destination through explored cells, and the destination is the last cell explored; the cost table gives the start 0, adds each move's length along the path, and gives the destination the path's length |
| Search.NoRouteResult | ActualMain.py:1106-1108 | with an empty queue, every walk from the start ends in an explored cell other than the destination, and every cell with a cost was explored |
| Search.AStar | ActualMain.py:976-1108 | the search terminates; a found path is a walk of legal moves from start to destination through explored cells, whose `g_score` entries start at 0 and add each move's length, so the destination's cost is the path's length; "no path" means no walk from the start reaches the destination; the record lists each explored cell once, from the start |

## Left out

- Drawing, the progress bar, logging, timing, the ETA and cost panels and
  the performance counters in `a_star` and its helpers are not modelled.
  They do not affect which path is found.
- `max_nodes` in `a_star` only scales the progress bar, so it is not modelled.
  The search has no node limit.
- The `f_score` dictionary in `a_star` is only read back for the value just
  written into it (line 1103), so it is not modelled. Queue entries carry
  the score.
- `euclidean` is the `distance` field of `Env`, because `math.sqrt` on floats
  is not modelled.
- `is_black_pixel`, `blocks`, `retrieve_depth` and the wind, current and
  heuristic retrievers are fields of `Env`. They read the screen, files and
  web services.
- Floats are exact reals. Rounding error in the calibration constants and in
  `0.9 * f` is not modelled.
- `float(...)` in `parse_coordinate` is a parameter `parseFloat`. Python's
  float syntax is not modelled.
- `str.strip` removes exactly the characters `str.isspace` accepts. `str.upper`
  and `str.isdigit` are taken on ASCII: Python's Unicode case and digit
  tables are not modelled.
- Alignment.MovementAngle: is defined only for the eight grid directions,
  which are the only offsets `get_neighbors` passes. `atan2` in general is
  not modelled.
- Search.AStar: requires the caches to be consistent with the providers.
  The program's caches start empty and only ever store fetched values.
- Search.ReconstructPath: builds the path by prepending each predecessor,
  not by appending and then reversing. The resulting sequence is the same.
- Search.AStar: does not state that a found path is cheapest. With weighted
  scores and alignment discounts, the source's search does not promise that.
- CoordConv.LatitudeRoundTripWithinOneRow: the source's grid↔degree round
  trip is exact for columns only; rows are narrower than the quarter-degree
  lattice, so row 10 maps back to row 11.
- The warnings `latitude_to_grid` and `longitude_to_grid` print when they
  clamp (CoordConv.py:65,68,88,91) are output only. The clamped value is
  modelled.
- `validate_coordinates` returns a message string. The model returns a
  `Verdict` that names which branch was taken (ActualMain.py:211-233); the
  text of the messages is not modelled.
- `sanitize_coordinate_input` has no caller in the program; it is modelled
  as defined.
- The heuristic retriever takes its arguments as (latitude, longitude) while
  the others take (longitude, latitude). In the model every provider takes a
  `GeoPoint`, so the order does not matter.

## Findings

| source | as written | input that shows it | evidently intended | confidence | as-written member | corrected member |
|---|---|---|---|---|---|---|
| ActualMain.py:212-229 | the latitude range check rejects a latitude above 90 before the swap test runs, so the swap hint's range 60..100 for a latitude is only reached up to 90 | longitude 20, latitude 95 is reported as an out-of-range latitude, yet (95, 20) is accepted (lemma `SwapHintMissedAboveNinety`) | report a possible swap for every pair whose exchange is accepted, including latitudes in (90, 100] | medium, not executed | CoordinateValidator.ValidateCoordinates | CoordinateValidator.ValidateCoordinatesSwapFirst |
