# Fast-Boids spatial grid, modelled in Dafny

`BoidParallelSimulator` moves flocks of boids split into teams. Per-boid
buffers hold each boid's position, velocity, team and stored grid cell.
A spatial hash grid, `cells`, is a `NativeMultiHashMap<int, int>`. It maps
a composite key `cellIndex + cellsCount * teamIndex` to the indices of the
boids listed in that cell for that team. A step of the simulation runs four
jobs in sequence:

1. `CellsUpdateIndexesJob` predicts each boid's next cell. When that cell
   differs from the stored one, it moves the boid's grid entry to the new
   key.
2. `CellsCacheVelocityJob` averages the positions and the velocities of
   every key's members.
3. `BoidsCacheAvoidenceJob` sums, for every boid, the pushes away from the
   members of its own bucket that are within `avoidanceRange`.
4. `BoidsMoveJob` integrates the forces. It is not part of this model.

The Dafny project follows that structure, one module per concern:

- `geometry.dfy` (`Geometry`): float3 and int3 values, the C# int cast and
  `math.clamp`, and both `GetCellIndex` overloads. It also holds
  `GetCell3DIndexes` and the composite key. Both directions of
  flattening are proved, and so are range and injectivity.
- `multimap.dfy` (`MultiMap`): the hash map, a `class` whose `entries` are a
  `map<int, seq<int>>`. Each key's values are kept in iteration order,
  newest first. `Remove(key, value)` drops every matching pair.
- `reindex.dfy` (`Reindex`): `CellsUpdateIndexesJob` as two methods that
  change the shared map and the `boidsCellIndexes` array in place:
  `Execute()` is `UpdateCellIndexes` and `Execute(i)` is
  `UpdateCellIndex`. Both are proved against value-level functions
  (`ReindexBoid`, `ReindexAll`), and the grid invariants are proved about
  those functions. The module also holds the as-written and the corrected
  start of the grid (see Findings).
- `aggregation.dfy` (`Aggregation`): `CellsCacheVelocityJob` as a loop per
  key (`AverageBucket`) inside a loop over keys (`CacheCellAverages`).
- `avoidance.dfy` (`Avoidance`): `BoidsCacheAvoidenceJob` and `GetStep`, in
  the same two-loop shape. They are proved against a reference definition,
  the set of boids that push `i`.
- `simulator.dfy` (`Simulator`): the `BoidParallelSimulator` class.
  - `StartSimulation` and `StopSimulation` allocate and dispose the
    simulator's buffers. Disposing a buffer that is not created is an
    error, so the stop disposes each buffer behind its `IsCreated` guard.
  - `InitBoids` and `InitCells` fill the buffers and size the grid.
  - `StepSimulation` runs the first three jobs over the simulator's own
    buffers, which is how `InitJobs` wires the jobs.
  - A started simulator keeps the invariant `Running()`: every buffer is
    sized as `InitBoids` and `InitCells` size it, and the grid is
    consistent with the stored cells and teams. As the source starts it,
    the grid is empty; a step keeps a grid that lists every boid in that
    state.

Modelling choices:

- float and float3 are exact reals. `(int)f` is `Truncate`, which rounds
  toward zero. C#'s `/` and `%` on ints are `CsDiv` and `CsRem`, which also
  truncate.
- The two places where the source divides 0 by 0 are values of their own:
  `Average.NaN` for an empty bucket, and `AvoidanceVelocity.NaN` for a
  neighbour at exactly the same position. A NaN absorbs every later
  addition, as it does in floats.
- A push `d / |d|` is kept as its offset `d`, because exact reals have no
  square root. The direction of every push is therefore exact, and which
  boids push is exact too.
- A `NativeArray` that is not created is a `null` array. A map that is not
  created is a `null` reference.
- `UnityEngine.Random` draws are parameters of `StartSimulation`: spawn
  positions, directions on the unit sphere, and team indices.
- The parallel jobs run as sequential loops. Each iteration `Execute(i)`
  writes only slot `i`.

The source's behaviour on these edges:

- `StartSimulation` does not check the boid count or the team list.
- An empty bucket's averages are NaN, not zero.
- A coincident neighbour makes the avoidance NaN, not zero.
- The cell of a position uses truncation rather than floor. After the clamp
  to `[0, limit - 1]` the two give the same cell.

## Model

Source paths are relative to the repository root.

| member | source | states |
|---|---|---|
| Geometry.Truncate | Assets/Boids/Scripts/BoidParallelSimulator.cs:193-195 | `(int)f` rounds toward zero: for `f >= 0` the result `t` satisfies `0 <= t <= f < t + 1`; for `f < 0` it satisfies `t - 1 < f <= t <= 0` |
| Geometry.AxisQuotients | Assets/Boids/Scripts/BoidParallelSimulator.cs:189-195 | the per-axis quotients `(int)((pos + worldHalfSize) / cellSize)` of `GetCellIndex(float3)`, before the clamp; `CellIndexOfInRange` states the range of what follows |
| Geometry.Clamp | Assets/Boids/Scripts/BoidParallelSimulator.cs:193-195 | `math.clamp(v, lo, hi)`: a value below `lo` gives `lo`, a value above `hi` gives `hi` when `lo <= hi`, a value inside `[lo, hi]` is unchanged, and `lo` wins when `hi < lo` |
| Geometry.ClampToGrid | Assets/Boids/Scripts/BoidParallelSimulator.cs:193-195 | with every axis limit at least 1, each axis goes to the nearest cell of `0 .. limit - 1` (`NearestOnAxis`): below 0 to 0, past the limit to `limit - 1`, inside unchanged; the result lies inside the grid |
| Geometry.CellIndexOfQuotients | Assets/Boids/Scripts/BoidParallelSimulator.cs:191-196 | the clamped triple flattened; `CellIndexOfQuotientsInRange` states that it lies in `[0, cellsCount)` and equals the plain flat index inside the grid |
| Geometry.CellIndexOf | Assets/Boids/Scripts/BoidParallelSimulator.cs:187-197 | `GetCellIndex(float3 pos)`, the quotients clamped and flattened; `CellIndexOfInRange` states its range for every position |
| Geometry.Flatten | Assets/Boids/Scripts/BoidParallelSimulator.cs:199-202 | `GetCellIndex(x, y, z)`, `z * X * Y + y * X + x`; `FlattenInRange` and `Cell3DIndexesOfFlatten` state its range and its inverse |
| Geometry.Cell3DIndexes | Assets/Boids/Scripts/BoidParallelSimulator.cs:577-584 | `GetCell3DIndexes` by truncating `/` and `%`; `FlattenOfCell3DIndexes` states that it inverts the flattening |
| Geometry.Key | Assets/Boids/Scripts/BoidParallelSimulator.cs:178-179 | the composite key `cell + cellsCount * team`; `KeyInRange`, `KeyDecompose` and `KeyInjective` state its range, its inverse and that distinct pairs get distinct keys |
| Geometry.CsDiv | Assets/Boids/Scripts/BoidParallelSimulator.cs:579-581 | C#'s `/`, truncating toward zero; `CsDivModNonNegative` states that it agrees with Euclidean division on non-negative dividends |
| Geometry.CsRem | Assets/Boids/Scripts/BoidParallelSimulator.cs:582 | C#'s `%`, `a - b * (a / b)`; `CsDivModNonNegative` states that it agrees with the Euclidean remainder on non-negative dividends |
| Geometry.CsDivModNonNegative | Assets/Boids/Scripts/BoidParallelSimulator.cs:579-582 | on a non-negative dividend and a positive divisor, C#'s truncating `/` and `%` agree with Euclidean division |
| Geometry.CellsCount | Assets/Boids/Scripts/BoidParallelSimulator.cs:356 | `X * Y * Z`; `CellsCountPositive` states that it is at least 1 on a valid grid, and `FlattenInRange` that every cell of the grid indexes below it |
| Geometry.CellsCountPositive | Assets/Boids/Scripts/BoidParallelSimulator.cs:356 | a grid with at least one cell per axis has `cellsCount >= 1` |
| Geometry.FlattenInRange | Assets/Boids/Scripts/BoidParallelSimulator.cs:199-202 | `GetCellIndex(x, y, z)` of a cell inside the grid lies in `[0, cellsCount)` |
| Geometry.Cell3DIndexesOfFlatten | Assets/Boids/Scripts/BoidParallelSimulator.cs:577-584 | `GetCell3DIndexes` recovers `(x, y, z)` from `GetCellIndex(x, y, z)` for every cell inside the grid |
| Geometry.FlattenOfCell3DIndexes | Assets/Boids/Scripts/BoidParallelSimulator.cs:577-584 | for every index in `[0, cellsCount)`, `GetCell3DIndexes` gives a cell inside the grid that flattens back to that index |
| Geometry.CellIndexOfQuotientsInRange | Assets/Boids/Scripts/BoidParallelSimulator.cs:191-196 | any triple of per-axis quotients, negative or past the limits, maps into `[0, cellsCount)`; a triple inside the grid maps to its plain flat index |
| Geometry.CellIndexOfInRange | Assets/Boids/Scripts/BoidParallelSimulator.cs:187-197 | `GetCellIndex(pos)` gives a valid cell index for every position, including positions outside the world box |
| Geometry.KeyInRange | Assets/Boids/Scripts/BoidParallelSimulator.cs:358-360 | the key of an in-range cell and team lies in `[0, cellsCount * teamsCount)`, the size allocated for the grid and both caches |
| Geometry.KeyDecompose | Assets/Boids/Scripts/BoidParallelSimulator.cs:178-179 | a composite key divided by `cellsCount` gives back its team, and the remainder gives back its cell |
| Geometry.KeyInjective | Assets/Boids/Scripts/BoidParallelSimulator.cs:39 | distinct (cell, team) pairs have distinct keys, so boids of different teams never share a bucket |
| MultiMap.Values | Assets/Boids/Scripts/BoidParallelSimulator.cs:230-240 | the values the `TryGetFirstValue` / `TryGetNextValue` walk visits under a key, in order, none for an absent key; `AverageBucket` and `AvoidanceFor` state that the walks read exactly these |
| MultiMap.NativeMultiHashMap.constructor | Assets/Boids/Scripts/BoidParallelSimulator.cs:358 | a new map holds no pairs |
| MultiMap.NativeMultiHashMap.Add | Assets/Boids/Scripts/BoidParallelSimulator.cs:179 | `Add(key, value)` puts the value in front of the key's older values, and changes no other key |
| MultiMap.NativeMultiHashMap.Remove | Assets/Boids/Scripts/BoidParallelSimulator.cs:178 | `Remove(key, value)` drops every pair `(key, value)` and changes no other key; an absent pair is a no-op |
| MultiMap.AddPair | Assets/Boids/Scripts/BoidParallelSimulator.cs:179 | the map after one `Add`; `AddPairCounts` states that exactly one pair is added |
| MultiMap.RemovePair | Assets/Boids/Scripts/BoidParallelSimulator.cs:178 | the map after one `Remove`; `RemovePairCounts` states that every matching pair goes and nothing else changes |
| MultiMap.Without | Assets/Boids/Scripts/BoidParallelSimulator.cs:178 | after removal, a value is left under the key exactly when it was there and differs from the removed value |
| MultiMap.RemovePairCounts | Assets/Boids/Scripts/BoidParallelSimulator.cs:178 | `Remove(key, value)` sets the count of `value` under `key` to 0 and leaves every other count under every key alone |
| MultiMap.AddPairCounts | Assets/Boids/Scripts/BoidParallelSimulator.cs:179 | `Add(key, value)` adds exactly one copy of `value` under `key` and changes no other count |
| MultiMap.WithoutAtMostOnce | Assets/Boids/Scripts/BoidParallelSimulator.cs:178 | removing a value keeps a bucket free of duplicates |
| Reindex.ReindexBoid | Assets/Boids/Scripts/BoidParallelSimulator.cs:169-185 | re-indexing boid `i` changes only `i`'s stored cell, which becomes the predicted cell |
| Reindex.Predicted | Assets/Boids/Scripts/BoidParallelSimulator.cs:174 | the predicted cell of every boid, `GetCellIndex(position + velocity * dt)`, one per boid; `PredictedInRange` states its range |
| Reindex.ReindexPrefix | Assets/Boids/Scripts/BoidParallelSimulator.cs:164-167 | the first `j` iterations of the job in index order, keeping one stored cell per boid; `ReindexPrefixCells` and `ReindexPrefixConsistent` state what they leave |
| Reindex.ReindexAll | Assets/Boids/Scripts/BoidParallelSimulator.cs:164-167 | the whole job, every boid in index order; `ReindexAllCells`, `ReindexAllConsistent` and `ReindexAllComplete` state what it leaves |
| Reindex.UpdateCellIndex | Assets/Boids/Scripts/BoidParallelSimulator.cs:169-185 | `Execute(boidIndex)` leaves the map and the stored cells exactly as `ReindexBoid` computes them from the old ones; it writes nothing but the map and `boidsCellIndexes` |
| Reindex.UpdateCellIndexes | Assets/Boids/Scripts/BoidParallelSimulator.cs:164-167 | `Execute()` leaves the map and the stored cells as `ReindexAll` computes them, with every stored cell equal to the boid's predicted cell; teams, positions and velocities are never written |
| Reindex.PredictedInRange | Assets/Boids/Scripts/BoidParallelSimulator.cs:174 | every predicted cell `GetCellIndex(position + velocity * dt)` lies in `[0, cellsCount)` |
| Reindex.ReindexBoidPairs | Assets/Boids/Scripts/BoidParallelSimulator.cs:176-184 | when the predicted cell is the stored cell nothing changes. Otherwise: the old and new keys differ, every `(oldKey, i)` pair is removed, exactly one `(newKey, i)` pair is added, only `i`'s stored cell changes, and every other key keeps its contents |
| Reindex.ReindexBoidOthers | Assets/Boids/Scripts/BoidParallelSimulator.cs:176-182 | re-indexing boid `i` never changes under which keys any other boid is listed |
| Reindex.ReindexBoidConsistent | Assets/Boids/Scripts/BoidParallelSimulator.cs:169-185 | one iteration keeps the grid consistent: only boid indices, each at most once, each under the key of its stored cell and team. Boid `i` is present afterwards exactly when it was present or it moved, and every other boid's presence is unchanged |
| Reindex.ReindexPrefixCells | Assets/Boids/Scripts/BoidParallelSimulator.cs:166 | after `j` iterations, boids below `j` store their predicted cells and the rest keep their old ones |
| Reindex.ReindexPrefixConsistent | Assets/Boids/Scripts/BoidParallelSimulator.cs:166 | the loop invariant: after `j` iterations the grid is consistent, and a visited boid is present exactly when it was present before or its cell changed |
| Reindex.ReindexAllCells | Assets/Boids/Scripts/BoidParallelSimulator.cs:164-167 | whatever the grid held, after the job every stored cell equals the boid's predicted cell |
| Reindex.ReindexAllConsistent | Assets/Boids/Scripts/BoidParallelSimulator.cs:164-185 | the whole job keeps a consistent grid consistent, leaves the predicted cells stored, and a boid is present afterwards exactly when it was present before or its cell changed |
| Reindex.ReindexAllComplete | Assets/Boids/Scripts/BoidParallelSimulator.cs:164-185 | a complete grid, which lists every boid, stays complete |
| Reindex.BucketSharesTeam | Assets/Boids/Scripts/BoidParallelSimulator.cs:39 | in a consistent grid with cells and teams in range, every boid listed under boid `i`'s key has `i`'s team and `i`'s cell |
| Reindex.InitialConsistent | Assets/Boids/Scripts/BoidParallelSimulator.cs:326-362 | the grid the source's start leaves, empty with every stored cell 0, is in range and consistent |
| Reindex.RunCells | Assets/Boids/Scripts/BoidParallelSimulator.cs:184 | after any number of ticks, every boid stores the cell the last tick predicted for it |
| Reindex.RunConsistent | Assets/Boids/Scripts/BoidParallelSimulator.cs:164-185 | any number of ticks keeps a consistent grid consistent |
| Reindex.RunFromInitial | Assets/Boids/Scripts/BoidParallelSimulator.cs:326-362 | from the source's start, a boid is in the grid after any number of ticks exactly when some tick predicted a cell other than 0 for it |
| Reindex.ChangedIffLeftZero | Assets/Boids/Scripts/BoidParallelSimulator.cs:176 | starting from cell 0, some tick predicted a non-zero cell for a boid exactly when the boid changed cell at some tick |
| Reindex.PresentIffChanged | Assets/Boids/Scripts/BoidParallelSimulator.cs:326-362 | as written, from the source's start a boid is in the grid exactly when it has changed cell at least once |
| Reindex.SeedGrid | Assets/Boids/Scripts/BoidParallelSimulator.cs:352-362 | the corrected start adds every boid, in index order, under the key of its stored cell and team |
| Reindex.SeededComplete | Assets/Boids/Scripts/BoidParallelSimulator.cs:326-362 | the corrected start's grid is complete: consistent, with every boid listed |
| Aggregation.AverageOf | Assets/Boids/Scripts/BoidParallelSimulator.cs:243-244 | a bucket's stored average is NaN exactly when the bucket is empty |
| Aggregation.SumOf | Assets/Boids/Scripts/BoidParallelSimulator.cs:230-240 | the sum of the members' vectors in iteration order; `SumOfPermutation` and `SumOfReadsMembers` state that it depends only on which boids are listed and on their vectors |
| Aggregation.AverageBucket | Assets/Boids/Scripts/BoidParallelSimulator.cs:223-245 | `Execute(cellIndex)`'s walk and count compute the sum of the bucket's members in iteration order, divided by the member count; an empty bucket gives NaN |
| Aggregation.CacheCellAverages | Assets/Boids/Scripts/BoidParallelSimulator.cs:223-245 | slot `k` of both caches gets the average position and velocity of the boids listed under key `k`; only the two caches are written |
| Aggregation.SumOfPermutation | Assets/Boids/Scripts/BoidParallelSimulator.cs:230-240 | the sum depends only on the bucket's members as a multiset, not on their iteration order |
| Aggregation.AverageOfPermutation | Assets/Boids/Scripts/BoidParallelSimulator.cs:243-244 | the stored average depends only on the bucket's members as a multiset |
| Aggregation.SumOfReadsMembers | Assets/Boids/Scripts/BoidParallelSimulator.cs:232-238 | a bucket's sum reads the vectors of its own members and of no other boid |
| Aggregation.AverageIsTeamLocal | Assets/Boids/Scripts/BoidParallelSimulator.cs:230-244 | in a consistent grid, the average in boid `i`'s bucket is the same for any two vector arrays that agree on the boids of `i`'s team |
| Aggregation.BucketIndexes | Assets/Boids/Scripts/BoidParallelSimulator.cs:232-238 | every bucket of a consistent grid lists boid indices only, so the reads of positions and velocities stay in bounds |
| Aggregation.CompleteAveragesDefined | Assets/Boids/Scripts/BoidParallelSimulator.cs:243-244 | in a complete grid, every boid's own bucket has a member, so its average is not NaN |
| Aggregation.LoneBoidInCellZeroReadsNaN | Assets/Boids/Scripts/BoidParallelSimulator.cs:326-362 | as written, a lone boid whose first predicted cell is 0 is not in the grid, and the average of its own bucket is NaN |
| Avoidance.StepOf | Assets/Boids/Scripts/BoidParallelSimulator.cs:54-68 | a push from `GetStep` is always along `self - other` |
| Geometry.LengthSq | Assets/Boids/Scripts/BoidParallelSimulator.cs:58 | `math.lengthsq`, the sum of the squared components; `StepAntisymmetric` states that swapping the two boids leaves the reach test unchanged |
| Avoidance.InReach | Assets/Boids/Scripts/BoidParallelSimulator.cs:62 | `tempDeltaSqr < avoidanceRange * avoidanceRange`; `StepInReach` states the step inside the range, and `ZeroOffsetInReach` that a zero offset, a coincident neighbour, is inside every positive range |
| Avoidance.StepInReach | Assets/Boids/Scripts/BoidParallelSimulator.cs:62-65 | within range, `GetStep` is NaN for a neighbour at the same position and a push along `self - other` otherwise |
| Avoidance.Accumulate | Assets/Boids/Scripts/BoidParallelSimulator.cs:42-47 | `step += GetStep(...)`, a NaN step or a NaN sum making the sum NaN; `AccumulateMatches` relates it to the reference definition |
| Avoidance.AvoidanceOf | Assets/Boids/Scripts/BoidParallelSimulator.cs:32-52 | the avoidance boid `i` computes from a bucket, skipping itself; `AvoidanceMatchesContributors` states it in terms of `Contributors` |
| Avoidance.StepAntisymmetric | Assets/Boids/Scripts/BoidParallelSimulator.cs:54-68 | `GetStep(a, b)` and `GetStep(b, a)` are both no step, both NaN, or opposite pushes |
| Avoidance.AvoidanceFor | Assets/Boids/Scripts/BoidParallelSimulator.cs:32-52 | `Execute(boidIndex)`'s walk of its bucket, skipping itself, accumulates exactly `AvoidanceOf` for that bucket |
| Avoidance.CacheAvoidance | Assets/Boids/Scripts/BoidParallelSimulator.cs:32-52 | slot `i` of the avoidance cache gets the avoidance of boid `i` from the bucket of its own stored cell and team; nothing else is written |
| Avoidance.Contributors | Assets/Boids/Scripts/BoidParallelSimulator.cs:39-48 | a boid pushes `i` exactly when it is listed in the bucket, is not `i`, and is closer than `avoidanceRange` |
| Avoidance.AvoidanceMatchesContributors | Assets/Boids/Scripts/BoidParallelSimulator.cs:39-51 | the avoidance is NaN exactly when a pushing boid sits at `i`'s position. Otherwise it is one push per pushing boid, in iteration order, away from that boid and from nobody else |
| Avoidance.AvoidanceOfSelfOnly | Assets/Boids/Scripts/BoidParallelSimulator.cs:41-47 | a bucket that lists only `i` itself gives no push at all |
| Avoidance.PairAvoidance | Assets/Boids/Scripts/BoidParallelSimulator.cs:39-48 | in a bucket of two boids, each boid is pushed by the other alone |
| Avoidance.PairAvoidanceOpposite | Assets/Boids/Scripts/BoidParallelSimulator.cs:54-68 | two boids sharing a bucket push each other apart symmetrically: opposite pushes, or NaN together, or no push |
| Avoidance.AvoidanceReadsMembers | Assets/Boids/Scripts/BoidParallelSimulator.cs:39-48 | boid `i`'s avoidance reads only the positions of `i` and of its bucket's members |
| Avoidance.OtherTeamNeverPushes | Assets/Boids/Scripts/BoidParallelSimulator.cs:39 | in a consistent grid, a boid of another team never pushes boid `i`, whatever its position, even one equal to `i`'s |
| Avoidance.AvoidanceIsTeamLocal | Assets/Boids/Scripts/BoidParallelSimulator.cs:32-52 | in a consistent grid, boid `i`'s avoidance is the same for any two position arrays that agree on `i`'s team |
| Avoidance.CoincidentNeighbourIsNaN | Assets/Boids/Scripts/BoidParallelSimulator.cs:62-64 | a same-bucket neighbour at exactly `i`'s position makes `i`'s avoidance NaN |
| Simulator.CellSizeFor | Assets/Boids/Scripts/BoidParallelSimulator.cs:355 | a positive world size over positive axis limits gives a positive cell size on every axis |
| Simulator.AxisLimits | Assets/Boids/Scripts/BoidParallelSimulator.cs:354 | `int3(worldSize / 3 * WORLD_CELL_DIVISION)`, truncating each axis; `DemoWorldLimits` exhibits the demo world |
| Simulator.ScaledStep | Assets/Boids/Scripts/BoidParallelSimulator.cs:431 | `dt * WORLD_TIME_SCALE`, the step every job of `StepSimulation` is given |
| Simulator.Launched | Assets/Boids/Scripts/BoidParallelSimulator.cs:346 | one initial velocity per spawn direction |
| Simulator.DemoWorldLimits | Assets/Boids/Scripts/BoidParallelSimulator.cs:354-356 | a 30 x 30 x 30 world at the default cell division 0.6 has 6 cells per axis, 216 in all |
| Simulator.SeededGridReady | Assets/Boids/Scripts/BoidParallelSimulator.cs:352-362 | the corrected start's grid, with every boid in cell 0, is in range and complete, and lists boid indices only |
| Simulator.SpawnBoids | Assets/Boids/Scripts/BoidParallelSimulator.cs:326-350 | new buffers with one slot per boid hold the drawn positions, the drawn directions times the initial speed, and the drawn teams; every stored cell is 0 and every cached avoidance is the zero push |
| Simulator.InitialGridReady | Assets/Boids/Scripts/BoidParallelSimulator.cs:326-362 | the grid `StartSimulation` leaves, empty with every boid in cell 0, is in range and consistent, so the simulator is running from its first step |
| Simulator.AllocateCells | Assets/Boids/Scripts/BoidParallelSimulator.cs:358-361 | new caches of `cellsCount * teamsCount` slots each, every slot holding the zero average, and a new removal map and a new grid, both empty |
| Simulator.Dispose | Assets/Boids/Scripts/BoidParallelSimulator.cs:451-463 | `NativeArray.Dispose` may only be called on a created array, and leaves it not created |
| Simulator.DisposeMap | Assets/Boids/Scripts/BoidParallelSimulator.cs:457 | `NativeMultiHashMap.Dispose` under the same rule |
| Simulator.DisposeIfCreated | Assets/Boids/Scripts/BoidParallelSimulator.cs:451-463 | `if (x.IsCreated) x.Dispose()`: safe on any array, created or not, which ends not created |
| Simulator.DisposeMapIfCreated | Assets/Boids/Scripts/BoidParallelSimulator.cs:457 | the same guarded disposal for the grid and the removal map |
| Simulator.NewArray | Assets/Boids/Scripts/BoidParallelSimulator.cs:313 | a new array holding a copy of the given teams |
| Simulator.BoidSimulator.constructor | Assets/Boids/Scripts/BoidParallelSimulator.cs:260-278 | a new simulator holds no buffers, the default parameters, cell division 0.6 and time scale 1 |
| Simulator.BoidSimulator.StopSimulation | Assets/Boids/Scripts/BoidParallelSimulator.cs:449-464 | from any state, including before any start and twice in a row, no buffer is left allocated; the parameters are untouched. Each buffer goes through `DisposeIfCreated`, so no buffer that is not created is disposed |
| Simulator.BoidSimulator.StartSimulation | Assets/Boids/Scripts/BoidParallelSimulator.cs:309-324 | stops first, so a second start is allowed. Afterwards the simulator is `Running`, all its buffers are new, and the world and boid count are the arguments. The boid buffers hold the draws, and the grid is `Initial`: no pairs, every stored cell 0. Every cache slot holds zero |
| Simulator.BoidSimulator.SetWorld | Assets/Boids/Scripts/BoidParallelSimulator.cs:313-319 | a new copy of the teams, the team count, the world size, half of it, and the boid count |
| Simulator.BoidSimulator.InitBoids | Assets/Boids/Scripts/BoidParallelSimulator.cs:326-350 | new boid buffers filled from the draws, every stored cell and every cached avoidance at its zero default |
| Simulator.BoidSimulator.InitCells | Assets/Boids/Scripts/BoidParallelSimulator.cs:352-362 | axis limits `(int)(worldSize / 3 * division)`, cell size `worldSize / limits`, and `cellsCount = X * Y * Z >= 1`. The caches get `cellsCount * teamsCount` slots each, all zero; the grid and the removal map are new and empty |
| Simulator.BoidSimulator.KeyFitsCaches | Assets/Boids/Scripts/BoidParallelSimulator.cs:115-119 | in a running simulator, whose stored cells and teams are in range, every boid's key addresses a slot of the per-key caches |
| Simulator.BoidSimulator.UpdateCells | Assets/Boids/Scripts/BoidParallelSimulator.cs:429-441 | the re-indexing job keeps the simulator running (the grid stays consistent), stores every boid's predicted cell, and leaves the grid as `ReindexAll` computes it; a grid that listed every boid still does |
| Simulator.BoidSimulator.StepSimulation | Assets/Boids/Scripts/BoidParallelSimulator.cs:424-447 | `dt` is scaled by the time scale and the simulator stays running. The stored cells become the predicted ones, and the grid is re-indexed (a complete grid stays complete). Every key's averages are cached, and every boid's avoidance is cached from its re-indexed bucket |

## Left out

- Avoidance.StepOf: its contract says only that a push points along `self - other`. The normalisation to unit length, `tempDelta / math.sqrt(tempDeltaSqr)`, is not modelled, because exact reals have no square root. The avoidance keeps the offsets of the pushes instead of their sum.
- Simulator.BoidSimulator.StepSimulation: covers the first three jobs only. `BoidsMoveJob` (lines 101-134) is float force integration with `math.normalize` and `math.sign` under Burst fast-math, and has no exact contract. Positions and velocities are therefore unchanged by a modelled step.
- Simulator.BoidSimulator.StartSimulation: requires at least one grid cell per axis (`WorldFits`) and every team draw in `[0, teams.Length)`, and the source checks neither. With a world under 5 units on an axis at division 0.6, `cellsCount` is 0 and the caches have no slots. With no teams, `Random.Range(0, 0)` gives team 0, which has no cache slot.
- Simulator.BoidSimulator.StartSimulation: requires `boidsCount >= 0`. With a negative count the source's `new NativeArray` throws; that error path is not modelled.
- Simulator.BoidSimulator.UpdateCells: requires `Running()`. Before `StartSimulation` or after `StopSimulation` the source's jobs hold default or disposed containers and the step throws; that error path is not modelled.
- Simulator.BoidSimulator.StepSimulation: requires `Running()`, for the same reason as `UpdateCells`; stepping a simulator that is not started is not modelled.
- Geometry.Truncate: casts of floats beyond the int range are not modelled.
- Integer overflow: keys, `cellsCount` and `cellsCount * teamsCount` are 32-bit ints in the source and unbounded here.
- Floating point: rounding, fast-math reassociation, and NaN or infinity other than the two 0 / 0 cases. `SumOfPermutation` holds for exact sums only.
- Random spawning: the draws are parameters. The source's ranges (positions in `[-h, h]` with `h = worldSize / 2 - 3`, velocities on the unit sphere) are not imposed.
- `InitJobs`: the jobs are not separate objects. `StepSimulation` passes the simulator's own buffers to each job, as `InitJobs` wires them.
- Job scheduling (lines 441-446): the jobs run one after the other, each as a sequential loop. Parallel iterations write disjoint slots, so the order of iterations inside a job does not matter.
- `DrawGUI`, `DrawGizmos`, `GetCellPosition` and `GetCellLocalPosition`: user interface and editor drawing. The sliders' writes to `sParams`, the cell division and the time scale are not modelled; only the constructor sets them.
- `viewRange`, the `dt` field of `BoidsCacheAvoidenceJob`, and the `Positions`, `Velocities` and `TeamIndexes` getters: never used by the modelled jobs.
- `cellsIndexesToRemove`: allocated and disposed with the other buffers but never read or written, so its contents are not modelled.
- `NativeMultiHashMap` capacity: the map is unbounded here. Its storage order is modelled as newest first.
- `BoidTeam`'s declaration is not part of this model. Its three fields are taken from their uses.

## Findings

| source | as written | input that shows it | evidently intended | confidence | as-written member | corrected member |
|---|---|---|---|---|---|---|
| Assets/Boids/Scripts/BoidParallelSimulator.cs:326-362 | `InitBoids` and `InitCells` create `cells` empty and leave every stored cell at 0. The re-indexing job adds a boid only when its predicted cell differs from its stored cell, so a boid enters the grid only once it has left cell 0. | One boid of team 0 whose predicted cell stays 0: it is never listed, its bucket is empty, and the averages it reads are 0 / 0. | Every boid is listed under the key of its stored cell and its team from the start, so the grid is complete. | not executed | Reindex.PresentIffChanged | Reindex.SeededComplete |

The simulator class models the start as written: `StartSimulation` leaves
the grid `Reindex.Initial`, and `Aggregation.LoneBoidInCellZeroReadsNaN`
exhibits the concrete case. The corrected start is the loop InitCells is
missing, `Reindex.SeedGrid`, which adds every boid under the key of its
stored cell and its team; `Reindex.SeededComplete` and
`Simulator.SeededGridReady` prove that it leaves a complete grid.
`Reindex.ReindexAllComplete`, and with it the `Complete(old) ==>
Complete(new)` clauses of `UpdateCells` and `StepSimulation`, keep such a
grid complete at every step, and `Aggregation.CompleteAveragesDefined` shows
that no boid then reads an empty bucket's NaN average.
