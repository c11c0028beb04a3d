// BoidParallelSimulator: the buffers the simulator allocates on start and
// disposes on stop, and the three grid passes of a step, run one after the
// other over the simulator's own buffers. A NativeArray that is not created
// is a null array, and a NativeMultiHashMap that is not created is a null
// reference.
module Simulator {
  import opened Geometry
  import opened MultiMap
  import opened Reindex
  import opened Aggregation
  import Avoidance

  /** A team's physical constants (acceleration, drag, and a visual size). */
  datatype BoidTeam = BoidTeam(acceleration: real, drag: real, size: real)

  /** BoidSimulatorParams. */
  datatype Params = Params(initialVelocity: real, matchVelocityRate: real, avoidanceRange: real,
                           avoidanceRate: real, coherenceRate: real, viewRange: real)

  /** The simulator's initial sParams. */
  const DefaultParams := Params(2.0, 4.0, 2.0, 5.0, 2.0, 3.0)

  /** InitCells: cellsAxesLimits = int3(worldSize / 3 * WORLD_CELL_DIVISION), each axis truncated. */
  function AxisLimits(worldSize: Vec3, cellDivision: real): Int3
  {
    Int3(Truncate(worldSize.x / 3.0 * cellDivision),
         Truncate(worldSize.y / 3.0 * cellDivision),
         Truncate(worldSize.z / 3.0 * cellDivision))
  }

  /** StepSimulation's time step: dt scaled by the world's time scale. */
  function ScaledStep(dt: real, timeScale: real): real
  {
    dt * timeScale
  }

  /** A world InitCells can divide: positive extent and at least one cell per axis. */
  predicate WorldFits(worldSize: Vec3, cellDivision: real)
  {
    Positive(worldSize) && ValidLimits(AxisLimits(worldSize, cellDivision))
  }

  /** InitCells: cellSize = worldSize / cellsAxesLimits, axis by axis. */
  function CellSizeFor(worldSize: Vec3, limits: Int3): (s: Vec3)
    requires ValidLimits(limits)
    ensures Positive(worldSize) ==> Positive(s)
  {
    Divide(worldSize, Vec3(limits.x as real, limits.y as real, limits.z as real))
  }

  /** InitBoids: each boid's velocity is its spawn direction times the initial speed. */
  function Launched(directions: seq<Vec3>, speed: real): (v: seq<Vec3>)
    ensures |v| == |directions|
  {
    seq(|directions|, k requires 0 <= k < |directions| => Scale(directions[k], speed))
  }

  /** The demo scene's 30 x 30 x 30 world at 256 boids gets 6 cells per axis, 216 in all. */
  lemma DemoWorldLimits()
    ensures AxisLimits(Vec3(30.0, 30.0, 30.0), 0.6) == Int3(6, 6, 6)
    ensures CellsCount(Int3(6, 6, 6)) == 216
  {
  }

  /**
   * The grid StartSimulation leaves, empty with every boid in cell 0, is in
   * range and consistent, and lists boid indices only (it lists none).
   */
  lemma InitialGridReady(cells: MultiMap, cellIndexes: seq<int>, teams: seq<int>, cellsCount: int, teamsCount: int)
    requires cellsCount >= 1 && forall i | 0 <= i < |teams| :: 0 <= teams[i] < teamsCount
    requires Grid(cells, cellIndexes) == Initial(|teams|)
    ensures InRange(Grid(cells, cellIndexes), teams, cellsCount, teamsCount)
    ensures Consistent(Grid(cells, cellIndexes), teams, cellsCount)
    ensures forall k :: Aggregation.Indexes(Values(cells, k), |teams|)
  {
    InitialConsistent(teams, cellsCount, teamsCount);
    forall k
      ensures Aggregation.Indexes(Values(cells, k), |teams|)
    {
      BucketIndexes(Grid(cells, cellIndexes), teams, cellsCount, k);
    }
  }

  /**
   * The grid the corrected start leaves, with every boid in cell 0, is in
   * range, complete, and lists boid indices only.
   */
  lemma SeededGridReady(cells: MultiMap, cellIndexes: seq<int>, teams: seq<int>, cellsCount: int, teamsCount: int)
    requires cellsCount >= 1 && forall i | 0 <= i < |teams| :: 0 <= teams[i] < teamsCount
    requires Grid(cells, cellIndexes) == Seeded(Zeros(|teams|), teams, cellsCount)
    ensures InRange(Grid(cells, cellIndexes), teams, cellsCount, teamsCount)
    ensures Complete(Grid(cells, cellIndexes), teams, cellsCount)
    ensures forall k :: Aggregation.Indexes(Values(cells, k), |teams|)
  {
    SeededComplete(Zeros(|teams|), teams, cellsCount);
    forall k
      ensures Aggregation.Indexes(Values(cells, k), |teams|)
    {
      BucketIndexes(Grid(cells, cellIndexes), teams, cellsCount, k);
    }
  }

  /**
   * InitBoids' loop: new buffers of one slot per boid, filled from the
   * draws, with every stored cell left at its zero default.
   */
  method SpawnBoids(spawnPositions: seq<Vec3>, spawnDirections: seq<Vec3>, teamDraws: seq<int>, speed: real)
    returns (positions: array<Vec3>, velocities: array<Vec3>, teamIndexes: array<int>, cellIndexes: array<int>,
             avoidance: array<Avoidance.AvoidanceVelocity>)
    requires |spawnPositions| == |spawnDirections| == |teamDraws|
    ensures fresh(positions) && fresh(velocities) && fresh(teamIndexes) && fresh(cellIndexes) && fresh(avoidance)
    ensures positions[..] == spawnPositions && velocities[..] == Launched(spawnDirections, speed)
    ensures teamIndexes[..] == teamDraws && cellIndexes[..] == Zeros(|teamDraws|) && teamIndexes != cellIndexes
    ensures avoidance.Length == |teamDraws|
    ensures forall k | 0 <= k < avoidance.Length :: avoidance[k] == Avoidance.Pushes([])
  {
    var n := |teamDraws|;
    positions := new Vec3[n];
    velocities := new Vec3[n];
    teamIndexes := new int[n];
    cellIndexes := new int[n](_ => 0);
    avoidance := new Avoidance.AvoidanceVelocity[n](_ => Avoidance.Pushes([]));
    for boidIndex := 0 to n
      modifies positions, velocities, teamIndexes
      invariant forall k | 0 <= k < boidIndex :: positions[k] == spawnPositions[k]
      invariant forall k | 0 <= k < boidIndex :: velocities[k] == Scale(spawnDirections[k], speed)
      invariant forall k | 0 <= k < boidIndex :: teamIndexes[k] == teamDraws[k]
    {
      positions[boidIndex] := spawnPositions[boidIndex];
      velocities[boidIndex] := Scale(spawnDirections[boidIndex], speed);
      teamIndexes[boidIndex] := teamDraws[boidIndex];
    }
  }

  /**
   * InitCells' allocations: an empty grid, an empty removal map, and a pair
   * of per-key caches of cellsCount * teamsCount slots each. No boid is
   * added to the grid (see Reindex.SeedGrid for the missing step).
   */
  method AllocateCells(cellsCount: nat, teamsCount: nat)
    returns (grid: NativeMultiHashMap, averagePositions: array<Average>, averageVelocities: array<Average>,
             toRemove: NativeMultiHashMap)
    ensures fresh(grid) && fresh(toRemove)
    ensures grid.entries == map[] && toRemove.entries == map[]
    ensures fresh(averagePositions) && fresh(averageVelocities) && averagePositions != averageVelocities
    ensures averagePositions.Length == averageVelocities.Length == cellsCount * teamsCount
    ensures forall k | 0 <= k < averagePositions.Length :: averagePositions[k] == Mean(Zero)
    ensures forall k | 0 <= k < averageVelocities.Length :: averageVelocities[k] == Mean(Zero)
  {
    grid := new NativeMultiHashMap();
    averagePositions := new Average[cellsCount * teamsCount](_ => Mean(Zero));
    averageVelocities := new Average[cellsCount * teamsCount](_ => Mean(Zero));
    toRemove := new NativeMultiHashMap();
  }

  /** A new NativeArray holding the given elements (NativeArray's copy constructor). */
  method NewArray<T>(elements: seq<T>) returns (a: array<T>)
    ensures fresh(a) && a[..] == elements
  {
    a := new T[|elements|](k requires 0 <= k < |elements| => elements[k]);
  }

  /**
   * NativeArray.Dispose: only a created array can be disposed (disposing
   * one that is not created throws), and afterwards it is not created.
   */
  function Dispose<T>(a: array?<T>): (r: array?<T>)
    requires a != null
    ensures r == null
  {
    null
  }

  /** NativeMultiHashMap.Dispose, under the same rule as Dispose. */
  function DisposeMap(m: NativeMultiHashMap?): (r: NativeMultiHashMap?)
    requires m != null
    ensures r == null
  {
    null
  }

  /**
   * `if (a.IsCreated) a.Dispose()`: the guard is what lets the disposal be
   * called on any buffer, and either way the buffer ends not created.
   */
  function DisposeIfCreated<T>(a: array?<T>): (r: array?<T>)
    ensures r == null
  {
    if a != null then Dispose(a) else a
  }

  /** `if (m.IsCreated) m.Dispose()` for a NativeMultiHashMap. */
  function DisposeMapIfCreated(m: NativeMultiHashMap?): (r: NativeMultiHashMap?)
    ensures r == null
  {
    if m != null then DisposeMap(m) else m
  }

  class BoidSimulator {
    var sParams: Params
    var worldCellDivision: real
    var worldTimeScale: real

    var worldSize: Vec3
    var worldHalfSize: Vec3

    var teamsCount: int
    var boidsCount: int
    var cellsCount: int

    var boidsPosition: array?<Vec3>
    var boidsVelocity: array?<Vec3>
    var boidsTeamIndexes: array?<int>
    var boidsCellIndexes: array?<int>

    var teams: array?<BoidTeam>

    var boidsAvoidanceVelocity: array?<Avoidance.AvoidanceVelocity>
    var cellsAveragePosition: array?<Average>
    var cellsAverageVelocity: array?<Average>
    var cells: NativeMultiHashMap?

    // Allocated and disposed with the others, but never read or written.
    var cellsIndexesToRemove: NativeMultiHashMap?

    var cellsAxesLimits: Int3
    var cellSize: Vec3

    /** No buffer is allocated: IsCreated is false for every one of them. */
    predicate Disposed()
      reads this
    {
      && boidsPosition == null && boidsVelocity == null
      && boidsTeamIndexes == null && boidsCellIndexes == null
      && teams == null && cells == null
      && cellsAveragePosition == null && cellsAverageVelocity == null
      && cellsIndexesToRemove == null && boidsAvoidanceVelocity == null
    }

    /**
     * A started simulator: every buffer allocated with the size InitBoids
     * and InitCells give it, the grid geometry well formed, and the grid
     * consistent with the stored cells and teams. The grid need not list
     * every boid: as started, it lists none.
     */
    ghost predicate Running()
      reads this, boidsTeamIndexes, boidsCellIndexes, cells
    {
      && boidsPosition != null && boidsVelocity != null
      && boidsTeamIndexes != null && boidsCellIndexes != null
      && teams != null && cells != null
      && cellsAveragePosition != null && cellsAverageVelocity != null
      && cellsIndexesToRemove != null && boidsAvoidanceVelocity != null
      && boidsTeamIndexes != boidsCellIndexes && cellsAveragePosition != cellsAverageVelocity
      && boidsCount == boidsPosition.Length == boidsVelocity.Length == boidsTeamIndexes.Length
      && boidsCount == boidsCellIndexes.Length == boidsAvoidanceVelocity.Length
      && teamsCount == teams.Length
      && cellsAveragePosition.Length == cellsAverageVelocity.Length == cellsCount * teamsCount
      && ValidLimits(cellsAxesLimits) && cellsCount == CellsCount(cellsAxesLimits) && Positive(cellSize)
      && InRange(Grid(cells.entries, boidsCellIndexes[..]), boidsTeamIndexes[..], cellsCount, teamsCount)
      && Consistent(Grid(cells.entries, boidsCellIndexes[..]), boidsTeamIndexes[..], cellsCount)
      && (forall k :: Aggregation.Indexes(Values(cells.entries, k), boidsCount))
    }

    /** A new simulator holds no buffers and the default parameters. */
    constructor ()
      ensures Disposed()
      ensures sParams == DefaultParams && worldCellDivision == 0.6 && worldTimeScale == 1.0
    {
      sParams := DefaultParams;
      worldCellDivision := 0.6;
      worldTimeScale := 1.0;
      boidsPosition, boidsVelocity, boidsTeamIndexes, boidsCellIndexes := null, null, null, null;
      teams, cells := null, null;
      cellsAveragePosition, cellsAverageVelocity, cellsIndexesToRemove := null, null, null;
      boidsAvoidanceVelocity := null;
    }

    /**
     * StopSimulation: dispose every buffer that is created. Disposing a
     * buffer that is not created throws, so each disposal sits behind its
     * `IsCreated` guard (DisposeIfCreated); with the guards the stop is
     * safe in any state, before any start and twice in a row. It leaves
     * nothing allocated and the parameters as they were.
     */
    method StopSimulation()
      modifies this`boidsPosition, this`boidsVelocity, this`boidsTeamIndexes, this`boidsCellIndexes
      modifies this`teams, this`cells, this`cellsAveragePosition, this`cellsAverageVelocity
      modifies this`cellsIndexesToRemove, this`boidsAvoidanceVelocity
      ensures Disposed()
    {
      boidsPosition := DisposeIfCreated(boidsPosition);
      boidsVelocity := DisposeIfCreated(boidsVelocity);
      boidsTeamIndexes := DisposeIfCreated(boidsTeamIndexes);
      boidsCellIndexes := DisposeIfCreated(boidsCellIndexes);

      teams := DisposeIfCreated(teams);
      cells := DisposeMapIfCreated(cells);

      cellsAveragePosition := DisposeIfCreated(cellsAveragePosition);
      cellsAverageVelocity := DisposeIfCreated(cellsAverageVelocity);
      cellsIndexesToRemove := DisposeMapIfCreated(cellsIndexesToRemove);

      boidsAvoidanceVelocity := DisposeIfCreated(boidsAvoidanceVelocity);
    }

    /**
     * StartSimulation: stop whatever runs, then allocate and fill the boid
     * buffers and the grid. The random draws of InitBoids are parameters:
     * spawn positions, directions on the unit sphere and team indices,
     * one per boid. Every stored cell starts at 0, and no boid is entered
     * into `cells`: the grid is Reindex.Initial.
     */
    method StartSimulation(worldSize: Vec3, boidsCount: int, teams: seq<BoidTeam>,
                           spawnPositions: seq<Vec3>, spawnDirections: seq<Vec3>, teamDraws: seq<int>)
      requires boidsCount >= 0
      requires |spawnPositions| == |spawnDirections| == |teamDraws| == boidsCount
      requires forall k | 0 <= k < boidsCount :: 0 <= teamDraws[k] < |teams|
      requires WorldFits(worldSize, worldCellDivision)
      modifies this`teams, this`teamsCount, this`worldSize, this`worldHalfSize, this`boidsCount
      modifies this`boidsPosition, this`boidsVelocity, this`boidsTeamIndexes, this`boidsCellIndexes
      modifies this`boidsAvoidanceVelocity, this`cells, this`cellsAveragePosition, this`cellsAverageVelocity
      modifies this`cellsIndexesToRemove, this`cellsAxesLimits, this`cellSize, this`cellsCount
      ensures Running()
      ensures fresh(boidsPosition) && fresh(boidsVelocity) && fresh(boidsTeamIndexes) && fresh(boidsCellIndexes)
      ensures fresh(this.teams) && fresh(boidsAvoidanceVelocity) && fresh(cells)
      ensures fresh(cellsAveragePosition) && fresh(cellsAverageVelocity)
      ensures this.worldSize == worldSize && worldHalfSize == Scale(worldSize, 0.5)
      ensures this.boidsCount == boidsCount && teamsCount == |teams| && this.teams[..] == teams
      ensures boidsPosition[..] == spawnPositions
      ensures boidsVelocity[..] == Launched(spawnDirections, sParams.initialVelocity)
      ensures boidsTeamIndexes[..] == teamDraws
      ensures boidsCellIndexes[..] == Zeros(boidsCount)
      ensures Grid(cells.entries, boidsCellIndexes[..]) == Initial(boidsCount)
      ensures cellsAxesLimits == AxisLimits(worldSize, worldCellDivision)
      ensures cellSize == CellSizeFor(worldSize, cellsAxesLimits)
      ensures cellsCount == CellsCount(cellsAxesLimits)
      ensures forall k | 0 <= k < boidsCount :: boidsAvoidanceVelocity[k] == Avoidance.Pushes([])
      ensures forall k | 0 <= k < cellsAveragePosition.Length :: cellsAveragePosition[k] == Mean(Zero)
      ensures forall k | 0 <= k < cellsAverageVelocity.Length :: cellsAverageVelocity[k] == Mean(Zero)
    {
      StopSimulation();

      SetWorld(worldSize, boidsCount, teams);

      InitBoids(spawnPositions, spawnDirections, teamDraws);
      InitCells();
      InitialGridReady(cells.entries, boidsCellIndexes[..], boidsTeamIndexes[..], cellsCount, teamsCount);
    }

    /** StartSimulation's first stores: a copy of the teams, the world extent and the boid count. */
    method SetWorld(worldSize: Vec3, boidsCount: int, teams: seq<BoidTeam>)
      modifies this`teams, this`teamsCount, this`worldSize, this`worldHalfSize, this`boidsCount
      ensures fresh(this.teams) && this.teams[..] == teams && teamsCount == |teams|
      ensures this.worldSize == worldSize && worldHalfSize == Scale(worldSize, 0.5) && this.boidsCount == boidsCount
    {
      var teamsArray := NewArray(teams);
      this.teams, this.teamsCount := teamsArray, |teams|;
      this.worldSize, this.worldHalfSize := worldSize, Scale(worldSize, 0.5);
      this.boidsCount := boidsCount;
    }

    /**
     * InitBoids: allocate the boid buffers and fill them from the draws;
     * the stored cells keep their zero default.
     */
    method InitBoids(spawnPositions: seq<Vec3>, spawnDirections: seq<Vec3>, teamDraws: seq<int>)
      requires 0 <= boidsCount && |spawnPositions| == |spawnDirections| == |teamDraws| == boidsCount
      modifies this`boidsPosition, this`boidsVelocity, this`boidsTeamIndexes, this`boidsCellIndexes
      modifies this`boidsAvoidanceVelocity
      ensures fresh(boidsPosition) && fresh(boidsVelocity) && fresh(boidsTeamIndexes) && fresh(boidsCellIndexes)
      ensures fresh(boidsAvoidanceVelocity)
      ensures boidsPosition[..] == spawnPositions
      ensures boidsVelocity[..] == Launched(spawnDirections, sParams.initialVelocity)
      ensures boidsTeamIndexes[..] == teamDraws
      ensures boidsCellIndexes[..] == Zeros(boidsCount) && boidsTeamIndexes != boidsCellIndexes
      ensures boidsAvoidanceVelocity.Length == boidsCount
      ensures forall k | 0 <= k < boidsCount :: boidsAvoidanceVelocity[k] == Avoidance.Pushes([])
    {
      var positions, velocities, teamIndexes, cellIndexes, avoidance :=
        SpawnBoids(spawnPositions, spawnDirections, teamDraws, sParams.initialVelocity);
      boidsPosition, boidsVelocity, boidsTeamIndexes, boidsCellIndexes := positions, velocities, teamIndexes, cellIndexes;
      boidsAvoidanceVelocity := avoidance;
    }

    /**
     * InitCells: the grid geometry from the world size, a new removal map
     * and pair of per-key caches of cellsCount * teamsCount slots, and a new
     * grid, left empty.
     */
    method InitCells()
      requires WorldFits(worldSize, worldCellDivision) && teamsCount >= 0
      modifies this`cellsAxesLimits, this`cellSize, this`cellsCount
      modifies this`cells, this`cellsAveragePosition, this`cellsAverageVelocity, this`cellsIndexesToRemove
      ensures cellsAxesLimits == AxisLimits(worldSize, worldCellDivision)
      ensures cellSize == CellSizeFor(worldSize, cellsAxesLimits) && Positive(cellSize)
      ensures cellsCount == CellsCount(cellsAxesLimits) && cellsCount >= 1
      ensures fresh(cells) && fresh(cellsIndexesToRemove)
      ensures cells.entries == map[]
      ensures fresh(cellsAveragePosition) && fresh(cellsAverageVelocity) && cellsAveragePosition != cellsAverageVelocity
      ensures cellsAveragePosition.Length == cellsAverageVelocity.Length == cellsCount * teamsCount
      ensures forall k | 0 <= k < cellsAveragePosition.Length :: cellsAveragePosition[k] == Mean(Zero)
      ensures forall k | 0 <= k < cellsAverageVelocity.Length :: cellsAverageVelocity[k] == Mean(Zero)
    {
      var limits := AxisLimits(worldSize, worldCellDivision);
      var count := CellsCount(limits);
      CellsCountPositive(limits);
      var grid, averagePositions, averageVelocities, toRemove :=
        AllocateCells(count, teamsCount);
      cellsAxesLimits, cellSize, cellsCount := limits, CellSizeFor(worldSize, limits), count;
      cells, cellsAveragePosition, cellsAverageVelocity, cellsIndexesToRemove := grid, averagePositions, averageVelocities, toRemove;
    }

    /** Every boid's key addresses a slot of the per-key caches, whose size is cellsCount * teamsCount. */
    lemma KeyFitsCaches(i: int)
      requires Running() && 0 <= i < boidsCount
      ensures 0 <= Key(boidsCellIndexes[i], boidsTeamIndexes[i], cellsCount) < cellsAveragePosition.Length
    {
      assert 0 <= boidsCellIndexes[..][i] < cellsCount && 0 <= boidsTeamIndexes[..][i] < teamsCount;
      KeyInRange(boidsCellIndexes[i], boidsTeamIndexes[i], cellsCount, teamsCount);
    }

    /**
     * StepSimulation's first job: re-index the grid for the time step dt.
     * The simulator stays running; the stored cells become the predicted
     * ones and the grid what ReindexAll makes of the old one. A grid that
     * listed every boid still does.
     */
    method UpdateCells(dt: real)
      requires Running()
      modifies cells, boidsCellIndexes
      ensures Running()
      ensures boidsCellIndexes[..] == Predicted(boidsPosition[..], boidsVelocity[..], dt,
                                                worldHalfSize, cellSize, cellsAxesLimits)
      ensures cells.entries == ReindexAll(Grid(old(cells.entries), old(boidsCellIndexes[..])), boidsTeamIndexes[..],
                                          cellsCount, boidsCellIndexes[..]).cells
      ensures Complete(Grid(old(cells.entries), old(boidsCellIndexes[..])), boidsTeamIndexes[..], cellsCount) ==>
              Complete(Grid(cells.entries, boidsCellIndexes[..]), boidsTeamIndexes[..], cellsCount)
    {
      ghost var g0 := Grid(cells.entries, boidsCellIndexes[..]);
      ghost var teams := boidsTeamIndexes[..];
      ghost var predicted := Predicted(boidsPosition[..], boidsVelocity[..], dt, worldHalfSize, cellSize, cellsAxesLimits);
      UpdateCellIndexes(cells, boidsCellIndexes, boidsTeamIndexes, boidsPosition, boidsVelocity, dt,
                        worldHalfSize, cellSize, cellsAxesLimits, cellsCount);
      ReindexAllConsistent(g0, teams, cellsCount, predicted);
      if Complete(g0, teams, cellsCount) {
        ReindexAllComplete(g0, teams, cellsCount, predicted);
      }
      PredictedInRange(boidsPosition[..], boidsVelocity[..], dt, worldHalfSize, cellSize, cellsAxesLimits);
      forall k
        ensures Aggregation.Indexes(Values(cells.entries, k), boidsCount)
      {
        BucketIndexes(Grid(cells.entries, boidsCellIndexes[..]), teams, cellsCount, k);
      }
    }

    /**
     * StepSimulation(dt) up to the move pass: scale dt by the time scale,
     * re-index the grid, then cache the per-key averages and the per-boid
     * avoidance from the re-indexed grid. The simulator stays running, and
     * only the grid and the three caches change.
     */
    method StepSimulation(dt: real)
      requires Running()
      modifies cells, boidsCellIndexes, cellsAveragePosition, cellsAverageVelocity, boidsAvoidanceVelocity
      ensures Running()
      ensures boidsCellIndexes[..] == Predicted(boidsPosition[..], boidsVelocity[..], ScaledStep(dt, worldTimeScale),
                                                worldHalfSize, cellSize, cellsAxesLimits)
      ensures cells.entries == ReindexAll(Grid(old(cells.entries), old(boidsCellIndexes[..])), boidsTeamIndexes[..],
                                          cellsCount, boidsCellIndexes[..]).cells
      ensures Complete(Grid(old(cells.entries), old(boidsCellIndexes[..])), boidsTeamIndexes[..], cellsCount) ==>
              Complete(Grid(cells.entries, boidsCellIndexes[..]), boidsTeamIndexes[..], cellsCount)
      ensures forall k | 0 <= k < cellsAveragePosition.Length ::
        && cellsAveragePosition[k] == AverageOf(Values(cells.entries, k), boidsPosition[..])
        && cellsAverageVelocity[k] == AverageOf(Values(cells.entries, k), boidsVelocity[..])
      ensures forall i | 0 <= i < boidsCount ::
        boidsAvoidanceVelocity[i] == Avoidance.AvoidanceOf(Values(cells.entries, Key(boidsCellIndexes[i], boidsTeamIndexes[i], cellsCount)),
                                                           i, boidsPosition[..], sParams.avoidanceRange)
    {
      var scaledDt := ScaledStep(dt, worldTimeScale);
      ghost var positions, velocities := boidsPosition[..], boidsVelocity[..];
      UpdateCells(scaledDt);
      ghost var cellIndexes := boidsCellIndexes[..];
      assert cellIndexes == Predicted(positions, velocities, scaledDt, worldHalfSize, cellSize, cellsAxesLimits);
      CacheCellAverages(cells, boidsPosition, boidsVelocity, cellsAveragePosition, cellsAverageVelocity);
      Avoidance.CacheAvoidance(cells, cellsCount, boidsCellIndexes, boidsTeamIndexes, boidsPosition,
                               boidsAvoidanceVelocity, sParams.avoidanceRange);
      assert boidsPosition[..] == positions && boidsVelocity[..] == velocities && boidsCellIndexes[..] == cellIndexes;
    }
  }
}
