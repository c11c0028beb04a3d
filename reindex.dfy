// CellsUpdateIndexesJob: for each boid in turn the job compares the stored
// cell with the predicted one and, when they differ, moves the boid's grid
// entry from the old (cell, team) key to the new one. The job itself is a
// method over the shared map and arrays; the functions below state the same
// steps on the values of the state it mutates, the grid `cells` and the
// array `boidsCellIndexes`.
module Reindex {
  import opened Geometry
  import opened MultiMap

  /** The part of the simulator the re-indexing job writes. */
  datatype Grid = Grid(cells: MultiMap, cellIndexes: seq<int>)

  /** CellsUpdateIndexesJob.Execute(boidIndex), given the boid's predicted cell `next`. */
  function ReindexBoid(g: Grid, teams: seq<int>, cellsCount: int, i: int, next: int): (r: Grid)
    requires |teams| == |g.cellIndexes| && 0 <= i < |teams|
    ensures r.cellIndexes == g.cellIndexes[i := next]
  {
    var cell := g.cellIndexes[i];
    if cell != next then
      var removed := RemovePair(g.cells, Key(cell, teams[i], cellsCount), i);
      Grid(AddPair(removed, Key(next, teams[i], cellsCount), i), g.cellIndexes[i := next])
    else
      g
  }

  /** The job's loop `for (i = 0; i < boidsCount; i++) Execute(i)` after its first j iterations. */
  function ReindexPrefix(g: Grid, teams: seq<int>, cellsCount: int, predicted: seq<int>, j: int): (r: Grid)
    requires |teams| == |g.cellIndexes| == |predicted| && 0 <= j <= |predicted|
    ensures |r.cellIndexes| == |g.cellIndexes|
    decreases j
  {
    if j == 0 then g
    else ReindexBoid(ReindexPrefix(g, teams, cellsCount, predicted, j - 1), teams, cellsCount, j - 1, predicted[j - 1])
  }

  /** CellsUpdateIndexesJob.Execute(): the whole loop. */
  function ReindexAll(g: Grid, teams: seq<int>, cellsCount: int, predicted: seq<int>): Grid
    requires |teams| == |g.cellIndexes| == |predicted|
  {
    ReindexPrefix(g, teams, cellsCount, predicted, |predicted|)
  }

  /** The cell each boid is heading for: GetCellIndex(position + velocity * dt). */
  function Predicted(positions: seq<Vec3>, velocities: seq<Vec3>, dt: real,
                     worldHalfSize: Vec3, cellSize: Vec3, limits: Int3): (p: seq<int>)
    requires |positions| == |velocities| && Positive(cellSize)
    ensures |p| == |positions|
  {
    seq(|positions|, k requires 0 <= k < |positions| =>
      CellIndexOf(Add(positions[k], Scale(velocities[k], dt)), worldHalfSize, cellSize, limits))
  }

  /** Every predicted cell lies in the grid. */
  lemma PredictedInRange(positions: seq<Vec3>, velocities: seq<Vec3>, dt: real,
                         worldHalfSize: Vec3, cellSize: Vec3, limits: Int3)
    requires |positions| == |velocities| && Positive(cellSize) && ValidLimits(limits)
    ensures var p := Predicted(positions, velocities, dt, worldHalfSize, cellSize, limits);
      forall k | 0 <= k < |p| :: 0 <= p[k] < CellsCount(limits)
  {
    forall k | 0 <= k < |positions|
      ensures 0 <= CellIndexOf(Add(positions[k], Scale(velocities[k], dt)), worldHalfSize, cellSize, limits) < CellsCount(limits)
    {
      CellIndexOfInRange(Add(positions[k], Scale(velocities[k], dt)), worldHalfSize, cellSize, limits);
    }
  }

  /**
   * CellsUpdateIndexesJob.Execute(): run Execute(i) for every boid in order,
   * changing the shared map and the stored cells in place. Afterwards the
   * map and the stored cells are what ReindexAll computes from the old
   * ones, and every stored cell is the boid's predicted cell.
   */
  method UpdateCellIndexes(cells: NativeMultiHashMap, boidsCellIndexes: array<int>, boidsTeamIndexes: array<int>,
                           boidsPosition: array<Vec3>, boidsVelocity: array<Vec3>, dt: real,
                           worldHalfSize: Vec3, cellSize: Vec3, cellsAxesLimits: Int3, cellsCount: int)
    requires boidsCellIndexes != boidsTeamIndexes && Positive(cellSize)
    requires boidsCellIndexes.Length == boidsTeamIndexes.Length == boidsPosition.Length == boidsVelocity.Length
    modifies cells, boidsCellIndexes
    ensures var predicted := Predicted(boidsPosition[..], boidsVelocity[..], dt, worldHalfSize, cellSize, cellsAxesLimits);
      var r := ReindexAll(Grid(old(cells.entries), old(boidsCellIndexes[..])), boidsTeamIndexes[..], cellsCount, predicted);
      && cells.entries == r.cells && boidsCellIndexes[..] == r.cellIndexes
      && boidsCellIndexes[..] == predicted
  {
    ghost var teams := boidsTeamIndexes[..];
    ghost var predicted := Predicted(boidsPosition[..], boidsVelocity[..], dt, worldHalfSize, cellSize, cellsAxesLimits);
    ghost var g0 := Grid(cells.entries, boidsCellIndexes[..]);

    for boidIndex := 0 to boidsCellIndexes.Length
      invariant Grid(cells.entries, boidsCellIndexes[..]) == ReindexPrefix(g0, teams, cellsCount, predicted, boidIndex)
    {
      UpdateCellIndex(cells, boidsCellIndexes, boidsTeamIndexes, boidsPosition, boidsVelocity, dt,
                      worldHalfSize, cellSize, cellsAxesLimits, cellsCount, boidIndex);
    }
    ReindexAllCells(g0, teams, cellsCount, predicted);
  }

  /**
   * CellsUpdateIndexesJob.Execute(boidIndex): when the predicted cell
   * differs from the stored one, move the boid's entry from its old key to
   * its new key, then store the predicted cell. The new map and stored
   * cells are what ReindexBoid computes from the old ones.
   */
  method UpdateCellIndex(cells: NativeMultiHashMap, boidsCellIndexes: array<int>, boidsTeamIndexes: array<int>,
                         boidsPosition: array<Vec3>, boidsVelocity: array<Vec3>, dt: real,
                         worldHalfSize: Vec3, cellSize: Vec3, cellsAxesLimits: Int3, cellsCount: int, boidIndex: int)
    requires boidsCellIndexes != boidsTeamIndexes && Positive(cellSize)
    requires boidsCellIndexes.Length == boidsTeamIndexes.Length == boidsPosition.Length == boidsVelocity.Length
    requires 0 <= boidIndex < boidsCellIndexes.Length
    modifies cells, boidsCellIndexes
    ensures Grid(cells.entries, boidsCellIndexes[..]) ==
      ReindexBoid(Grid(old(cells.entries), old(boidsCellIndexes[..])), boidsTeamIndexes[..], cellsCount, boidIndex,
                  CellIndexOf(Add(boidsPosition[boidIndex], Scale(boidsVelocity[boidIndex], dt)), worldHalfSize, cellSize, cellsAxesLimits))
  {
    var cellIndex := boidsCellIndexes[boidIndex];
    var teamIndex := boidsTeamIndexes[boidIndex];
    var nextCellIndex := CellIndexOf(Add(boidsPosition[boidIndex], Scale(boidsVelocity[boidIndex], dt)),
                                     worldHalfSize, cellSize, cellsAxesLimits);
    if cellIndex != nextCellIndex {
      cells.Remove(Key(cellIndex, teamIndex, cellsCount), boidIndex);
      cells.Add(Key(nextCellIndex, teamIndex, cellsCount), boidIndex);
      cellIndex := nextCellIndex;
    }
    boidsCellIndexes[boidIndex] := cellIndex;
  }

  /** Whatever the grid held before, the job leaves every boid's predicted cell stored. */
  lemma ReindexAllCells(g: Grid, teams: seq<int>, cellsCount: int, predicted: seq<int>)
    requires |teams| == |g.cellIndexes| == |predicted|
    ensures ReindexAll(g, teams, cellsCount, predicted).cellIndexes == predicted
  {
    ReindexPrefixCells(g, teams, cellsCount, predicted, |predicted|);
  }

  /** After j iterations the first j boids store their predicted cells and the others their old ones. */
  lemma {:induction false} ReindexPrefixCells(g: Grid, teams: seq<int>, cellsCount: int, predicted: seq<int>, j: int)
    requires |teams| == |g.cellIndexes| == |predicted| && 0 <= j <= |predicted|
    ensures var r := ReindexPrefix(g, teams, cellsCount, predicted, j);
      forall b | 0 <= b < |teams| :: r.cellIndexes[b] == if b < j then predicted[b] else g.cellIndexes[b]
    decreases j
  {
    if j > 0 {
      ReindexPrefixCells(g, teams, cellsCount, predicted, j - 1);
    }
  }

  /**
   * The grid only holds boid indices, each under the key of its stored
   * cell and its team, and no key holds the same boid twice; so a boid
   * occurs at most once in the whole grid.
   */
  ghost predicate Consistent(g: Grid, teams: seq<int>, cellsCount: int)
  {
    && |g.cellIndexes| == |teams|
    && (forall k :: AtMostOnce(Values(g.cells, k)))
    && (forall k, v {:trigger v in Values(g.cells, k)} | v in Values(g.cells, k) ::
          0 <= v < |teams| && k == Key(g.cellIndexes[v], teams[v], cellsCount))
  }

  /** Boid i is listed under the key of its stored cell and its team. */
  predicate Present(g: Grid, teams: seq<int>, cellsCount: int, i: int)
    requires |teams| == |g.cellIndexes| && 0 <= i < |teams|
  {
    i in Values(g.cells, Key(g.cellIndexes[i], teams[i], cellsCount))
  }

  /** Every boid is in the grid: the invariant the simulator evidently intends. */
  ghost predicate Complete(g: Grid, teams: seq<int>, cellsCount: int)
  {
    Consistent(g, teams, cellsCount) && forall i | 0 <= i < |teams| :: Present(g, teams, cellsCount, i)
  }

  /** Stored cells and teams are in range, so that keys do not collide. */
  ghost predicate InRange(g: Grid, teams: seq<int>, cellsCount: int, teamsCount: int)
  {
    && |g.cellIndexes| == |teams|
    && (forall i | 0 <= i < |teams| :: 0 <= g.cellIndexes[i] < cellsCount)
    && (forall i | 0 <= i < |teams| :: 0 <= teams[i] < teamsCount)
  }

  // ---------------------------------------------------------------------
  // One boid

  /**
   * Re-indexing boid i: when its predicted cell is its stored cell nothing
   * changes; otherwise every (oldKey, i) pair is removed, one (newKey, i)
   * pair is added, only boid i's stored cell changes, and no other pair moves.
   */
  lemma ReindexBoidPairs(g: Grid, teams: seq<int>, cellsCount: int, i: int, next: int)
    requires |teams| == |g.cellIndexes| && 0 <= i < |teams|
    ensures var r := ReindexBoid(g, teams, cellsCount, i, next);
      && (next == g.cellIndexes[i] ==> r == g)
      && (next != g.cellIndexes[i] ==>
            var oldKey := Key(g.cellIndexes[i], teams[i], cellsCount);
            var newKey := Key(next, teams[i], cellsCount);
            && oldKey != newKey
            && r.cellIndexes == g.cellIndexes[i := next]
            && multiset(Values(r.cells, oldKey)) == multiset(Values(g.cells, oldKey))[i := 0]
            && multiset(Values(r.cells, newKey)) == multiset(Values(g.cells, newKey)) + multiset{i}
            && forall k | k != oldKey && k != newKey ::
                 multiset(Values(r.cells, k)) == multiset(Values(g.cells, k)))
  {
    var cell := g.cellIndexes[i];
    if cell != next {
      var oldKey := Key(cell, teams[i], cellsCount);
      var newKey := Key(next, teams[i], cellsCount);
      var removed := RemovePair(g.cells, oldKey, i);
      forall k
        ensures multiset(Values(AddPair(removed, newKey, i), k)) ==
                (if k == oldKey then multiset(Values(g.cells, oldKey))[i := 0]
                 else if k == newKey then multiset(Values(g.cells, newKey)) + multiset{i}
                 else multiset(Values(g.cells, k)))
      {
        RemovePairCounts(g.cells, oldKey, i, k);
        AddPairCounts(removed, newKey, i, k);
      }
    }
  }

  /** Re-indexing one boid never changes where any other boid is listed. */
  lemma ReindexBoidOthers(g: Grid, teams: seq<int>, cellsCount: int, i: int, next: int, k: int, v: int)
    requires |teams| == |g.cellIndexes| && 0 <= i < |teams| && v != i
    ensures v in Values(ReindexBoid(g, teams, cellsCount, i, next).cells, k) <==> v in Values(g.cells, k)
  {
    var cell := g.cellIndexes[i];
    if cell != next {
      var oldKey := Key(cell, teams[i], cellsCount);
      RemovePairCounts(g.cells, oldKey, i, k);
      AddPairCounts(RemovePair(g.cells, oldKey, i), Key(next, teams[i], cellsCount), i, k);
    }
  }

  /** After a move, boid i is listed under the new key and nowhere else. */
  lemma MovedBoidListing(g: Grid, teams: seq<int>, cellsCount: int, i: int, next: int, k: int)
    requires Consistent(g, teams, cellsCount) && 0 <= i < |teams| && next != g.cellIndexes[i]
    ensures var r := ReindexBoid(g, teams, cellsCount, i, next);
      multiset(Values(r.cells, k))[i] == if k == Key(next, teams[i], cellsCount) then 1 else 0
  {
    var oldKey := Key(g.cellIndexes[i], teams[i], cellsCount);
    var newKey := Key(next, teams[i], cellsCount);
    ReindexBoidPairs(g, teams, cellsCount, i, next);
    if k != oldKey && i in Values(g.cells, k) {
      assert false;
    }
  }

  /** After a move, no key lists a boid twice. */
  lemma MovedAtMostOnce(g: Grid, teams: seq<int>, cellsCount: int, i: int, next: int, k: int)
    requires Consistent(g, teams, cellsCount) && 0 <= i < |teams| && next != g.cellIndexes[i]
    ensures AtMostOnce(Values(ReindexBoid(g, teams, cellsCount, i, next).cells, k))
  {
    var r := ReindexBoid(g, teams, cellsCount, i, next);
    var oldKey := Key(g.cellIndexes[i], teams[i], cellsCount);
    var newKey := Key(next, teams[i], cellsCount);
    ReindexBoidPairs(g, teams, cellsCount, i, next);
    MovedBoidListing(g, teams, cellsCount, i, next, k);
    var before := multiset(Values(g.cells, k));
    assert AtMostOnce(Values(g.cells, k));
    forall x
      ensures multiset(Values(r.cells, k))[x] <= 1
    {
      assert before[x] <= 1;
      if x != i {
        assert multiset(Values(r.cells, k))[x] == before[x];
      }
    }
  }

  /** After a move, every listed boid is still listed under its own stored key. */
  lemma MovedKeysRight(g: Grid, teams: seq<int>, cellsCount: int, i: int, next: int, k: int, v: int)
    requires Consistent(g, teams, cellsCount) && 0 <= i < |teams| && next != g.cellIndexes[i]
    requires v in Values(ReindexBoid(g, teams, cellsCount, i, next).cells, k)
    ensures 0 <= v < |teams|
    ensures k == Key(ReindexBoid(g, teams, cellsCount, i, next).cellIndexes[v], teams[v], cellsCount)
  {
    if v != i {
      ReindexBoidOthers(g, teams, cellsCount, i, next, k, v);
    } else {
      MovedBoidListing(g, teams, cellsCount, i, next, k);
    }
  }

  /** After a move, boid i is present, and every other boid is present exactly when it was. */
  lemma MovedPresence(g: Grid, teams: seq<int>, cellsCount: int, i: int, next: int, b: int)
    requires Consistent(g, teams, cellsCount) && 0 <= i < |teams| && next != g.cellIndexes[i]
    requires 0 <= b < |teams|
    ensures Present(ReindexBoid(g, teams, cellsCount, i, next), teams, cellsCount, b) <==>
            b == i || Present(g, teams, cellsCount, b)
  {
    if b != i {
      ReindexBoidOthers(g, teams, cellsCount, i, next, Key(g.cellIndexes[b], teams[b], cellsCount), b);
    } else {
      MovedBoidListing(g, teams, cellsCount, i, next, Key(next, teams[i], cellsCount));
    }
  }

  /**
   * Re-indexing one boid keeps the grid consistent; boid i is then present
   * exactly when it was present already or it changed cell, and every other
   * boid's presence and stored cell are untouched.
   */
  lemma ReindexBoidConsistent(g: Grid, teams: seq<int>, cellsCount: int, i: int, next: int)
    requires Consistent(g, teams, cellsCount) && 0 <= i < |teams|
    ensures var r := ReindexBoid(g, teams, cellsCount, i, next);
      && Consistent(r, teams, cellsCount)
      && r.cellIndexes == g.cellIndexes[i := next]
      && forall b | 0 <= b < |teams| ::
           Present(r, teams, cellsCount, b) <==>
             if b == i then Present(g, teams, cellsCount, i) || next != g.cellIndexes[i]
             else Present(g, teams, cellsCount, b)
  {
    if next != g.cellIndexes[i] {
      var r := ReindexBoid(g, teams, cellsCount, i, next);
      forall k
        ensures AtMostOnce(Values(r.cells, k))
      {
        MovedAtMostOnce(g, teams, cellsCount, i, next, k);
      }
      forall k, v {:trigger v in Values(r.cells, k)} | v in Values(r.cells, k)
        ensures 0 <= v < |teams| && k == Key(r.cellIndexes[v], teams[v], cellsCount)
      {
        MovedKeysRight(g, teams, cellsCount, i, next, k, v);
      }
      forall b | 0 <= b < |teams|
        ensures Present(r, teams, cellsCount, b) <==> b == i || Present(g, teams, cellsCount, b)
      {
        MovedPresence(g, teams, cellsCount, i, next, b);
      }
    }
  }

  // ---------------------------------------------------------------------
  // The whole loop

  /**
   * After the first j iterations the grid is still consistent, and a
   * visited boid is present exactly when it was present before or its
   * cell changed.
   */
  lemma {:induction false} ReindexPrefixConsistent(g: Grid, teams: seq<int>, cellsCount: int, predicted: seq<int>, j: int)
    requires Consistent(g, teams, cellsCount) && |predicted| == |teams| && 0 <= j <= |teams|
    ensures var r := ReindexPrefix(g, teams, cellsCount, predicted, j);
      && Consistent(r, teams, cellsCount)
      && forall b | 0 <= b < |teams| ::
           Present(r, teams, cellsCount, b) <==>
             if b < j then Present(g, teams, cellsCount, b) || predicted[b] != g.cellIndexes[b]
             else Present(g, teams, cellsCount, b)
  {
    if j > 0 {
      ReindexPrefixConsistent(g, teams, cellsCount, predicted, j - 1);
      PrefixStep(g, teams, cellsCount, predicted, j);
    }
  }

  /** One more iteration of the loop keeps what ReindexPrefixConsistent states, from j - 1 to j. */
  lemma PrefixStep(g: Grid, teams: seq<int>, cellsCount: int, predicted: seq<int>, j: int)
    requires |g.cellIndexes| == |teams| == |predicted| && 0 < j <= |teams|
    requires var before := ReindexPrefix(g, teams, cellsCount, predicted, j - 1);
      && Consistent(before, teams, cellsCount)
      && forall b | 0 <= b < |teams| ::
           Present(before, teams, cellsCount, b) <==>
             if b < j - 1 then Present(g, teams, cellsCount, b) || predicted[b] != g.cellIndexes[b]
             else Present(g, teams, cellsCount, b)
    ensures var r := ReindexPrefix(g, teams, cellsCount, predicted, j);
      && Consistent(r, teams, cellsCount)
      && forall b | 0 <= b < |teams| ::
           Present(r, teams, cellsCount, b) <==>
             if b < j then Present(g, teams, cellsCount, b) || predicted[b] != g.cellIndexes[b]
             else Present(g, teams, cellsCount, b)
  {
    var before := ReindexPrefix(g, teams, cellsCount, predicted, j - 1);
    ReindexPrefixCells(g, teams, cellsCount, predicted, j - 1);
    var r := ReindexBoid(before, teams, cellsCount, j - 1, predicted[j - 1]);
    ReindexBoidConsistent(before, teams, cellsCount, j - 1, predicted[j - 1]);
    forall b | 0 <= b < |teams|
      ensures Present(r, teams, cellsCount, b) <==>
           if b < j then Present(g, teams, cellsCount, b) || predicted[b] != g.cellIndexes[b]
           else Present(g, teams, cellsCount, b)
    {
      assert Present(r, teams, cellsCount, b) <==>
           if b == j - 1 then Present(before, teams, cellsCount, b) || predicted[b] != before.cellIndexes[b]
           else Present(before, teams, cellsCount, b);
    }
  }

  /**
   * The whole job keeps the grid consistent and leaves every boid's stored
   * cell equal to its predicted cell; a boid is present afterwards exactly
   * when it was present before or its cell changed.
   */
  lemma ReindexAllConsistent(g: Grid, teams: seq<int>, cellsCount: int, predicted: seq<int>)
    requires Consistent(g, teams, cellsCount) && |predicted| == |teams|
    ensures var r := ReindexAll(g, teams, cellsCount, predicted);
      && Consistent(r, teams, cellsCount)
      && r.cellIndexes == predicted
      && forall b | 0 <= b < |teams| ::
           Present(r, teams, cellsCount, b) <==>
             Present(g, teams, cellsCount, b) || predicted[b] != g.cellIndexes[b]
  {
    ReindexPrefixConsistent(g, teams, cellsCount, predicted, |predicted|);
    ReindexAllCells(g, teams, cellsCount, predicted);
  }

  /** A complete grid, where every boid is listed, stays complete. */
  lemma ReindexAllComplete(g: Grid, teams: seq<int>, cellsCount: int, predicted: seq<int>)
    requires Complete(g, teams, cellsCount) && |predicted| == |teams|
    ensures Complete(ReindexAll(g, teams, cellsCount, predicted), teams, cellsCount)
  {
    ReindexAllConsistent(g, teams, cellsCount, predicted);
  }

  /** Whatever a consistent grid lists under a key is a boid stored under that key. */
  lemma Listed(g: Grid, teams: seq<int>, cellsCount: int, k: int, v: int)
    requires Consistent(g, teams, cellsCount) && v in Values(g.cells, k)
    ensures 0 <= v < |teams| && k == Key(g.cellIndexes[v], teams[v], cellsCount)
  {
  }

  /**
   * Team isolation: in a consistent grid with cells and teams in range,
   * everyone listed under boid i's key shares i's team and i's cell.
   */
  lemma BucketSharesTeam(g: Grid, teams: seq<int>, cellsCount: int, teamsCount: int, i: int, v: int)
    requires Consistent(g, teams, cellsCount) && InRange(g, teams, cellsCount, teamsCount)
    requires 0 <= i < |teams|
    requires v in Values(g.cells, Key(g.cellIndexes[i], teams[i], cellsCount))
    ensures 0 <= v < |teams| && teams[v] == teams[i] && g.cellIndexes[v] == g.cellIndexes[i]
  {
    var k := Key(g.cellIndexes[i], teams[i], cellsCount);
    assert 0 <= v < |teams| && k == Key(g.cellIndexes[v], teams[v], cellsCount);
    KeyInjective(g.cellIndexes[v], teams[v], g.cellIndexes[i], teams[i], cellsCount);
  }

  // ---------------------------------------------------------------------
  // Starting from the state StartSimulation leaves

  /** n zeros: the cell every boid starts in, NativeArray's zero default. */
  function Zeros(n: nat): (z: seq<int>)
    ensures |z| == n && forall k | 0 <= k < n :: z[k] == 0
  {
    seq(n, _ => 0)
  }

  /** The grid as StartSimulation leaves it: no pairs, every stored cell 0. */
  function Initial(n: nat): (g: Grid)
    ensures |g.cellIndexes| == n
  {
    Grid(map[], Zeros(n))
  }

  /** The grid StartSimulation leaves is in range and consistent, though not complete. */
  lemma InitialConsistent(teams: seq<int>, cellsCount: int, teamsCount: int)
    requires cellsCount >= 1 && forall i | 0 <= i < |teams| :: 0 <= teams[i] < teamsCount
    ensures InRange(Initial(|teams|), teams, cellsCount, teamsCount)
    ensures Consistent(Initial(|teams|), teams, cellsCount)
  {
  }

  ghost predicate TicksFit(ticks: seq<seq<int>>, n: int)
  {
    forall t | 0 <= t < |ticks| :: |ticks[t]| == n
  }

  /** Repeated ticks of the re-indexing job, ticks[t] being tick t's predicted cells. */
  function Run(g: Grid, teams: seq<int>, cellsCount: int, ticks: seq<seq<int>>): (r: Grid)
    requires |g.cellIndexes| == |teams| && TicksFit(ticks, |teams|)
    ensures |r.cellIndexes| == |teams|
    decreases |ticks|
  {
    if ticks == [] then g
    else ReindexAll(Run(g, teams, cellsCount, ticks[..|ticks| - 1]), teams, cellsCount, ticks[|ticks| - 1])
  }

  /** Boid b changed cell at tick t: its prediction differs from the cell stored before the tick. */
  ghost predicate ChangedAt(ticks: seq<seq<int>>, t: int, b: int)
    requires 0 <= t < |ticks| && TicksFit(ticks, |ticks[0]|) && 0 <= b < |ticks[0]|
  {
    ticks[t][b] != if t == 0 then 0 else ticks[t - 1][b]
  }

  /** After any number of ticks every boid stores the cell the last tick predicted for it, or 0 before any tick. */
  lemma RunCells(g: Grid, teams: seq<int>, cellsCount: int, ticks: seq<seq<int>>)
    requires |g.cellIndexes| == |teams| && TicksFit(ticks, |teams|)
    ensures Run(g, teams, cellsCount, ticks).cellIndexes == if ticks == [] then g.cellIndexes else ticks[|ticks| - 1]
  {
    if ticks != [] {
      ReindexAllCells(Run(g, teams, cellsCount, ticks[..|ticks| - 1]), teams, cellsCount, ticks[|ticks| - 1]);
    }
  }

  /** Any number of ticks keeps a consistent grid consistent. */
  lemma {:induction false} RunConsistent(g: Grid, teams: seq<int>, cellsCount: int, ticks: seq<seq<int>>)
    requires Consistent(g, teams, cellsCount) && TicksFit(ticks, |teams|)
    ensures Consistent(Run(g, teams, cellsCount, ticks), teams, cellsCount)
    decreases |ticks|
  {
    if ticks != [] {
      RunConsistent(g, teams, cellsCount, ticks[..|ticks| - 1]);
      ReindexAllConsistent(Run(g, teams, cellsCount, ticks[..|ticks| - 1]), teams, cellsCount, ticks[|ticks| - 1]);
    }
  }

  /** Some tick predicted a cell other than 0 for boid b. */
  ghost predicate EverLeftZero(ticks: seq<seq<int>>, b: int)
  {
    exists t | 0 <= t < |ticks| :: 0 <= b < |ticks[t]| && ticks[t][b] != 0
  }

  /** A boid has left cell 0 by the last tick exactly when it had before it or the last tick moves it out. */
  lemma EverLeftZeroSnoc(ticks: seq<seq<int>>, b: int)
    requires ticks != [] && 0 <= b < |ticks[|ticks| - 1]|
    requires forall t | 0 <= t < |ticks| :: 0 <= b < |ticks[t]|
    ensures var earlier := ticks[..|ticks| - 1];
      EverLeftZero(ticks, b) <==> EverLeftZero(earlier, b) || ticks[|ticks| - 1][b] != 0
  {
    var earlier := ticks[..|ticks| - 1];
    if EverLeftZero(ticks, b) {
      var t :| 0 <= t < |ticks| && 0 <= b < |ticks[t]| && ticks[t][b] != 0;
      if t < |earlier| {
        assert earlier[t] == ticks[t];
      }
    }
    if EverLeftZero(earlier, b) {
      var t :| 0 <= t < |earlier| && 0 <= b < |earlier[t]| && earlier[t][b] != 0;
      assert ticks[t] == earlier[t];
    }
  }

  /**
   * From the state StartSimulation leaves, a boid is in the grid after any
   * number of ticks exactly when some tick predicted a cell other than 0
   * for it; a boid whose predicted cell has stayed 0 is missing.
   */
  lemma {:induction false} RunFromInitial(teams: seq<int>, cellsCount: int, ticks: seq<seq<int>>, b: int)
    requires TicksFit(ticks, |teams|) && 0 <= b < |teams|
    ensures Present(Run(Initial(|teams|), teams, cellsCount, ticks), teams, cellsCount, b) <==> EverLeftZero(ticks, b)
    decreases |ticks|
  {
    var g := Initial(|teams|);
    if ticks != [] {
      var earlier := ticks[..|ticks| - 1];
      var last := ticks[|ticks| - 1];
      RunFromInitial(teams, cellsCount, earlier, b);
      var before := Run(g, teams, cellsCount, earlier);
      RunConsistent(g, teams, cellsCount, earlier);
      RunCells(g, teams, cellsCount, earlier);
      ReindexAllConsistent(before, teams, cellsCount, last);
      EverLeftZeroSnoc(ticks, b);
      if !EverLeftZero(earlier, b) && earlier != [] {
        assert earlier[|earlier| - 1][b] == 0;
      }
    }
  }

  /** Some tick predicted a non-zero cell for b exactly when b changed cell at some tick. */
  lemma {:induction false} ChangedIffLeftZero(ticks: seq<seq<int>>, b: int)
    requires ticks != [] && TicksFit(ticks, |ticks[0]|) && 0 <= b < |ticks[0]|
    ensures EverLeftZero(ticks, b) <==> exists t | 0 <= t < |ticks| :: ChangedAt(ticks, t, b)
  {
    if t :| 0 <= t < |ticks| && 0 <= b < |ticks[t]| && ticks[t][b] != 0 {
      FirstNonZeroChanged(ticks, t, b);
    }
  }

  lemma {:induction false} FirstNonZeroChanged(ticks: seq<seq<int>>, t: int, b: int)
    requires 0 <= t < |ticks| && TicksFit(ticks, |ticks[0]|) && 0 <= b < |ticks[0]| && ticks[t][b] != 0
    ensures exists u | 0 <= u <= t :: ChangedAt(ticks, u, b)
    decreases t
  {
    if t > 0 && ticks[t - 1][b] != 0 {
      FirstNonZeroChanged(ticks, t - 1, b);
    } else {
      assert ChangedAt(ticks, t, b);
    }
  }

  /**
   * The latent defect, as written: from the state StartSimulation leaves,
   * a boid is in the grid exactly when it has changed cell at least once.
   */
  lemma PresentIffChanged(teams: seq<int>, cellsCount: int, ticks: seq<seq<int>>, b: int)
    requires ticks != [] && TicksFit(ticks, |teams|) && 0 <= b < |teams|
    ensures Present(Run(Initial(|teams|), teams, cellsCount, ticks), teams, cellsCount, b) <==>
            exists t | 0 <= t < |ticks| :: ChangedAt(ticks, t, b)
  {
    RunFromInitial(teams, cellsCount, ticks, b);
    ChangedIffLeftZero(ticks, b);
  }

  // ---------------------------------------------------------------------
  // The corrected start: every boid inserted under its initial key

  /** Adds boids 0 .. j-1 under the keys of their cells and teams, in index order. */
  function SeedCells(cellIndexes: seq<int>, teams: seq<int>, cellsCount: int, j: int): MultiMap
    requires |cellIndexes| == |teams| && 0 <= j <= |teams|
    decreases j
  {
    if j == 0 then map[]
    else AddPair(SeedCells(cellIndexes, teams, cellsCount, j - 1), Key(cellIndexes[j - 1], teams[j - 1], cellsCount), j - 1)
  }

  /** A grid seeded with every boid at its initial cell. */
  function Seeded(cellIndexes: seq<int>, teams: seq<int>, cellsCount: int): Grid
    requires |cellIndexes| == |teams|
  {
    Grid(SeedCells(cellIndexes, teams, cellsCount, |teams|), cellIndexes)
  }

  /** Seeding prefix 0 .. j-1: consistent, only boids below j listed, all of them present. */
  ghost predicate SeededUpTo(m: MultiMap, cellIndexes: seq<int>, teams: seq<int>, cellsCount: int, j: int)
    requires |cellIndexes| == |teams| && 0 <= j <= |teams|
  {
    && Consistent(Grid(m, cellIndexes), teams, cellsCount)
    && (forall k, v | v in Values(m, k) :: v < j)
    && forall b | 0 <= b < j :: Present(Grid(m, cellIndexes), teams, cellsCount, b)
  }

  lemma SeedStepListing(m: MultiMap, cellIndexes: seq<int>, teams: seq<int>, cellsCount: int, j: int, k: int, v: int)
    requires |cellIndexes| == |teams| && 0 < j <= |teams|
    requires SeededUpTo(m, cellIndexes, teams, cellsCount, j - 1)
    requires v in Values(AddPair(m, Key(cellIndexes[j - 1], teams[j - 1], cellsCount), j - 1), k)
    ensures 0 <= v < |teams| && k == Key(cellIndexes[v], teams[v], cellsCount) && v < j
  {
    var key := Key(cellIndexes[j - 1], teams[j - 1], cellsCount);
    var listed := Values(AddPair(m, key, j - 1), k);
    if k == key {
      assert listed == [j - 1] + Values(m, k);
    } else {
      assert listed == Values(m, k);
    }
    if v != j - 1 {
      assert v in Values(Grid(m, cellIndexes).cells, k);
    }
  }

  lemma SeedStepOnce(m: MultiMap, cellIndexes: seq<int>, teams: seq<int>, cellsCount: int, j: int, k: int)
    requires |cellIndexes| == |teams| && 0 < j <= |teams|
    requires SeededUpTo(m, cellIndexes, teams, cellsCount, j - 1)
    ensures AtMostOnce(Values(AddPair(m, Key(cellIndexes[j - 1], teams[j - 1], cellsCount), j - 1), k))
  {
    var key := Key(cellIndexes[j - 1], teams[j - 1], cellsCount);
    assert j - 1 !in Values(m, k);
    AddPairCounts(m, key, j - 1, k);
    assert AtMostOnce(Values(Grid(m, cellIndexes).cells, k));
  }

  lemma SeedStepPresent(m: MultiMap, cellIndexes: seq<int>, teams: seq<int>, cellsCount: int, j: int, b: int)
    requires |cellIndexes| == |teams| && 0 < j <= |teams| && 0 <= b < j
    requires SeededUpTo(m, cellIndexes, teams, cellsCount, j - 1)
    ensures Present(Grid(AddPair(m, Key(cellIndexes[j - 1], teams[j - 1], cellsCount), j - 1), cellIndexes), teams, cellsCount, b)
  {
    var key := Key(cellIndexes[j - 1], teams[j - 1], cellsCount);
    var kb := Key(cellIndexes[b], teams[b], cellsCount);
    AddPairCounts(m, key, j - 1, kb);
    if b < j - 1 {
      assert Present(Grid(m, cellIndexes), teams, cellsCount, b);
    }
  }

  lemma SeedStep(m: MultiMap, cellIndexes: seq<int>, teams: seq<int>, cellsCount: int, j: int)
    requires |cellIndexes| == |teams| && 0 < j <= |teams|
    requires SeededUpTo(m, cellIndexes, teams, cellsCount, j - 1)
    ensures SeededUpTo(AddPair(m, Key(cellIndexes[j - 1], teams[j - 1], cellsCount), j - 1), cellIndexes, teams, cellsCount, j)
  {
    var m' := AddPair(m, Key(cellIndexes[j - 1], teams[j - 1], cellsCount), j - 1);
    var g' := Grid(m', cellIndexes);
    forall k
      ensures AtMostOnce(Values(g'.cells, k))
    {
      SeedStepOnce(m, cellIndexes, teams, cellsCount, j, k);
    }
    forall k, v {:trigger v in Values(g'.cells, k)} | v in Values(g'.cells, k)
      ensures 0 <= v < |teams| && k == Key(g'.cellIndexes[v], teams[v], cellsCount) && v < j
    {
      SeedStepListing(m, cellIndexes, teams, cellsCount, j, k, v);
    }
    assert Consistent(g', teams, cellsCount);
    forall b | 0 <= b < j
      ensures Present(g', teams, cellsCount, b)
    {
      SeedStepPresent(m, cellIndexes, teams, cellsCount, j, b);
    }
  }

  lemma {:induction false} SeedCellsPrefix(cellIndexes: seq<int>, teams: seq<int>, cellsCount: int, j: int)
    requires |cellIndexes| == |teams| && 0 <= j <= |teams|
    ensures SeededUpTo(SeedCells(cellIndexes, teams, cellsCount, j), cellIndexes, teams, cellsCount, j)
    decreases j
  {
    if j > 0 {
      SeedCellsPrefix(cellIndexes, teams, cellsCount, j - 1);
      SeedStep(SeedCells(cellIndexes, teams, cellsCount, j - 1), cellIndexes, teams, cellsCount, j);
    }
  }

  /**
   * The corrected start: add every boid to the grid, in index order, under
   * the key of its stored cell and its team. The map ends up as SeedCells
   * computes it.
   */
  method SeedGrid(cells: NativeMultiHashMap, boidsCellIndexes: array<int>, boidsTeamIndexes: array<int>, cellsCount: int)
    requires cells.entries == map[] && boidsCellIndexes.Length == boidsTeamIndexes.Length
    modifies cells
    ensures cells.entries == SeedCells(boidsCellIndexes[..], boidsTeamIndexes[..], cellsCount, boidsTeamIndexes.Length)
  {
    for boidIndex := 0 to boidsTeamIndexes.Length
      invariant cells.entries == SeedCells(boidsCellIndexes[..], boidsTeamIndexes[..], cellsCount, boidIndex)
    {
      cells.Add(Key(boidsCellIndexes[boidIndex], boidsTeamIndexes[boidIndex], cellsCount), boidIndex);
    }
  }

  /** The corrected start: the seeded grid is complete. */
  lemma SeededComplete(cellIndexes: seq<int>, teams: seq<int>, cellsCount: int)
    requires |cellIndexes| == |teams|
    ensures Complete(Seeded(cellIndexes, teams, cellsCount), teams, cellsCount)
  {
    SeedCellsPrefix(cellIndexes, teams, cellsCount, |teams|);
  }
}
