// CellsCacheVelocityJob: for one (cell, team) key, the average position and
// the average velocity of the boids listed under that key. The sums are
// added in the grid's iteration order and divided by the member count; an
// empty bucket divides 0 by 0.
module Aggregation {
  import opened Geometry
  import opened MultiMap
  import opened Reindex

  /** A cached bucket average: a value, or the NaN that 0 / 0 yields in single precision. */
  datatype Average = Mean(value: Vec3) | NaN

  ghost predicate Indexes(members: seq<int>, n: int)
  {
    forall j | 0 <= j < |members| :: 0 <= members[j] < n
  }

  /** The sum of the members' vectors, added in iteration order. */
  function SumOf(members: seq<int>, values: seq<Vec3>): Vec3
    requires Indexes(members, |values|)
  {
    if members == [] then Zero
    else Add(SumOf(members[..|members| - 1], values), values[members[|members| - 1]])
  }

  /** What CellsCacheVelocityJob stores for a bucket: the sum divided by the member count. */
  function AverageOf(members: seq<int>, values: seq<Vec3>): (a: Average)
    requires Indexes(members, |values|)
    ensures a.NaN? <==> members == []
  {
    if members == [] then NaN
    else Mean(Scale(SumOf(members, values), 1.0 / |members| as real))
  }

  /**
   * CellsCacheVelocityJob.Execute for one key, up to its two stores: walk
   * the bucket from its first value, adding each member's position and
   * velocity and counting the members, then divide by the count.
   */
  method AverageBucket(members: seq<int>, positions: array<Vec3>, velocities: array<Vec3>)
    returns (averagePosition: Average, averageVelocity: Average)
    requires Indexes(members, positions.Length) && Indexes(members, velocities.Length)
    ensures averagePosition == AverageOf(members, positions[..])
    ensures averageVelocity == AverageOf(members, velocities[..])
  {
    var sumPosition, sumVelocity := Zero, Zero;
    var count := 0;
    while count < |members|
      invariant 0 <= count <= |members|
      invariant sumPosition == SumOf(members[..count], positions[..])
      invariant sumVelocity == SumOf(members[..count], velocities[..])
    {
      var boid := members[count];
      sumPosition := Add(sumPosition, positions[boid]);
      sumVelocity := Add(sumVelocity, velocities[boid]);
      assert members[..count + 1][..count] == members[..count];
      count := count + 1;
    }
    assert members[..count] == members;
    if count == 0 {
      averagePosition, averageVelocity := NaN, NaN;
    } else {
      averagePosition := Mean(Scale(sumPosition, 1.0 / count as real));
      averageVelocity := Mean(Scale(sumVelocity, 1.0 / count as real));
    }
  }

  /**
   * CellsCacheVelocityJob over every key 0 .. cellsAveragePosition.Length:
   * slot k of the two caches gets the average position and velocity of
   * the boids listed under key k, NaN for an empty bucket.
   */
  method CacheCellAverages(cells: NativeMultiHashMap, boidsPosition: array<Vec3>, boidsVelocity: array<Vec3>,
                           cellsAveragePosition: array<Average>, cellsAverageVelocity: array<Average>)
    requires cellsAveragePosition != cellsAverageVelocity
    requires cellsAveragePosition.Length == cellsAverageVelocity.Length
    requires forall k | 0 <= k < cellsAveragePosition.Length ::
      Indexes(Values(cells.entries, k), boidsPosition.Length) && Indexes(Values(cells.entries, k), boidsVelocity.Length)
    modifies cellsAveragePosition, cellsAverageVelocity
    ensures forall k | 0 <= k < cellsAveragePosition.Length ::
      && cellsAveragePosition[k] == AverageOf(Values(cells.entries, k), boidsPosition[..])
      && cellsAverageVelocity[k] == AverageOf(Values(cells.entries, k), boidsVelocity[..])
  {
    for cellIndex := 0 to cellsAveragePosition.Length
      invariant forall k | 0 <= k < cellIndex ::
        && cellsAveragePosition[k] == AverageOf(Values(cells.entries, k), boidsPosition[..])
        && cellsAverageVelocity[k] == AverageOf(Values(cells.entries, k), boidsVelocity[..])
    {
      var averagePosition, averageVelocity := AverageBucket(Values(cells.entries, cellIndex), boidsPosition, boidsVelocity);
      cellsAveragePosition[cellIndex] := averagePosition;
      cellsAverageVelocity[cellIndex] := averageVelocity;
    }
  }

  // ---------------------------------------------------------------------

  /** Taking one member out of the sum subtracts exactly that member's vector. */
  lemma {:induction false} SumOfRemoveAt(members: seq<int>, values: seq<Vec3>, p: int)
    requires Indexes(members, |values|) && 0 <= p < |members|
    ensures Indexes(members[..p] + members[p + 1..], |values|)
    ensures SumOf(members, values) == Add(SumOf(members[..p] + members[p + 1..], values), values[members[p]])
    decreases |members|
  {
    var n := |members|;
    var rest := members[..p] + members[p + 1..];
    if p < n - 1 {
      var init := members[..n - 1];
      assert init[..p] + init[p + 1..] == rest[..n - 2];
      assert rest == rest[..n - 2] + [members[n - 1]];
      SumOfRemoveAt(init, values, p);
    } else {
      assert rest == members[..n - 1];
    }
  }

  /**
   * The sums range over the members as a collection: any other iteration
   * order of the same boids gives the same sum.
   */
  lemma {:induction false} SumOfPermutation(a: seq<int>, b: seq<int>, values: seq<Vec3>)
    requires Indexes(a, |values|) && multiset(a) == multiset(b)
    ensures Indexes(b, |values|) && SumOf(a, values) == SumOf(b, values)
    decreases |a|
  {
    IndexesOfPermutation(a, b, |values|);
    if a != [] {
      var n := |a|;
      var x := a[n - 1];
      assert x in multiset(b) by {
        assert a == a[..n - 1] + [x];
      }
      var p :| 0 <= p < |b| && b[p] == x;
      RemoveMatching(a, b, p);
      SumOfPermutation(a[..n - 1], b[..p] + b[p + 1..], values);
      SumOfRemoveAt(b, values, p);
    } else {
      assert |b| == |multiset(b)| == 0;
    }
  }

  /** A sequence with the same members as an index sequence is one too. */
  lemma IndexesOfPermutation(a: seq<int>, b: seq<int>, n: int)
    requires Indexes(a, n) && multiset(a) == multiset(b)
    ensures Indexes(b, n)
  {
    forall j | 0 <= j < |b|
      ensures 0 <= b[j] < n
    {
      assert b[j] in multiset(b);
      var i :| 0 <= i < |a| && a[i] == b[j];
    }
  }

  /** Dropping a's last member from a, and a matching occurrence of it from b, keeps their multisets equal. */
  lemma RemoveMatching(a: seq<int>, b: seq<int>, p: int)
    requires a != [] && multiset(a) == multiset(b) && 0 <= p < |b| && b[p] == a[|a| - 1]
    ensures multiset(a[..|a| - 1]) == multiset(b[..p] + b[p + 1..])
  {
    var x := a[|a| - 1];
    var a', b' := a[..|a| - 1], b[..p] + b[p + 1..];
    MultisetDropAt(a, |a| - 1);
    MultisetDropAt(b, p);
    assert a[..|a| - 1] + a[|a|..] == a';
    assert multiset(a') + multiset{x} == multiset(b') + multiset{x};
    forall y
      ensures multiset(a')[y] == multiset(b')[y]
    {
      assert (multiset(a') + multiset{x})[y] == (multiset(b') + multiset{x})[y];
    }
  }

  /** A sequence's members are those left after dropping position p, plus the one at p. */
  lemma MultisetDropAt(s: seq<int>, p: int)
    requires 0 <= p < |s|
    ensures multiset(s) == multiset(s[..p] + s[p + 1..]) + multiset{s[p]}
  {
    assert s == s[..p] + [s[p]] + s[p + 1..];
  }

  /** A sum reads the vectors of its members and of no other boid. */
  lemma {:induction false} SumOfReadsMembers(members: seq<int>, values: seq<Vec3>, values': seq<Vec3>)
    requires Indexes(members, |values|) && Indexes(members, |values'|)
    requires forall j | 0 <= j < |members| :: values[members[j]] == values'[members[j]]
    ensures SumOf(members, values) == SumOf(members, values')
    decreases |members|
  {
    if members != [] {
      SumOfReadsMembers(members[..|members| - 1], values, values');
    }
  }

  /** The stored average does not depend on the order the grid lists the members in. */
  lemma AverageOfPermutation(a: seq<int>, b: seq<int>, values: seq<Vec3>)
    requires Indexes(a, |values|) && multiset(a) == multiset(b)
    ensures Indexes(b, |values|) && AverageOf(a, values) == AverageOf(b, values)
  {
    SumOfPermutation(a, b, values);
    assert |a| == |multiset(a)| == |multiset(b)| == |b|;
  }

  /**
   * Team isolation for the cached averages: in a consistent grid, the
   * average of boid i's bucket is the same for any two position (or
   * velocity) arrays that agree on the boids of i's team.
   */
  lemma AverageIsTeamLocal(g: Grid, teams: seq<int>, cellsCount: int, teamsCount: int, i: int,
                           values: seq<Vec3>, values': seq<Vec3>)
    requires Consistent(g, teams, cellsCount) && InRange(g, teams, cellsCount, teamsCount)
    requires 0 <= i < |teams| && |values| == |values'| == |teams|
    requires forall b | 0 <= b < |teams| && teams[b] == teams[i] :: values[b] == values'[b]
    ensures var bucket := Values(g.cells, Key(g.cellIndexes[i], teams[i], cellsCount));
      && Indexes(bucket, |values|)
      && AverageOf(bucket, values) == AverageOf(bucket, values')
  {
    var bucket := Values(g.cells, Key(g.cellIndexes[i], teams[i], cellsCount));
    forall j | 0 <= j < |bucket|
      ensures 0 <= bucket[j] < |teams| && values[bucket[j]] == values'[bucket[j]]
    {
      assert bucket[j] in bucket;
      BucketSharesTeam(g, teams, cellsCount, teamsCount, i, bucket[j]);
    }
    SumOfReadsMembers(bucket, values, values');
  }

  /** Every bucket of a consistent grid lists only boid indices. */
  lemma BucketIndexes(g: Grid, teams: seq<int>, cellsCount: int, k: int)
    requires Consistent(g, teams, cellsCount)
    ensures Indexes(Values(g.cells, k), |teams|)
  {
    forall j | 0 <= j < |Values(g.cells, k)|
      ensures 0 <= Values(g.cells, k)[j] < |teams|
    {
      var m := Values(g.cells, k)[j];
      assert m in Values(g.cells, k);
      Listed(g, teams, cellsCount, k, m);
    }
  }

  /** With the corrected start, every boid's own bucket has a member, so its average is defined. */
  lemma CompleteAveragesDefined(g: Grid, teams: seq<int>, cellsCount: int, values: seq<Vec3>, i: int)
    requires Complete(g, teams, cellsCount) && |values| == |teams| && 0 <= i < |teams|
    ensures var bucket := Values(g.cells, Key(g.cellIndexes[i], teams[i], cellsCount));
      Indexes(bucket, |values|) && AverageOf(bucket, values).Mean?
  {
    BucketIndexes(g, teams, cellsCount, Key(g.cellIndexes[i], teams[i], cellsCount));
    assert Present(g, teams, cellsCount, i);
  }

  /**
   * As written, a lone boid whose first predicted cell is 0 is never added
   * to the grid, so the bucket it reads its averages from is empty and
   * its cached average is NaN.
   */
  lemma LoneBoidInCellZeroReadsNaN(cellsCount: int, positions: seq<Vec3>)
    requires |positions| == 1
    ensures var g := ReindexAll(Initial(1), [0], cellsCount, [0]);
      var bucket := Values(g.cells, Key(g.cellIndexes[0], 0, cellsCount));
      Indexes(bucket, 1) && AverageOf(bucket, positions) == NaN
  {
    var g := ReindexAll(Initial(1), [0], cellsCount, [0]);
    assert g.cells == map[];
  }
}
