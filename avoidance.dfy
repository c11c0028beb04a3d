// BoidsCacheAvoidenceJob: boid i walks the bucket of its own (cell, team)
// key and, for every other boid listed there, adds GetStep: the unit vector
// pointing away from that neighbour when it is closer than avoidanceRange,
// and nothing otherwise.
//
// A unit vector d / |d| needs a square root, which exact reals do not give;
// the model therefore keeps each push as its un-normalised offset d (the
// push itself is d scaled to length 1) and keeps the 0 / 0 of a neighbour
// at exactly the same position as NaN.
module Avoidance {
  import opened Geometry
  import opened MultiMap
  import opened Reindex
  import Aggregation

  /** What GetStep returns: no push, a push away along the offset d, or the NaN of 0 / sqrt(0). */
  datatype Step = NoStep | Push(offset: Vec3) | Undefined

  /** A cached avoidance velocity: the sum of the pushes d / |d| over these offsets, or NaN. */
  datatype AvoidanceVelocity = Pushes(offsets: seq<Vec3>) | NaN

  /** Whether a neighbour at offset d (self minus other) is within avoidanceRange: |d|^2 < range^2. */
  predicate InReach(d: Vec3, avoidanceRange: real)
  {
    LengthSq(d) < Square(avoidanceRange)
  }

  /** GetStep(self, other). */
  function StepOf(self: Vec3, other: Vec3, avoidanceRange: real): (s: Step)
    ensures s.Push? ==> s.offset == Sub(self, other)
  {
    var d := Sub(self, other);
    if InReach(d, avoidanceRange) then (if IsZero(d) then Undefined else Push(d))
    else NoStep
  }

  /** `step += GetStep(...)`: a NaN absorbs everything added to it. */
  function Accumulate(a: AvoidanceVelocity, s: Step): AvoidanceVelocity
  {
    if a.NaN? || s.Undefined? then NaN
    else if s.NoStep? then a
    else Pushes(a.offsets + [s.offset])
  }

  /** The avoidance boid i computes from a bucket, skipping itself, in iteration order. */
  function AvoidanceOf(members: seq<int>, i: int, positions: seq<Vec3>, avoidanceRange: real): AvoidanceVelocity
    requires Aggregation.Indexes(members, |positions|) && 0 <= i < |positions|
  {
    if members == [] then Pushes([])
    else
      var rest := AvoidanceOf(members[..|members| - 1], i, positions, avoidanceRange);
      var other := members[|members| - 1];
      if other == i then rest
      else Accumulate(rest, StepOf(positions[i], positions[other], avoidanceRange))
  }

  /**
   * BoidsCacheAvoidenceJob.Execute for boid i, up to its store: walk i's
   * bucket and add the step away from every listed boid other than i.
   */
  method AvoidanceFor(members: seq<int>, i: int, positions: array<Vec3>, avoidanceRange: real)
    returns (step: AvoidanceVelocity)
    requires Aggregation.Indexes(members, positions.Length) && 0 <= i < positions.Length
    ensures step == AvoidanceOf(members, i, positions[..], avoidanceRange)
  {
    step := Pushes([]);
    var n := 0;
    while n < |members|
      invariant 0 <= n <= |members|
      invariant step == AvoidanceOf(members[..n], i, positions[..], avoidanceRange)
    {
      var other := members[n];
      assert members[..n + 1][..n] == members[..n];
      if other != i {
        step := Accumulate(step, StepOf(positions[i], positions[other], avoidanceRange));
      }
      n := n + 1;
    }
    assert members[..n] == members;
  }

  /**
   * BoidsCacheAvoidenceJob over every boid: slot i of the avoidance cache
   * gets the avoidance boid i computes from the bucket of its own stored
   * cell and team.
   */
  method CacheAvoidance(cells: NativeMultiHashMap, cellsCount: int, boidsCellIndexes: array<int>,
                        boidsTeamIndexes: array<int>, boidsPosition: array<Vec3>,
                        boidsAvoidanceVelocities: array<AvoidanceVelocity>, avoidanceRange: real)
    requires boidsCellIndexes.Length == boidsTeamIndexes.Length == boidsPosition.Length == boidsAvoidanceVelocities.Length
    requires forall i | 0 <= i < boidsPosition.Length ::
      Aggregation.Indexes(Values(cells.entries, Key(boidsCellIndexes[i], boidsTeamIndexes[i], cellsCount)), boidsPosition.Length)
    modifies boidsAvoidanceVelocities
    ensures forall i | 0 <= i < boidsPosition.Length ::
      boidsAvoidanceVelocities[i] ==
        AvoidanceOf(Values(cells.entries, Key(boidsCellIndexes[i], boidsTeamIndexes[i], cellsCount)), i, boidsPosition[..], avoidanceRange)
  {
    for boidIndex := 0 to boidsPosition.Length
      invariant forall i | 0 <= i < boidIndex ::
        boidsAvoidanceVelocities[i] ==
          AvoidanceOf(Values(cells.entries, Key(boidsCellIndexes[i], boidsTeamIndexes[i], cellsCount)), i, boidsPosition[..], avoidanceRange)
    {
      var cellIndex := boidsCellIndexes[boidIndex];
      var teamIndex := boidsTeamIndexes[boidIndex];
      var step := AvoidanceFor(Values(cells.entries, Key(cellIndex, teamIndex, cellsCount)), boidIndex, boidsPosition, avoidanceRange);
      boidsAvoidanceVelocities[boidIndex] := step;
    }
  }

  // ---------------------------------------------------------------------
  // A reference definition: the boids that push i

  /** The members other than i that are within avoidanceRange of i, in iteration order. */
  function Contributors(members: seq<int>, i: int, positions: seq<Vec3>, avoidanceRange: real): (c: seq<int>)
    requires Aggregation.Indexes(members, |positions|) && 0 <= i < |positions|
    ensures forall o :: o in c <==>
      o in members && o != i && InReach(Sub(positions[i], positions[o]), avoidanceRange)
    ensures Aggregation.Indexes(c, |positions|)
  {
    if members == [] then []
    else
      var init := members[..|members| - 1];
      var other := members[|members| - 1];
      assert forall o | o in init :: o in members;
      assert members == init + [other];
      var rest := Contributors(init, i, positions, avoidanceRange);
      if other != i && InReach(Sub(positions[i], positions[other]), avoidanceRange) then rest + [other]
      else rest
  }

  /** The offsets from each of the given boids to position p. */
  function OffsetsFrom(p: Vec3, boids: seq<int>, positions: seq<Vec3>): (d: seq<Vec3>)
    requires Aggregation.Indexes(boids, |positions|)
    ensures |d| == |boids| && forall k | 0 <= k < |boids| :: d[k] == Sub(p, positions[boids[k]])
  {
    seq(|boids|, k requires 0 <= k < |boids| => Sub(p, positions[boids[k]]))
  }

  /** Some contributor sits exactly at position p. */
  ghost predicate Coincident(boids: seq<int>, p: Vec3, positions: seq<Vec3>)
    requires Aggregation.Indexes(boids, |positions|)
  {
    exists k | 0 <= k < |boids| :: positions[boids[k]] == p
  }

  lemma OffsetsFromAppend(p: Vec3, boids: seq<int>, other: int, positions: seq<Vec3>)
    requires Aggregation.Indexes(boids, |positions|) && 0 <= other < |positions|
    ensures Aggregation.Indexes(boids + [other], |positions|)
    ensures OffsetsFrom(p, boids + [other], positions) == OffsetsFrom(p, boids, positions) + [Sub(p, positions[other])]
  {
    assert Aggregation.Indexes(boids + [other], |positions|);
  }

  lemma CoincidentAppend(boids: seq<int>, other: int, p: Vec3, positions: seq<Vec3>)
    requires Aggregation.Indexes(boids, |positions|) && 0 <= other < |positions|
    ensures Aggregation.Indexes(boids + [other], |positions|)
    ensures Coincident(boids + [other], p, positions) <==> Coincident(boids, p, positions) || positions[other] == p
  {
    var c := boids + [other];
    assert Aggregation.Indexes(c, |positions|);
    if Coincident(c, p, positions) {
      var k :| 0 <= k < |c| && positions[c[k]] == p;
      if k < |boids| {
        assert positions[boids[k]] == p;
      }
    }
    if Coincident(boids, p, positions) {
      var k :| 0 <= k < |boids| && positions[boids[k]] == p;
      assert positions[c[k]] == p;
    }
    if positions[other] == p {
      assert positions[c[|boids|]] == p;
    }
  }

  /**
   * The avoidance of boid i is NaN exactly when a contributor sits on i's
   * position; otherwise it pushes i away from every contributor, once per
   * listing, and from nobody else.
   */
  lemma {:induction false} AvoidanceMatchesContributors(members: seq<int>, i: int, positions: seq<Vec3>, avoidanceRange: real)
    requires Aggregation.Indexes(members, |positions|) && 0 <= i < |positions|
    ensures var c := Contributors(members, i, positions, avoidanceRange);
      AvoidanceOf(members, i, positions, avoidanceRange) ==
        if Coincident(c, positions[i], positions) then NaN
        else Pushes(OffsetsFrom(positions[i], c, positions))
    decreases |members|
  {
    if members != [] {
      var init := members[..|members| - 1];
      var other := members[|members| - 1];
      var p := positions[i];
      AvoidanceMatchesContributors(init, i, positions, avoidanceRange);
      if other != i && InReach(Sub(p, positions[other]), avoidanceRange) {
        var rest := Contributors(init, i, positions, avoidanceRange);
        PushingStep(members, i, positions, avoidanceRange);
        StepInReach(p, positions[other], avoidanceRange);
        AccumulateMatches(AvoidanceOf(init, i, positions, avoidanceRange), rest, other, p, positions,
                          StepOf(p, positions[other], avoidanceRange));
      } else {
        IdleStep(members, i, positions, avoidanceRange);
      }
    }
  }

  /** Within reach, GetStep is NaN for a neighbour on the same spot and a push along the offset otherwise. */
  lemma StepInReach(self: Vec3, other: Vec3, avoidanceRange: real)
    requires InReach(Sub(self, other), avoidanceRange)
    ensures StepOf(self, other, avoidanceRange) == if other == self then Undefined else Push(Sub(self, other))
  {
    SubZeroIffEqual(self, other);
  }

  /** Adding the step of one more contributor keeps the avoidance equal to its reference value. */
  lemma AccumulateMatches(prev: AvoidanceVelocity, rest: seq<int>, other: int, p: Vec3, positions: seq<Vec3>, step: Step)
    requires Aggregation.Indexes(rest, |positions|) && 0 <= other < |positions|
    requires prev == if Coincident(rest, p, positions) then NaN else Pushes(OffsetsFrom(p, rest, positions))
    requires step == if positions[other] == p then Undefined else Push(Sub(p, positions[other]))
    ensures Aggregation.Indexes(rest + [other], |positions|)
    ensures Accumulate(prev, step) ==
      if Coincident(rest + [other], p, positions) then NaN else Pushes(OffsetsFrom(p, rest + [other], positions))
  {
    OffsetsFromAppend(p, rest, other, positions);
    CoincidentAppend(rest, other, p, positions);
  }

  /** A last member that pushes i is both a new contributor and a new step. */
  lemma PushingStep(members: seq<int>, i: int, positions: seq<Vec3>, avoidanceRange: real)
    requires Aggregation.Indexes(members, |positions|) && 0 <= i < |positions| && members != []
    requires var other := members[|members| - 1];
      other != i && InReach(Sub(positions[i], positions[other]), avoidanceRange)
    ensures var init, other := members[..|members| - 1], members[|members| - 1];
      && Aggregation.Indexes(init, |positions|)
      && Contributors(members, i, positions, avoidanceRange) == Contributors(init, i, positions, avoidanceRange) + [other]
      && AvoidanceOf(members, i, positions, avoidanceRange) ==
           Accumulate(AvoidanceOf(init, i, positions, avoidanceRange), StepOf(positions[i], positions[other], avoidanceRange))
  {
  }

  /** A last member that is i itself, or out of reach, changes neither the contributors nor the avoidance. */
  lemma IdleStep(members: seq<int>, i: int, positions: seq<Vec3>, avoidanceRange: real)
    requires Aggregation.Indexes(members, |positions|) && 0 <= i < |positions| && members != []
    requires var other := members[|members| - 1];
      !(other != i && InReach(Sub(positions[i], positions[other]), avoidanceRange))
    ensures var init := members[..|members| - 1];
      && Aggregation.Indexes(init, |positions|)
      && Contributors(members, i, positions, avoidanceRange) == Contributors(init, i, positions, avoidanceRange)
      && AvoidanceOf(members, i, positions, avoidanceRange) == AvoidanceOf(init, i, positions, avoidanceRange)
  {
  }

  // ---------------------------------------------------------------------
  // Properties

  /** GetStep is antisymmetric: the push of b on a mirrors the push of a on b. */
  lemma StepAntisymmetric(a: Vec3, b: Vec3, avoidanceRange: real)
    ensures StepOf(a, b, avoidanceRange).NoStep? <==> StepOf(b, a, avoidanceRange).NoStep?
    ensures StepOf(a, b, avoidanceRange).Undefined? <==> StepOf(b, a, avoidanceRange).Undefined?
    ensures StepOf(a, b, avoidanceRange).Push? ==>
      StepOf(b, a, avoidanceRange) == Push(Neg(StepOf(a, b, avoidanceRange).offset))
  {
    assert Sub(b, a) == Neg(Sub(a, b));
    assert LengthSq(Sub(b, a)) == LengthSq(Sub(a, b));
  }

  /** The avoidance of a boid alone in its bucket, or with only itself listed, is zero. */
  lemma {:induction false} AvoidanceOfSelfOnly(members: seq<int>, i: int, positions: seq<Vec3>, avoidanceRange: real)
    requires Aggregation.Indexes(members, |positions|) && 0 <= i < |positions|
    requires forall k | 0 <= k < |members| :: members[k] == i
    ensures AvoidanceOf(members, i, positions, avoidanceRange) == Pushes([])
    decreases |members|
  {
    if members != [] {
      AvoidanceOfSelfOnly(members[..|members| - 1], i, positions, avoidanceRange);
    }
  }

  /**
   * Two boids sharing a bucket push each other apart symmetrically: each
   * is pushed along the other's offset reversed, both are NaN together,
   * or neither is pushed.
   */
  lemma PairAvoidanceOpposite(members: seq<int>, i: int, j: int, positions: seq<Vec3>, avoidanceRange: real)
    requires 0 <= i < |positions| && 0 <= j < |positions| && i != j
    requires members == [i, j] || members == [j, i]
    ensures Aggregation.Indexes(members, |positions|)
    ensures var a := AvoidanceOf(members, i, positions, avoidanceRange);
      var b := AvoidanceOf(members, j, positions, avoidanceRange);
      && (a.NaN? <==> b.NaN?)
      && (a.Pushes? ==> |a.offsets| == |b.offsets| <= 1)
      && (a.Pushes? && |a.offsets| == 1 ==> b.offsets[0] == Neg(a.offsets[0]))
  {
    PairAvoidance(members, i, j, positions, avoidanceRange);
    PairAvoidance(members, j, i, positions, avoidanceRange);
    StepAntisymmetric(positions[i], positions[j], avoidanceRange);
  }

  /** In a bucket of two, a boid is pushed by the other alone. */
  lemma PairAvoidance(members: seq<int>, i: int, j: int, positions: seq<Vec3>, avoidanceRange: real)
    requires 0 <= i < |positions| && 0 <= j < |positions| && i != j
    requires members == [i, j] || members == [j, i]
    ensures Aggregation.Indexes(members, |positions|)
    ensures AvoidanceOf(members, i, positions, avoidanceRange) ==
      Accumulate(Pushes([]), StepOf(positions[i], positions[j], avoidanceRange))
  {
    var first := members[..1];
    assert first == [members[0]] && first[..0] == [];
    assert AvoidanceOf(first[..0], i, positions, avoidanceRange) == Pushes([]);
    if members[0] == i {
      assert AvoidanceOf(first, i, positions, avoidanceRange) == Pushes([]);
    } else {
      assert AvoidanceOf(first, i, positions, avoidanceRange) ==
        Accumulate(Pushes([]), StepOf(positions[i], positions[j], avoidanceRange));
    }
  }

  /** Boid i's avoidance reads the positions of i and of its bucket's members only. */
  lemma {:induction false} AvoidanceReadsMembers(members: seq<int>, i: int, positions: seq<Vec3>,
                                                 positions': seq<Vec3>, avoidanceRange: real)
    requires Aggregation.Indexes(members, |positions|) && Aggregation.Indexes(members, |positions'|)
    requires 0 <= i < |positions| && i < |positions'| && positions[i] == positions'[i]
    requires forall k | 0 <= k < |members| :: positions[members[k]] == positions'[members[k]]
    ensures AvoidanceOf(members, i, positions, avoidanceRange) == AvoidanceOf(members, i, positions', avoidanceRange)
    decreases |members|
  {
    if members != [] {
      AvoidanceReadsMembers(members[..|members| - 1], i, positions, positions', avoidanceRange);
    }
  }

  /**
   * In a consistent grid a boid of another team never pushes boid i,
   * whatever its position, even one equal to i's.
   */
  lemma OtherTeamNeverPushes(g: Grid, teams: seq<int>, cellsCount: int, teamsCount: int,
                             i: int, j: int, positions: seq<Vec3>, avoidanceRange: real)
    requires Consistent(g, teams, cellsCount) && InRange(g, teams, cellsCount, teamsCount)
    requires 0 <= i < |teams| && 0 <= j < |teams| && teams[j] != teams[i] && |positions| == |teams|
    ensures var bucket := Values(g.cells, Key(g.cellIndexes[i], teams[i], cellsCount));
      Aggregation.Indexes(bucket, |positions|) && j !in Contributors(bucket, i, positions, avoidanceRange)
  {
    var bucket := Values(g.cells, Key(g.cellIndexes[i], teams[i], cellsCount));
    Aggregation.BucketIndexes(g, teams, cellsCount, Key(g.cellIndexes[i], teams[i], cellsCount));
    if j in bucket {
      BucketSharesTeam(g, teams, cellsCount, teamsCount, i, j);
    }
  }

  /**
   * Team isolation: boid i's avoidance is the same for any two position
   * arrays that agree on the boids of i's team.
   */
  lemma AvoidanceIsTeamLocal(g: Grid, teams: seq<int>, cellsCount: int, teamsCount: int, i: int,
                             positions: seq<Vec3>, positions': seq<Vec3>, avoidanceRange: real)
    requires Consistent(g, teams, cellsCount) && InRange(g, teams, cellsCount, teamsCount)
    requires 0 <= i < |teams| && |positions| == |positions'| == |teams|
    requires forall b | 0 <= b < |teams| && teams[b] == teams[i] :: positions[b] == positions'[b]
    ensures var bucket := Values(g.cells, Key(g.cellIndexes[i], teams[i], cellsCount));
      && Aggregation.Indexes(bucket, |positions|)
      && AvoidanceOf(bucket, i, positions, avoidanceRange) == AvoidanceOf(bucket, i, positions', avoidanceRange)
  {
    var bucket := Values(g.cells, Key(g.cellIndexes[i], teams[i], cellsCount));
    forall k | 0 <= k < |bucket|
      ensures 0 <= bucket[k] < |teams| && positions[bucket[k]] == positions'[bucket[k]]
    {
      assert bucket[k] in bucket;
      BucketSharesTeam(g, teams, cellsCount, teamsCount, i, bucket[k]);
    }
    AvoidanceReadsMembers(bucket, i, positions, positions', avoidanceRange);
  }

  lemma ZeroOffsetInReach(d: Vec3, avoidanceRange: real)
    requires IsZero(d) && Square(avoidanceRange) > 0.0
    ensures InReach(d, avoidanceRange)
  {
    assert LengthSq(d) == 0.0;
  }

  /** A same-team neighbour at exactly boid i's position makes i's cached avoidance NaN. */
  lemma CoincidentNeighbourIsNaN(members: seq<int>, i: int, j: int, positions: seq<Vec3>, avoidanceRange: real)
    requires Aggregation.Indexes(members, |positions|) && 0 <= i < |positions|
    requires 0 <= j < |positions| && j in members && j != i && positions[j] == positions[i]
    requires Square(avoidanceRange) > 0.0
    ensures AvoidanceOf(members, i, positions, avoidanceRange).NaN?
  {
    CoincidentContributor(members, i, j, positions, avoidanceRange);
    AvoidanceMatchesContributors(members, i, positions, avoidanceRange);
  }

  lemma CoincidentContributor(members: seq<int>, i: int, j: int, positions: seq<Vec3>, avoidanceRange: real)
    requires Aggregation.Indexes(members, |positions|) && 0 <= i < |positions|
    requires 0 <= j < |positions| && j in members && j != i && positions[j] == positions[i]
    requires Square(avoidanceRange) > 0.0
    ensures Coincident(Contributors(members, i, positions, avoidanceRange), positions[i], positions)
  {
    var c := Contributors(members, i, positions, avoidanceRange);
    ZeroOffsetInReach(Sub(positions[i], positions[j]), avoidanceRange);
    assert j in c;
    var k :| 0 <= k < |c| && c[k] == j;
    assert positions[c[k]] == positions[i];
  }
}
