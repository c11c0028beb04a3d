// Cell geometry of the boid simulator's spatial grid: three-component
// vectors, the float-to-int cast, clamping, flattening of a cell's
// (x, y, z) coordinates into one cell index and back, and the composite
// (cell, team) key under which the grid buckets boids.
module Geometry {

  /** A float3 of the simulator, with exact real components. */
  datatype Vec3 = Vec3(x: real, y: real, z: real)

  /** An int3 of the simulator: per-axis cell coordinates or axis limits. */
  datatype Int3 = Int3(x: int, y: int, z: int)

  const Zero: Vec3 := Vec3(0.0, 0.0, 0.0)

  function Add(a: Vec3, b: Vec3): Vec3 { Vec3(a.x + b.x, a.y + b.y, a.z + b.z) }

  function Sub(a: Vec3, b: Vec3): Vec3 { Vec3(a.x - b.x, a.y - b.y, a.z - b.z) }

  function Neg(a: Vec3): Vec3 { Vec3(-a.x, -a.y, -a.z) }

  function Scale(a: Vec3, k: real): Vec3 { Vec3(a.x * k, a.y * k, a.z * k) }

  /** r * r, written through the sign of r so that Square(-r) and Square(r) reduce to one product. */
  function Square(r: real): real { if r < 0.0 then (-r) * (-r) else r * r }

  /** math.lengthsq */
  function LengthSq(a: Vec3): real { Square(a.x) + Square(a.y) + Square(a.z) }

  /** Component-wise division, as float3 / float3; every divisor must be non-zero. */
  function Divide(a: Vec3, b: Vec3): Vec3
    requires b.x != 0.0 && b.y != 0.0 && b.z != 0.0
  {
    Vec3(a.x / b.x, a.y / b.y, a.z / b.z)
  }

  predicate Positive(v: Vec3) { v.x > 0.0 && v.y > 0.0 && v.z > 0.0 }

  /** Every component is zero: the one vector whose length is 0. */
  predicate IsZero(v: Vec3) { v.x == 0.0 && v.y == 0.0 && v.z == 0.0 }

  /** The C# cast `(int)f`: drops the fractional part, rounding toward zero. */
  function Truncate(r: real): (t: int)
    ensures r >= 0.0 ==> 0 <= t && t as real <= r < t as real + 1.0
    ensures r < 0.0 ==> t <= 0 && t as real - 1.0 < r <= t as real
  {
    if r >= 0.0 then r.Floor else -((-r).Floor)
  }

  /** math.clamp(v, lo, hi), which Unity.Mathematics defines as max(lo, min(hi, v)). */
  function Clamp(v: int, lo: int, hi: int): (r: int)
    ensures lo <= hi ==> lo <= r <= hi
    ensures lo <= v <= hi ==> r == v
    ensures hi < lo ==> r == lo
    ensures v < lo ==> r == lo
    ensures lo <= hi < v ==> r == hi
  {
    var m := if v < hi then v else hi;
    if lo > m then lo else m
  }

  /** C#'s integer division, which truncates toward zero. */
  function CsDiv(a: int, b: int): int
    requires b != 0
  {
    var q := Abs(a) / Abs(b);
    if (a < 0) != (b < 0) then -q else q
  }

  /** C#'s remainder operator, whose sign follows the dividend. */
  function CsRem(a: int, b: int): int
    requires b != 0
  {
    a - b * CsDiv(a, b)
  }

  function Abs(a: int): nat { if a < 0 then -a else a }

  /** On a non-negative dividend and positive divisor C#'s operators agree with Dafny's. */
  lemma CsDivModNonNegative(a: int, b: int)
    requires a >= 0 && b > 0
    ensures CsDiv(a, b) == a / b && CsRem(a, b) == a % b
  {
  }

  /** The number of cells of a grid with the given axis limits (InitCells). */
  function CellsCount(limits: Int3): int
  {
    limits.x * limits.y * limits.z
  }

  predicate ValidLimits(limits: Int3)
  {
    limits.x >= 1 && limits.y >= 1 && limits.z >= 1
  }

  predicate InGrid(c: Int3, limits: Int3)
  {
    0 <= c.x < limits.x && 0 <= c.y < limits.y && 0 <= c.z < limits.z
  }

  /** GetCellIndex(int x, int y, int z): z-major, then y, then x. */
  function Flatten(c: Int3, limits: Int3): int
  {
    c.z * limits.x * limits.y + c.y * limits.x + c.x
  }

  /** GetCell3DIndexes: the (x, y, z) coordinates of a flat cell index. */
  function Cell3DIndexes(index: int, limits: Int3): Int3
    requires limits.x != 0 && limits.y != 0
  {
    var z := CsDiv(index, limits.x * limits.y);
    var rest := index - z * limits.x * limits.y;
    Int3(CsRem(rest, limits.x), CsDiv(rest, limits.x), z)
  }

  /**
   * GetCellIndex(int x, int y, int z) applied to three per-axis quotients,
   * each first clamped to its axis: the integer half of GetCellIndex(float3).
   */
  function CellIndexOfQuotients(q: Int3, limits: Int3): int
  {
    Flatten(ClampToGrid(q, limits), limits)
  }

  /** Axis value c is q moved to the nearest of the cells 0 .. limit - 1. */
  predicate NearestOnAxis(q: int, limit: int, c: int)
  {
    if q < 0 then c == 0 else if q >= limit then c == limit - 1 else c == q
  }

  function ClampToGrid(q: Int3, limits: Int3): (c: Int3)
    ensures ValidLimits(limits) ==> InGrid(c, limits)
    ensures InGrid(q, limits) ==> c == q
    ensures ValidLimits(limits) ==>
      NearestOnAxis(q.x, limits.x, c.x) && NearestOnAxis(q.y, limits.y, c.y) && NearestOnAxis(q.z, limits.z, c.z)
  {
    Int3(Clamp(q.x, 0, limits.x - 1), Clamp(q.y, 0, limits.y - 1), Clamp(q.z, 0, limits.z - 1))
  }

  /** The per-axis quotients of GetCellIndex(float3): (pos + worldHalfSize) / cellSize, cast to int. */
  function AxisQuotients(pos: Vec3, worldHalfSize: Vec3, cellSize: Vec3): Int3
    requires Positive(cellSize)
  {
    var p := Divide(Add(pos, worldHalfSize), cellSize);
    Int3(Truncate(p.x), Truncate(p.y), Truncate(p.z))
  }

  /** GetCellIndex(float3 pos): the cell containing pos, boundary cells absorbing everything outside. */
  function CellIndexOf(pos: Vec3, worldHalfSize: Vec3, cellSize: Vec3, limits: Int3): int
    requires Positive(cellSize)
  {
    CellIndexOfQuotients(AxisQuotients(pos, worldHalfSize, cellSize), limits)
  }

  /** The composite key of a (cell, team) bucket: cellIndex + cellsCount * teamIndex. */
  function Key(cell: int, team: int, cellsCount: int): int
  {
    cell + cellsCount * team
  }

  // ---------------------------------------------------------------------
  // Arithmetic helpers

  /** Two points are equal exactly when their difference is the zero vector. */
  lemma SubZeroIffEqual(a: Vec3, b: Vec3)
    ensures IsZero(Sub(a, b)) <==> a == b
  {
  }

  lemma MulLeftMono(a: int, b: int, k: int)
    requires a <= b && k >= 0
    ensures k * a <= k * b
  {
  }

  /** Division with remainder has a unique answer. */
  lemma DivModUnique(n: int, d: int, q: int, r: int)
    requires d > 0 && 0 <= r < d && n == q * d + r
    ensures n / d == q && n % d == r
  {
    var q0, r0 := n / d, n % d;
    assert n == q0 * d + r0;
    if q0 < q {
      MulLeftMono(q0 + 1, q, d);
    } else if q0 > q {
      MulLeftMono(q + 1, q0, d);
    }
  }

  // ---------------------------------------------------------------------
  // Properties of the geometry

  /** A grid with at least one cell per axis has at least one cell. */
  lemma CellsCountPositive(limits: Int3)
    requires ValidLimits(limits)
    ensures CellsCount(limits) >= 1
  {
    MulLeftMono(1, limits.y, limits.x);
    MulLeftMono(1, limits.z, limits.x * limits.y);
  }

  /** A cell inside the grid flattens to an index in [0, cellsCount). */
  lemma FlattenInRange(c: Int3, limits: Int3)
    requires InGrid(c, limits)
    ensures 0 <= Flatten(c, limits) < CellsCount(limits)
  {
    var X, Y, Z := limits.x, limits.y, limits.z;
    var plane := X * Y;
    MulLeftMono(c.y, Y - 1, X);
    assert c.y * X <= (Y - 1) * X;
    assert c.y * X + c.x < plane;
    MulLeftMono(c.z, Z - 1, plane);
    assert c.z * plane <= (Z - 1) * plane;
    assert c.z * X * Y == c.z * plane;
    assert CellsCount(limits) == Z * plane;
  }

  /** GetCell3DIndexes undoes GetCellIndex(x, y, z) on every cell inside the grid. */
  lemma Cell3DIndexesOfFlatten(c: Int3, limits: Int3)
    requires InGrid(c, limits)
    ensures Cell3DIndexes(Flatten(c, limits), limits) == c
  {
    var X, Y := limits.x, limits.y;
    var plane := X * Y;
    var n := Flatten(c, limits);
    FlattenInRange(c, limits);
    MulLeftMono(c.y, Y - 1, X);
    assert c.y * X + c.x < plane;
    assert n == c.z * plane + (c.y * X + c.x);
    DivModUnique(n, plane, c.z, c.y * X + c.x);
    CsDivModNonNegative(n, plane);
    var rest := n - c.z * X * Y;
    assert rest == c.y * X + c.x;
    DivModUnique(rest, X, c.y, c.x);
    CsDivModNonNegative(rest, X);
  }

  /** A quotient of an index below k * d by d is below k. */
  lemma QuotientBelow(n: int, d: int, k: int)
    requires d > 0 && 0 <= n < k * d
    ensures 0 <= n / d < k
  {
    var q := n / d;
    if q >= k {
      MulLeftMono(k, q, d);
    }
  }

  /** GetCellIndex(x, y, z) undoes GetCell3DIndexes on every index in [0, cellsCount). */
  lemma FlattenOfCell3DIndexes(index: int, limits: Int3)
    requires ValidLimits(limits) && 0 <= index < CellsCount(limits)
    ensures InGrid(Cell3DIndexes(index, limits), limits)
    ensures Flatten(Cell3DIndexes(index, limits), limits) == index
  {
    var X, Y, Z := limits.x, limits.y, limits.z;
    var plane := X * Y;
    assert plane >= 1 by { MulLeftMono(1, Y, X); }
    assert index < Z * plane;
    QuotientBelow(index, plane, Z);
    CsDivModNonNegative(index, plane);
    var z := index / plane;
    var rest := index % plane;
    assert rest == index - z * X * Y;
    QuotientBelow(rest, X, Y);
    CsDivModNonNegative(rest, X);
    var c := Cell3DIndexes(index, limits);
    assert c == Int3(rest % X, rest / X, z);
    assert rest == c.y * X + c.x;
  }

  /** Every quotient triple, however far outside the grid, lands in a valid cell. */
  lemma CellIndexOfQuotientsInRange(q: Int3, limits: Int3)
    requires ValidLimits(limits)
    ensures 0 <= CellIndexOfQuotients(q, limits) < CellsCount(limits)
    ensures InGrid(q, limits) ==> CellIndexOfQuotients(q, limits) == Flatten(q, limits)
  {
    FlattenInRange(ClampToGrid(q, limits), limits);
  }

  /** Every position, including one outside the world box, maps to a valid cell. */
  lemma CellIndexOfInRange(pos: Vec3, worldHalfSize: Vec3, cellSize: Vec3, limits: Int3)
    requires Positive(cellSize) && ValidLimits(limits)
    ensures 0 <= CellIndexOf(pos, worldHalfSize, cellSize, limits) < CellsCount(limits)
  {
    CellIndexOfQuotientsInRange(AxisQuotients(pos, worldHalfSize, cellSize), limits);
  }

  /** Composite keys of in-range cells and teams lie in [0, cellsCount * teamsCount). */
  lemma KeyInRange(cell: int, team: int, cellsCount: int, teamsCount: int)
    requires 0 <= cell < cellsCount && 0 <= team < teamsCount
    ensures 0 <= Key(cell, team, cellsCount) < cellsCount * teamsCount
  {
    MulLeftMono(team, teamsCount - 1, cellsCount);
    assert cellsCount * team <= cellsCount * (teamsCount - 1);
  }

  /** The composite key decomposes back into its cell and its team. */
  lemma KeyDecompose(cell: int, team: int, cellsCount: int)
    requires 0 <= cell < cellsCount && team >= 0
    ensures Key(cell, team, cellsCount) / cellsCount == team
    ensures Key(cell, team, cellsCount) % cellsCount == cell
  {
    DivModUnique(Key(cell, team, cellsCount), cellsCount, team, cell);
  }

  /** Distinct (cell, team) pairs get distinct keys: different teams never share a bucket. */
  lemma KeyInjective(cell1: int, team1: int, cell2: int, team2: int, cellsCount: int)
    requires 0 <= cell1 < cellsCount && 0 <= cell2 < cellsCount && team1 >= 0 && team2 >= 0
    requires Key(cell1, team1, cellsCount) == Key(cell2, team2, cellsCount)
    ensures cell1 == cell2 && team1 == team2
  {
    KeyDecompose(cell1, team1, cellsCount);
    KeyDecompose(cell2, team2, cellsCount);
  }
}
