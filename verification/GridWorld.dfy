/** The tile grid: walkability, legal moves, walks and their costs, the octile distance. */
module GridWorld {
  import opened Arith

  const WIDTH: int := 2000
  const HEIGHT: int := 2000
  const TILES: int := WIDTH * HEIGHT
  const DIAGONAL: real := 1.41421356

  datatype Tile = Tile(x: int, z: int)

  /** The flat walkability table, one entry per tile in x-major order. */
  type Grid = g: seq<bool> | |g| == TILES witness seq(TILES, _ => true)

  predicate InGrid(t: Tile) {
    0 <= t.x < WIDTH && 0 <= t.z < HEIGHT
  }

  function Index(t: Tile): int {
    t.x * HEIGHT + t.z
  }

  lemma IndexIsInjective(t: Tile, u: Tile)
    requires InGrid(t) && InGrid(u)
    ensures 0 <= Index(t) < TILES
    ensures Index(t) == Index(u) <==> t == u
  {}

  predicate IsWalkable(grid: Grid, t: Tile) {
    if t.x < 0 || t.x >= WIDTH || t.z < 0 || t.z >= HEIGHT then false else grid[Index(t)]
  }

  /** The grid whose free tiles are these. */
  function GridOf(free: Tile -> bool): Grid {
    seq(TILES, k => free(Tile(k / HEIGHT, k % HEIGHT)))
  }

  lemma GridOfTile(free: Tile -> bool, t: Tile)
    requires InGrid(t)
    ensures IsWalkable(GridOf(free), t) <==> free(t)
  {
    IndexIsInjective(t, t);
    DivModUnique(Index(t), HEIGHT, t.x, t.z);
  }

  /** Rounds to a tile and clamps it into the grid. */
  function SnapToTile(x: real, z: real): (t: Tile)
    ensures InGrid(t)
  {
    Tile(Clamp(Round(x), 0, WIDTH - 1), Clamp(Round(z), 0, HEIGHT - 1))
  }

  function Distance(x: real, n: int): real {
    if x < n as real then n as real - x else x - n as real
  }

  /** Rounding is off by half at most, and a half goes away from zero. */
  lemma RoundIsNear(v: real, r: int)
    requires r == Round(v)
    ensures v >= 0.0 ==> r >= 0 && r as real - 0.5 <= v < r as real + 0.5
    ensures v < 0.0 ==> r <= 0 && r as real - 0.5 < v <= r as real + 0.5
  {
    if v >= 0.0 {
      assert r as real <= v + 0.5 < (r + 1) as real;
    } else {
      assert (-r) as real <= -v + 0.5 < (-r + 1) as real;
    }
  }

  lemma ClampIsNear(v: real, r: int, n: int, u: int)
    requires 0 <= u < n && (if v >= 0.0 then r >= 0 && r as real - 0.5 <= v < r as real + 0.5 else r <= 0)
    ensures var t := Clamp(r, 0, n - 1);
            Distance(v, t) <= Distance(v, u) && (Distance(v, t) == Distance(v, u) ==> u <= t)
  {
    var t := Clamp(r, 0, n - 1);
    assert u < t || u == t || u > t;
    assert u < t ==> u as real + 1.0 <= t as real;
    assert u > t ==> t as real + 1.0 <= u as real;
  }

  lemma SnapOneAxis(v: real, n: int, u: int)
    requires 0 <= u < n
    ensures var t := Clamp(Round(v), 0, n - 1);
            Distance(v, t) <= Distance(v, u) && (Distance(v, t) == Distance(v, u) ==> u <= t)
  {
    RoundIsNear(v, Round(v));
    ClampIsNear(v, Round(v), n, u);
  }

  /**
   Along either axis no tile of the grid is nearer than the snapped one, and of two equally near the larger is taken.
   */
  lemma SnapIsNearestTile(x: real, z: real, u: Tile)
    requires InGrid(u)
    ensures var t := SnapToTile(x, z);
            && Distance(x, t.x) <= Distance(x, u.x) && (Distance(x, t.x) == Distance(x, u.x) ==> u.x <= t.x)
            && Distance(z, t.z) <= Distance(z, u.z) && (Distance(z, t.z) == Distance(z, u.z) ==> u.z <= t.z)
  {
    SnapOneAxis(x, WIDTH, u.x);
    SnapOneAxis(z, HEIGHT, u.z);
  }

  /** Every point less than half a unit from a tile, along both axes, snaps to it. */
  lemma InteriorSnaps(t: Tile, x: real, z: real)
    requires InGrid(t) && Distance(x, t.x) < 0.5 && Distance(z, t.z) < 0.5
    ensures SnapToTile(x, z) == t
  {
    SnapIsNearestTile(x, z, t);
  }

  /** One step to one of the eight neighbours; a diagonal step needs both side tiles free as well. */
  predicate LegalMove(grid: Grid, a: Tile, b: Tile) {
    && a != b
    && -1 <= b.x - a.x <= 1
    && -1 <= b.z - a.z <= 1
    && IsWalkable(grid, b)
    && (a.x != b.x && a.z != b.z ==> IsWalkable(grid, Tile(b.x, a.z)) && IsWalkable(grid, Tile(a.x, b.z)))
  }

  /** A legal move in terms of the table. */
  lemma LegalMoveIff(grid: Grid, a: Tile, b: Tile)
    requires 0 <= a.x < WIDTH && 0 <= a.z < HEIGHT && 0 <= b.x < WIDTH && 0 <= b.z < HEIGHT
    ensures 0 <= b.x * HEIGHT + b.z < TILES && 0 <= b.x * HEIGHT + a.z < TILES && 0 <= a.x * HEIGHT + b.z < TILES
    ensures LegalMove(grid, a, b) <==>
              && (a.x != b.x || a.z != b.z) && -1 <= b.x - a.x <= 1 && -1 <= b.z - a.z <= 1
              && grid[b.x * HEIGHT + b.z]
              && (a.x != b.x && a.z != b.z ==> grid[b.x * HEIGHT + a.z] && grid[a.x * HEIGHT + b.z])
  {}

  /** Off the table no tile can be moved to. */
  lemma NoMoveOffGrid(grid: Grid, a: Tile, b: Tile)
    requires b.x < 0 || b.x >= WIDTH || b.z < 0 || b.z >= HEIGHT
    ensures !LegalMove(grid, a, b)
  {}

  function MoveCost(a: Tile, b: Tile): real {
    if a.x != b.x && a.z != b.z then DIAGONAL else 1.0
  }

  /** A non-empty tile sequence whose consecutive tiles are legal moves; the first tile may be blocked. */
  ghost predicate Walk(grid: Grid, p: seq<Tile>) {
    && |p| > 0
    && forall i :: 0 <= i < |p| - 1 ==> LegalMove(grid, p[i], p[i + 1])
  }

  ghost predicate WalkFromTo(grid: Grid, p: seq<Tile>, a: Tile, b: Tile) {
    Walk(grid, p) && p[0] == a && p[|p| - 1] == b
  }

  ghost predicate Connected(grid: Grid, a: Tile, b: Tile) {
    exists p :: WalkFromTo(grid, p, a, b)
  }

  function WalkCost(p: seq<Tile>): real {
    if |p| <= 1 then 0.0 else WalkCost(p[..|p| - 1]) + MoveCost(p[|p| - 2], p[|p| - 1])
  }

  lemma {:induction false} WalkCostBounds(p: seq<Tile>)
    requires |p| > 0
    ensures (|p| - 1) as real <= WalkCost(p) <= DIAGONAL * (|p| - 1) as real
  {
    if |p| > 1 {
      WalkCostBounds(p[..|p| - 1]);
    }
  }

  function Octile(a: Tile, b: Tile): real {
    var dx := Abs(a.x - b.x);
    var dz := Abs(a.z - b.z);
    (dx + dz) as real + (DIAGONAL - 2.0) * Min(dx, dz) as real
  }

  /** The octile distance is zero exactly on the target and never drops by more than a move costs. */
  lemma OctileIsConsistent(grid: Grid, a: Tile, b: Tile, goal: Tile)
    ensures Octile(goal, goal) == 0.0
    ensures a != goal ==> Octile(a, goal) >= 1.0
    ensures LegalMove(grid, a, b) ==> Octile(a, goal) <= MoveCost(a, b) + Octile(b, goal)
  {
    var dx, dz := Abs(a.x - goal.x), Abs(a.z - goal.z);
    assert (dx + dz) as real == dx as real + dz as real;
    assert a != goal ==> dx + dz >= 1;
    assert Min(dx, dz) as real * 2.0 <= (dx + dz) as real;
  }

  /** No legal walk is cheaper than the octile distance between its ends. */
  lemma {:induction false} OctileIsAdmissible(grid: Grid, p: seq<Tile>)
    requires Walk(grid, p)
    ensures Octile(p[0], p[|p| - 1]) <= WalkCost(p)
  {
    var last := p[|p| - 1];
    OctileAlong(grid, p, 0, last);
    OctileIsConsistent(grid, last, last, last);
    assert WalkCost(p[..1]) == 0.0;
  }

  /** What is left of a walk costs at least the octile distance it gains towards any target. */
  lemma {:induction false} OctileAlong(grid: Grid, p: seq<Tile>, k: nat, goal: Tile)
    requires Walk(grid, p) && k < |p|
    ensures Octile(p[k], goal) <= WalkCost(p) - WalkCost(p[..k + 1]) + Octile(p[|p| - 1], goal)
    decreases |p| - k
  {
    if k + 1 < |p| {
      OctileIsConsistent(grid, p[k], p[k + 1], goal);
      OctileAlong(grid, p, k + 1, goal);
      assert p[..k + 2][..k + 1] == p[..k + 1];
    } else {
      assert p[..k + 1] == p;
    }
  }

  /** A part of a walk costs no more than the whole. */
  lemma PrefixIsCheaper(grid: Grid, p: seq<Tile>, k: nat)
    requires Walk(grid, p) && k < |p|
    ensures WalkCost(p[..k + 1]) <= WalkCost(p)
  {
    var last := p[|p| - 1];
    OctileAlong(grid, p, k, last);
    OctileIsConsistent(grid, p[k], p[k], last);
  }

  /** A duplicate-free sequence of numbers below n has at most n entries. */
  lemma {:induction false} Pigeonhole(s: seq<int>, n: nat)
    requires forall k :: 0 <= k < |s| ==> 0 <= s[k] < n
    requires forall i, j :: 0 <= i < j < |s| ==> s[i] != s[j]
    ensures |s| <= n
  {
    if |s| == 0 {
      return;
    }
    assert s[0] < n;
    if n - 1 in s {
      var k :| 0 <= k < |s| && s[k] == n - 1;
      Pigeonhole(s[..k] + s[k + 1..], n - 1);
    } else {
      Pigeonhole(s, n - 1);
    }
  }

  /** Tiles that are pairwise different are at most as many as the grid has. */
  lemma DistinctTilesFit(p: seq<Tile>)
    requires forall i :: 0 <= i < |p| ==> InGrid(p[i])
    requires forall i, j :: 0 <= i < j < |p| ==> p[i] != p[j]
    ensures |p| <= TILES
  {
    Pigeonhole(seq(|p|, i requires 0 <= i < |p| => Index(p[i])), TILES);
  }
}
