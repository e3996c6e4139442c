/**
 Positions, tiles and waypoints, and the guard that gives up after two partial plans made close to the ones before.
 */
module RetryGuard {
  import opened Arith
  import opened GridWorld

  // ---- Positions

  /** Where a mover stands: anywhere, not only on tile centres. */
  datatype Point = Point(x: real, z: real)

  function TileOf(p: Point): Tile {
    SnapToTile(p.x, p.z)
  }

  function Center(t: Tile): Point {
    Point(t.x as real, t.z as real)
  }

  function LengthSquared(dx: real, dz: real): real {
    dx * dx + dz * dz
  }

  function GapSquared(p: Point, q: Point): real {
    LengthSquared(p.x - q.x, p.z - q.z)
  }

  predicate WithinOne(p: Point, q: Point) {
    GapSquared(p, q) < 1.0
  }

  /** Close enough to a waypoint for it to count as reached. */
  predicate AtWaypoint(p: Point, t: Tile) {
    GapSquared(p, Center(t)) < 0.1 * 0.1
  }

  predicate Neighbors(a: Tile, b: Tile) {
    a != b && Abs(a.x - b.x) <= 1 && Abs(a.z - b.z) <= 1
  }

  predicate SideBySide(a: Tile, b: Tile) {
    Neighbors(a, b) && (a.x == b.x || a.z == b.z)
  }

  lemma GapAlongAxes(p: Point, q: Point, r: real)
    requires r >= 0.0
    ensures GapSquared(p, q) < r * r ==> -r <= p.x - q.x <= r && -r <= p.z - q.z <= r
  {
    var dx, dz := p.x - q.x, p.z - q.z;
    assert dx * dx >= 0.0 && dz * dz >= 0.0;
    if GapSquared(p, q) < r * r {
      SquareBound(dx, r);
      SquareBound(dz, r);
    }
  }

  lemma WaypointSnaps(p: Point, t: Tile)
    requires InGrid(t) && AtWaypoint(p, t)
    ensures TileOf(p) == t
  {
    WaypointIsNear(p, t);
    InteriorSnaps(t, p.x, p.z);
  }

  /** A point that snaps to one coordinate lies on its side of the middle towards any other. */
  lemma SnappedSide(v: real, n: int, a: int, b: int)
    requires a == Clamp(Round(v), 0, n - 1) && 0 <= a < n && 0 <= b < n
    ensures a < b ==> v <= a as real + 0.5
    ensures b < a ==> v >= a as real - 0.5
  {
    if a < b {
      SnapOneAxis(v, n, a + 1);
    } else if b < a {
      SnapOneAxis(v, n, a - 1);
    }
  }

  lemma FarTiles(p: Point, a: Tile, q: Point, b: Tile)
    requires InGrid(a) && InGrid(b) && a != b && TileOf(p) == a && AtWaypoint(q, b) && WithinOne(p, q)
    ensures Neighbors(a, b)
  {
    GapAlongAxes(p, q, 1.0);
    WaypointIsNear(q, b);
    SnappedSide(p.x, WIDTH, a.x, b.x);
    SnappedSide(p.z, HEIGHT, a.z, b.z);
  }

  /** Values next to different integers are far apart. */
  lemma AxisIsFar(v: real, m: int, w: real, n: int)
    requires m != n && -0.1 <= v - m as real <= 0.1 && -0.1 <= w - n as real <= 0.1
    ensures (v - w) * (v - w) > 0.5
  {
    var d := v - w;
    assert m < n ==> d < -0.75;
    assert n < m ==> d > 0.75;
    if d * d <= 0.75 * 0.75 {
      SquareBound(d, 0.75);
    }
  }

  lemma BothAxesFar(p: Point, a: Tile, q: Point, b: Tile)
    requires a.x != b.x && a.z != b.z
    requires -0.1 <= p.x - a.x as real <= 0.1 && -0.1 <= p.z - a.z as real <= 0.1
    requires -0.1 <= q.x - b.x as real <= 0.1 && -0.1 <= q.z - b.z as real <= 0.1
    ensures GapSquared(p, q) > 1.0
  {
    AxisIsFar(p.x, a.x, q.x, b.x);
    AxisIsFar(p.z, a.z, q.z, b.z);
  }

  lemma WaypointIsNear(p: Point, t: Tile)
    requires AtWaypoint(p, t)
    ensures -0.1 <= p.x - t.x as real <= 0.1 && -0.1 <= p.z - t.z as real <= 0.1
  {
    GapAlongAxes(p, Center(t), 0.1);
  }

  lemma DiagonalTiles(p: Point, a: Tile, q: Point, b: Tile)
    requires AtWaypoint(p, a) && AtWaypoint(q, b) && a.x != b.x && a.z != b.z
    ensures !WithinOne(p, q)
  {
    WaypointIsNear(p, a);
    WaypointIsNear(q, b);
    BothAxesFar(p, a, q, b);
  }

  /** A step of the given length towards a neighbouring coordinate. */
  function Nudge(from: int, to: int, step: real): real {
    if from < to then from as real + step else if to < from then from as real - step else from as real
  }

  lemma ShortGap(p: Point, q: Point, r: real)
    requires 0.0 <= r <= 0.7 && -r <= p.x - q.x <= r && -r <= p.z - q.z <= r
    ensures GapSquared(p, q) <= 2.0 * (r * r) < 1.0
  {
    SquareIsSmall(p.x - q.x, r);
    SquareIsSmall(p.z - q.z, r);
    SquareIsSmall(r, 0.7);
  }

  /** From somewhere in one tile to a waypoint in another it can be less than one unit exactly if the tiles touch. */
  lemma FirstLegMayBeShort(a: Tile, b: Tile)
    requires InGrid(a) && InGrid(b) && a != b
    ensures (exists p, q :: TileOf(p) == a && AtWaypoint(q, b) && WithinOne(p, q)) <==> Neighbors(a, b)
  {
    forall p, q | TileOf(p) == a && AtWaypoint(q, b) && WithinOne(p, q)
      ensures Neighbors(a, b)
    {
      FarTiles(p, a, q, b);
    }
    if Neighbors(a, b) {
      var p, q := Point(Nudge(a.x, b.x, 0.4), Nudge(a.z, b.z, 0.4)), Center(b);
      InteriorSnaps(a, p.x, p.z);
      ShortGap(p, q, 0.6);
      assert TileOf(p) == a && AtWaypoint(q, b) && WithinOne(p, q);
    }
  }

  /** Between two waypoints it can be less than one unit exactly if their tiles share a side. */
  lemma LaterLegMayBeShort(a: Tile, b: Tile)
    requires InGrid(a) && InGrid(b) && a != b
    ensures (exists p, q :: AtWaypoint(p, a) && AtWaypoint(q, b) && WithinOne(p, q)) <==> SideBySide(a, b)
  {
    forall p, q | AtWaypoint(p, a) && AtWaypoint(q, b) && WithinOne(p, q)
      ensures SideBySide(a, b)
    {
      WaypointSnaps(p, a);
      FarTiles(p, a, q, b);
      if a.x != b.x && a.z != b.z {
        DiagonalTiles(p, a, q, b);
      }
    }
    if SideBySide(a, b) {
      var p, q := Point(Nudge(a.x, b.x, 0.05), Nudge(a.z, b.z, 0.05)), Center(b);
      NudgedIsClose(a, b, p);
      assert AtWaypoint(p, a) && AtWaypoint(q, b) && WithinOne(p, q);
    }
  }

  lemma NudgedIsClose(a: Tile, b: Tile, p: Point)
    requires SideBySide(a, b) && p == Point(Nudge(a.x, b.x, 0.05), Nudge(a.z, b.z, 0.05))
    ensures GapSquared(p, Center(a)) == 0.05 * 0.05 && GapSquared(p, Center(b)) == 0.95 * 0.95
  {
    var dx, dz := p.x - b.x as real, p.z - b.z as real;
    assert dx == 0.0 || dx == 0.95 || dx == -0.95;
    assert dz == 0.0 || dz == 0.95 || dz == -0.95;
  }

  // ---- The give-up guard

  /** The retry count after one more partial plan, made at a position. */
  function Counted(count: int, last: Point, p: Point): int {
    if WithinOne(p, last) then count + 1 else 0
  }

  /** The count after partial plans made at these positions, one after the other. */
  function Retries(count: int, last: Point, spots: seq<Point>): int {
    if spots == [] then count
    else
      var front := spots[..|spots| - 1];
      Counted(Retries(count, last, front), LastSpot(last, front), spots[|spots| - 1])
  }

  function LastSpot(last: Point, spots: seq<Point>): Point {
    if spots == [] then last else spots[|spots| - 1]
  }

  /** The plans were made in the tiles of the stops; after the first stop, at the waypoint that the leg ended on. */
  ghost predicate OnStops(spots: seq<Point>, stops: seq<Tile>) {
    && |spots| <= |stops|
    && (forall k :: 0 <= k < |spots| ==> TileOf(spots[k]) == stops[k])
    && (forall k :: 0 < k < |spots| ==> AtWaypoint(spots[k], stops[k]))
  }

  lemma ShortLeg(spots: seq<Point>, stops: seq<Tile>, k: nat)
    requires OnStops(spots, stops) && 0 < k < |spots| && WithinOne(spots[k], spots[k - 1])
    requires InGrid(stops[k - 1]) && InGrid(stops[k]) && stops[k - 1] != stops[k]
    ensures Neighbors(stops[k - 1], stops[k])
    ensures k >= 2 ==> SideBySide(stops[k - 1], stops[k])
  {
    var p, q, a, b := spots[k - 1], spots[k], stops[k - 1], stops[k];
    assert GapSquared(p, q) == GapSquared(q, p);
    FarTiles(p, a, q, b);
    if k >= 2 && a.x != b.x && a.z != b.z {
      DiagonalTiles(p, a, q, b);
    }
  }

  // ---- Two vectors in the plane

  lemma DotIsBounded(ax: real, az: real, bx: real, bz: real)
    ensures (ax * bx + az * bz) * (ax * bx + az * bz) <= (ax * ax + az * az) * (bx * bx + bz * bz)
  {
    var cross := ax * bz - az * bx;
    assert cross * cross >= 0.0;
    assert (ax * ax + az * az) * (bx * bx + bz * bz) ==
           (ax * bx + az * bz) * (ax * bx + az * bz) + cross * cross;
  }

  lemma ProductIsSmaller(a: real, b: real, u: real, v: real)
    requires 0.0 <= a <= u && 0.0 <= b <= v
    ensures a * b <= u * v
  {
    assert (u - a) * b >= 0.0;
    assert u * (v - b) >= 0.0;
    assert u * v - a * b == (u - a) * b + u * (v - b);
  }

  /** A dot product, bounded by the lengths. */
  lemma DotAtMost(ax: real, az: real, bx: real, bz: real, u: real, v: real)
    requires 0.0 <= u && 0.0 <= v && LengthSquared(ax, az) <= u * u && LengthSquared(bx, bz) <= v * v
    ensures -(u * v) <= ax * bx + az * bz <= u * v
  {
    var a, b, dot := ax * ax + az * az, bx * bx + bz * bz, ax * bx + az * bz;
    assert ax * ax >= 0.0 && az * az >= 0.0 && bx * bx >= 0.0 && bz * bz >= 0.0;
    DotIsBounded(ax, az, bx, bz);
    ProductIsSmaller(a, b, u * u, v * v);
    assert (u * u) * (v * v) == (u * v) * (u * v);
    assert u * v >= 0.0;
    SquareBound(dot, u * v);
  }

  lemma SumOfVectors(ax: real, az: real, bx: real, bz: real)
    ensures LengthSquared(ax + bx, az + bz) ==
              LengthSquared(ax, az) + LengthSquared(bx, bz) + 2.0 * (ax * bx + az * bz)
  {}

  /** A vector of at most 1 and one of less than 0.1 add up to less than 1.1. */
  lemma SumIsShort(ax: real, az: real, bx: real, bz: real)
    requires LengthSquared(ax, az) <= 1.0 && LengthSquared(bx, bz) < 0.01
    ensures LengthSquared(ax + bx, az + bz) < 1.21
  {
    assert 1.0 * 1.0 == 1.0 && 0.1 * 0.1 == 0.01;
    DotAtMost(ax, az, bx, bz, 1.0, 0.1);
    SumOfVectors(ax, az, bx, bz);
  }

  /** A vector of at most 0.9 and one of less than 0.1 add up to less than 1. */
  lemma SumIsShorter(ax: real, az: real, bx: real, bz: real)
    requires LengthSquared(ax, az) <= 0.81 && LengthSquared(bx, bz) < 0.01
    ensures LengthSquared(ax + bx, az + bz) < 1.0
  {
    assert 0.9 * 0.9 == 0.81 && 0.1 * 0.1 == 0.01;
    DotAtMost(ax, az, bx, bz, 0.9, 0.1);
    SumOfVectors(ax, az, bx, bz);
  }

  // ---- Which positions near a tile are close to a given one, and which are not

  lemma GapIsSymmetric(p: Point, q: Point)
    ensures GapSquared(p, q) == GapSquared(q, p)
  {}

  lemma ShortTriangle(p: Point, q: Point, c: Point)
    requires GapSquared(p, q) <= 1.0 && GapSquared(q, c) < 0.01
    ensures GapSquared(p, c) < 1.21
  {
    SumIsShort(p.x - q.x, p.z - q.z, q.x - c.x, q.z - c.z);
    assert p.x - q.x + (q.x - c.x) == p.x - c.x && p.z - q.z + (q.z - c.z) == p.z - c.z;
  }

  lemma ShorterTriangle(p: Point, q: Point, c: Point)
    requires GapSquared(p, q) <= 0.81 && GapSquared(q, c) < 0.01
    ensures GapSquared(p, c) < 1.0
  {
    SumIsShorter(p.x - q.x, p.z - q.z, q.x - c.x, q.z - c.z);
    assert p.x - q.x + (q.x - c.x) == p.x - c.x && p.z - q.z + (q.z - c.z) == p.z - c.z;
  }

  /** Only from less than 1.1 off its centre can a waypoint be reached within one unit. */
  lemma CloseToWaypoint(p: Point, q: Point, t: Tile)
    requires AtWaypoint(q, t) && WithinOne(q, p)
    ensures GapSquared(p, Center(t)) < 1.21
  {
    GapIsSymmetric(p, q);
    ShortTriangle(p, q, Center(t));
  }

  /** Only from more than 0.9 off its centre can a waypoint be reached at one unit or more. */
  lemma OffWaypoint(p: Point, q: Point, t: Tile)
    requires AtWaypoint(q, t) && !WithinOne(q, p)
    ensures GapSquared(p, Center(t)) > 0.81
  {
    GapIsSymmetric(p, q);
    GapIsSymmetric(q, Center(t));
    if GapSquared(p, Center(t)) <= 0.81 {
      ShorterTriangle(p, Center(t), q);
    }
  }

  /** A position at a waypoint is less than 1.1 off the centre of every tile beside it. */
  lemma BesideWaypoint(p: Point, a: Tile, b: Tile)
    requires AtWaypoint(p, a) && SideBySide(a, b)
    ensures GapSquared(p, Center(b)) < 1.21
  {
    var u, v := Center(a), Center(b);
    var dx, dz := v.x - u.x, v.z - u.z;
    assert (dx == 0.0 && (dz == 1.0 || dz == -1.0)) || (dz == 0.0 && (dx == 1.0 || dx == -1.0));
    assert GapSquared(v, u) == 1.0;
    GapIsSymmetric(p, u);
    GapIsSymmetric(p, v);
    ShortTriangle(v, u, p);
  }

  /** The point one eleventh of the way from the centre of a tile to p. */
  function Near(p: Point, t: Tile): Point {
    var c := Center(t);
    Point(c.x + (p.x - c.x) / 11.0, c.z + (p.z - c.z) / 11.0)
  }

  lemma ScaledLength(dx: real, dz: real, k: real, a: real, gap: real)
    requires a == k * k && gap == LengthSquared(dx, dz)
    ensures LengthSquared(k * dx, k * dz) == a * gap
  {}

  lemma NearIsBoth(p: Point, t: Tile)
    requires GapSquared(p, Center(t)) < 1.21
    ensures AtWaypoint(Near(p, t), t) && WithinOne(Near(p, t), p)
  {
    var c, q, k, gap := Center(t), Near(p, t), 1.0 / 11.0, GapSquared(p, Center(t));
    var dx, dz := p.x - c.x, p.z - c.z;
    assert q.x - c.x == k * dx && q.z - c.z == k * dz;
    ScaledLength(dx, dz, k, 1.0 / 121.0, gap);
    assert GapSquared(q, c) == 1.0 / 121.0 * gap;
    assert q.x - p.x == (k - 1.0) * dx && q.z - p.z == (k - 1.0) * dz;
    ScaledLength(dx, dz, k - 1.0, 100.0 / 121.0, gap);
    assert GapSquared(q, p) == 100.0 / 121.0 * gap;
  }

  lemma Distribute(a: real, b: real, c: real)
    ensures (a - b) * c == a * c - b * c
  {}

  lemma Hundredfold(a: real, c: real)
    ensures (100.0 * a) * c == 100.0 * (a * c)
  {}

  lemma BelowHundredth(gap: real, y: real, a: real)
    requires gap > 0.0 && y * gap == 1.0 && 100.0 * a < y
    ensures a * gap < 0.01
  {
    ProductIsPositive(y - 100.0 * a, gap);
    Distribute(y, 100.0 * a, gap);
    Hundredfold(a, gap);
    var w := a * gap;
    assert 100.0 * w < 1.0;
  }

  lemma AtLeastOne(gap: real, y: real, b: real)
    requires gap > 0.0 && y * gap == 1.0 && b >= y
    ensures b * gap >= 1.0
  {
    assert (b - y) * gap >= 0.0;
    Distribute(b, y, gap);
  }

  lemma InverseIsBetween(gap: real, y: real)
    requires 0.81 < gap < 1.0 && y > 0.0 && y * gap == 1.0
    ensures 1.0 < y < 100.0 / 81.0
  {
    ProductIsPositive(1.0 - gap, y);
    Distribute(1.0, gap, y);
    ProductIsPositive(gap - 0.81, y);
    Distribute(gap, 0.81, y);
  }

  lemma BinomialSquare(y: real, c: real, d: real)
    ensures (c * y + d) * (c * y + d) == (c * c) * (y * y) + 2.0 * c * d * y + d * d
  {}

  lemma StepFor(y: real, k: real)
    requires 1.0 < y < 100.0 / 81.0 && k == 0.45 * y - 4.0 / 9.0
    ensures 100.0 * (k * k) < y && (1.0 + k) * (1.0 + k) >= y
  {
    var w, d := y * y, 0.45 * y - 5.0 / 9.0;
    BinomialSquare(y, 0.45, -4.0 / 9.0);
    BinomialSquare(y, 0.45, 5.0 / 9.0);
    BinomialSquare(y, 0.45, -5.0 / 9.0);
    assert k * k == 0.2025 * w - 0.4 * y + 16.0 / 81.0;
    assert (1.0 + k) * (1.0 + k) == 0.2025 * w + 0.5 * y + 25.0 / 81.0;
    assert d * d == 0.2025 * w - 0.5 * y + 25.0 / 81.0;
    assert d * d >= 0.0;
    ProductIsPositive(y - 64.0 / 81.0, 100.0 / 81.0 - y);
    Distribute(y, 64.0 / 81.0, 100.0 / 81.0 - y);
    assert y * (100.0 / 81.0 - y) == 100.0 / 81.0 * y - w;
  }

  /** How far to move on so that 0.9 becomes 1 and less than a tenth of a unit is used. */
  lemma StepAway(gap: real) returns (k: real, a: real, b: real)
    requires 0.81 < gap < 1.0
    ensures a == k * k && b == (1.0 + k) * (1.0 + k) && a * gap < 0.01 && b * gap >= 1.0
  {
    var y := 1.0 / gap;
    InverseIsBetween(gap, y);
    k := 0.45 * y - 4.0 / 9.0;
    StepFor(y, k);
    a, b := k * k, (1.0 + k) * (1.0 + k);
    BelowHundredth(gap, y, a);
    AtLeastOne(gap, y, b);
  }

  /** A tile's centre, moved by a vector. */
  function Shifted(t: Tile, v: Point): Point {
    Point(t.x as real + v.x, t.z as real + v.z)
  }

  predicate Small(v: Point) {
    LengthSquared(v.x, v.z) < 0.01
  }

  lemma ShiftedIsAtWaypoint(t: Tile, v: Point)
    requires Small(v)
    ensures AtWaypoint(Shifted(t, v), t)
  {}

  lemma IntegerLength(dx: int, dz: int)
    requires dx != 0 || dz != 0
    ensures LengthSquared(dx as real, dz as real) >= 1.0
  {
    var x, z := dx as real, dz as real;
    assert x * x >= 0.0 && z * z >= 0.0;
    if dx != 0 {
      FarFromZero(x);
    } else {
      FarFromZero(z);
    }
  }

  lemma FarFromZero(x: real)
    requires x >= 1.0 || x <= -1.0
    ensures x * x >= 1.0
  {
    assert (x - 1.0) * (x + 1.0) >= 0.0;
    assert (x - 1.0) * (x + 1.0) == x * x - 1.0;
  }

  lemma ShiftedStayApart(a: Tile, b: Tile, v: Point)
    requires a != b
    ensures !WithinOne(Shifted(b, v), Shifted(a, v))
  {
    IntegerLength(b.x - a.x, b.z - a.z);
    var s, t := Shifted(a, v), Shifted(b, v);
    assert t.x - s.x == (b.x - a.x) as real && t.z - s.z == (b.z - a.z) as real;
  }

  /** From more than 0.9 off, some position at the waypoint is one unit away. */
  lemma AwayFrom(p: Point, t: Tile) returns (v: Point)
    requires GapSquared(p, Center(t)) > 0.81
    ensures Small(v) && !WithinOne(Shifted(t, v), p)
  {
    var c := Center(t);
    var dx, dz, gap := c.x - p.x, c.z - p.z, GapSquared(p, c);
    GapIsSymmetric(p, c);
    if gap < 1.0 {
      var k, a, b := StepAway(gap);
      v := Point(k * dx, k * dz);
      ScaledLength(dx, dz, k, a, gap);
      ScaledLength(dx, dz, 1.0 + k, b, gap);
      var q := Shifted(t, v);
      assert q.x - p.x == (1.0 + k) * dx && q.z - p.z == (1.0 + k) * dz;
      assert GapSquared(q, p) == b * gap;
    } else {
      v := Point(0.0, 0.0);
      assert Shifted(t, v) == c && GapSquared(c, p) >= 1.0;
    }
  }

  // ---- Exactly when the guard trips

  lemma RetriesSnoc(count: int, last: Point, spots: seq<Point>, p: Point)
    ensures Retries(count, last, spots + [p]) == Counted(Retries(count, last, spots), LastSpot(last, spots), p)
    ensures LastSpot(last, spots + [p]) == p
  {
    assert (spots + [p])[..|spots|] == spots;
  }

  /** The count after the first k plans. */
  ghost function CountAfter(count: int, last: Point, spots: seq<Point>, k: nat): int
    requires k <= |spots|
  {
    Retries(count, last, spots[..k])
  }

  lemma CountStep(count: int, last: Point, spots: seq<Point>, k: nat)
    requires k < |spots|
    ensures CountAfter(count, last, spots, k + 1) ==
              Counted(CountAfter(count, last, spots, k), if k == 0 then last else spots[k - 1], spots[k])
  {
    assert spots[..k + 1] == spots[..k] + [spots[k]];
    RetriesSnoc(count, last, spots[..k], spots[k]);
  }

  lemma {:induction false} CountIsNat(count: int, last: Point, spots: seq<Point>, k: nat)
    requires count >= 0 && k <= |spots|
    ensures CountAfter(count, last, spots, k) >= 0
  {
    if k > 0 {
      CountIsNat(count, last, spots, k - 1);
      CountStep(count, last, spots, k - 1);
    }
  }

  /** No plan but perhaps the last brings the count to two. */
  ghost predicate Patient(count: int, last: Point, spots: seq<Point>, n: nat)
    requires n <= |spots|
  {
    forall k :: 0 <= k < n ==> CountAfter(count, last, spots, k) <= 1
  }

  /** The guard trips on the last of these plans, and not before. */
  ghost predicate GivesUp(count: int, last: Point, spots: seq<Point>) {
    |spots| > 0 && Patient(count, last, spots, |spots|) && CountAfter(count, last, spots, |spots|) >= 2
  }

  ghost predicate OnGrid(stops: seq<Tile>) {
    forall k :: 0 <= k < |stops| ==> InGrid(stops[k])
  }

  ghost predicate StepsDiffer(stops: seq<Tile>) {
    forall k :: 0 < k < |stops| ==> stops[k - 1] != stops[k]
  }

  /** The last two legs each join tiles that share a side. */
  predicate LastLegsBeside(stops: seq<Tile>)
    requires |stops| >= 3
  {
    var n := |stops|;
    SideBySide(stops[n - 3], stops[n - 2]) && SideBySide(stops[n - 2], stops[n - 1])
  }

  /**
   Whether a journey that starts here with this count, and plans at these stops, can give up on its last plan. Positions
   later than the start do not occur in it.
   */
  predicate MayGiveUp(count: int, last: Point, start: Point, stops: seq<Tile>) {
    var n, first := |stops|, Counted(count, last, start);
    if n == 0 then false
    else if n == 1 then first >= 2
    else
      var gap := GapSquared(start, Center(stops[1]));
      if n == 2 then first == 1 && gap < 1.21
      else if n == 3 then first == 0 && gap < 1.21 && SideBySide(stops[1], stops[2])
      else first <= 1 && LastLegsBeside(stops) && (if n == 4 then gap > 0.81 else first == 0 || gap > 0.81)
  }

  /** A run of plans along these stops, the first of them at the start. */
  ghost predicate RunAlong(start: Point, stops: seq<Tile>, spots: seq<Point>) {
    |spots| == |stops| > 0 && spots[0] == start && OnStops(spots, stops)
  }

  // -- The condition is needed

  /** A count of two at the end comes from the last two plans. */
  lemma LastCounts(count: int, last: Point, spots: seq<Point>)
    requires GivesUp(count, last, spots) && count >= 0 && |spots| >= 2
    ensures var n := |spots|;
            && WithinOne(spots[n - 1], spots[n - 2]) && CountAfter(count, last, spots, n - 1) == 1
            && (n >= 3 ==> WithinOne(spots[n - 2], spots[n - 3]) && CountAfter(count, last, spots, n - 2) == 0)
            && (n >= 4 ==> !WithinOne(spots[n - 3], spots[n - 4]))
  {
    var n := |spots|;
    CountStep(count, last, spots, n - 1);
    CountStep(count, last, spots, n - 2);
    if n >= 3 {
      CountIsNat(count, last, spots, n - 2);
    }
    if n >= 4 {
      CountIsNat(count, last, spots, n - 3);
      CountStep(count, last, spots, n - 3);
    }
  }

  lemma FirstCounts(count: int, last: Point, spots: seq<Point>)
    requires |spots| >= 2
    ensures CountAfter(count, last, spots, 1) == Counted(count, last, spots[0])
    ensures CountAfter(count, last, spots, 2) == Counted(Counted(count, last, spots[0]), spots[0], spots[1])
  {
    CountStep(count, last, spots, 0);
    CountStep(count, last, spots, 1);
  }

  lemma ShortLegsBeside(spots: seq<Point>, stops: seq<Tile>, k: nat)
    requires OnStops(spots, stops) && OnGrid(stops) && StepsDiffer(stops)
    requires 2 <= k < |spots| && WithinOne(spots[k], spots[k - 1])
    ensures SideBySide(stops[k - 1], stops[k])
  {
    ShortLeg(spots, stops, k);
  }

  lemma GivingUpNeeds(count: int, last: Point, start: Point, stops: seq<Tile>, spots: seq<Point>)
    requires 0 <= count <= 1 && OnGrid(stops) && StepsDiffer(stops)
    requires RunAlong(start, stops, spots) && GivesUp(count, last, spots)
    ensures MayGiveUp(count, last, start, stops)
  {
    var n := |spots|;
    if n == 1 {
      CountStep(count, last, spots, 0);
    } else {
      LastCounts(count, last, spots);
      FirstCounts(count, last, spots);
      if n <= 3 {
        CloseToWaypoint(start, spots[1], stops[1]);
      } else if !WithinOne(spots[1], start) {
        OffWaypoint(start, spots[1], stops[1]);
      }
      if n >= 3 {
        ShortLegsBeside(spots, stops, n - 1);
      }
      if n >= 4 {
        ShortLegsBeside(spots, stops, n - 2);
        assert CountAfter(count, last, spots, 1) <= 1;
        assert n > 4 ==> CountAfter(count, last, spots, 2) <= 1;
      }
    }
  }

  // -- The condition is enough

  /** Two more plans, each within one unit of the one before. */
  ghost function TwoMore(front: seq<Point>, stops: seq<Tile>): seq<Point>
    requires |front| > 0 && |stops| == |front| + 2
  {
    var q := Near(front[|front| - 1], stops[|front|]);
    front + [q, Near(q, stops[|front| + 1])]
  }

  lemma TwoMorePoints(p: Point, b: Tile, c: Tile)
    requires GapSquared(p, Center(b)) < 1.21 && SideBySide(b, c) && InGrid(b) && InGrid(c)
    ensures var q := Near(p, b); var r := Near(q, c);
            && WithinOne(q, p) && AtWaypoint(q, b) && TileOf(q) == b
            && WithinOne(r, q) && AtWaypoint(r, c) && TileOf(r) == c
  {
    var q := Near(p, b);
    NearIsBoth(p, b);
    BesideWaypoint(q, b, c);
    NearIsBoth(q, c);
    WaypointSnaps(q, b);
    WaypointSnaps(Near(q, c), c);
  }

  lemma OnStopsGrow(spots: seq<Point>, stops: seq<Tile>, p: Point)
    requires OnStops(spots, stops) && 0 < |spots| < |stops|
    requires AtWaypoint(p, stops[|spots|]) && TileOf(p) == stops[|spots|]
    ensures OnStops(spots + [p], stops)
  {}

  lemma TwoMoreCount(count: int, last: Point, stops: seq<Tile>, front: seq<Point>)
    requires |front| > 0 && |stops| == |front| + 2 && OnGrid(stops) && OnStops(front, stops)
    requires GapSquared(front[|front| - 1], Center(stops[|front|])) < 1.21
    requires SideBySide(stops[|front|], stops[|front| + 1])
    ensures OnStops(TwoMore(front, stops), stops)
    ensures var m, spots := |front|, TwoMore(front, stops);
            && CountAfter(count, last, spots, m + 1) == Retries(count, last, front) + 1
            && CountAfter(count, last, spots, m + 2) == Retries(count, last, front) + 2
  {
    var m, spots := |front|, TwoMore(front, stops);
    var q, r := spots[m], spots[m + 1];
    TwoMorePoints(front[m - 1], stops[m], stops[m + 1]);
    OnStopsGrow(front, stops, q);
    OnStopsGrow(front + [q], stops, r);
    RetriesSnoc(count, last, front, q);
    RetriesSnoc(count, last, front + [q], r);
    assert spots[..m + 1] == front + [q] && spots[..m + 2] == spots == front + [q] + [r];
  }

  lemma TwoMoreGiveUp(count: int, last: Point, start: Point, stops: seq<Tile>, front: seq<Point>)
    requires |front| > 0 && |stops| == |front| + 2 && OnGrid(stops)
    requires front[0] == start && OnStops(front, stops) && Patient(count, last, front, |front|)
    requires Retries(count, last, front) == 0
    requires GapSquared(front[|front| - 1], Center(stops[|front|])) < 1.21
    requires SideBySide(stops[|front|], stops[|front| + 1])
    ensures RunAlong(start, stops, TwoMore(front, stops)) && GivesUp(count, last, TwoMore(front, stops))
  {
    var m, spots := |front|, TwoMore(front, stops);
    TwoMoreCount(count, last, stops, front);
    assert spots[..m] == front;
    forall k | 0 <= k < m
      ensures CountAfter(count, last, spots, k) <= 1
    {
      assert spots[..k] == front[..k];
      assert CountAfter(count, last, front, k) <= 1;
    }
  }

  /** The start, and then plans all displaced alike from the centres of their stops. */
  ghost function Displaced(start: Point, stops: seq<Tile>, v: Point, m: nat): seq<Point>
    requires 0 < m <= |stops|
  {
    seq(m, k requires 0 <= k < m => if k == 0 then start else Shifted(stops[k], v))
  }

  lemma DisplacedIsQuiet(count: int, last: Point, start: Point, stops: seq<Tile>, v: Point, m: nat, k: nat)
    requires 2 <= k < m <= |stops| && StepsDiffer(stops)
    ensures CountAfter(count, last, Displaced(start, stops, v, m), k + 1) == 0
  {
    var spots := Displaced(start, stops, v, m);
    CountStep(count, last, spots, k);
    ShiftedStayApart(stops[k - 1], stops[k], v);
  }

  lemma DisplacedOnStops(start: Point, stops: seq<Tile>, v: Point, m: nat)
    requires 0 < m <= |stops| && OnGrid(stops) && Small(v) && TileOf(start) == stops[0]
    ensures OnStops(Displaced(start, stops, v, m), stops)
  {
    var spots := Displaced(start, stops, v, m);
    forall k | 0 < k < m
      ensures AtWaypoint(spots[k], stops[k]) && TileOf(spots[k]) == stops[k]
    {
      ShiftedIsAtWaypoint(stops[k], v);
      WaypointSnaps(spots[k], stops[k]);
    }
  }

  /**
   Over a first leg of one unit or more, or from a count of nothing, such plans keep the count below two and end at
   zero.
   */
  lemma DisplacedIsPatient(count: int, last: Point, start: Point, stops: seq<Tile>, v: Point, m: nat)
    requires 0 <= count <= 1 && 2 <= m <= |stops| && StepsDiffer(stops)
    requires Counted(count, last, start) <= 1
    requires var far := !WithinOne(Shifted(stops[1], v), start);
             if m == 2 then far else far || Counted(count, last, start) == 0
    ensures var spots := Displaced(start, stops, v, m);
            Patient(count, last, spots, m) && Retries(count, last, spots) == 0
  {
    var spots := Displaced(start, stops, v, m);
    FirstCounts(count, last, spots);
    forall k | 0 <= k < m
      ensures CountAfter(count, last, spots, k) <= 1
    {
      if k >= 3 {
        DisplacedIsQuiet(count, last, start, stops, v, m, k - 1);
      }
    }
    assert spots[..m] == spots;
    if m >= 3 {
      DisplacedIsQuiet(count, last, start, stops, v, m, m - 1);
    }
  }

  lemma LateGivingUp(count: int, last: Point, start: Point, stops: seq<Tile>)
    requires 0 <= count <= 1 && OnGrid(stops) && StepsDiffer(stops) && |stops| >= 4 && TileOf(start) == stops[0]
    requires MayGiveUp(count, last, start, stops)
    ensures exists spots :: RunAlong(start, stops, spots) && GivesUp(count, last, spots)
  {
    var m := |stops| - 2;
    var v := Point(0.0, 0.0);
    if GapSquared(start, Center(stops[1])) > 0.81 {
      v := AwayFrom(start, stops[1]);
    } else {
      assert Small(v);
    }
    var front := Displaced(start, stops, v, m);
    DisplacedOnStops(start, stops, v, m);
    DisplacedIsPatient(count, last, start, stops, v, m);
    ShiftedIsAtWaypoint(stops[m - 1], v);
    BesideWaypoint(front[m - 1], stops[m - 1], stops[m]);
    TwoMoreGiveUp(count, last, start, stops, front);
  }

  lemma EarlyGivingUp(count: int, last: Point, start: Point, stops: seq<Tile>)
    requires 0 <= count <= 1 && OnGrid(stops) && 0 < |stops| <= 3 && TileOf(start) == stops[0]
    requires MayGiveUp(count, last, start, stops)
    ensures exists spots :: RunAlong(start, stops, spots) && GivesUp(count, last, spots)
  {
    var one := [start];
    assert one[..0] == [] && one[..1] == one;
    CountStep(count, last, one, 0);
    if |stops| == 1 {
      assert RunAlong(start, stops, one) && GivesUp(count, last, one);
    } else if |stops| == 2 {
      var q := Near(start, stops[1]);
      NearIsBoth(start, stops[1]);
      WaypointSnaps(q, stops[1]);
      var spots := [start, q];
      FirstCounts(count, last, spots);
      assert RunAlong(start, stops, spots) && GivesUp(count, last, spots);
    } else {
      TwoMoreGiveUp(count, last, start, stops, one);
    }
  }

  /** Given where a journey starts and where it plans, it can give up on its last plan exactly under this condition. */
  lemma GivesUpIff(count: int, last: Point, start: Point, stops: seq<Tile>)
    requires 0 <= count <= 1 && OnGrid(stops) && StepsDiffer(stops) && |stops| > 0 && TileOf(start) == stops[0]
    ensures (exists spots :: RunAlong(start, stops, spots) && GivesUp(count, last, spots)) <==>
              MayGiveUp(count, last, start, stops)
  {
    forall spots | RunAlong(start, stops, spots) && GivesUp(count, last, spots)
      ensures MayGiveUp(count, last, start, stops)
    {
      GivingUpNeeds(count, last, start, stops, spots);
    }
    if MayGiveUp(count, last, start, stops) {
      if |stops| <= 3 {
        EarlyGivingUp(count, last, start, stops);
      } else {
        LateGivingUp(count, last, start, stops);
      }
    }
  }

  // -- Whatever the start

  lemma CenterSnaps(t: Tile)
    requires InGrid(t)
    ensures TileOf(Center(t)) == t
  {
    InteriorSnaps(t, t.x as real, t.z as real);
  }

  lemma TowardNeighbor(a: Tile, b: Tile) returns (p: Point)
    requires InGrid(a) && Neighbors(a, b)
    ensures TileOf(p) == a && WithinOne(p, Center(b)) && GapSquared(p, Center(b)) < 1.21
  {
    p := Point(Nudge(a.x, b.x, 0.4), Nudge(a.z, b.z, 0.4));
    InteriorSnaps(a, p.x, p.z);
    ShortGap(p, Center(b), 0.6);
  }

  /** Some plans along these stops whose count is as close to two as the two legs at the end allow. */
  lemma FrontFor(stops: seq<Tile>) returns (front: seq<Point>)
    requires |stops| >= 3 && OnGrid(stops) && StepsDiffer(stops)
    requires if |stops| == 3 then Neighbors(stops[0], stops[1]) else LastLegsBeside(stops)
    ensures |front| == |stops| - 2 && OnStops(front, stops)
    ensures GapSquared(front[|front| - 1], Center(stops[|front|])) < 1.21
  {
    var m, a, b := |stops| - 2, stops[0], stops[1];
    if m == 1 {
      var p := TowardNeighbor(a, b);
      front := [p];
    } else {
      var v := Point(0.0, 0.0);
      assert Small(v);
      front := Displaced(Center(a), stops, v, m);
      CenterSnaps(a);
      DisplacedOnStops(Center(a), stops, v, m);
      ShiftedIsAtWaypoint(stops[m - 1], v);
      BesideWaypoint(front[m - 1], stops[m - 1], stops[m]);
    }
  }

  predicate LastLegsShort(stops: seq<Tile>)
    requires |stops| >= 3
  {
    var n := |stops|;
    && SideBySide(stops[n - 2], stops[n - 1])
    && (if n >= 4 then SideBySide(stops[n - 3], stops[n - 2]) else Neighbors(stops[n - 3], stops[n - 2]))
  }

  lemma ReachingTwoNeeds(count: int, last: Point, stops: seq<Tile>, spots: seq<Point>)
    requires 0 <= count <= 1 && |stops| >= 3 && OnGrid(stops) && StepsDiffer(stops)
    requires |spots| == |stops| && OnStops(spots, stops) && Retries(count, last, spots) >= 2
    ensures LastLegsShort(stops)
  {
    var n := |stops|;
    assert spots[..n] == spots;
    CountStep(count, last, spots, n - 1);
    CountStep(count, last, spots, n - 2);
    ShortLeg(spots, stops, n - 1);
    ShortLeg(spots, stops, n - 2);
  }

  lemma ReachingTwoIsPossible(count: int, last: Point, stops: seq<Tile>)
    returns (spots: seq<Point>)
    requires 0 <= count <= 1 && |stops| >= 3 && OnGrid(stops) && StepsDiffer(stops) && LastLegsShort(stops)
    ensures |spots| == |stops| && OnStops(spots, stops) && Retries(count, last, spots) >= 2
  {
    var front := FrontFor(stops);
    spots := TwoMore(front, stops);
    TwoMoreCount(count, last, stops, front);
    CountIsNat(count, last, front, |front|);
    assert front[..|front|] == front && spots[..|stops|] == spots;
  }

  /** Over three stops or more the count can reach two for some start exactly if the last two legs are short enough. */
  lemma CountReachesTwoIff(count: int, last: Point, stops: seq<Tile>)
    requires 0 <= count <= 1 && |stops| >= 3 && OnGrid(stops) && StepsDiffer(stops)
    ensures (exists spots :: |spots| == |stops| && OnStops(spots, stops) && Retries(count, last, spots) >= 2) <==>
              LastLegsShort(stops)
  {
    forall spots | |spots| == |stops| && OnStops(spots, stops) && Retries(count, last, spots) >= 2
      ensures LastLegsShort(stops)
    {
      ReachingTwoNeeds(count, last, stops, spots);
    }
    if LastLegsShort(stops) {
      var spots := ReachingTwoIsPossible(count, last, stops);
    }
  }
}
