/** The integer line walk that decides whether two points see each other. */
module LineOfSight {
  import opened Arith
  import opened GridWorld

  function Sign(from: int, to: int): int {
    if from < to then 1 else -1
  }

  /** n cells from one coordinate in the direction of another. */
  function Toward(from: int, to: int, n: int): int {
    if from < to then from + n else from - n
  }

  function Steps(a: Tile, b: Tile): (n: int)
    ensures n >= 0
  {
    Max(Abs(b.x - a.x), Abs(b.z - a.z))
  }

  /** k * minor / major rounded to the nearest integer, halves down. */
  function NearestHalfDown(k: int, minor: int, major: int): int
    requires major > 0
  {
    (2 * (k * minor) + major - 1) / (2 * major)
  }

  /** The k-th cell of the line from a to b: one cell a step along the longer axis, the nearest one across it. */
  function CellAt(a: Tile, b: Tile, k: nat): Tile {
    var dx, dz := Abs(b.x - a.x), Abs(b.z - a.z);
    if dx == 0 && dz == 0 then a
    else if dx >= dz then
      Tile(Toward(a.x, b.x, k), Toward(a.z, b.z, NearestHalfDown(k, dz, dx)))
    else
      Tile(Toward(a.x, b.x, NearestHalfDown(k, dx, dz)), Toward(a.z, b.z, k))
  }

  /** The rounded value is the one integer whose doubled error lies in [-major, major). */
  lemma NearestIsWithinHalf(k: int, minor: int, major: int, j: int)
    requires major > 0
    ensures j == NearestHalfDown(k, minor, major) <==> -major <= 2 * (j * major - k * minor) < major
  {
    var n, d := 2 * (k * minor) + major - 1, 2 * major;
    var q := NearestHalfDown(k, minor, major);
    assert q * d <= n < q * d + d;
    assert q * d == 2 * (q * major) && j * d == 2 * (j * major);
    if -major <= 2 * (j * major - k * minor) < major {
      DivModUnique(n, d, j, n - j * d);
    }
  }

  lemma NearestAtEnds(minor: int, major: int)
    requires major > 0
    ensures NearestHalfDown(0, minor, major) == 0
    ensures NearestHalfDown(major, minor, major) == minor
  {
    NearestIsWithinHalf(0, minor, major, 0);
    NearestIsWithinHalf(major, minor, major, minor);
    assert minor * major == major * minor;
  }

  /** The error term decides the cross step: take it exactly when staying would leave the half-cell band. */
  lemma NearestStep(k: int, minor: int, major: int)
    requires major > 0 && 0 <= minor <= major
    ensures var j := NearestHalfDown(k, minor, major);
            NearestHalfDown(k + 1, minor, major) ==
              if 2 * (j * major - k * minor - minor) < -major then j + 1 else j
  {
    var j := NearestHalfDown(k, minor, major);
    NearestIsWithinHalf(k, minor, major, j);
    assert (k + 1) * minor == k * minor + minor;
    assert (j + 1) * major == j * major + major;
    NearestIsWithinHalf(k + 1, minor, major, j);
    NearestIsWithinHalf(k + 1, minor, major, j + 1);
  }

  /** The line starts on a, ends on b after the longer of the two distances, and moves one neighbour at a time. */
  lemma LineShape(a: Tile, b: Tile, k: nat)
    ensures CellAt(a, b, 0) == a && CellAt(a, b, Steps(a, b)) == b
    ensures k < Steps(a, b) ==>
      var c, d := CellAt(a, b, k), CellAt(a, b, k + 1);
      c != d && Abs(d.x - c.x) <= 1 && Abs(d.z - c.z) <= 1
    ensures k < Steps(a, b) ==> CellAt(a, b, k) != b
  {
    var dx, dz := Abs(b.x - a.x), Abs(b.z - a.z);
    if dx > 0 || dz > 0 {
      var major, minor := Max(dx, dz), Min(dx, dz);
      NearestAtEnds(minor, major);
      NearestStep(k, minor, major);
    }
  }

  lemma NearestIsNat(k: int, minor: int, major: int)
    requires major > 0 && 0 <= minor && 0 <= k
    ensures NearestHalfDown(k, minor, major) >= 0
  {
    assert k * minor >= 0;
  }

  /** No visited cell is more than half a cell away from the ideal line, measured across the longer axis. */
  lemma LineIsNearIdeal(a: Tile, b: Tile, k: nat)
    requires k <= Steps(a, b)
    ensures var c := CellAt(a, b, k);
            var dx, dz := Abs(b.x - a.x), Abs(b.z - a.z);
            2 * Abs(Abs(c.z - a.z) * dx - Abs(c.x - a.x) * dz) <= Steps(a, b)
  {
    var dx, dz := Abs(b.x - a.x), Abs(b.z - a.z);
    if dx > 0 || dz > 0 {
      var major, minor := Max(dx, dz), Min(dx, dz);
      var j := NearestHalfDown(k, minor, major);
      NearestIsWithinHalf(k, minor, major, j);
      NearestIsNat(k, minor, major);
    }
  }

  /** Where the ideal line passes exactly between two cells. */
  predicate Tie(a: Tile, b: Tile, k: nat) {
    var dx, dz := Abs(b.x - a.x), Abs(b.z - a.z);
    Steps(a, b) > 0 && 2 * (k * Min(dx, dz)) % (2 * Steps(a, b)) == Steps(a, b)
  }

  lemma TieIsLowerEdge(k: int, minor: int, major: int, j: int)
    requires major > 0 && -major <= 2 * (j * major - k * minor) < major
    ensures 2 * (k * minor) % (2 * major) == major <==> 2 * (j * major - k * minor) == -major
  {
    var d := 2 * major;
    var e := 2 * (j * major - k * minor);
    assert j * d == 2 * (j * major) && (j - 1) * d == j * d - d;
    var h := if e <= 0 then j else j - 1;
    DivModUnique(2 * (k * minor), d, h, 2 * (k * minor) - h * d);
  }

  lemma HalfDownReversed(k: int, minor: int, major: int)
    requires major > 0
    ensures NearestHalfDown(k, minor, major) + NearestHalfDown(major - k, minor, major) ==
              if 2 * (k * minor) % (2 * major) == major then minor - 1 else minor
  {
    var j := NearestHalfDown(k, minor, major);
    NearestIsWithinHalf(k, minor, major, j);
    TieIsLowerEdge(k, minor, major, j);
    var r := if 2 * (j * major - k * minor) == -major then minor - 1 - j else minor - j;
    assert (major - k) * minor == minor * major - k * minor;
    assert (minor - j) * major == minor * major - j * major;
    assert (minor - 1 - j) * major == minor * major - major - j * major;
    NearestIsWithinHalf(major - k, minor, major, r);
  }

  lemma TowardReversed(from: int, to: int, m: int, n: int)
    requires n == Abs(to - from) && (n == 0 ==> m == 0)
    ensures forall j :: Toward(to, from, j) == Toward(from, to, m) <==> j == n - m
  {}

  /** Walked from the other end, the line visits the same cell at step k exactly when there is no tie there. */
  lemma LineReversed(a: Tile, b: Tile, k: nat)
    requires k <= Steps(a, b)
    ensures CellAt(b, a, Steps(a, b) - k) == CellAt(a, b, k) <==> !Tie(a, b, k)
  {
    var dx, dz := Abs(b.x - a.x), Abs(b.z - a.z);
    var major, minor := Max(dx, dz), Min(dx, dz);
    if major > 0 {
      var j, h := NearestHalfDown(k, minor, major), NearestHalfDown(major - k, minor, major);
      HalfDownReversed(k, minor, major);
      NearestIsWithinHalf(k, minor, major, 0);
      if dx >= dz {
        TowardReversed(a.z, b.z, j, dz);
        assert CellAt(a, b, k) == Tile(Toward(a.x, b.x, k), Toward(a.z, b.z, j));
        assert CellAt(b, a, major - k) == Tile(Toward(b.x, a.x, major - k), Toward(b.z, a.z, h));
      } else {
        TowardReversed(a.x, b.x, j, dx);
        assert CellAt(a, b, k) == Tile(Toward(a.x, b.x, j), Toward(a.z, b.z, k));
        assert CellAt(b, a, major - k) == Tile(Toward(b.x, a.x, h), Toward(b.z, a.z, major - k));
      }
    }
  }

  ghost predicate LineBlocked(grid: Grid, a: Tile, b: Tile) {
    exists k: nat :: k <= Steps(a, b) && !IsWalkable(grid, CellAt(a, b, k))
  }

  /** Sight is the same both ways whenever the line has no tie. */
  lemma SightIsSymmetricWithoutTies(grid: Grid, a: Tile, b: Tile)
    requires forall k: nat :: k <= Steps(a, b) ==> !Tie(a, b, k)
    ensures LineBlocked(grid, a, b) == LineBlocked(grid, b, a)
  {
    if LineBlocked(grid, a, b) {
      var k: nat :| k <= Steps(a, b) && !IsWalkable(grid, CellAt(a, b, k));
      LineReversed(a, b, k);
      assert !IsWalkable(grid, CellAt(b, a, Steps(a, b) - k));
    }
    if LineBlocked(grid, b, a) {
      var k: nat :| k <= Steps(b, a) && !IsWalkable(grid, CellAt(b, a, k));
      LineReversed(a, b, Steps(a, b) - k);
      assert !IsWalkable(grid, CellAt(a, b, Steps(a, b) - k));
    }
  }

  /** The grid whose one blocked tile is t. */
  function OnlyBlocked(t: Tile): Grid {
    seq(TILES, k => k != Index(t))
  }

  lemma OnlyBlockedTile(t: Tile, u: Tile)
    requires InGrid(t) && InGrid(u)
    ensures IsWalkable(OnlyBlocked(t), u) <==> u != t
  {
    IndexIsInjective(u, t);
  }

  lemma NearestIsBounded(k: int, minor: int, major: int)
    requires 0 <= k <= major && 0 <= minor && major > 0
    ensures 0 <= NearestHalfDown(k, minor, major) <= minor
  {
    var j := NearestHalfDown(k, minor, major);
    NearestIsWithinHalf(k, minor, major, j);
    assert 0 <= k * minor;
    assert (major - k) * minor >= 0;
    assert (major - k) * minor == major * minor - k * minor;
    assert (j - minor) * major == j * major - major * minor;
    MulIsFar(j - minor, major);
    MulIsFar(j, major);
  }

  lemma TowardIsBetween(from: int, to: int, n: int)
    requires 0 <= n <= Abs(to - from)
    ensures Min(from, to) <= Toward(from, to, n) <= Max(from, to)
  {}

  lemma LineStaysInGrid(a: Tile, b: Tile, k: nat)
    requires InGrid(a) && InGrid(b) && k <= Steps(a, b)
    ensures InGrid(CellAt(a, b, k))
  {
    var dx, dz := Abs(b.x - a.x), Abs(b.z - a.z);
    var major, minor := Max(dx, dz), Min(dx, dz);
    if major > 0 {
      var j := NearestHalfDown(k, minor, major);
      NearestIsBounded(k, minor, major);
      TowardIsBetween(a.x, b.x, if dx >= dz then k else j);
      TowardIsBetween(a.z, b.z, if dx >= dz then j else k);
    }
  }

  /** Cells of the two directions that are the same number of steps from different ends never coincide. */
  lemma OtherStepOtherCell(a: Tile, b: Tile, k: nat, m: nat)
    requires k <= Steps(a, b) && m <= Steps(a, b) && m != Steps(a, b) - k
    ensures CellAt(b, a, m) != CellAt(a, b, k)
  {
    var dx, dz := Abs(b.x - a.x), Abs(b.z - a.z);
    if dx >= dz {
      TowardReversed(a.x, b.x, k, dx);
      assert CellAt(b, a, m).x == Toward(b.x, a.x, m) && CellAt(a, b, k).x == Toward(a.x, b.x, k);
    } else {
      TowardReversed(a.z, b.z, k, dz);
      assert CellAt(b, a, m).z == Toward(b.z, a.z, m) && CellAt(a, b, k).z == Toward(a.z, b.z, k);
    }
  }

  /** Each cell of the line, the first and the last included, blocks it on its own. */
  lemma EveryCellBlocks(a: Tile, b: Tile, k: nat)
    requires InGrid(a) && InGrid(b) && k <= Steps(a, b)
    ensures LineBlocked(OnlyBlocked(CellAt(a, b, k)), a, b)
  {
    LineStaysInGrid(a, b, k);
    OnlyBlockedTile(CellAt(a, b, k), CellAt(a, b, k));
  }

  /** And nothing off the line does. */
  lemma NoOtherTileBlocks(a: Tile, b: Tile, t: Tile)
    requires InGrid(a) && InGrid(b) && InGrid(t) && forall k: nat :: k <= Steps(a, b) ==> CellAt(a, b, k) != t
    ensures !LineBlocked(OnlyBlocked(t), a, b)
  {
    forall k: nat | k <= Steps(a, b)
      ensures IsWalkable(OnlyBlocked(t), CellAt(a, b, k))
    {
      LineStaysInGrid(a, b, k);
      OnlyBlockedTile(t, CellAt(a, b, k));
    }
  }

  /** A blocked tile at either end blocks the line. */
  lemma EndsBlock(grid: Grid, a: Tile, b: Tile)
    requires !IsWalkable(grid, a) || !IsWalkable(grid, b)
    ensures LineBlocked(grid, a, b)
  {
    LineShape(a, b, 0);
    assert CellAt(a, b, 0) == a && CellAt(a, b, Steps(a, b)) == b;
  }

  /** A tile that only the line from a visits blocks that line alone. */
  lemma TieBreaksSight(a: Tile, b: Tile, k: nat)
    requires InGrid(a) && InGrid(b) && k <= Steps(a, b) && Tie(a, b, k)
    ensures var grid := OnlyBlocked(CellAt(a, b, k)); LineBlocked(grid, a, b) && !LineBlocked(grid, b, a)
  {
    var c := CellAt(a, b, k);
    LineStaysInGrid(a, b, k);
    OnlyBlockedTile(c, c);
    forall m: nat | m <= Steps(b, a)
      ensures IsWalkable(OnlyBlocked(c), CellAt(b, a, m))
    {
      LineStaysInGrid(b, a, m);
      OnlyBlockedTile(c, CellAt(b, a, m));
      if m == Steps(a, b) - k {
        LineReversed(a, b, k);
      } else {
        OtherStepOtherCell(a, b, k, m);
      }
    }
  }

  /** Two tiles see each other or not alike on every grid exactly when their line has no tie. */
  lemma SightIsSymmetricIffNoTie(a: Tile, b: Tile)
    requires InGrid(a) && InGrid(b)
    ensures (forall grid: Grid :: LineBlocked(grid, a, b) == LineBlocked(grid, b, a)) <==>
              (forall k: nat :: k <= Steps(a, b) ==> !Tie(a, b, k))
  {
    if k: nat :| k <= Steps(a, b) && Tie(a, b, k) {
      TieBreaksSight(a, b, k);
    } else {
      forall grid: Grid
        ensures LineBlocked(grid, a, b) == LineBlocked(grid, b, a)
      {
        SightIsSymmetricWithoutTies(grid, a, b);
      }
    }
  }

  /** With a tie it need not be: one blocked tile hides (2,1) from (0,0) but not (0,0) from (2,1). */
  lemma SightIsNotSymmetric(grid: Grid)
    requires forall t :: InGrid(t) ==> (IsWalkable(grid, t) <==> t != Tile(1, 0))
    ensures LineBlocked(grid, Tile(0, 0), Tile(2, 1)) && !LineBlocked(grid, Tile(2, 1), Tile(0, 0))
  {
    var a, b := Tile(0, 0), Tile(2, 1);
    assert CellAt(a, b, 1) == Tile(1, 0);
    assert !IsWalkable(grid, CellAt(a, b, 1));
    assert CellAt(b, a, 1) == Tile(1, 1);
    forall k: nat | k <= Steps(b, a)
      ensures IsWalkable(grid, CellAt(b, a, k))
    {
      assert k == 0 || k == 1 || k == 2;
    }
  }

  /** The longer axis advances every time; on an exact diagonal this is because the error is zero. */
  lemma MajorAlwaysSteps(k: int, minor: int, major: int, j: int)
    requires major > 0 && 0 <= minor <= major && j == NearestHalfDown(k, minor, major)
    ensures 2 * (j * major - k * minor) > minor - 2 * major
  {
    NearestIsWithinHalf(k, minor, major, j);
    if minor == major {
      assert (j - k) * major == j * major - k * minor;
      MulIsFar(j - k, major);
    }
  }

  lemma FlatStep(k: nat, dx: int, dy: int, j: int, err: int)
    requires dx > 0 && 0 <= dy <= dx && j == NearestHalfDown(k, dy, dx)
    requires err == j * dx - k * dy + dx - dy
    ensures 2 * err > -dy
    ensures NearestHalfDown(k + 1, dy, dx) == if 2 * err < dx then j + 1 else j
  {
    MajorAlwaysSteps(k, dy, dx, j);
    NearestStep(k, dy, dx);
  }

  lemma SteepStep(k: nat, dx: int, dy: int, i: int, err: int)
    requires 0 <= dx < dy && i == NearestHalfDown(k, dx, dy)
    requires err == k * dx - i * dy + dx - dy
    ensures 2 * err < dx
    ensures NearestHalfDown(k + 1, dx, dy) == if 2 * err > -dy then i + 1 else i
  {
    MajorAlwaysSteps(k, dx, dy, i);
    NearestStep(k, dx, dy);
  }

  /** The loop's state after i steps along x and j along z, k of them along the longer axis. */
  ghost predicate OnLine(a: Tile, b: Tile, k: nat, i: int, j: int, c: Tile, err: int) {
    var dx, dy := Abs(b.x - a.x), Abs(b.z - a.z);
    && c == CellAt(a, b, k)
    && c == Tile(Toward(a.x, b.x, i), Toward(a.z, b.z, j))
    && k == (if dx >= dy then i else j)
    && err == j * dx - i * dy + dx - dy
  }

  lemma LineStarts(a: Tile, b: Tile)
    ensures OnLine(a, b, 0, 0, 0, a, Abs(b.x - a.x) - Abs(b.z - a.z))
  {
    LineShape(a, b, 0);
    assert 0 * Abs(b.x - a.x) == 0 && 0 * Abs(b.z - a.z) == 0;
  }

  /** One round of the two error tests moves to the next cell of the line. */
  lemma LineStep(a: Tile, b: Tile, k: nat, i: int, j: int, c: Tile, err: int)
    requires k < Steps(a, b) && OnLine(a, b, k, i, j, c, err)
    ensures var dx, dy := Abs(b.x - a.x), Abs(b.z - a.z);
            var stepX, stepZ := 2 * err > -dy, 2 * err < dx;
            OnLine(a, b, k + 1, if stepX then i + 1 else i, if stepZ then j + 1 else j,
                   Tile(if stepX then c.x + Sign(a.x, b.x) else c.x, if stepZ then c.z + Sign(a.z, b.z) else c.z),
                   err - (if stepX then dy else 0) + (if stepZ then dx else 0))
  {
    var dx, dy := Abs(b.x - a.x), Abs(b.z - a.z);
    assert (j + 1) * dx == j * dx + dx && (i + 1) * dy == i * dy + dy;
    if dx >= dy {
      FlatStep(k, dx, dy, j, err);
    } else {
      SteepStep(k, dx, dy, i, err);
    }
  }

  /** The loop of the original: it reaches the second tile exactly, and reports a blocked cell iff the line has one. */
  method IsPathBlocked(grid: Grid, x1: real, z1: real, x2: real, z2: real) returns (blocked: bool)
    ensures var a, b := SnapToTile(x1, z1), SnapToTile(x2, z2);
            blocked <==> exists k: nat :: k <= Steps(a, b) && !IsWalkable(grid, CellAt(a, b, k))
    ensures var a, b := SnapToTile(x1, z1), SnapToTile(x2, z2);
            && (blocked <==> LineBlocked(grid, a, b))
            && (!IsWalkable(grid, a) || !IsWalkable(grid, b) ==> blocked)
  {
    var a, b := SnapToTile(x1, z1), SnapToTile(x2, z2);
    var dx, dy := Abs(b.x - a.x), Abs(b.z - a.z);
    var sx, sy := Sign(a.x, b.x), Sign(a.z, b.z);
    var err := dx - dy;
    var c := a;
    ghost var k, i, j := 0, 0, 0;
    LineStarts(a, b);
    if !IsWalkable(grid, a) || !IsWalkable(grid, b) {
      EndsBlock(grid, a, b);
    }
    while true
      invariant 0 <= k <= Steps(a, b) && OnLine(a, b, k, i, j, c, err)
      invariant forall h: nat :: h < k ==> IsWalkable(grid, CellAt(a, b, h))
      decreases Steps(a, b) - k
    {
      if !IsWalkable(grid, c) {
        return true;
      }
      LineShape(a, b, k);
      if c == b {
        break;
      }
      LineStep(a, b, k, i, j, c, err);
      var e2 := 2 * err;
      if e2 > -dy {
        err := err - dy;
        c := c.(x := c.x + sx);
        i := i + 1;
      }
      if e2 < dx {
        err := err + dx;
        c := c.(z := c.z + sy);
        j := j + 1;
      }
      k := k + 1;
    }
    return false;
  }
}
