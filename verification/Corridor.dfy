/**
 Two small grids: one on which a mover gives up on a target it could reach, one on which the cache sends it astray.
 */
module Corridor {
  import opened GridWorld
  import opened AStarTheorems
  import opened CacheRuns
  import opened LineOfSight
  import opened PathFinder
  import opened PathChaining
  import opened RetryGuard
  import opened ShortRuns

  const GOAL: Tile := Tile(5, 1)

  /** Six tiles in a row, and the goal around the corner at their end. */
  predicate Free(t: Tile) {
    (t.z == 0 && 0 <= t.x <= 5) || t == GOAL
  }

  function Row(): Grid {
    GridOf(Free)
  }

  lemma RowTile(t: Tile)
    requires InGrid(t)
    ensures IsWalkable(Row(), t) <==> Free(t)
  {
    GridOfTile(Free, t);
  }

  lemma RowIsStraight(x: int)
    requires 0 <= x <= 3
    ensures Straight(Row(), Tile(x, 0), Tile(x + 1, 0), GOAL)
  {
    RowTile(Tile(x + 1, 0));
  }

  /** The goal can be reached along the row. */
  lemma GoalIsReachable()
    ensures Connected(Row(), Tile(0, 0), GOAL)
  {
    var p := [Tile(0, 0), Tile(1, 0), Tile(2, 0), Tile(3, 0), Tile(4, 0), Tile(5, 0), GOAL];
    forall i | 0 <= i < |p| - 1
      ensures LegalMove(Row(), p[i], p[i + 1])
    {
      RowTile(p[i + 1]);
    }
    assert WalkFromTo(Row(), p, Tile(0, 0), GOAL);
  }

  /** From the first two tiles the goal is out of sight. */
  lemma GoalIsOutOfSight()
    ensures LineBlocked(Row(), Tile(0, 0), GOAL) && LineBlocked(Row(), Tile(1, 0), GOAL)
  {
    RowTile(Tile(3, 1));
    RowTile(Tile(4, 1));
    var a, b, k := Tile(0, 0), Tile(1, 0), 3;
    NearestIsWithinHalf(3, 1, 5, 1);
    NearestIsWithinHalf(3, 1, 4, 1);
    assert CellAt(a, GOAL, k) == Tile(3, 1) && k <= Steps(a, GOAL);
    assert CellAt(b, GOAL, k) == Tile(4, 1) && k <= Steps(b, GOAL);
  }

  lemma LegOfOne(x: int) returns (r: PathResult)
    requires 0 <= x <= 2
    ensures CleanSearch(Row(), Tile(x, 0), GOAL, 2, r) && r.isPartial && !r.isFailed && EndsOn(r, Tile(x + 1, 0))
    ensures Leg(Row(), GOAL, 2, Tile(x, 0), Tile(x + 1, 0))
  {
    RowIsStraight(x);
    RowIsStraight(x + 1);
    r := CappedOnNextTile(Row(), Tile(x, 0), GOAL, Tile(x + 1, 0), Tile(x + 2, 0));
  }

  lemma TwoSpots(p: Point, q: Point, a: Tile, b: Tile)
    requires p == Point(0.4, 0.0) && q == Point(0.95, 0.0) && a == Tile(0, 0) && b == Tile(1, 0)
    ensures TileOf(p) == a && TileOf(q) == b && AtWaypoint(q, b)
    ensures WithinOne(p, Point(0.0, 0.0)) && WithinOne(q, p)
  {
    InteriorSnaps(a, p.x, p.z);
    InteriorSnaps(b, q.x, q.z);
  }

  lemma GuardTrips(spots: seq<Point>, stops: seq<Tile>)
    requires spots == [Point(0.4, 0.0), Point(0.95, 0.0)] && stops == [Tile(0, 0), Tile(1, 0)]
    ensures RunAlong(spots[0], stops, spots) && GivesUp(0, Point(0.0, 0.0), spots)
  {
    TwoSpots(spots[0], spots[1], stops[0], stops[1]);
    FirstCounts(0, Point(0.0, 0.0), spots);
  }

  /**
   With a cap of two, a mover that starts a little to the right of the first tile's centre plans one tile ahead, walks
   to just short of the next centre, plans one tile ahead again, and gives up: on its second plan, and on a goal it
   could reach.
   */
  lemma GivesUpOnReachableGoal(spots: seq<Point>, stops: seq<Tile>) returns (first: PathResult, second: PathResult)
    requires spots == [Point(0.4, 0.0), Point(0.95, 0.0)] && stops == [Tile(0, 0), Tile(1, 0)]
    ensures Connected(Row(), stops[0], GOAL)
    ensures LineBlocked(Row(), stops[0], GOAL) && LineBlocked(Row(), stops[1], GOAL)
    ensures CleanSearch(Row(), stops[0], GOAL, 2, first) && first.isPartial && EndsOn(first, stops[1])
    ensures CleanSearch(Row(), stops[1], GOAL, 2, second) && second.isPartial && !second.isFailed
    ensures Leg(Row(), GOAL, 2, stops[0], stops[1])
    ensures RunAlong(spots[0], stops, spots) && GivesUp(0, Point(0.0, 0.0), spots)
  {
    GoalIsReachable();
    GoalIsOutOfSight();
    first := LegOfOne(0);
    second := LegOfOne(1);
    GuardTrips(spots, stops);
  }

  /** From one of two free tiles to the one beside it, the way is found and filed. */
  lemma WayThereIsFound(grid: Grid, s: Tile, e: Tile, cap: int) returns (first: PathResult)
    requires s == Tile(0, 0) && e == Tile(1, 0) && IsWalkable(grid, s) && IsWalkable(grid, e) && cap >= 2
    ensures Answers(grid, map[], s, e, cap, first) && EndsOn(first, e) && KeyOf(s, e) == KeyOf(e, s)
  {
    assert Straight(grid, s, e, e);
    first := NextTileIsFound(grid, s, e, cap);
  }

  /**
   Between tiles of one bucket, once the way there was filed, a request for the way back is answered with the way
   there.
   */
  lemma WayBackIsWrong(grid: Grid, s: Tile, e: Tile, caches: seq<PathCache>, calls: seq<Call>)
    requires InGrid(s) && InGrid(e) && s != e && IsWalkable(grid, s) && IsWalkable(grid, e)
    requires KeyOf(s, e) == KeyOf(e, s)
    requires Run(grid, caches, calls) && |calls| == 2 && caches[0] == map[] && calls[0].Ask? && calls[1].Ask?
    requires calls[0].s == s && calls[0].e == e && EndsOn(calls[0].r, e) && calls[1].s == e && calls[1].e == s
    ensures var r := calls[1].r;
            && !r.isFailed && !r.isPartial
            && WalkFromTo(grid, r.waypoints, s, e) && !WalkFromTo(grid, r.waypoints, e, s)
  {
    FiledWalkAnswers(grid, caches, calls, 0, 1);
    FiledIsWalk(grid, caches[0], calls[0]);
  }
}
