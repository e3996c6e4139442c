/** Walking to a far target by consuming partial paths and planning again from where each of them ends. */
module PathChaining {
  import opened Arith
  import opened GridWorld
  import opened AStarTheorems
  import opened ExpandOnce
  import opened LineOfSight
  import opened PathFinder
  import opened RetryGuard

  /** The octile distance in units of 10^-8, the precision of the diagonal cost. */
  function OctileUnits(a: Tile, b: Tile): int {
    var dx, dz := Abs(a.x - b.x), Abs(a.z - b.z);
    100000000 * (dx + dz) - 58578644 * Min(dx, dz)
  }

  lemma UnitsMeasureOctile(a: Tile, b: Tile)
    ensures OctileUnits(a, b) as real == 100000000.0 * Octile(a, b)
    ensures OctileUnits(a, b) >= 0
  {}

  /** One search from a that did not fail and whose answer ends on b. */
  ghost predicate Leg(grid: Grid, goal: Tile, cap: int, a: Tile, b: Tile) {
    InGrid(a) && a != goal && exists r :: CleanSearch(grid, a, goal, cap, r) && !r.isFailed && EndsOn(r, b)
  }

  /**
   Consecutive stops are related; the relation is a parameter so that the chain itself says nothing about searches.
   */
  ghost predicate Chain(leg: (Tile, Tile) -> bool, stops: seq<Tile>) {
    |stops| > 0 && forall k :: 0 < k < |stops| ==> leg(stops[k - 1], stops[k])
  }

  ghost predicate Legs(grid: Grid, goal: Tile, cap: int, stops: seq<Tile>) {
    Chain((a, b) => Leg(grid, goal, cap, a, b), stops)
  }

  lemma {:induction false} ChainDescends(leg: (Tile, Tile) -> bool, measure: Tile -> int, stops: seq<Tile>, i: nat,
                                         j: nat)
    requires Chain(leg, stops) && i <= j < |stops|
    requires forall a, b :: leg(a, b) ==> measure(b) < measure(a)
    ensures measure(stops[j]) + j - i <= measure(stops[i])
    decreases j - i
  {
    if i < j {
      ChainDescends(leg, measure, stops, i + 1, j);
      assert leg(stops[i + 1 - 1], stops[i + 1]);
    }
  }

  lemma {:induction false} ChainConnects(grid: Grid, leg: (Tile, Tile) -> bool, stops: seq<Tile>, j: nat)
    requires Chain(leg, stops) && 0 < j < |stops|
    requires forall a, b :: leg(a, b) ==> Connected(grid, a, b)
    ensures Connected(grid, stops[0], stops[j])
  {
    assert leg(stops[j - 1], stops[j]);
    if j > 1 {
      ChainConnects(grid, leg, stops, j - 1);
      WalksJoin(grid, stops[0], stops[j - 1], stops[j]);
    }
  }

  lemma LegDescends(grid: Grid, goal: Tile, cap: int, a: Tile, b: Tile)
    requires Leg(grid, goal, cap, a, b)
    ensures InGrid(b) && OctileUnits(b, goal) < OctileUnits(a, goal)
    ensures Connected(grid, a, b)
  {
    var r :| CleanSearch(grid, a, goal, cap, r) && !r.isFailed && EndsOn(r, b);
    SearchIsSound(grid, a, goal, cap, r);
    UnitsMeasureOctile(a, goal);
    UnitsMeasureOctile(b, goal);
    assert WalkFromTo(grid, r.waypoints, a, b);
    assert LegalMove(grid, r.waypoints[|r.waypoints| - 2], r.waypoints[|r.waypoints| - 2 + 1]);
  }

  lemma WalksJoin(grid: Grid, a: Tile, b: Tile, c: Tile)
    requires Connected(grid, a, b) && Connected(grid, b, c)
    ensures Connected(grid, a, c)
  {
    var p :| WalkFromTo(grid, p, a, b);
    var q :| WalkFromTo(grid, q, b, c);
    var w := p + q[1..];
    forall i | 0 <= i < |w| - 1
      ensures LegalMove(grid, w[i], w[i + 1])
    {
      if i >= |p| - 1 {
        var j := i - (|p| - 1);
        assert w[i] == q[j] && w[i + 1] == q[j + 1];
        assert LegalMove(grid, q[j], q[j + 1]);
      } else {
        assert LegalMove(grid, p[i], p[i + 1]);
      }
    }
    assert WalkFromTo(grid, w, a, c);
  }

  /** However often it replans, a mover never returns to a stop, and the first distance bounds the number of legs. */
  lemma LegsAreFinite(grid: Grid, goal: Tile, cap: int, stops: seq<Tile>)
    requires Legs(grid, goal, cap, stops)
    ensures |stops| - 1 <= OctileUnits(stops[0], goal)
    ensures forall i, j :: 0 <= i < j < |stops| ==> stops[i] != stops[j]
    ensures forall j :: 0 < j < |stops| ==> Connected(grid, stops[0], stops[j])
  {
    var leg := (a, b) => Leg(grid, goal, cap, a, b);
    var measure := t => OctileUnits(t, goal);
    forall a, b | leg(a, b)
      ensures measure(b) < measure(a) && Connected(grid, a, b)
    {
      LegDescends(grid, goal, cap, a, b);
    }
    UnitsMeasureOctile(stops[|stops| - 1], goal);
    ChainDescends(leg, measure, stops, 0, |stops| - 1);
    forall i, j | 0 <= i < j < |stops|
      ensures stops[i] != stops[j]
    {
      ChainDescends(leg, measure, stops, i, j);
    }
    forall j | 0 < j < |stops|
      ensures Connected(grid, stops[0], stops[j])
    {
      ChainConnects(grid, leg, stops, j);
    }
  }

  // ---- What a plan is worth

  ghost predicate Cached(grid: Grid, s: Tile, e: Tile, path: seq<Tile>) {
    CachedWalk(grid, KeyOf(s, e), path)
  }

  ghost predicate Searched(grid: Grid, s: Tile, e: Tile, cap: int, path: seq<Tile>, partial: bool)
    requires InGrid(s)
  {
    if s == e then path == [e] && !partial else CleanSearch(grid, s, e, cap, PathResult(path, partial, false))
  }

  /** The path is that of a search for these tiles, or a cached one of their buckets, towards a free target. */
  ghost predicate Planned(grid: Grid, s: Tile, e: Tile, cap: int, path: seq<Tile>, partial: bool)
    requires InGrid(s)
  {
    && |path| > 0 && (s != e ==> IsWalkable(grid, e))
    && (Searched(grid, s, e, cap, path, partial) || (!partial && Cached(grid, s, e, path)))
  }

  lemma {:induction false} WalkStaysInGrid(grid: Grid, w: seq<Tile>, k: nat)
    requires Walk(grid, w) && InGrid(w[0]) && k < |w|
    ensures InGrid(w[k])
  {
    if k > 0 {
      assert LegalMove(grid, w[k - 1], w[k - 1 + 1]);
    }
  }

  lemma PlanIsWalk(grid: Grid, s: Tile, e: Tile, cap: int, path: seq<Tile>, partial: bool)
    requires InGrid(s) && InGrid(e) && Planned(grid, s, e, cap, path, partial)
    ensures Walk(grid, path) && InGrid(Last(path))
  {
    if s != e && Searched(grid, s, e, cap, path, partial) {
      SearchIsSound(grid, s, e, cap, PathResult(path, partial, false));
    }
    WalkStaysInGrid(grid, path, |path| - 1);
  }

  /** A free tile is in sight of itself. */
  lemma OwnTileIsInSight(grid: Grid, t: Tile)
    ensures LineBlocked(grid, t, t) <==> !IsWalkable(grid, t)
  {
    assert Steps(t, t) == 0 && CellAt(t, t, 0) == t;
  }

  /**
   A mover at the end of a path flagged complete, with its target still out of sight, is put on the target although the
   path did not lead there: the target's tile is blocked and the mover in it, or no legal walk leads there, or the path
   was cached for another target.
   */
  lemma PutOnTargetUnreached(grid: Grid, s: Tile, e: Tile, cap: int, path: seq<Tile>, spot: Point)
    requires InGrid(s) && InGrid(e) && Planned(grid, s, e, cap, path, false)
    requires AtWaypoint(spot, Last(path)) && LineBlocked(grid, TileOf(spot), e)
    ensures (s == e && !IsWalkable(grid, e)) || Last(path) != e
    ensures s != e && Searched(grid, s, e, cap, path, false) ==> !Connected(grid, s, e)
  {
    PlanIsWalk(grid, s, e, cap, path, false);
    WaypointSnaps(spot, Last(path));
    OwnTileIsInSight(grid, e);
    if s != e && Searched(grid, s, e, cap, path, false) {
      SearchIsComplete(grid, s, e, cap, PathResult(path, false, false));
    }
  }

  lemma AnswerIsPlan(grid: Grid, cache: PathCache, s: Tile, e: Tile, cap: int, r: PathResult)
    requires InGrid(s) && Answers(grid, cache, s, e, cap, r) && !r.isFailed && |r.waypoints| > 0
    requires forall k :: k in cache ==> CachedWalk(grid, k, cache[k])
    ensures Planned(grid, s, e, cap, r.waypoints, r.isPartial)
  {
    if s != e && IsWalkable(grid, e) && KeyOf(s, e) !in cache {
      assert r == PathResult(r.waypoints, r.isPartial, false);
    }
  }

  /** Why nothing can be followed: the target's tile is blocked, or the search found no tile nearer to it. */
  ghost predicate NoWayOn(grid: Grid, s: Tile, e: Tile, cap: int) {
    InGrid(s) && s != e && (IsWalkable(grid, e) ==> exists r :: CleanSearch(grid, s, e, cap, r) && r.isFailed)
  }

  lemma EndIsFree(grid: Grid, s: Tile, e: Tile)
    requires Connected(grid, s, e) && s != e
    ensures IsWalkable(grid, e)
  {
    var p :| WalkFromTo(grid, p, s, e);
    assert LegalMove(grid, p[|p| - 2], p[|p| - 2 + 1]);
  }

  /** With a cap that is never hit, nothing to follow means that no legal walk leads to the target. */
  lemma NothingToFollowMeansNoWay(grid: Grid, s: Tile, e: Tile, cap: int)
    requires NoWayOn(grid, s, e, cap) && cap >= AMPLE
    ensures !Connected(grid, s, e)
  {
    if Connected(grid, s, e) {
      EndIsFree(grid, s, e);
      var r :| CleanSearch(grid, s, e, cap, r) && r.isFailed;
      AmpleCapDecides(grid, s, e, cap, r);
    }
  }

  /** A search result, as a plan or as nothing. */
  method AskWorld(world: GridMap, scratch: SearchScratch, p: Point, goal: Point, cap: int) returns (r: PathResult)
    requires world.Valid() && scratch.Valid()
    modifies world, scratch, scratch.gScore, scratch.parent
    ensures world.Valid() && scratch.Valid()
    ensures !r.isFailed && |r.waypoints| > 0 ==>
              Planned(world.grid, TileOf(p), TileOf(goal), cap, r.waypoints, r.isPartial)
    ensures r.isFailed || r.waypoints == [] ==> NoWayOn(world.grid, TileOf(p), TileOf(goal), cap)
  {
    ghost var cache := world.pathCache;
    r := world.FindPath(scratch, p.x, p.z, goal.x, goal.z, cap);
    if !r.isFailed && |r.waypoints| > 0 {
      AnswerIsPlan(world.grid, cache, TileOf(p), TileOf(goal), cap, r);
    }
  }

  lemma PartialPlanIsLeg(grid: Grid, s: Tile, e: Tile, cap: int, path: seq<Tile>)
    requires InGrid(s) && Planned(grid, s, e, cap, path, true)
    ensures s != e && |path| > 0 && Last(path) != e && Leg(grid, e, cap, s, Last(path))
  {
    var r := PathResult(path, true, false);
    SearchIsSound(grid, s, e, cap, r);
    assert EndsOn(r, Last(path));
  }

  datatype ToilState = Idle | Moving | Working

  /** How a hop or a journey ends; on the way is where the next hop begins. */
  datatype Outcome = OnTheWay | Sees | Works | NoPath | GaveUp

  /** One mover between two goals. */
  class Mover {
    var at: Point
    var toil: ToilState
    var waypoints: seq<Tile>
    var isPartial: bool
    var capRetryCount: int
    var lastCapPos: Point

    ghost predicate Valid()
      reads this
    {
      0 <= capRetryCount <= 1
    }

    /** About to plan. */
    ghost predicate Ready()
      reads this
    {
      Valid() && toil == Moving && waypoints == []
    }

    constructor (at: Point)
      ensures Ready() && this.at == at && capRetryCount == 0
    {
      this.at, toil, waypoints, isPartial := at, Moving, [], false;
      capRetryCount, lastCapPos := 0, Point(0.0, 0.0);
    }

    /** Counts partial plans made close to the one before; the second in a row ends the journey and clears the count. */
    method NoteCap() returns (gaveUp: bool)
      requires Valid()
      modifies `capRetryCount, `lastCapPos, `toil, `waypoints
      ensures Valid() && lastCapPos == at
      ensures var count := Counted(old(capRetryCount), old(lastCapPos), at);
              && (gaveUp <==> count >= 2)
              && (if gaveUp then toil == Idle && waypoints == [] && capRetryCount == 0
                  else toil == old(toil) && waypoints == old(waypoints) && capRetryCount == count)
    {
      capRetryCount := if WithinOne(at, lastCapPos) then capRetryCount + 1 else 0;
      lastCapPos := at;
      gaveUp := false;
      if capRetryCount >= 2 {
        toil, waypoints, capRetryCount := Idle, [], 0;
        gaveUp := true;
      }
    }

    /**
     Takes an answer: nothing to follow idles the mover, a partial path is counted, a complete one clears the count. The
     count and the place of the last counted plan change in no other way.
     */
    method Accept(r: PathResult) returns (outcome: Outcome)
      requires Ready()
      modifies this
      ensures Valid() && at == old(at)
      ensures match outcome
              case OnTheWay =>
                toil == Moving && waypoints == r.waypoints != [] && !r.isFailed && isPartial == r.isPartial
              case NoPath => toil == Idle && waypoints == [] && (r.isFailed || r.waypoints == [])
              case GaveUp => toil == Idle && waypoints == [] && r.isPartial && !r.isFailed && r.waypoints != []
              case _ => false
      ensures outcome != NoPath && r.isPartial ==>
                var count := Counted(old(capRetryCount), old(lastCapPos), at);
                && (outcome == GaveUp <==> count >= 2)
                && (outcome == OnTheWay ==> capRetryCount == count) && lastCapPos == at
      ensures outcome == NoPath ==> capRetryCount == old(capRetryCount)
      ensures outcome == GaveUp || (outcome == OnTheWay && !r.isPartial) ==> capRetryCount == 0
      ensures outcome == NoPath || !r.isPartial ==> lastCapPos == old(lastCapPos)
    {
      if r.isFailed || |r.waypoints| == 0 {
        toil, waypoints := Idle, [];
        return NoPath;
      }
      waypoints, isPartial := r.waypoints, r.isPartial;
      if r.isPartial {
        var gaveUp := NoteCap();
        return if gaveUp then GaveUp else OnTheWay;
      }
      capRetryCount := 0;
      return OnTheWay;
    }

    /** The sight test of every frame: with the target in sight the path is dropped, the count cleared. */
    method Look(world: GridMap, goal: Point) returns (sees: bool)
      requires Valid()
      modifies `waypoints, `isPartial, `capRetryCount
      ensures Valid() && (sees <==> !LineBlocked(world.grid, TileOf(at), TileOf(goal)))
      ensures if sees then waypoints == [] && !isPartial && capRetryCount == 0
              else waypoints == old(waypoints) && isPartial == old(isPartial) && capRetryCount == old(capRetryCount)
    {
      var blocked := IsPathBlocked(world.grid, at.x, at.z, goal.x, goal.z);
      if !blocked {
        waypoints, isPartial, capRetryCount := [], false, 0;
      }
      sees := !blocked;
    }

    /** Plans, unless the target is in sight. */
    method Plan(world: GridMap, scratch: SearchScratch, goal: Point, cap: int)
      returns (outcome: Outcome, ghost partial: bool)
      requires world.Valid() && scratch.Valid() && Ready()
      modifies this, world, scratch, scratch.gScore, scratch.parent
      ensures world.Valid() && scratch.Valid() && Valid() && at == old(at)
      ensures outcome == Sees <==> !LineBlocked(world.grid, TileOf(at), TileOf(goal))
      ensures match outcome
              case Sees => Ready() && capRetryCount == 0 && !partial
              case OnTheWay =>
                && toil == Moving && isPartial == partial
                && Planned(world.grid, TileOf(at), TileOf(goal), cap, waypoints, partial)
              case NoPath => toil == Idle && !partial && capRetryCount == old(capRetryCount)
              case GaveUp => toil == Idle && partial && capRetryCount == 0
              case Works => false
      ensures partial ==>
                var count := Counted(old(capRetryCount), old(lastCapPos), at);
                && (outcome == GaveUp <==> count >= 2)
                && (outcome == OnTheWay ==> capRetryCount == count)
      ensures outcome == OnTheWay && !partial ==> capRetryCount == 0
      ensures lastCapPos == if partial then at else old(lastCapPos)
      ensures outcome == NoPath ==> NoWayOn(world.grid, TileOf(at), TileOf(goal), cap)
    {
      partial := false;
      var sees := Look(world, goal);
      if sees {
        return Sees, false;
      }
      var r := AskWorld(world, scratch, at, goal, cap);
      outcome := Accept(r);
      partial := outcome != NoPath && r.isPartial;
    }

    /**
     Follows the waypoints until the target comes in sight, anywhere, or the last waypoint counts as reached from less
     than a tenth of a unit.
     */
    method WalkPath(world: GridMap, goal: Point) returns (sees: bool)
      requires Valid() && |waypoints| > 0
      modifies `at, `waypoints, `isPartial, `capRetryCount
      ensures Valid() && (sees <==> !LineBlocked(world.grid, TileOf(at), TileOf(goal)))
      ensures if sees then waypoints == [] && !isPartial && capRetryCount == 0
              else waypoints == old(waypoints) && isPartial == old(isPartial) && capRetryCount == old(capRetryCount)
                   && AtWaypoint(at, Last(waypoints))
    {
      var target := Last(waypoints);
      var onTheWay: Point, early: bool := *, *;
      if early {
        var blocked := IsPathBlocked(world.grid, onTheWay.x, onTheWay.z, goal.x, goal.z);
        if !blocked {
          at := onTheWay;
          sees := Look(world, goal);
          return;
        }
      }
      assert AtWaypoint(Center(target), target);
      var there :| AtWaypoint(there, target);
      at := there;
      sees := Look(world, goal);
    }

    /**
     The end of a path: close to the target, or on a path flagged complete, the mover is put there; else it plans
     again.
     */
    method FinishPath(goal: Point)
      requires Valid() && toil == Moving
      modifies this
      ensures Valid() && waypoints == [] && lastCapPos == old(lastCapPos)
      ensures if !old(isPartial) || WithinOne(goal, old(at)) then toil == Working && at == goal && capRetryCount == 0
              else toil == Moving && at == old(at) && capRetryCount == old(capRetryCount)
    {
      if WithinOne(goal, at) || !isPartial {
        at, toil, isPartial, capRetryCount := goal, Working, false, 0;
      }
      waypoints := [];
    }

    /**
     One plan and the walk along it. The spot is where the walk ended; partial says that a partial plan was counted.
     */
    method Hop(world: GridMap, scratch: SearchScratch, goal: Point, cap: int)
      returns (outcome: Outcome, ghost partial: bool, ghost path: seq<Tile>, ghost spot: Point)
      requires world.Valid() && scratch.Valid() && Ready()
      modifies this, world, scratch, scratch.gScore, scratch.parent
      ensures world.Valid() && scratch.Valid() && Valid()
      ensures partial ==> LineBlocked(world.grid, TileOf(old(at)), TileOf(goal))
      ensures partial ==> (outcome == GaveUp <==> Counted(old(capRetryCount), old(lastCapPos), old(at)) >= 2)
      ensures match outcome
              case Sees => Ready() && capRetryCount == 0 && !LineBlocked(world.grid, TileOf(at), TileOf(goal))
              case NoPath =>
                && toil == Idle && !partial && at == old(at) && capRetryCount == old(capRetryCount)
                && NoWayOn(world.grid, TileOf(at), TileOf(goal), cap)
              case GaveUp => toil == Idle && partial && at == old(at) && capRetryCount == 0
              case OnTheWay =>
                && Ready() && partial && at == spot && Ended(world.grid, old(at), goal, cap, path, true, spot)
                && capRetryCount == Counted(old(capRetryCount), old(lastCapPos), old(at))
              case Works =>
                && toil == Working && at == goal && Ended(world.grid, old(at), goal, cap, path, partial, spot)
                && (partial ==> WithinOne(goal, spot)) && capRetryCount == 0
      ensures lastCapPos == if partial then old(at) else old(lastCapPos)
    {
      outcome, partial := Plan(world, scratch, goal, cap);
      path, spot := waypoints, at;
      if outcome == OnTheWay {
        var sees := WalkPath(world, goal);
        if sees {
          return Sees, partial, path, at;
        }
        spot := at;
        FinishPath(goal);
        outcome := if toil == Working then Works else OnTheWay;
      }
    }

    /**
     Plans and walks until the mover sees its target, works or idles. The loop ends whatever the grid, the cache and
     the cap are. The stops it planned at form strictly descending legs, each planned with the target out of sight; it
     gives up exactly when the guard trips over the positions of its partial plans; and it works only unseen, at the
     end of a path flagged complete or right beside the target.
     */
    method Journey(world: GridMap, scratch: SearchScratch, goal: Point, cap: int)
      returns (outcome: Outcome, ghost trip: Trip)
      requires world.Valid() && scratch.Valid() && Ready()
      modifies this, world, scratch, scratch.gScore, scratch.parent
      ensures world.Valid() && scratch.Valid() && Valid() && outcome != OnTheWay
      ensures outcome == Works ==> toil == Working && at == goal && Arrived(world.grid, goal, cap, trip)
      ensures outcome == Sees ==> toil == Moving && !LineBlocked(world.grid, TileOf(at), TileOf(goal))
      ensures outcome == NoPath || outcome == GaveUp ==> toil == Idle
      ensures outcome == NoPath ==> Stranded(world.grid, TileOf(goal), cap, trip)
      ensures capRetryCount == if outcome == NoPath then Retries(old(capRetryCount), old(lastCapPos), trip.spots) else 0
      ensures lastCapPos == LastSpot(old(lastCapPos), trip.spots)
      ensures Travelled(world.grid, TileOf(goal), cap, trip) && StartsAt(trip, old(at))
      ensures Patient(old(capRetryCount), old(lastCapPos), trip.spots, |trip.spots|)
      ensures outcome == GaveUp <==> GivesUp(old(capRetryCount), old(lastCapPos), trip.spots)
      ensures outcome == GaveUp ==> |trip.spots| == |trip.stops|
    {
      ghost var count, last := capRetryCount, lastCapPos;
      trip := Trip([TileOf(at)], [], [], at);
      outcome := OnTheWay;
      TallyStarts(world.grid, TileOf(goal), cap, count, last, at);
      while outcome == OnTheWay
        invariant world.Valid() && scratch.Valid() && Valid()
        invariant outcome == OnTheWay ==>
                    Ready() && at == trip.spot && Told(count, last, old(at), trip, capRetryCount, lastCapPos)
        invariant outcome == Works ==> toil == Working && at == goal && Arrived(world.grid, goal, cap, trip)
        invariant outcome == Sees ==> toil == Moving && !LineBlocked(world.grid, TileOf(at), TileOf(goal))
        invariant outcome == NoPath || outcome == GaveUp ==> toil == Idle
        invariant outcome == NoPath ==>
                    && Stranded(world.grid, TileOf(goal), cap, trip)
                    && capRetryCount == Retries(count, last, trip.spots)
        invariant outcome != OnTheWay && outcome != NoPath ==> capRetryCount == 0
        invariant lastCapPos == LastSpot(last, trip.spots)
        invariant Travelled(world.grid, TileOf(goal), cap, trip) && StartsAt(trip, old(at))
        invariant Tallied(count, last, trip, outcome)
        decreases outcome == OnTheWay, OctileUnits(Last(trip.stops), TileOf(goal))
      {
        ghost var now, lastNow := capRetryCount, lastCapPos;
        ghost var partial, path, spot;
        outcome, partial, path, spot := Hop(world, scratch, goal, cap);
        trip := Record(world.grid, TileOf(goal), cap, count, last, old(at), trip, now, lastNow,
                       outcome, partial, path, spot);
      }
      TallyEnds(count, last, trip, outcome);
    }

    /**
     A new job for a mover that is not under way: wherever it has got to meanwhile, it forgets its path and will plan.
     The guard's count and place are left as they are.
     */
    method SetOut(from: Point)
      requires Valid()
      modifies `at, `toil, `waypoints
      ensures Ready() && at == from
    {
      at, toil, waypoints := from, Moving, [];
    }

    /**
     A second job after a first. Unless the first ended with nothing to follow, the second starts with a clean count
     and cannot be given up on its first plan; if it did, the second is given up on its first plan exactly when it is
     made less than a unit from the last partial plan of the first and the count was one.
     */
    method TwoJourneys(world: GridMap, scratch: SearchScratch, goal: Point, goal2: Point, from: Point, cap: int)
      returns (first: Outcome, ghost trip: Trip, second: Outcome, ghost trip2: Trip)
      requires world.Valid() && scratch.Valid() && Ready()
      modifies this, world, scratch, scratch.gScore, scratch.parent
      ensures world.Valid() && scratch.Valid() && Valid()
      ensures first == GaveUp <==> GivesUp(old(capRetryCount), old(lastCapPos), trip.spots)
      ensures second == GaveUp && first != NoPath ==> |trip2.spots| >= 2 && |trip2.stops| >= 2
      ensures second == GaveUp && first == NoPath && |trip2.spots| == 1 ==>
                && Retries(old(capRetryCount), old(lastCapPos), trip.spots) == 1
                && WithinOne(from, LastSpot(old(lastCapPos), trip.spots))
      ensures && first == NoPath && |trip2.spots| > 0 && WithinOne(from, LastSpot(old(lastCapPos), trip.spots))
              && Retries(old(capRetryCount), old(lastCapPos), trip.spots) == 1 ==>
                second == GaveUp && |trip2.spots| == 1
    {
      first, trip := Journey(world, scratch, goal, cap);
      SetOut(from);
      ghost var count, last := capRetryCount, lastCapPos;
      second, trip2 := Journey(world, scratch, goal2, cap);
      FirstPlanGivesUpIff(count, last, from, trip2.spots);
    }
  }

  /** A journey that makes a partial plan gives up on it exactly when the plan makes the count two. */
  lemma FirstPlanGivesUpIff(count: int, last: Point, from: Point, spots: seq<Point>)
    requires 0 <= count <= 1 && Patient(count, last, spots, |spots|) && (spots != [] ==> spots[0] == from)
    ensures GivesUp(count, last, spots) && |spots| == 1 <==> spots != [] && count == 1 && WithinOne(from, last)
  {
    if spots != [] {
      assert Retries(count, last, spots[..0]) == count;
      CountStep(count, last, spots, 0);
      assert CountAfter(count, last, spots, 1) == Counted(count, last, from);
    }
  }

  /** The mover followed this plan to its end and the target was still out of sight. */
  ghost predicate Ended(grid: Grid, start: Point, goal: Point, cap: int, path: seq<Tile>, partial: bool, spot: Point) {
    && Planned(grid, TileOf(start), TileOf(goal), cap, path, partial) && AtWaypoint(spot, Last(path))
    && LineBlocked(grid, TileOf(spot), TileOf(goal))
  }

  /** Tiles planned at, positions of the partial plans, the last path, and where it ended. */
  datatype Trip = Trip(stops: seq<Tile>, spots: seq<Point>, path: seq<Tile>, spot: Point)

  ghost predicate StartsAt(trip: Trip, start: Point) {
    |trip.stops| > 0 && trip.stops[0] == TileOf(start) && (trip.spots != [] ==> trip.spots[0] == start)
  }

  /** A chain of legs, with a partial plan made at each stop but perhaps the last, and none with the target in sight. */
  ghost predicate TripAlong(leg: (Tile, Tile) -> bool, unseen: Tile -> bool, trip: Trip) {
    && Chain(leg, trip.stops) && OnGrid(trip.stops) && OnStops(trip.spots, trip.stops)
    && |trip.stops| - 1 <= |trip.spots|
    && (forall k :: 0 <= k < |trip.spots| ==> unseen(trip.stops[k]))
  }

  ghost predicate Travelled(grid: Grid, goal: Tile, cap: int, trip: Trip) {
    TripAlong((a, b) => Leg(grid, goal, cap, a, b), t => LineBlocked(grid, t, goal), trip)
  }

  /** Unseen, at the end of a complete path that was planned at the last stop, or on that stop and beside the goal. */
  ghost predicate Arrived(grid: Grid, goal: Point, cap: int, trip: Trip) {
    && |trip.stops| > 0 && InGrid(Last(trip.stops)) && LineBlocked(grid, TileOf(trip.spot), TileOf(goal))
    && (|| (&& Planned(grid, Last(trip.stops), TileOf(goal), cap, trip.path, false)
            && AtWaypoint(trip.spot, Last(trip.path)))
        || (AtWaypoint(trip.spot, Last(trip.stops)) && WithinOne(goal, trip.spot)))
  }

  /** With nothing to follow from the last stop. */
  ghost predicate Stranded(grid: Grid, goal: Tile, cap: int, trip: Trip) {
    |trip.stops| > 0 && NoWayOn(grid, Last(trip.stops), goal, cap)
  }

  /** At the last stop, with the plan there still to be made. */
  ghost predicate Standing(trip: Trip) {
    && |trip.stops| > 0 && |trip.spots| == |trip.stops| - 1 && TileOf(trip.spot) == Last(trip.stops)
    && (|trip.stops| > 1 ==> AtWaypoint(trip.spot, Last(trip.stops)))
  }

  /** The mover stands at the last stop and remembers what the trip tells. */
  ghost predicate Told(count: int, last: Point, start: Point, trip: Trip, now: int, lastNow: Point) {
    && now == Retries(count, last, trip.spots) && lastNow == LastSpot(last, trip.spots)
    && Standing(trip) && (trip.spots == [] ==> trip.spot == start)
  }

  /** The count stays below two until the mover gives up, which leaves the last plan made but not walked. */
  ghost predicate Tallied(count: int, last: Point, trip: Trip, outcome: Outcome) {
    && |trip.stops| > 0 && Patient(count, last, trip.spots, |trip.spots|)
    && (if outcome == GaveUp then |trip.spots| == |trip.stops| && Retries(count, last, trip.spots) >= 2
        else Retries(count, last, trip.spots) <= 1)
  }

  lemma TallyStarts(grid: Grid, goal: Tile, cap: int, count: int, last: Point, start: Point)
    requires 0 <= count <= 1
    ensures var trip := Trip([TileOf(start)], [], [], start);
            && Told(count, last, start, trip, count, last) && Tallied(count, last, trip, OnTheWay)
            && Travelled(grid, goal, cap, trip)
  {}

  lemma PatientSnoc(count: int, last: Point, spots: seq<Point>, p: Point)
    requires Patient(count, last, spots, |spots|) && Retries(count, last, spots) <= 1
    ensures Patient(count, last, spots + [p], |spots| + 1)
  {
    forall k | 0 <= k <= |spots|
      ensures CountAfter(count, last, spots + [p], k) <= 1
    {
      assert (spots + [p])[..k] == spots[..k] && spots[..|spots|] == spots;
      if k < |spots| {
        assert CountAfter(count, last, spots, k) <= 1;
      }
    }
  }

  lemma TallyPlan(count: int, last: Point, start: Point, trip: Trip, now: int, lastNow: Point, outcome: Outcome)
    requires Told(count, last, start, trip, now, lastNow) && Tallied(count, last, trip, OnTheWay)
    requires if outcome == GaveUp then Counted(now, lastNow, trip.spot) >= 2 else Counted(now, lastNow, trip.spot) <= 1
    ensures Tallied(count, last, trip.(spots := trip.spots + [trip.spot]), outcome)
    ensures StartsAt(trip, start) ==> StartsAt(trip.(spots := trip.spots + [trip.spot]), start)
  {
    RetriesSnoc(count, last, trip.spots, trip.spot);
    PatientSnoc(count, last, trip.spots, trip.spot);
  }

  lemma TallyGoesOn(count: int, last: Point, start: Point, trip: Trip, now: int, lastNow: Point,
                    path: seq<Tile>, spot: Point, outcome: Outcome)
    requires Told(count, last, start, trip, now, lastNow) && Tallied(count, last, trip, OnTheWay)
    requires outcome != GaveUp && Counted(now, lastNow, trip.spot) <= 1
    requires |path| > 0 && AtWaypoint(spot, Last(path)) && InGrid(Last(path))
    ensures var t := Trip(trip.stops + [Last(path)], trip.spots + [trip.spot], path, spot);
            && Tallied(count, last, t, outcome)
            && Told(count, last, start, t, Counted(now, lastNow, trip.spot), trip.spot)
            && (StartsAt(trip, start) ==> StartsAt(t, start))
  {
    RetriesSnoc(count, last, trip.spots, trip.spot);
    PatientSnoc(count, last, trip.spots, trip.spot);
    WaypointSnaps(spot, Last(path));
  }

  lemma TallyEnds(count: int, last: Point, trip: Trip, outcome: Outcome)
    requires Tallied(count, last, trip, outcome)
    ensures outcome == GaveUp <==> GivesUp(count, last, trip.spots)
  {
    assert trip.spots[..|trip.spots|] == trip.spots;
  }

  lemma PlannedHere(grid: Grid, goal: Tile, cap: int, trip: Trip)
    requires Travelled(grid, goal, cap, trip) && Standing(trip) && LineBlocked(grid, Last(trip.stops), goal)
    ensures Travelled(grid, goal, cap, trip.(spots := trip.spots + [trip.spot]))
  {}

  lemma SameStops(grid: Grid, goal: Tile, cap: int, trip: Trip, path: seq<Tile>, spot: Point)
    requires Travelled(grid, goal, cap, trip)
    ensures Travelled(grid, goal, cap, trip.(path := path, spot := spot))
  {}

  lemma LegOn(grid: Grid, goal: Tile, cap: int, s: Tile, path: seq<Tile>)
    requires InGrid(s) && Planned(grid, s, goal, cap, path, true)
    ensures InGrid(Last(path)) && Leg(grid, goal, cap, s, Last(path))
    ensures 0 <= OctileUnits(Last(path), goal) < OctileUnits(s, goal)
  {
    PartialPlanIsLeg(grid, s, goal, cap, path);
    LegDescends(grid, goal, cap, s, Last(path));
    UnitsMeasureOctile(Last(path), goal);
  }

  lemma ChainGrows(leg: (Tile, Tile) -> bool, stops: seq<Tile>, t: Tile)
    requires Chain(leg, stops) && leg(Last(stops), t)
    ensures Chain(leg, stops + [t])
  {}

  lemma OnLongerStops(spots: seq<Point>, stops: seq<Tile>, p: Point, t: Tile)
    requires OnStops(spots, stops) && |spots| == |stops| - 1 && TileOf(p) == Last(stops)
    requires |stops| > 1 ==> AtWaypoint(p, Last(stops))
    ensures OnStops(spots + [p], stops + [t])
  {}

  lemma TripAlongGrows(leg: (Tile, Tile) -> bool, unseen: Tile -> bool, trip: Trip, t: Tile, path: seq<Tile>,
                       spot: Point)
    requires TripAlong(leg, unseen, trip) && Standing(trip) && InGrid(t)
    requires leg(Last(trip.stops), t) && unseen(Last(trip.stops))
    ensures TripAlong(leg, unseen, Trip(trip.stops + [t], trip.spots + [trip.spot], path, spot))
  {
    ChainGrows(leg, trip.stops, t);
    OnLongerStops(trip.spots, trip.stops, trip.spot, t);
  }

  lemma TripGrows(grid: Grid, goal: Tile, cap: int, trip: Trip, t: Tile, path: seq<Tile>, spot: Point)
    requires Travelled(grid, goal, cap, trip) && Standing(trip) && LineBlocked(grid, Last(trip.stops), goal)
    requires Leg(grid, goal, cap, Last(trip.stops), t) && InGrid(t)
    ensures Travelled(grid, goal, cap, Trip(trip.stops + [t], trip.spots + [trip.spot], path, spot))
  {
    TripAlongGrows((a, b) => Leg(grid, goal, cap, a, b), x => LineBlocked(grid, x, goal), trip, t, path, spot);
  }

  lemma OneLegOn(grid: Grid, goal: Tile, cap: int, trip: Trip, path: seq<Tile>, spot: Point)
    requires Travelled(grid, goal, cap, trip) && Standing(trip) && InGrid(Last(trip.stops))
    requires LineBlocked(grid, Last(trip.stops), goal) && Planned(grid, Last(trip.stops), goal, cap, path, true)
    ensures var t := Trip(trip.stops + [Last(path)], trip.spots + [trip.spot], path, spot);
            && InGrid(Last(path)) && Travelled(grid, goal, cap, t)
            && 0 <= OctileUnits(Last(t.stops), goal) < OctileUnits(Last(trip.stops), goal)
  {
    LegOn(grid, goal, cap, Last(trip.stops), path);
    TripGrows(grid, goal, cap, trip, Last(path), path, spot);
  }

  /** The trip after one more hop. */
  lemma Record(grid: Grid, goal: Tile, cap: int, count: int, last: Point, start: Point, trip: Trip, now: int,
               lastNow: Point,
               outcome: Outcome, partial: bool, path: seq<Tile>, spot: Point)
    returns (t: Trip)
    requires Travelled(grid, goal, cap, trip) && StartsAt(trip, start)
    requires Told(count, last, start, trip, now, lastNow) && Tallied(count, last, trip, OnTheWay)
    requires partial ==> LineBlocked(grid, Last(trip.stops), goal)
    requires partial ==> (outcome == GaveUp <==> Counted(now, lastNow, trip.spot) >= 2)
    requires !partial ==> outcome != GaveUp && outcome != OnTheWay
    requires partial && (outcome == OnTheWay || outcome == Works) ==>
               && InGrid(Last(trip.stops)) && Planned(grid, Last(trip.stops), goal, cap, path, true)
               && AtWaypoint(spot, Last(path))
    requires partial ==> outcome != NoPath
    ensures Travelled(grid, goal, cap, t) && StartsAt(t, start) && Tallied(count, last, t, outcome)
    ensures outcome == OnTheWay ==>
              && Told(count, last, start, t, Counted(now, lastNow, trip.spot), trip.spot) && t.spot == spot
              && 0 <= OctileUnits(Last(t.stops), goal) < OctileUnits(Last(trip.stops), goal)
    ensures t.spots == if partial then trip.spots + [trip.spot] else trip.spots
    ensures !partial ==> t.stops == trip.stops
    ensures outcome == Works ==>
              && t.path == path && t.spot == spot
              && (if partial then |path| > 0 && Last(t.stops) == Last(path) else t.stops == trip.stops)
  {
    if partial && (outcome == GaveUp || outcome == Sees) {
      PlannedHere(grid, goal, cap, trip);
      TallyPlan(count, last, start, trip, now, lastNow, outcome);
      t := trip.(spots := trip.spots + [trip.spot]);
    } else if partial {
      OneLegOn(grid, goal, cap, trip, path, spot);
      TallyGoesOn(count, last, start, trip, now, lastNow, path, spot, outcome);
      t := Trip(trip.stops + [Last(path)], trip.spots + [trip.spot], path, spot);
    } else {
      SameStops(grid, goal, cap, trip, path, spot);
      t := trip.(path := path, spot := spot);
    }
  }

  /** A trip has finitely many stops, none twice, all joined to the first; and what giving up on it takes. */
  lemma TripGivesUp(grid: Grid, goal: Tile, cap: int, count: int, last: Point, start: Point, trip: Trip)
    requires Travelled(grid, goal, cap, trip) && 0 <= count <= 1 && StartsAt(trip, start)
    ensures |trip.stops| - 1 <= OctileUnits(trip.stops[0], goal)
    ensures forall i, j :: 0 <= i < j < |trip.stops| ==> trip.stops[i] != trip.stops[j]
    ensures forall j :: 0 < j < |trip.stops| ==> Connected(grid, trip.stops[0], trip.stops[j])
    ensures |trip.spots| == |trip.stops| && GivesUp(count, last, trip.spots) ==>
              MayGiveUp(count, last, start, trip.stops)
  {
    assert Legs(grid, goal, cap, trip.stops);
    LegsAreFinite(grid, goal, cap, trip.stops);
    if |trip.spots| == |trip.stops| && GivesUp(count, last, trip.spots) {
      GivingUpNeeds(count, last, start, trip.stops, trip.spots);
    }
  }

  /** A mover put on its target from beside it came from the target's own tile or from one that touches it. */
  lemma BesideIsNeighbor(goal: Point, spot: Point, stop: Tile)
    requires InGrid(stop) && AtWaypoint(spot, stop) && WithinOne(goal, spot)
    ensures stop == TileOf(goal) || Neighbors(TileOf(goal), stop)
  {
    if stop != TileOf(goal) {
      FarTiles(goal, TileOf(goal), spot, stop);
    }
  }
}
