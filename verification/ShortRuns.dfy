/** The first two rounds of a search whose first moves lead straight towards the goal, on any grid. */
module ShortRuns {
  import opened GridWorld
  import opened AStar
  import opened AStarTheorems
  import opened ExpandOnce
  import opened PathFinder

  /** No node in the open set is below the octile distance from the start. */
  lemma NoNodeBelow(grid: Grid, s: Tile, goal: Tile, st: Search, n: Node)
    requires Inv(grid, s, goal, st) && n in st.open
    ensures Octile(s, goal) <= n.f
  {
    var p := Trace(grid, s, st, n.t);
    TraceIsWalk(grid, s, st, n.t);
    OctileAlong(grid, p, 0, goal);
    assert p[..1] == [s] && WalkCost(p[..1]) == 0.0;
  }

  /** A straight move that costs one and gains one. */
  ghost predicate Straight(grid: Grid, a: Tile, b: Tile, goal: Tile) {
    InGrid(a) && LegalMove(grid, a, b) && MoveCost(a, b) == 1.0 && Octile(a, goal) == 1.0 + Octile(b, goal)
  }

  /** After a live pop of c, a straight neighbour that is nearer to the goal waits, with a score of at most one more. */
  lemma NeighborWaits(grid: Grid, s: Tile, goal: Tile, st: Search, c: Node, t: Tile)
    requires Inv(grid, s, goal, st) && c in st.open && c.t != goal && c.g == G(st, c.t) <= 1.0 && InGrid(c.t)
    requires Straight(grid, c.t, t, goal) && st.bestH >= Octile(c.t, goal)
    ensures var r := Expand(grid, goal, c, st);
            && Inv(grid, s, goal, r) && InGrid(t) && G(r, t) <= c.g + 1.0 && Waiting(goal, r, t)
            && r.best == (if Octile(c.t, goal) < st.bestH then c.t else st.best)
            && r.bestH == Octile(c.t, goal)
  {
    var b := NoteBest(goal, c, Pop(c, st));
    FullyRelaxed(grid, s, goal, c, st);
    ExpandInv(grid, s, goal, c, st);
    var i := MoveHasDirection(grid, c.t, t);
    DirectionIsMove(grid, c.t, i);
    StraightWaits(grid, goal, RelaxAll(grid, goal, c, b), c, i);
  }

  lemma FullyRelaxed(grid: Grid, s: Tile, goal: Tile, c: Node, st: Search)
    requires Inv(grid, s, goal, st) && c in st.open && c.t != goal && InGrid(c.t) && c.g <= G(st, c.t)
    ensures Expanding(grid, goal, c, 8, RelaxAll(grid, goal, c, NoteBest(goal, c, Pop(c, st))))
  {
    ReadyToRelax(grid, s, goal, c, st);
    RelaxUpToInv(grid, s, goal, c, |DX|, NoteBest(goal, c, Pop(c, st)));
  }

  lemma StraightWaits(grid: Grid, goal: Tile, r: Search, c: Node, i: int)
    requires 0 <= i < 8 && Expanding(grid, goal, c, 8, r) && Frontier(grid, goal, r) && Admits(grid, c.t, i)
    requires c.g <= 1.0 && MOVE_COST[i] == 1.0 && r.bestH >= Octile(c.t, goal)
    requires Octile(c.t, goal) == 1.0 + Octile(Neighbor(c.t, i), goal)
    ensures var t := Neighbor(c.t, i); InGrid(t) && G(r, t) <= c.g + 1.0 && Waiting(goal, r, t)
  {
    var t := Neighbor(c.t, i);
    assert InGrid(t) && G(r, t) <= c.g + MOVE_COST[i] < INF;
    assert !Settled(grid, goal, r, t);
  }

  /**
   One pop: the start is expanded, and the straight neighbour comes to the top of the open set with its exact score.
   */
  lemma FirstRound(grid: Grid, s: Tile, goal: Tile, t: Tile) returns (picks: seq<Node>)
    requires s != goal && Straight(grid, s, t, goal)
    ensures |picks| == 1 && Picks(grid, s, goal, picks)
    ensures var st, c := After(grid, s, goal, picks), OpenNode(t, 1.0, goal);
            && Inv(grid, s, goal, st) && InGrid(t) && G(st, t) == 1.0 && IsTop(st, c)
            && st.best == s && st.bestH == Octile(s, goal)
  {
    picks := [];
    assert Picks(grid, s, goal, picks);
    var st0, c0 := Init(s, goal), OpenNode(s, 0.0, goal);
    assert IsTop(st0, c0);
    AfterOneMore(grid, s, goal, picks, c0);
    picks := picks + [c0];
    InitInv(grid, s, goal);
    NeighborWaits(grid, s, goal, st0, c0, t);
    var st := After(grid, s, goal, picks);
    ScoreIsOne(grid, s, goal, st, t);
    forall n | n in st.open
      ensures OpenNode(t, 1.0, goal).f <= n.f
    {
      NoNodeBelow(grid, s, goal, st, n);
    }
  }

  /** No tile but the start has a score below one. */
  lemma ScoreIsOne(grid: Grid, s: Tile, goal: Tile, st: Search, t: Tile)
    requires Inv(grid, s, goal, st) && InGrid(t) && t != s && G(st, t) <= 1.0
    ensures G(st, t) == 1.0
  {
    assert P(st, t) != NONE;
  }

  /** A goal one straight move away is found. */
  lemma NextTileIsFound(grid: Grid, s: Tile, goal: Tile, cap: int) returns (r: PathResult)
    requires s != goal && Straight(grid, s, goal, goal) && cap >= 2
    ensures CleanSearch(grid, s, goal, cap, r) && EndsOn(r, goal) && !r.isFailed && !r.isPartial
  {
    var picks := FirstRound(grid, s, goal, goal);
    var st := After(grid, s, goal, picks);
    assert IsTop(st, OpenNode(goal, 1.0, goal));
    assert EndsWith(grid, s, goal, cap, picks, Found);
    EndingIsTraceable(grid, s, goal, cap, picks, Found);
    TraceIsWalk(grid, s, st, goal);
    r := PathResult(Trace(grid, s, st, goal), false, false);
    assert Returns(grid, s, goal, cap, picks, Found, r);
  }

  /** Two pops: the next tile is expanded, is now the best, and a tile beyond it waits. */
  lemma SecondRound(grid: Grid, s: Tile, goal: Tile, t: Tile, u: Tile) returns (picks: seq<Node>)
    requires s != goal && t != goal && Straight(grid, s, t, goal) && Straight(grid, t, u, goal)
    ensures |picks| == 2 && Picks(grid, s, goal, picks)
    ensures var st := After(grid, s, goal, picks); st.best == t && st.open != multiset{}
  {
    picks := FirstRound(grid, s, goal, t);
    var st, c := After(grid, s, goal, picks), OpenNode(t, 1.0, goal);
    AfterOneMore(grid, s, goal, picks, c);
    NeighborWaits(grid, s, goal, st, c, u);
    SomeoneWaits(goal, Expand(grid, goal, c, st), u);
    picks := picks + [c];
  }

  lemma SomeoneWaits(goal: Tile, st: Search, t: Tile)
    requires Shaped(st) && InGrid(t) && Waiting(goal, st, t)
    ensures st.open != multiset{}
  {
    assert OpenNode(t, G(st, t), goal) in st.open;
  }

  /** Two straight moves on, a cap of two ends the search on the first of the two tiles. */
  lemma CappedOnNextTile(grid: Grid, s: Tile, goal: Tile, t: Tile, u: Tile) returns (r: PathResult)
    requires s != goal && t != goal && Straight(grid, s, t, goal) && Straight(grid, t, u, goal)
    ensures CleanSearch(grid, s, goal, 2, r) && r.isPartial && !r.isFailed && EndsOn(r, t)
  {
    var picks := SecondRound(grid, s, goal, t, u);
    r := CappedAnswer(grid, s, goal, 2, picks);
  }

  lemma CappedAnswer(grid: Grid, s: Tile, goal: Tile, cap: nat, picks: seq<Node>) returns (r: PathResult)
    requires InGrid(s) && s != goal && Picks(grid, s, goal, picks) && |picks| == cap
    requires After(grid, s, goal, picks).open != multiset{} && After(grid, s, goal, picks).best != s
    ensures CleanSearch(grid, s, goal, cap, r) && r.isPartial && !r.isFailed
    ensures EndsOn(r, After(grid, s, goal, picks).best)
  {
    var st := After(grid, s, goal, picks);
    EndingIsTraceable(grid, s, goal, cap, picks, Capped);
    TraceIsWalk(grid, s, st, st.best);
    r := PathResult(Trace(grid, s, st, st.best), true, false);
    assert Returns(grid, s, goal, cap, picks, Capped, r);
  }
}
