/** A search that answers "neither partial nor failed" and yet ends off its target, on a grid of three free tiles. */
module UnreachableGoal {
  import opened GridWorld
  import opened AStar
  import opened AStarTheorems

  const START: Tile := Tile(0, 0)
  const NEXT: Tile := Tile(1, 0)
  const GOAL: Tile := Tile(3, 0)

  /** The goal is free but cut off. */
  ghost predicate CutOff(grid: Grid) {
    forall t :: InGrid(t) ==> (IsWalkable(grid, t) <==> t == START || t == NEXT || t == GOAL)
  }

  function CutOffGrid(): Grid {
    seq(TILES, k => k == Index(START) || k == Index(NEXT) || k == Index(GOAL))
  }

  lemma CutOffGridExists()
    ensures CutOff(CutOffGrid())
  {
    forall t | InGrid(t)
      ensures IsWalkable(CutOffGrid(), t) <==> t == START || t == NEXT || t == GOAL
    {
      IndexIsInjective(t, START);
      IndexIsInjective(t, NEXT);
      IndexIsInjective(t, GOAL);
    }
  }

  lemma AdmitsOnly(grid: Grid, i: int)
    requires CutOff(grid) && 0 <= i < 8
    ensures Admits(grid, START, i) <==> i == 1
    ensures Admits(grid, NEXT, i) <==> i == 0
  {
    var a, b := Neighbor(START, i), Neighbor(NEXT, i);
    assert IsWalkable(grid, a) ==> InGrid(a);
    assert IsWalkable(grid, b) ==> InGrid(b);
    assert IsWalkable(grid, START) && IsWalkable(grid, NEXT);
  }

  /** If only direction d is admitted, an expansion is that one edge step. */
  lemma {:induction false} OnlyOneEdge(grid: Grid, goal: Tile, c: Node, d: int, n: int, st: Search)
    requires Shaped(st) && 0 <= n <= 8 && 0 <= d < 8
    requires forall i :: 0 <= i < 8 && i != d ==> !Admits(grid, c.t, i)
    ensures RelaxUpTo(grid, goal, c, n, st) == if n <= d then st else RelaxEdge(grid, goal, c, d, st)
    decreases n
  {
    if n > 0 {
      OnlyOneEdge(grid, goal, c, d, n - 1, st);
    }
  }

  lemma ExpandOneEdge(grid: Grid, goal: Tile, c: Node, d: int, st: Search)
    requires Shaped(st) && InGrid(c.t) && 0 <= d < 8 && c.g <= G(st, c.t)
    requires forall i :: 0 <= i < 8 && i != d ==> !Admits(grid, c.t, i)
    ensures Expand(grid, goal, c, st) == RelaxEdge(grid, goal, c, d, NoteBest(goal, c, Pop(c, st)))
  {
    OnlyOneEdge(grid, goal, c, d, |DX|, NoteBest(goal, c, Pop(c, st)));
  }

  function First(): Node {
    OpenNode(START, 0.0, GOAL)
  }

  function Second(): Node {
    OpenNode(NEXT, 1.0, GOAL)
  }

  /** Expanding the start opens its one neighbour. */
  lemma StartExpanded(grid: Grid)
    requires CutOff(grid)
    ensures var st := Expand(grid, GOAL, First(), Init(START, GOAL));
            && st.open == multiset{Second()} && G(st, START) == 0.0 && G(st, NEXT) == 1.0
            && st.best == START && st.bestH == 3.0
  {
    var st := Init(START, GOAL);
    forall i | 0 <= i < 8
      ensures Admits(grid, START, i) <==> i == 1
    {
      AdmitsOnly(grid, i);
    }
    assert Index(NEXT) != Index(START);
    ExpandOneEdge(grid, GOAL, First(), 1, st);
    var b := NoteBest(GOAL, First(), Pop(First(), st));
    assert b.open == multiset{};
  }

  /** Expanding the neighbour finds nothing new and leaves the open set empty. */
  lemma NeighborExpanded(grid: Grid, st: Search)
    requires CutOff(grid) && Shaped(st) && st.open == multiset{Second()}
    requires G(st, START) == 0.0 && G(st, NEXT) == 1.0 && st.bestH == 3.0
    ensures var r := Expand(grid, GOAL, Second(), st); r.open == multiset{} && r.best == NEXT
  {
    forall i | 0 <= i < 8
      ensures Admits(grid, NEXT, i) <==> i == 0
    {
      AdmitsOnly(grid, i);
    }
    ExpandOneEdge(grid, GOAL, Second(), 0, st);
    assert Octile(NEXT, GOAL) == 2.0;
  }

  lemma RunOfTwo(grid: Grid) returns (picks: seq<Node>)
    requires CutOff(grid)
    ensures |picks| == 2 && Picks(grid, START, GOAL, picks)
    ensures var st := After(grid, START, GOAL, picks); st.open == multiset{} && st.best == NEXT
  {
    picks := [];
    assert Picks(grid, START, GOAL, picks);
    assert IsTop(Init(START, GOAL), First());
    AfterOneMore(grid, START, GOAL, picks, First());
    picks := picks + [First()];
    StartExpanded(grid);
    assert IsTop(After(grid, START, GOAL, picks), Second());
    NeighborExpanded(grid, After(grid, START, GOAL, picks));
    AfterOneMore(grid, START, GOAL, picks, Second());
    picks := picks + [Second()];
  }

  /** The answer counts as complete, although the target, itself free, was not reached. */
  lemma CompleteYetOffTarget(grid: Grid, cap: int) returns (r: PathResult)
    requires CutOff(grid) && cap >= 2
    ensures CleanSearch(grid, START, GOAL, cap, r) && IsWalkable(grid, GOAL)
    ensures !r.isPartial && !r.isFailed && |r.waypoints| > 0 && Last(r.waypoints) == NEXT != GOAL
  {
    var picks := RunOfTwo(grid);
    var st := After(grid, START, GOAL, picks);
    assert EndsWith(grid, START, GOAL, cap, picks, Exhausted);
    EndingIsTraceable(grid, START, GOAL, cap, picks, Exhausted);
    TraceIsWalk(grid, START, st, NEXT);
    r := PathResult(Trace(grid, START, st, NEXT), false, false);
    assert Returns(grid, START, GOAL, cap, picks, Exhausted, r);
  }
}
