/**
 A* as a transition system on immutable search states. A state holds everything the search keeps between two
 pops of the open set; a pop may take any open node of least f, so every tie-break is covered.
 */
module AStar {
  import opened GridWorld

  const INF: real := 1000000000.0
  const NONE: Tile := Tile(-1, -1)

  const DX: seq<int> := [-1, 1, 0, 0, -1, -1, 1, 1]
  const DZ: seq<int> := [0, 0, -1, 1, -1, 1, -1, 1]
  const MOVE_COST: seq<real> := [1.0, 1.0, 1.0, 1.0, DIAGONAL, DIAGONAL, DIAGONAL, DIAGONAL]

  datatype Node = Node(t: Tile, g: real, f: real)

  datatype Search = Search(
    g: seq<real>,
    parent: seq<Tile>,
    visited: seq<int>,
    open: multiset<Node>,
    best: Tile,
    bestH: real)

  predicate Shaped(st: Search) {
    |st.g| == TILES && |st.parent| == TILES
  }

  function G(st: Search, t: Tile): real
    requires Shaped(st) && InGrid(t)
  {
    st.g[Index(t)]
  }

  function P(st: Search, t: Tile): Tile
    requires Shaped(st) && InGrid(t)
  {
    st.parent[Index(t)]
  }

  function OpenNode(t: Tile, g: real, goal: Tile): Node {
    Node(t, g, g + Octile(t, goal))
  }

  /** The state right after the start tile was pushed onto all-default score and parent tables. */
  function Init(s: Tile, goal: Tile): Search
    requires InGrid(s)
  {
    Search(seq(TILES, _ => INF)[Index(s) := 0.0], seq(TILES, _ => NONE), [Index(s)],
           multiset{OpenNode(s, 0.0, goal)}, s, Octile(s, goal))
  }

  function Neighbor(t: Tile, i: int): Tile
    requires 0 <= i < 8
  {
    Tile(t.x + DX[i], t.z + DZ[i])
  }

  predicate Admits(grid: Grid, t: Tile, i: int)
    requires 0 <= i < 8
  {
    var n := Neighbor(t, i);
    IsWalkable(grid, n) && (i >= 4 ==> IsWalkable(grid, Tile(n.x, t.z)) && IsWalkable(grid, Tile(t.x, n.z)))
  }

  /** Offsets, costs and the corner test of direction i are those of the legal move it makes. */
  lemma DirectionIsMove(grid: Grid, t: Tile, i: int)
    requires 0 <= i < 8
    ensures Admits(grid, t, i) <==> LegalMove(grid, t, Neighbor(t, i))
    ensures MOVE_COST[i] == MoveCost(t, Neighbor(t, i))
  {}

  /** The eight directions reach every legal move. */
  lemma MoveHasDirection(grid: Grid, t: Tile, n: Tile) returns (i: int)
    requires LegalMove(grid, t, n)
    ensures 0 <= i < 8 && n == Neighbor(t, i) && Admits(grid, t, i)
  {
    var dx, dz := n.x - t.x, n.z - t.z;
    i := if dz == 0 then (if dx == -1 then 0 else 1)
         else if dx == 0 then (if dz == -1 then 2 else 3)
         else if dx == -1 then (if dz == -1 then 4 else 5)
         else (if dz == -1 then 6 else 7);
  }

  /** Relaxation of one edge out of the popped node c. */
  function RelaxEdge(grid: Grid, goal: Tile, c: Node, i: int, st: Search): (r: Search)
    requires Shaped(st) && 0 <= i < 8
    ensures Shaped(r)
  {
    var n := Neighbor(c.t, i);
    var tentative := c.g + MOVE_COST[i];
    if Admits(grid, c.t, i) && tentative < G(st, n) then
      st.(g := st.g[Index(n) := tentative],
          parent := st.parent[Index(n) := c.t],
          visited := if G(st, n) >= INF then st.visited + [Index(n)] else st.visited,
          open := st.open + multiset{OpenNode(n, tentative, goal)})
    else st
  }

  function RelaxUpTo(grid: Grid, goal: Tile, c: Node, i: int, st: Search): (r: Search)
    requires Shaped(st) && 0 <= i <= 8
    ensures Shaped(r) && r.best == st.best && r.bestH == st.bestH
    decreases i
  {
    if i == 0 then st else RelaxEdge(grid, goal, c, i - 1, RelaxUpTo(grid, goal, c, i - 1, st))
  }

  function RelaxAll(grid: Grid, goal: Tile, c: Node, st: Search): (r: Search)
    requires Shaped(st)
    ensures Shaped(r)
  {
    RelaxUpTo(grid, goal, c, |DX|, st)
  }

  function NoteBest(goal: Tile, c: Node, st: Search): Search {
    if Octile(c.t, goal) < st.bestH then st.(best := c.t, bestH := Octile(c.t, goal)) else st
  }

  function Pop(c: Node, st: Search): Search {
    st.(open := st.open - multiset{c})
  }

  /** One whole round for a popped node that is not the goal: a stale node is dropped, a live one expanded. */
  function Expand(grid: Grid, goal: Tile, c: Node, st: Search): (r: Search)
    requires Shaped(st) && InGrid(c.t)
    ensures Shaped(r)
  {
    if c.g > G(st, c.t) then Pop(c, st)
    else RelaxAll(grid, goal, c, NoteBest(goal, c, Pop(c, st)))
  }

  ghost predicate IsTop(st: Search, c: Node) {
    c in st.open && forall n :: n in st.open ==> c.f <= n.f
  }

  // ---- The invariant of every reachable state

  ghost predicate Bounded(st: Search) {
    Shaped(st) && forall t :: InGrid(t) ==> 0.0 <= G(st, t) <= INF
  }

  /** Scores and parents are set together, and only the start has a score without a parent. */
  ghost predicate Rooted(s: Tile, st: Search) {
    && Shaped(st) && InGrid(s)
    && G(st, s) == 0.0 && P(st, s) == NONE
    && forall t :: InGrid(t) && t != s ==> (G(st, t) == INF <==> P(st, t) == NONE)
  }

  /** Every parent link is a legal move that the score pays for. */
  ghost predicate Linked(grid: Grid, st: Search) {
    && Shaped(st)
    && forall t :: InGrid(t) && P(st, t) != NONE ==>
      && InGrid(P(st, t)) && LegalMove(grid, P(st, t), t)
      && G(st, P(st, t)) + MoveCost(P(st, t), t) <= G(st, t)
  }

  ghost predicate OpenSound(goal: Tile, st: Search) {
    && Shaped(st)
    && forall n :: n in st.open ==> InGrid(n.t) && G(st, n.t) <= n.g < INF && n == OpenNode(n.t, n.g, goal)
  }

  ghost predicate Waiting(goal: Tile, st: Search, t: Tile)
    requires Shaped(st) && InGrid(t)
  {
    OpenNode(t, G(st, t), goal) in st.open
  }

  ghost predicate Relaxed(grid: Grid, st: Search, t: Tile)
    requires Shaped(st) && InGrid(t)
  {
    forall v :: LegalMove(grid, t, v) ==> G(st, v) <= G(st, t) + MoveCost(t, v)
  }

  /** Expanded with its current score: all its moves are relaxed and the best-so-far tile has been told. */
  ghost predicate Settled(grid: Grid, goal: Tile, st: Search, t: Tile)
    requires Shaped(st) && InGrid(t)
  {
    t != goal && Relaxed(grid, st, t) && st.bestH <= Octile(t, goal)
  }

  /** Every reached tile other than "but" waits in the open set with its current score, or is settled. */
  ghost predicate FrontierBut(grid: Grid, goal: Tile, st: Search, but: Tile) {
    && Shaped(st)
    && forall t :: InGrid(t) && t != but && G(st, t) < INF ==>
      Waiting(goal, st, t) || Settled(grid, goal, st, t)
  }

  ghost predicate Frontier(grid: Grid, goal: Tile, st: Search) {
    FrontierBut(grid, goal, st, NONE)
  }

  /** Every table entry that is not at its default is listed in the visited log. */
  ghost predicate Logged(g: seq<real>, parent: seq<Tile>, visited: seq<int>) {
    && |g| == TILES && |parent| == TILES
    && (forall k :: 0 <= k < TILES && (g[k] != INF || parent[k] != NONE) ==> k in visited)
    && (forall k :: k in visited ==> 0 <= k < TILES)
  }

  ghost predicate BestSound(s: Tile, goal: Tile, st: Search) {
    && Shaped(st) && InGrid(st.best) && InGrid(s)
    && G(st, st.best) < INF
    && st.bestH == Octile(st.best, goal)
    && (st.best != s ==> st.best != goal && st.bestH < Octile(s, goal))
  }

  ghost predicate CoreInv(grid: Grid, s: Tile, goal: Tile, st: Search) {
    && Bounded(st) && Rooted(s, st) && Linked(grid, st) && OpenSound(goal, st)
    && Logged(st.g, st.parent, st.visited) && BestSound(s, goal, st)
  }

  ghost predicate Inv(grid: Grid, s: Tile, goal: Tile, st: Search) {
    CoreInv(grid, s, goal, st) && Frontier(grid, goal, st)
  }

  lemma InitInv(grid: Grid, s: Tile, goal: Tile)
    requires InGrid(s)
    ensures Inv(grid, s, goal, Init(s, goal))
  {
    var st := Init(s, goal);
    forall t | InGrid(t) && t != s
      ensures G(st, t) == INF
    {
      assert Index(t) != Index(s);
    }
  }

  // ---- Preservation, one edge at a time

  /** While c is being expanded: its first i directions are settled and its score has not moved. */
  ghost predicate Expanding(grid: Grid, goal: Tile, c: Node, i: int, st: Search)
    requires 0 <= i <= 8
  {
    && Shaped(st) && InGrid(c.t) && c.t != goal
    && G(st, c.t) == c.g < INF
    && st.bestH <= Octile(c.t, goal)
    && FrontierBut(grid, goal, st, c.t)
    && forall j :: 0 <= j < i && Admits(grid, c.t, j) ==> G(st, Neighbor(c.t, j)) <= c.g + MOVE_COST[j]
  }

  lemma RelaxTouchesOneTile(grid: Grid, goal: Tile, c: Node, i: int, st: Search)
    requires Shaped(st) && 0 <= i < 8
    ensures var r := RelaxEdge(grid, goal, c, i, st); var n := Neighbor(c.t, i);
            && st.open <= r.open
            && (forall t :: InGrid(t) && t != n ==> G(r, t) == G(st, t) && P(r, t) == P(st, t))
            && (forall t :: InGrid(t) ==> G(r, t) <= G(st, t))
            && (r != st ==> InGrid(n) && G(r, n) == c.g + MOVE_COST[i] < G(st, n) && P(r, n) == c.t)
            && (Admits(grid, c.t, i) ==> InGrid(n) && G(r, n) <= c.g + MOVE_COST[i])
  {
    var r := RelaxEdge(grid, goal, c, i, st);
    var n := Neighbor(c.t, i);
    forall t | InGrid(t) && t != n
      ensures G(r, t) == G(st, t) && P(r, t) == P(st, t)
    {
      assert Admits(grid, c.t, i) ==> Index(t) != Index(n);
    }
  }

  lemma RelaxKeepsCore(grid: Grid, s: Tile, goal: Tile, c: Node, i: int, st: Search)
    requires CoreInv(grid, s, goal, st) && 0 <= i < 8
    requires InGrid(c.t) && G(st, c.t) == c.g < INF
    ensures CoreInv(grid, s, goal, RelaxEdge(grid, goal, c, i, st))
  {
    var r := RelaxEdge(grid, goal, c, i, st);
    var n := Neighbor(c.t, i);
    if r != st {
      RelaxTouchesOneTile(grid, goal, c, i, st);
      DirectionIsMove(grid, c.t, i);
      assert n != s && n != c.t;
      assert Linked(grid, r);
      assert Logged(r.g, r.parent, r.visited) by {
        assert Index(n) in r.visited;
      }
    }
  }

  lemma RelaxKeepsExpanding(grid: Grid, s: Tile, goal: Tile, c: Node, i: int, st: Search)
    requires 0 <= i < 8
    requires Expanding(grid, goal, c, i, st)
    ensures Expanding(grid, goal, c, i + 1, RelaxEdge(grid, goal, c, i, st))
  {
    var r := RelaxEdge(grid, goal, c, i, st);
    var n := Neighbor(c.t, i);
    RelaxTouchesOneTile(grid, goal, c, i, st);
    DirectionIsMove(grid, c.t, i);
    forall t | InGrid(t) && t != c.t && G(r, t) < INF
      ensures Waiting(goal, r, t) || Settled(grid, goal, r, t)
    {
      if r != st && t == n {
        assert Waiting(goal, r, t);
      } else if Waiting(goal, st, t) {
        assert Waiting(goal, r, t);
      } else {
        assert Relaxed(grid, st, t);
      }
    }
  }

  lemma RelaxOneInv(grid: Grid, s: Tile, goal: Tile, c: Node, i: int, st: Search)
    requires 0 <= i < 8 && CoreInv(grid, s, goal, st) && Expanding(grid, goal, c, i, st)
    ensures var r := RelaxEdge(grid, goal, c, i, st); CoreInv(grid, s, goal, r) && Expanding(grid, goal, c, i + 1, r)
  {
    RelaxKeepsCore(grid, s, goal, c, i, st);
    RelaxKeepsExpanding(grid, s, goal, c, i, st);
  }

  lemma {:induction false} RelaxUpToInv(grid: Grid, s: Tile, goal: Tile, c: Node, i: int, st: Search)
    requires 0 <= i <= 8
    requires CoreInv(grid, s, goal, st) && Expanding(grid, goal, c, 0, st)
    ensures var r := RelaxUpTo(grid, goal, c, i, st); CoreInv(grid, s, goal, r) && Expanding(grid, goal, c, i, r)
    decreases i
  {
    if i > 0 {
      RelaxUpToInv(grid, s, goal, c, i - 1, st);
      RelaxOneInv(grid, s, goal, c, i - 1, RelaxUpTo(grid, goal, c, i - 1, st));
    }
  }

  lemma PopKeepsCore(grid: Grid, s: Tile, goal: Tile, c: Node, st: Search)
    requires CoreInv(grid, s, goal, st)
    ensures CoreInv(grid, s, goal, Pop(c, st))
  {
    var r := Pop(c, st);
    assert forall t :: InGrid(t) ==> G(r, t) == G(st, t) && P(r, t) == P(st, t);
  }

  /** Only a tile's own current node can make it wait, so popping c concerns c's tile alone, and only if c is live. */
  lemma PopKeepsFrontier(grid: Grid, goal: Tile, c: Node, st: Search)
    requires Frontier(grid, goal, st) && c in st.open && InGrid(c.t)
    ensures FrontierBut(grid, goal, Pop(c, st), c.t)
    ensures c.g > G(st, c.t) ==> Frontier(grid, goal, Pop(c, st))
  {
    var r := Pop(c, st);
    forall t | InGrid(t) && G(r, t) < INF && (t != c.t || c.g > G(st, c.t))
      ensures Waiting(goal, r, t) || Settled(grid, goal, r, t)
    {
      if Waiting(goal, st, t) {
        assert OpenNode(t, G(st, t), goal) != c;
        assert Waiting(goal, r, t);
      } else {
        assert Settled(grid, goal, st, t);
      }
    }
  }

  lemma NoteBestInv(grid: Grid, s: Tile, goal: Tile, c: Node, st: Search)
    requires CoreInv(grid, s, goal, st) && FrontierBut(grid, goal, st, c.t)
    requires InGrid(c.t) && c.t != goal && G(st, c.t) < INF
    ensures CoreInv(grid, s, goal, NoteBest(goal, c, st)) && FrontierBut(grid, goal, NoteBest(goal, c, st), c.t)
    ensures NoteBest(goal, c, st).bestH <= Octile(c.t, goal)
  {
    var b := NoteBest(goal, c, st);
    forall t | InGrid(t) && t != c.t && G(b, t) < INF
      ensures Waiting(goal, b, t) || Settled(grid, goal, b, t)
    {
      assert Waiting(goal, st, t) || Settled(grid, goal, st, t);
    }
  }

  /** Once all eight directions are settled the popped tile is settled too. */
  lemma ExpandedIsFrontier(grid: Grid, goal: Tile, c: Node, st: Search)
    requires Expanding(grid, goal, c, 8, st)
    ensures Frontier(grid, goal, st)
  {
    forall v | LegalMove(grid, c.t, v)
      ensures G(st, v) <= G(st, c.t) + MoveCost(c.t, v)
    {
      var i := MoveHasDirection(grid, c.t, v);
      DirectionIsMove(grid, c.t, i);
    }
  }

  lemma LiveExpansionInv(grid: Grid, s: Tile, goal: Tile, c: Node, b: Search)
    requires CoreInv(grid, s, goal, b) && FrontierBut(grid, goal, b, c.t)
    requires InGrid(c.t) && c.t != goal && G(b, c.t) == c.g < INF && b.bestH <= Octile(c.t, goal)
    ensures Inv(grid, s, goal, RelaxAll(grid, goal, c, b))
  {
    RelaxUpToInv(grid, s, goal, c, |DX|, b);
    ExpandedIsFrontier(grid, goal, c, RelaxAll(grid, goal, c, b));
  }

  /** Every round keeps the invariant, whichever least node the queue hands out. */
  lemma ExpandInv(grid: Grid, s: Tile, goal: Tile, c: Node, st: Search)
    requires Inv(grid, s, goal, st) && c in st.open && c.t != goal
    ensures InGrid(c.t) && Inv(grid, s, goal, Expand(grid, goal, c, st))
  {
    var p := Pop(c, st);
    assert InGrid(c.t) && G(st, c.t) <= c.g < INF;
    PopKeepsCore(grid, s, goal, c, st);
    PopKeepsFrontier(grid, goal, c, st);
    if c.g <= G(st, c.t) {
      NoteBestInv(grid, s, goal, c, p);
      LiveExpansionInv(grid, s, goal, c, NoteBest(goal, c, p));
      assert Expand(grid, goal, c, st) == RelaxAll(grid, goal, c, NoteBest(goal, c, p));
    } else {
      assert Expand(grid, goal, c, st) == p;
    }
  }
}
