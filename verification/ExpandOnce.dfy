/** No tile is expanded twice, so a search is over after at most eight pops for every tile and one for the start. */
module ExpandOnce {
  import opened GridWorld
  import opened AStar
  import opened AStarTheorems

  const AMPLE: int := 8 * TILES + 1

  /** The tiles that the live pops of a run expanded, in order. */
  ghost function Expanded(grid: Grid, s: Tile, goal: Tile, picks: seq<Node>): seq<Tile>
    requires InGrid(s) && Picks(grid, s, goal, picks)
    decreases |picks|
  {
    if |picks| == 0 then []
    else
      var front, c := picks[..|picks| - 1], picks[|picks| - 1];
      Expanded(grid, s, goal, front) + (if c.g <= G(After(grid, s, goal, front), c.t) then [c.t] else [])
  }

  /** How often a tile waits with its current score. */
  ghost function Copies(goal: Tile, st: Search, t: Tile): nat
    requires Shaped(st) && InGrid(t)
  {
    st.open[OpenNode(t, G(st, t), goal)]
  }

  ghost predicate Single(goal: Tile, st: Search) {
    Shaped(st) && forall t :: InGrid(t) ==> Copies(goal, st, t) <= 1
  }

  /** What was pushed was pushed for tiles whose score fell. */
  ghost predicate PushesForLower(st: Search, r: Search) {
    && Shaped(st) && Shaped(r)
    && (forall t :: InGrid(t) ==> G(r, t) <= G(st, t))
    && (forall n: Node :: InGrid(n.t) && G(r, n.t) == G(st, n.t) ==> r.open[n] == st.open[n])
  }

  /** From st to r: at most k pushes, all for tiles whose score fell, and none twice for one score. */
  ghost predicate Pushed(goal: Tile, st: Search, r: Search, k: int) {
    PushesForLower(st, r) && Single(goal, r) && |r.open| <= |st.open| + k
  }

  /** r is st after one node was pushed for n, with a lower score. */
  ghost predicate PushedFor(goal: Tile, st: Search, r: Search, n: Tile) {
    && Shaped(st) && Shaped(r) && InGrid(n)
    && r.open == st.open + multiset{OpenNode(n, G(r, n), goal)}
    && G(r, n) < G(st, n)
    && (forall t :: InGrid(t) && t != n ==> G(r, t) == G(st, t))
  }

  lemma OnePush(goal: Tile, st: Search, r: Search, n: Tile)
    requires PushedFor(goal, st, r, n) && OpenSound(goal, st) && Single(goal, st)
    ensures Pushed(goal, st, r, 1)
  {
    var pushed := OpenNode(n, G(r, n), goal);
    assert pushed !in st.open;
    forall t | InGrid(t)
      ensures Copies(goal, r, t) <= 1
    {
      if t != n {
        assert Copies(goal, r, t) == Copies(goal, st, t);
      }
    }
  }

  lemma RelaxEdgePushes(grid: Grid, goal: Tile, c: Node, i: int, st: Search)
    requires OpenSound(goal, st) && Single(goal, st) && 0 <= i < 8
    ensures Pushed(goal, st, RelaxEdge(grid, goal, c, i, st), 1)
  {
    var r := RelaxEdge(grid, goal, c, i, st);
    RelaxTouchesOneTile(grid, goal, c, i, st);
    if r != st {
      OnePush(goal, st, r, Neighbor(c.t, i));
    }
  }

  lemma PushesCompose(goal: Tile, a: Search, b: Search, c: Search, j: int, k: int)
    requires Pushed(goal, a, b, j) && Pushed(goal, b, c, k)
    ensures Pushed(goal, a, c, j + k)
  {
    forall n: Node | InGrid(n.t) && G(c, n.t) == G(a, n.t)
      ensures c.open[n] == a.open[n]
    {
      assert G(c, n.t) <= G(b, n.t) <= G(a, n.t);
    }
  }

  lemma {:induction false} PushesAlong(goal: Tile, states: seq<Search>, n: nat)
    requires n < |states| && Single(goal, states[0])
    requires forall j :: 0 <= j < n && Single(goal, states[j]) ==> Pushed(goal, states[j], states[j + 1], 1)
    ensures Pushed(goal, states[0], states[n], n)
    decreases n
  {
    if n > 0 {
      PushesAlong(goal, states, n - 1);
      assert Pushed(goal, states[n - 1], states[n - 1 + 1], 1);
      PushesCompose(goal, states[0], states[n - 1], states[n], n - 1, 1);
    }
  }

  lemma RelaxStepPushes(grid: Grid, goal: Tile, c: Node, j: int, st: Search)
    requires Shaped(st) && 0 <= j < 8 && OpenSound(goal, RelaxUpTo(grid, goal, c, j, st))
    requires Single(goal, RelaxUpTo(grid, goal, c, j, st))
    ensures Pushed(goal, RelaxUpTo(grid, goal, c, j, st), RelaxUpTo(grid, goal, c, j + 1, st), 1)
  {
    RelaxEdgePushes(grid, goal, c, j, RelaxUpTo(grid, goal, c, j, st));
  }

  lemma RelaxUpToSound(grid: Grid, s: Tile, goal: Tile, c: Node, i: int, st: Search)
    requires 0 <= i <= 8 && CoreInv(grid, s, goal, st) && Expanding(grid, goal, c, 0, st)
    ensures OpenSound(goal, RelaxUpTo(grid, goal, c, i, st))
  {
    RelaxUpToInv(grid, s, goal, c, i, st);
  }

  lemma ReadyToRelax(grid: Grid, s: Tile, goal: Tile, c: Node, st: Search)
    requires Inv(grid, s, goal, st) && c in st.open && c.t != goal && InGrid(c.t) && c.g <= G(st, c.t)
    ensures var b := NoteBest(goal, c, Pop(c, st)); CoreInv(grid, s, goal, b) && Expanding(grid, goal, c, 0, b)
  {
    PopKeepsCore(grid, s, goal, c, st);
    PopKeepsFrontier(grid, goal, c, st);
    NoteBestInv(grid, s, goal, c, Pop(c, st));
  }

  /** All the states on the way through the eight directions hold sound nodes only. */
  lemma RelaxingIsSound(grid: Grid, s: Tile, goal: Tile, c: Node, b: Search)
    requires CoreInv(grid, s, goal, b) && Expanding(grid, goal, c, 0, b)
    ensures forall j :: 0 <= j <= 8 ==> OpenSound(goal, RelaxUpTo(grid, goal, c, j, b))
  {
    forall j | 0 <= j <= 8
      ensures OpenSound(goal, RelaxUpTo(grid, goal, c, j, b))
    {
      RelaxUpToSound(grid, s, goal, c, j, b);
    }
  }

  lemma PopIsSingle(goal: Tile, c: Node, st: Search)
    requires Single(goal, st) && c in st.open
    ensures Single(goal, NoteBest(goal, c, Pop(c, st))) && |Pop(c, st).open| == |st.open| - 1
  {}

  /** Popping a live node and expanding it: at most eight pushes, none for a tile whose score stays. */
  lemma LiveRound(grid: Grid, s: Tile, goal: Tile, c: Node, st: Search)
    requires Inv(grid, s, goal, st) && Single(goal, st) && c in st.open && c.t != goal
    requires InGrid(c.t) && c.g <= G(st, c.t)
    ensures var r := Expand(grid, goal, c, st);
            && PushesForLower(Pop(c, st), r) && Single(goal, r) && |r.open| <= |st.open| + 7
  {
    ReadyToRelax(grid, s, goal, c, st);
    RelaxingIsSound(grid, s, goal, c, NoteBest(goal, c, Pop(c, st)));
    PopIsSingle(goal, c, st);
    RelaxAllPushes(grid, goal, c, Pop(c, st));
  }

  lemma SameScores(goal: Tile, p: Search, b: Search, r: Search, k: int)
    requires Shaped(p) && p.g == b.g && p.open == b.open && Pushed(goal, b, r, k)
    ensures Pushed(goal, p, r, k)
  {
    assert forall t :: InGrid(t) ==> G(p, t) == G(b, t);
  }

  lemma RelaxAllPushes(grid: Grid, goal: Tile, c: Node, p: Search)
    requires Shaped(p) && Single(goal, NoteBest(goal, c, p))
    requires forall j :: 0 <= j <= 8 ==> OpenSound(goal, RelaxUpTo(grid, goal, c, j, NoteBest(goal, c, p)))
    ensures Pushed(goal, p, RelaxAll(grid, goal, c, NoteBest(goal, c, p)), 8)
  {
    var b := NoteBest(goal, c, p);
    var n := |DX|;
    var states := seq(n + 1, j requires 0 <= j <= n => RelaxUpTo(grid, goal, c, j, b));
    forall j | 0 <= j < n && Single(goal, states[j])
      ensures Pushed(goal, states[j], states[j + 1], 1)
    {
      RelaxStepPushes(grid, goal, c, j, b);
    }
    PushesAlong(goal, states, n);
    SameScores(goal, p, b, RelaxAll(grid, goal, c, b), n);
  }

  /** A tile that was expanded: its score is exact, and it does not wait any more. */
  ghost predicate Finished(grid: Grid, s: Tile, goal: Tile, st: Search, t: Tile) {
    Exact(grid, s, st, t) && G(st, t) < INF && !Waiting(goal, st, t)
  }

  ghost predicate AllFinished(grid: Grid, s: Tile, goal: Tile, st: Search, tiles: seq<Tile>) {
    forall k :: 0 <= k < |tiles| ==> Finished(grid, s, goal, st, tiles[k])
  }

  ghost predicate Distinct(tiles: seq<Tile>) {
    forall i, j :: 0 <= i < j < |tiles| ==> tiles[i] != tiles[j]
  }

  lemma FinishedStays(grid: Grid, s: Tile, goal: Tile, c: Node, st: Search, t: Tile)
    requires Inv(grid, s, goal, st) && Single(goal, st) && c in st.open && c.t != goal && InGrid(c.t)
    requires Finished(grid, s, goal, st, t)
    ensures Finished(grid, s, goal, Expand(grid, goal, c, st), t)
  {
    var r := Expand(grid, goal, c, st);
    ExpandInv(grid, s, goal, c, st);
    ExpandLowers(grid, goal, c, st);
    ExactStays(grid, s, goal, st, r, t);
    var n := OpenNode(t, G(st, t), goal);
    if c.g <= G(st, c.t) {
      LiveRound(grid, s, goal, c, st);
      assert r.open[n] == Pop(c, st).open[n];
    }
    assert n !in r.open;
  }

  /** A live pop finishes its tile, which was not finished before. */
  lemma LivePopFinishes(grid: Grid, s: Tile, goal: Tile, c: Node, st: Search)
    requires Inv(grid, s, goal, st) && Single(goal, st) && IsTop(st, c) && c.t != goal
    requires InGrid(c.t) && c.g <= G(st, c.t)
    ensures Waiting(goal, st, c.t) && Finished(grid, s, goal, Expand(grid, goal, c, st), c.t)
  {
    var r := Expand(grid, goal, c, st);
    assert c == OpenNode(c.t, G(st, c.t), goal);
    LivePopIsExact(grid, s, goal, st, c);
    ExpandInv(grid, s, goal, c, st);
    ExpandLowers(grid, goal, c, st);
    ExactStays(grid, s, goal, st, r, c.t);
    LiveRound(grid, s, goal, c, st);
    assert r.open[c] == Pop(c, st).open[c] == 0;
  }

  /** The books of a run: who was expanded, and that pops and waiting nodes are paid for by expansions. */
  ghost predicate Books(grid: Grid, s: Tile, goal: Tile, st: Search, pops: nat, tiles: seq<Tile>) {
    && Single(goal, st)
    && Distinct(tiles) && AllFinished(grid, s, goal, st, tiles)
    && pops + |st.open| <= 1 + 8 * |tiles|
  }

  lemma StillFinished(grid: Grid, s: Tile, goal: Tile, c: Node, st: Search, tiles: seq<Tile>)
    requires Inv(grid, s, goal, st) && Single(goal, st) && c in st.open && c.t != goal && InGrid(c.t)
    requires AllFinished(grid, s, goal, st, tiles)
    ensures AllFinished(grid, s, goal, Expand(grid, goal, c, st), tiles)
  {
    forall k | 0 <= k < |tiles|
      ensures Finished(grid, s, goal, Expand(grid, goal, c, st), tiles[k])
    {
      FinishedStays(grid, s, goal, c, st, tiles[k]);
    }
  }

  lemma StaleStep(grid: Grid, s: Tile, goal: Tile, c: Node, st: Search, pops: nat, tiles: seq<Tile>)
    requires Inv(grid, s, goal, st) && Books(grid, s, goal, st, pops, tiles)
    requires IsTop(st, c) && InGrid(c.t) && c.t != goal && c.g > G(st, c.t)
    ensures Books(grid, s, goal, Expand(grid, goal, c, st), pops + 1, tiles)
  {
    StillFinished(grid, s, goal, c, st, tiles);
    PopIsSingle(goal, c, st);
    assert |Expand(grid, goal, c, st).open| == |st.open| - 1;
  }

  lemma NotYetFinished(grid: Grid, s: Tile, goal: Tile, st: Search, tiles: seq<Tile>, t: Tile)
    requires AllFinished(grid, s, goal, st, tiles) && Distinct(tiles) && Shaped(st) && InGrid(t) && Waiting(goal, st, t)
    ensures Distinct(tiles + [t])
  {
    forall k | 0 <= k < |tiles|
      ensures tiles[k] != t
    {
      assert Finished(grid, s, goal, st, tiles[k]);
    }
  }

  lemma OneMoreFinished(grid: Grid, s: Tile, goal: Tile, r: Search, tiles: seq<Tile>, t: Tile)
    requires AllFinished(grid, s, goal, r, tiles) && Finished(grid, s, goal, r, t)
    ensures AllFinished(grid, s, goal, r, tiles + [t])
  {}

  lemma LiveStep(grid: Grid, s: Tile, goal: Tile, c: Node, st: Search, pops: nat, tiles: seq<Tile>)
    requires Inv(grid, s, goal, st) && Books(grid, s, goal, st, pops, tiles)
    requires IsTop(st, c) && InGrid(c.t) && c.t != goal && c.g <= G(st, c.t)
    ensures Books(grid, s, goal, Expand(grid, goal, c, st), pops + 1, tiles + [c.t])
  {
    var r := Expand(grid, goal, c, st);
    StillFinished(grid, s, goal, c, st, tiles);
    LivePopFinishes(grid, s, goal, c, st);
    LiveRound(grid, s, goal, c, st);
    NotYetFinished(grid, s, goal, st, tiles, c.t);
    OneMoreFinished(grid, s, goal, r, tiles, c.t);
  }

  lemma {:induction false} BooksOfRun(grid: Grid, s: Tile, goal: Tile, picks: seq<Node>)
    requires InGrid(s) && Picks(grid, s, goal, picks)
    ensures Books(grid, s, goal, After(grid, s, goal, picks), |picks|, Expanded(grid, s, goal, picks))
    decreases |picks|
  {
    if |picks| == 0 {
      InitInv(grid, s, goal);
    } else {
      var front, c := picks[..|picks| - 1], picks[|picks| - 1];
      var st, tiles := After(grid, s, goal, front), Expanded(grid, s, goal, front);
      BooksOfRun(grid, s, goal, front);
      AfterInv(grid, s, goal, front);
      if c.g <= G(st, c.t) {
        LiveStep(grid, s, goal, c, st, |front|, tiles);
      } else {
        StaleStep(grid, s, goal, c, st, |front|, tiles);
        assert tiles + [] == tiles;
      }
    }
  }

  /** In every run each tile is expanded at most once, and pops and waiting nodes together stay within the bound. */
  lemma EachTileIsExpandedOnce(grid: Grid, s: Tile, goal: Tile, picks: seq<Node>)
    requires InGrid(s) && Picks(grid, s, goal, picks)
    ensures var tiles := Expanded(grid, s, goal, picks); Distinct(tiles) && |tiles| <= TILES
    ensures |picks| + |After(grid, s, goal, picks).open| <= AMPLE
  {
    BooksOfRun(grid, s, goal, picks);
    DistinctTilesFit(Expanded(grid, s, goal, picks));
  }

  /** One tile is nearest to the goal among the start and these. */
  ghost predicate NearestOf(s: Tile, goal: Tile, tiles: seq<Tile>, t: Tile) {
    && t in [s] + tiles && Octile(t, goal) <= Octile(s, goal)
    && forall k :: 0 <= k < |tiles| ==> Octile(t, goal) <= Octile(tiles[k], goal)
  }

  lemma NearestStays(s: Tile, goal: Tile, tiles: seq<Tile>, t: Tile, u: Tile)
    requires NearestOf(s, goal, tiles, t)
    ensures NearestOf(s, goal, tiles + [u], if Octile(u, goal) < Octile(t, goal) then u else t)
  {}

  /** A live round of the best-so-far tile. */
  lemma ExpandNotesBest(grid: Grid, goal: Tile, c: Node, st: Search)
    requires Shaped(st) && InGrid(c.t)
    ensures var r := Expand(grid, goal, c, st);
            if c.g <= G(st, c.t) && Octile(c.t, goal) < st.bestH then r.best == c.t else r.best == st.best
  {}

  /** After any number of pops the best-so-far tile is nearest to the goal among the start and the tiles expanded. */
  lemma {:induction false} BestIsNearestExpanded(grid: Grid, s: Tile, goal: Tile, picks: seq<Node>)
    requires InGrid(s) && Picks(grid, s, goal, picks)
    ensures NearestOf(s, goal, Expanded(grid, s, goal, picks), After(grid, s, goal, picks).best)
    decreases |picks|
  {
    if |picks| > 0 {
      var front, c := picks[..|picks| - 1], picks[|picks| - 1];
      var st, tiles := After(grid, s, goal, front), Expanded(grid, s, goal, front);
      BestIsNearestExpanded(grid, s, goal, front);
      AfterInv(grid, s, goal, front);
      ExpandNotesBest(grid, goal, c, st);
      NearestStays(s, goal, tiles, st.best, c.t);
      assert tiles + [] == tiles;
    }
  }

  lemma NearestIs(grid: Grid, s: Tile, goal: Tile, picks: seq<Node>, last: Tile)
    requires InGrid(s) && Picks(grid, s, goal, picks) && last == After(grid, s, goal, picks).best && last != s
    ensures last in Expanded(grid, s, goal, picks)
    ensures forall t :: t in Expanded(grid, s, goal, picks) ==> Octile(last, goal) <= Octile(t, goal)
  {
    BestIsNearestExpanded(grid, s, goal, picks);
  }

  /** A partial answer comes after exactly the capped number of pops, and ends on the nearest tile they expanded. */
  lemma PartialEndsNearest(grid: Grid, s: Tile, goal: Tile, cap: int, r: PathResult)
    returns (picks: seq<Node>)
    requires InGrid(s) && s != goal && CleanSearch(grid, s, goal, cap, r)
    requires r.isPartial && !r.isFailed
    ensures |picks| == cap && Picks(grid, s, goal, picks) && |r.waypoints| > 0
    ensures Last(r.waypoints) in Expanded(grid, s, goal, picks)
    ensures forall t :: t in Expanded(grid, s, goal, picks) ==> Octile(Last(r.waypoints), goal) <= Octile(t, goal)
  {
    var st, end, last;
    st, end, last, picks := NotFailedIsTrace(grid, s, goal, cap, r);
    TraceIsWalk(grid, s, st, last);
    NearestIs(grid, s, goal, picks, last);
  }

  /** A cap of this size is never hit. */
  lemma AmpleCapIsNeverHit(grid: Grid, s: Tile, goal: Tile, cap: int, picks: seq<Node>, end: Ending)
    requires InGrid(s) && cap >= AMPLE && EndsWith(grid, s, goal, cap, picks, end)
    ensures end != Capped
  {
    EachTileIsExpandedOnce(grid, s, goal, picks);
  }

  /** With such a cap a search decides outright whether there is a way to the goal. */
  lemma AmpleCapDecides(grid: Grid, s: Tile, goal: Tile, cap: int, r: PathResult)
    requires InGrid(s) && s != goal && cap >= AMPLE && CleanSearch(grid, s, goal, cap, r)
    ensures !r.isPartial
    ensures !r.isFailed && |r.waypoints| > 0 && Last(r.waypoints) == goal <==> Connected(grid, s, goal)
  {
    var picks, end :| Returns(grid, s, goal, cap, picks, end, r);
    AmpleCapIsNeverHit(grid, s, goal, cap, picks, end);
    if r.isFailed {
      NoWay(grid, s, goal, cap, picks, end, r);
    } else {
      SearchIsSound(grid, s, goal, cap, r);
      SearchIsComplete(grid, s, goal, cap, r);
    }
  }

  lemma NoWay(grid: Grid, s: Tile, goal: Tile, cap: int, picks: seq<Node>, end: Ending, r: PathResult)
    requires InGrid(s) && s != goal && Returns(grid, s, goal, cap, picks, end, r) && r.isFailed && end != Capped
    ensures !Connected(grid, s, goal)
  {
    AfterInv(grid, s, goal, picks);
    if p :| WalkFromTo(grid, p, s, goal) {
      ExhaustedReachesAll(grid, s, goal, After(grid, s, goal, picks), p);
    }
  }
}
