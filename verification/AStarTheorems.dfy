/** What a search started on clean tables returns, and why it is right. */
module AStarTheorems {
  import opened Arith
  import opened GridWorld
  import opened AStar

  datatype PathResult = PathResult(waypoints: seq<Tile>, isPartial: bool, isFailed: bool)

  datatype Ending = Found | Capped | Exhausted

  // ---- Runs: any sequence of least-f pops that never takes the goal

  ghost predicate Picks(grid: Grid, s: Tile, goal: Tile, picks: seq<Node>)
    requires InGrid(s)
    decreases |picks|, 0
  {
    |picks| > 0 ==>
      var front, c := picks[..|picks| - 1], picks[|picks| - 1];
      && Picks(grid, s, goal, front)
      && IsTop(After(grid, s, goal, front), c) && InGrid(c.t) && c.t != goal
  }

  ghost function After(grid: Grid, s: Tile, goal: Tile, picks: seq<Node>): (st: Search)
    requires InGrid(s) && Picks(grid, s, goal, picks)
    ensures Shaped(st)
    decreases |picks|, 1
  {
    if |picks| == 0 then Init(s, goal)
    else Expand(grid, goal, picks[|picks| - 1], After(grid, s, goal, picks[..|picks| - 1]))
  }

  /** Every state of every run satisfies the invariant. */
  lemma {:induction false} AfterInv(grid: Grid, s: Tile, goal: Tile, picks: seq<Node>)
    requires InGrid(s) && Picks(grid, s, goal, picks)
    ensures Inv(grid, s, goal, After(grid, s, goal, picks))
  {
    if |picks| == 0 {
      InitInv(grid, s, goal);
    } else {
      var front := picks[..|picks| - 1];
      AfterInv(grid, s, goal, front);
      ExpandInv(grid, s, goal, picks[|picks| - 1], After(grid, s, goal, front));
    }
  }

  lemma AfterOneMore(grid: Grid, s: Tile, goal: Tile, picks: seq<Node>, c: Node)
    requires InGrid(s) && Picks(grid, s, goal, picks)
    requires IsTop(After(grid, s, goal, picks), c) && c.t != goal
    ensures Picks(grid, s, goal, picks + [c]) && InGrid(c.t)
    ensures After(grid, s, goal, picks + [c]) == Expand(grid, goal, c, After(grid, s, goal, picks))
  {
    AfterInv(grid, s, goal, picks);
    assert (picks + [c])[..|picks|] == picks;
  }

  /** The run of these pops stops in this way under the given iteration cap. */
  ghost predicate EndsWith(grid: Grid, s: Tile, goal: Tile, cap: int, picks: seq<Node>, end: Ending)
    requires InGrid(s)
  {
    && Picks(grid, s, goal, picks)
    && var st := After(grid, s, goal, picks);
       match end
       case Found => |picks| < cap && exists c :: IsTop(st, c) && c.t == goal
       case Capped => |picks| == Max(cap, 0) && st.open != multiset{}
       case Exhausted => |picks| <= Max(cap, 0) && st.open == multiset{}
  }

  // ---- Trace-back

  ghost predicate Traceable(grid: Grid, s: Tile, st: Search, t: Tile) {
    Bounded(st) && Rooted(s, st) && Linked(grid, st) && InGrid(t) && G(st, t) < INF
  }

  lemma ParentTraceable(grid: Grid, s: Tile, st: Search, t: Tile)
    requires Traceable(grid, s, st, t)
    ensures t == s <==> P(st, t) == NONE
    ensures t != s ==> Traceable(grid, s, st, P(st, t)) && G(st, P(st, t)) <= G(st, t) - 1.0
  {
    if t == s {
    } else {
      assert P(st, t) != NONE;
    }
    if P(st, s) != NONE {
      assert false;
    }
  }

  ghost function Trace(grid: Grid, s: Tile, st: Search, t: Tile): seq<Tile>
    requires Traceable(grid, s, st, t)
    decreases G(st, t)
  {
    ParentTraceable(grid, s, st, t);
    if P(st, t) == NONE then [t] else Trace(grid, s, st, P(st, t)) + [t]
  }

  /** Following parents leads back to the start along legal moves, never twice through a tile, within the score. */
  lemma {:induction false} TraceIsWalk(grid: Grid, s: Tile, st: Search, t: Tile)
    requires Traceable(grid, s, st, t)
    ensures var p := Trace(grid, s, st, t);
            && WalkFromTo(grid, p, s, t)
            && WalkCost(p) <= G(st, t)
            && (forall i :: 0 <= i < |p| ==> InGrid(p[i]) && G(st, p[i]) <= G(st, t))
            && (forall i, j :: 0 <= i < j < |p| ==> p[i] != p[j])
            && (|p| == 1 <==> t == s)
    decreases G(st, t)
  {
    ParentTraceable(grid, s, st, t);
    if t != s {
      var u := P(st, t);
      TraceIsWalk(grid, s, st, u);
      var p := Trace(grid, s, st, t);
      assert p[..|p| - 1] == Trace(grid, s, st, u);
    }
  }

  // ---- Optimality

  lemma SettledStep(grid: Grid, goal: Tile, st: Search, u: Tile, v: Tile)
    requires Shaped(st) && InGrid(u) && Settled(grid, goal, st, u) && LegalMove(grid, u, v)
    ensures InGrid(v) && G(st, v) <= G(st, u) + MoveCost(u, v)
  {}

  lemma PrefixCost(p: seq<Tile>, i: nat)
    requires i + 1 < |p|
    ensures WalkCost(p[..i + 2]) == WalkCost(p[..i + 1]) + MoveCost(p[i], p[i + 1])
  {
    assert p[..i + 2][..i + 1] == p[..i + 1];
  }

  /** Whether the score at position i of a walk is at most what the walk paid to get there. */
  ghost predicate Paid(st: Search, p: seq<Tile>, i: nat) {
    i < |p| && Shaped(st) && InGrid(p[i]) && G(st, p[i]) <= WalkCost(p[..i + 1])
  }

  lemma PaidStep(grid: Grid, goal: Tile, st: Search, p: seq<Tile>, i: nat)
    requires Paid(st, p, i) && Settled(grid, goal, st, p[i]) && i + 1 < |p| && LegalMove(grid, p[i], p[i + 1])
    ensures Paid(st, p, i + 1)
  {
    SettledStep(grid, goal, st, p[i], p[i + 1]);
    PrefixCost(p, i);
  }

  /** Along a legal walk from the start, the prefix cost bounds the score until some tile still waits. */
  lemma {:induction false} NextWaiting(grid: Grid, s: Tile, u: Tile, goal: Tile, st: Search, p: seq<Tile>, i: nat)
    returns (k: nat)
    requires Frontier(grid, goal, st) && WalkFromTo(grid, p, s, u) && Paid(st, p, i)
    requires u == goal || (InGrid(u) && Waiting(goal, st, u))
    ensures Paid(st, p, k) && (G(st, p[k]) >= INF || Waiting(goal, st, p[k]))
    decreases |p| - i
  {
    k := i;
    if G(st, p[i]) < INF && !Waiting(goal, st, p[i]) {
      assert Settled(grid, goal, st, p[i]);
      assert p[i] != u;
      PaidStep(grid, goal, st, p, i);
      k := NextWaiting(grid, s, u, goal, st, p, i + 1);
    }
  }

  /** The least f in the open set is a lower bound on the cost of every legal walk to the goal. */
  lemma TopIsLowerBound(grid: Grid, s: Tile, goal: Tile, st: Search, c: Node, p: seq<Tile>)
    requires Inv(grid, s, goal, st) && IsTop(st, c) && c.f < INF
    requires WalkFromTo(grid, p, s, goal)
    ensures c.f <= WalkCost(p)
  {
    assert p[..1] == [s];
    var k := NextWaiting(grid, s, goal, goal, st, p, 0);
    OctileAlong(grid, p, k, goal);
    OctileIsConsistent(grid, p[k], p[k], goal);
    OctileIsConsistent(grid, goal, goal, goal);
    if Waiting(goal, st, p[k]) {
      assert OpenNode(p[k], G(st, p[k]), goal) in st.open;
    }
  }

  /** A goal node on top of the open set is not stale: it carries the goal's own score. */
  lemma PoppedGoalIsLive(grid: Grid, s: Tile, goal: Tile, st: Search, c: Node)
    requires Inv(grid, s, goal, st) && IsTop(st, c) && c.t == goal
    ensures InGrid(goal) && c.f == c.g == G(st, goal) < INF
  {
    OctileIsConsistent(grid, goal, goal, goal);
    assert Waiting(goal, st, goal);
  }

  /** When the goal comes up, the walk along the parents costs no more than any legal walk. */
  lemma FoundIsOptimal(grid: Grid, s: Tile, goal: Tile, st: Search, c: Node, p: seq<Tile>)
    requires Inv(grid, s, goal, st) && IsTop(st, c) && c.t == goal
    requires WalkFromTo(grid, p, s, goal)
    ensures Traceable(grid, s, st, goal)
    ensures WalkCost(Trace(grid, s, st, goal)) <= WalkCost(p)
  {
    PoppedGoalIsLive(grid, s, goal, st, c);
    TopIsLowerBound(grid, s, goal, st, c, p);
    TraceIsWalk(grid, s, st, goal);
  }

  // ---- Exact scores

  /** No legal walk to t is cheaper than its score. */
  ghost predicate Exact(grid: Grid, s: Tile, st: Search, t: Tile) {
    Shaped(st) && InGrid(t) && forall p :: WalkFromTo(grid, p, s, t) ==> G(st, t) <= WalkCost(p)
  }

  lemma LivePopIsCheap(grid: Grid, s: Tile, goal: Tile, st: Search, c: Node, p: seq<Tile>)
    requires Inv(grid, s, goal, st) && IsTop(st, c) && InGrid(c.t) && c.g <= G(st, c.t)
    requires WalkFromTo(grid, p, s, c.t)
    ensures G(st, c.t) <= WalkCost(p)
  {
    assert c == OpenNode(c.t, G(st, c.t), goal);
    assert Waiting(goal, st, c.t);
    assert p[..1] == [s];
    var k := NextWaiting(grid, s, c.t, goal, st, p, 0);
    OctileAlong(grid, p, k, goal);
    PrefixIsCheaper(grid, p, k);
    if Waiting(goal, st, p[k]) {
      assert OpenNode(p[k], G(st, p[k]), goal) in st.open;
    }
  }

  /** The score with which a tile is expanded is exact, whatever the goal. */
  lemma LivePopIsExact(grid: Grid, s: Tile, goal: Tile, st: Search, c: Node)
    requires Inv(grid, s, goal, st) && IsTop(st, c) && InGrid(c.t) && c.g <= G(st, c.t)
    ensures Exact(grid, s, st, c.t)
  {
    forall p | WalkFromTo(grid, p, s, c.t)
      ensures G(st, c.t) <= WalkCost(p)
    {
      LivePopIsCheap(grid, s, goal, st, c, p);
    }
  }

  /** An exact score never moves again. */
  lemma ExactStays(grid: Grid, s: Tile, goal: Tile, st: Search, r: Search, t: Tile)
    requires Exact(grid, s, st, t) && CoreInv(grid, s, goal, r) && G(r, t) <= G(st, t) < INF
    ensures G(r, t) == G(st, t) && Exact(grid, s, r, t)
  {
    TraceIsWalk(grid, s, r, t);
    assert WalkFromTo(grid, Trace(grid, s, r, t), s, t);
  }

  lemma {:induction false} RelaxUpToLowers(grid: Grid, goal: Tile, c: Node, i: int, st: Search)
    requires Shaped(st) && 0 <= i <= 8
    ensures forall t :: InGrid(t) ==> G(RelaxUpTo(grid, goal, c, i, st), t) <= G(st, t)
    decreases i
  {
    if i > 0 {
      RelaxUpToLowers(grid, goal, c, i - 1, st);
      RelaxTouchesOneTile(grid, goal, c, i - 1, RelaxUpTo(grid, goal, c, i - 1, st));
    }
  }

  /** A round lowers scores only, and moves the best tile to the popped one or not at all. */
  lemma ExpandLowers(grid: Grid, goal: Tile, c: Node, st: Search)
    requires Shaped(st) && InGrid(c.t)
    ensures forall t :: InGrid(t) ==> G(Expand(grid, goal, c, st), t) <= G(st, t)
    ensures Expand(grid, goal, c, st).best == st.best ||
              (Expand(grid, goal, c, st).best == c.t && c.g <= G(st, c.t))
  {
    if c.g <= G(st, c.t) {
      RelaxUpToLowers(grid, goal, c, |DX|, NoteBest(goal, c, Pop(c, st)));
    }
  }

  lemma BestStaysExact(grid: Grid, s: Tile, goal: Tile, c: Node, st: Search)
    requires Inv(grid, s, goal, st) && IsTop(st, c) && InGrid(c.t) && c.t != goal && Exact(grid, s, st, st.best)
    ensures Exact(grid, s, Expand(grid, goal, c, st), Expand(grid, goal, c, st).best)
  {
    var r := Expand(grid, goal, c, st);
    ExpandInv(grid, s, goal, c, st);
    ExpandLowers(grid, goal, c, st);
    if r.best != st.best {
      LivePopIsExact(grid, s, goal, st, c);
    }
    ExactStays(grid, s, goal, st, r, r.best);
  }

  /** In every state of every run the score of the best-so-far tile is exact. */
  lemma {:induction false} AfterBestIsExact(grid: Grid, s: Tile, goal: Tile, picks: seq<Node>)
    requires InGrid(s) && Picks(grid, s, goal, picks)
    ensures var st := After(grid, s, goal, picks); Exact(grid, s, st, st.best)
    decreases |picks|
  {
    if |picks| == 0 {
      forall p | WalkFromTo(grid, p, s, s)
        ensures 0.0 <= WalkCost(p)
      {
        WalkCostBounds(p);
      }
    } else {
      var front := picks[..|picks| - 1];
      AfterBestIsExact(grid, s, goal, front);
      AfterInv(grid, s, goal, front);
      BestStaysExact(grid, s, goal, picks[|picks| - 1], After(grid, s, goal, front));
    }
  }

  // ---- Completeness

  /** With nothing left to expand every score is the exact cost of its own trace. */
  lemma {:induction false} ExhaustedScoreIsExact(grid: Grid, s: Tile, goal: Tile, st: Search, t: Tile)
    requires Inv(grid, s, goal, st) && st.open == multiset{}
    requires InGrid(t) && G(st, t) < INF
    ensures G(st, t) == WalkCost(Trace(grid, s, st, t))
    decreases G(st, t)
  {
    ParentTraceable(grid, s, st, t);
    if t != s {
      var u := P(st, t);
      ExhaustedScoreIsExact(grid, s, goal, st, u);
      assert Settled(grid, goal, st, u);
      TraceIsWalk(grid, s, st, u);
      var p := Trace(grid, s, st, t);
      assert p[..|p| - 1] == Trace(grid, s, st, u);
    }
  }

  /** Such a trace visits no tile twice, so real scores stay far below the "unreached" sentinel. */
  lemma ExhaustedScoreIsSmall(grid: Grid, s: Tile, goal: Tile, st: Search, t: Tile)
    requires Inv(grid, s, goal, st) && st.open == multiset{}
    requires InGrid(t) && G(st, t) < INF
    ensures G(st, t) <= DIAGONAL * TILES as real
  {
    var p := Trace(grid, s, st, t);
    TraceIsWalk(grid, s, st, t);
    ExhaustedScoreIsExact(grid, s, goal, st, t);
    DistinctTilesFit(p);
    WalkCostBounds(p);
  }

  ghost predicate Reached(goal: Tile, st: Search, t: Tile) {
    Shaped(st) && InGrid(t) && G(st, t) < INF && t != goal && st.bestH <= Octile(t, goal)
  }

  lemma ExhaustedStep(grid: Grid, s: Tile, goal: Tile, st: Search, u: Tile, t: Tile)
    requires Inv(grid, s, goal, st) && st.open == multiset{}
    requires Reached(goal, st, u) && LegalMove(grid, u, t)
    ensures Reached(goal, st, t)
  {
    ExhaustedScoreIsSmall(grid, s, goal, st, u);
    SettledStep(grid, goal, st, u, t);
    assert Settled(grid, goal, st, t);
  }

  lemma ExhaustedStart(grid: Grid, s: Tile, goal: Tile, st: Search)
    requires Inv(grid, s, goal, st) && st.open == multiset{}
    ensures Reached(goal, st, s)
  {
    assert Settled(grid, goal, st, s);
  }

  lemma WalkPrefix(grid: Grid, p: seq<Tile>)
    requires Walk(grid, p) && |p| > 1
    ensures Walk(grid, p[..|p| - 1]) && LegalMove(grid, p[|p| - 2], p[|p| - 1])
    ensures p[..|p| - 1][0] == p[0] && p[..|p| - 1][|p| - 2] == p[|p| - 2]
  {
    assert LegalMove(grid, p[|p| - 2], p[|p| - 2 + 1]);
  }

  /** With nothing left to expand, the reached tiles are closed under legal moves, so they are all there are. */
  lemma {:induction false} ExhaustedReachesAll(grid: Grid, s: Tile, goal: Tile, st: Search, p: seq<Tile>)
    requires Inv(grid, s, goal, st) && st.open == multiset{}
    requires Walk(grid, p) && p[0] == s
    ensures Reached(goal, st, p[|p| - 1])
    decreases |p|
  {
    if |p| == 1 {
      ExhaustedStart(grid, s, goal, st);
    } else {
      WalkPrefix(grid, p);
      ExhaustedReachesAll(grid, s, goal, st, p[..|p| - 1]);
      ExhaustedStep(grid, s, goal, st, p[|p| - 2], p[|p| - 1]);
    }
  }

  // ---- The result of a whole search

  function LastTile(goal: Tile, st: Search, end: Ending): Tile {
    if end == Found then goal else st.best
  }

  ghost predicate Returns(grid: Grid, s: Tile, goal: Tile, cap: int, picks: seq<Node>, end: Ending, r: PathResult)
    requires InGrid(s)
  {
    && EndsWith(grid, s, goal, cap, picks, end)
    && var st := After(grid, s, goal, picks);
       var last := LastTile(goal, st, end);
       if last == s then r == PathResult([], false, true)
       else Traceable(grid, s, st, last) && r == PathResult(Trace(grid, s, st, last), end == Capped, false)
  }

  /** Every ending has an answer: the chosen tile was reached, so its parents can be followed. */
  lemma EndingIsTraceable(grid: Grid, s: Tile, goal: Tile, cap: int, picks: seq<Node>, end: Ending)
    requires InGrid(s) && s != goal && EndsWith(grid, s, goal, cap, picks, end)
    ensures var st := After(grid, s, goal, picks); var last := LastTile(goal, st, end);
            && Traceable(grid, s, st, last)
            && (last == goal <==> end == Found)
            && Logged(st.g, st.parent, st.visited)
  {
    var st := After(grid, s, goal, picks);
    AfterInv(grid, s, goal, picks);
    if end == Found {
      var c :| IsTop(st, c) && c.t == goal;
      PoppedGoalIsLive(grid, s, goal, st, c);
    }
  }

  /** r is a possible answer of a search on clean tables: nothing but the grid, the ends and the cap matters. */
  ghost predicate CleanSearch(grid: Grid, s: Tile, goal: Tile, cap: int, r: PathResult)
    requires InGrid(s)
  {
    exists picks, end :: Returns(grid, s, goal, cap, picks, end, r)
  }

  function Last(p: seq<Tile>): Tile
    requires |p| > 0
  {
    p[|p| - 1]
  }

  lemma NotFailedIsTrace(grid: Grid, s: Tile, goal: Tile, cap: int, r: PathResult)
    returns (st: Search, end: Ending, last: Tile, picks: seq<Node>)
    requires InGrid(s) && s != goal
    requires CleanSearch(grid, s, goal, cap, r) && !r.isFailed
    ensures Traceable(grid, s, st, last) && last != s && r.waypoints == Trace(grid, s, st, last)
    ensures Returns(grid, s, goal, cap, picks, end, r) && st == After(grid, s, goal, picks)
    ensures last == LastTile(goal, st, end) && (last == goal <==> end == Found)
    ensures Octile(last, goal) < Octile(s, goal)
  {
    picks, end :| Returns(grid, s, goal, cap, picks, end, r);
    st := After(grid, s, goal, picks);
    last := LastTile(goal, st, end);
    AfterInv(grid, s, goal, picks);
    EndingIsTraceable(grid, s, goal, cap, picks, end);
    OctileIsConsistent(grid, s, s, goal);
  }

  /** Any answer that is not a failure is a legal walk from the start to a strictly nearer tile. */
  lemma SearchIsSound(grid: Grid, s: Tile, goal: Tile, cap: int, r: PathResult)
    requires InGrid(s) && s != goal
    requires CleanSearch(grid, s, goal, cap, r) && !r.isFailed
    ensures |r.waypoints| >= 2
    ensures WalkFromTo(grid, r.waypoints, s, Last(r.waypoints))
    ensures forall i, j :: 0 <= i < j < |r.waypoints| ==> r.waypoints[i] != r.waypoints[j]
    ensures Octile(Last(r.waypoints), goal) < Octile(s, goal)
    ensures r.isPartial ==> Last(r.waypoints) != goal
  {
    var st, end, last, picks := NotFailedIsTrace(grid, s, goal, cap, r);
    TraceIsWalk(grid, s, st, last);
  }

  lemma FoundRunIsOptimal(grid: Grid, s: Tile, goal: Tile, cap: int, picks: seq<Node>, p: seq<Tile>)
    requires InGrid(s) && EndsWith(grid, s, goal, cap, picks, Found) && WalkFromTo(grid, p, s, goal)
    ensures var st := After(grid, s, goal, picks);
            Traceable(grid, s, st, goal) && WalkCost(Trace(grid, s, st, goal)) <= WalkCost(p)
  {
    var st := After(grid, s, goal, picks);
    AfterInv(grid, s, goal, picks);
    var c :| IsTop(st, c) && c.t == goal;
    FoundIsOptimal(grid, s, goal, st, c, p);
  }

  /**
   Any answer that is not a failure, partial and exhausted ones included, is a cheapest legal walk to where it ends.
   */
  lemma SearchIsOptimal(grid: Grid, s: Tile, goal: Tile, cap: int, r: PathResult, p: seq<Tile>)
    requires InGrid(s) && s != goal
    requires CleanSearch(grid, s, goal, cap, r) && !r.isFailed && |r.waypoints| > 0
    requires WalkFromTo(grid, p, s, Last(r.waypoints))
    ensures WalkCost(r.waypoints) <= WalkCost(p)
  {
    var st, end, last, picks := NotFailedIsTrace(grid, s, goal, cap, r);
    TraceIsWalk(grid, s, st, last);
    if end == Found {
      FoundRunIsOptimal(grid, s, goal, cap, picks, p);
    } else {
      AfterBestIsExact(grid, s, goal, picks);
    }
  }

  /**
   "Neither partial nor failed" does not mean arrived: such an answer ends on the goal exactly when some legal walk
   does, and otherwise on a reachable tile that no other reachable tile beats in octile distance.
   */
  lemma SearchIsComplete(grid: Grid, s: Tile, goal: Tile, cap: int, r: PathResult)
    requires InGrid(s) && s != goal
    requires CleanSearch(grid, s, goal, cap, r) && !r.isFailed && !r.isPartial && |r.waypoints| > 0
    ensures Last(r.waypoints) == goal <==> Connected(grid, s, goal)
    ensures forall t :: Connected(grid, s, t) ==> Octile(Last(r.waypoints), goal) <= Octile(t, goal)
  {
    var st, end, last, picks := NotFailedIsTrace(grid, s, goal, cap, r);
    TraceIsWalk(grid, s, st, last);
    assert WalkFromTo(grid, r.waypoints, s, last);
    AfterInv(grid, s, goal, picks);
    forall t | Connected(grid, s, t)
      ensures Octile(last, goal) <= Octile(t, goal) && (end == Exhausted ==> t != goal)
    {
      var p :| WalkFromTo(grid, p, s, t);
      if end == Exhausted {
        ExhaustedReachesAll(grid, s, goal, st, p);
      } else {
        OctileIsConsistent(grid, t, t, goal);
      }
    }
  }

  /** A search that fails before its cap proves that there is no way to the goal. */
  lemma FailureUnderCapMeansNoWay(grid: Grid, s: Tile, goal: Tile, cap: int, picks: seq<Node>, end: Ending,
                                  r: PathResult)
    requires InGrid(s) && s != goal
    requires Returns(grid, s, goal, cap, picks, end, r) && r.isFailed && |picks| < cap
    ensures !Connected(grid, s, goal)
  {
    var st := After(grid, s, goal, picks);
    AfterInv(grid, s, goal, picks);
    assert end == Exhausted;
    if Connected(grid, s, goal) {
      var p :| WalkFromTo(grid, p, s, goal);
      ExhaustedReachesAll(grid, s, goal, st, p);
    }
  }
}
