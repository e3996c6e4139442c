/** The grid map's path finder in place: scratch tables reused between calls and a cache of finished walks. */
module PathFinder {
  import opened Arith
  import opened GridWorld
  import opened AStar
  import opened AStarTheorems

  const CACHE_LIMIT: int := 500

  /** Endpoints quantised to 8x8-tile buckets. */
  datatype CacheKey = CacheKey(sxBucket: int, szBucket: int, exBucket: int, ezBucket: int)

  function KeyOf(s: Tile, e: Tile): CacheKey {
    CacheKey(s.x / 8, s.z / 8, e.x / 8, e.z / 8)
  }

  ghost predicate CachedWalk(grid: Grid, key: CacheKey, w: seq<Tile>) {
    Walk(grid, w) && InGrid(w[0]) && KeyOf(w[0], Last(w)) == key
  }

  /** A cached walk joins tiles at most 7 columns and 7 rows off the requested ones; it may start off the start. */
  lemma CachedWalkIsNear(grid: Grid, s: Tile, e: Tile, w: seq<Tile>)
    requires CachedWalk(grid, KeyOf(s, e), w)
    ensures Abs(w[0].x - s.x) <= 7 && Abs(w[0].z - s.z) <= 7
    ensures Abs(Last(w).x - e.x) <= 7 && Abs(Last(w).z - e.z) <= 7
  {}

  predicate EndsOn(r: PathResult, e: Tile) {
    |r.waypoints| > 0 && Last(r.waypoints) == e
  }

  function Reverse<T>(s: seq<T>): seq<T> {
    if |s| == 0 then [] else Reverse(s[1..]) + [s[0]]
  }

  lemma {:induction false} LeastNode(open: multiset<Node>) returns (c: Node)
    requires open != multiset{}
    ensures c in open && forall n :: n in open ==> c.f <= n.f
    decreases |open|
  {
    c :| c in open;
    var x := c;
    var rest := open - multiset{x};
    if rest != multiset{} {
      var least := LeastNode(rest);
      c := if least.f <= x.f then least else x;
    }
    forall n | n in open
      ensures c.f <= n.f
    {
      assert n == x || n in rest;
    }
  }

  /** The per-thread tables that outlive a search. */
  class SearchScratch {
    const gScore: array<real>
    const parent: array<Tile>
    var visited: seq<int>

    ghost predicate Valid()
      reads this, gScore, parent
    {
      Logged(gScore[..], parent[..], visited)
    }

    ghost predicate Holds(st: Search)
      reads this, gScore, parent
    {
      gScore[..] == st.g && parent[..] == st.parent && visited == st.visited
    }

    constructor ()
      ensures Valid() && visited == []
      ensures fresh(gScore) && fresh(parent)
    {
      gScore := new real[TILES](_ => INF);
      parent := new Tile[TILES](_ => NONE);
      visited := [];
    }

    /** Touching only the logged entries clears the whole tables. */
    method Reset()
      requires Valid()
      modifies this, gScore, parent
      ensures Valid() && visited == []
      ensures gScore[..] == seq(TILES, _ => INF)
      ensures parent[..] == seq(TILES, _ => NONE)
    {
      for i := 0 to |visited|
        invariant visited == old(visited)
        invariant forall k :: 0 <= k < TILES && (gScore[k] != INF || parent[k] != NONE) ==> k in visited[i..]
      {
        var idx := visited[i];
        assert idx in visited;
        gScore[idx] := INF;
        parent[idx] := NONE;
      }
      visited := [];
    }

    /** Clears the tables and pushes the start tile. */
    method Seed(s: Tile, goal: Tile) returns (open: multiset<Node>)
      requires Valid() && InGrid(s)
      modifies this, gScore, parent
      ensures Holds(Init(s, goal)) && open == Init(s, goal).open
    {
      Reset();
      gScore[Index(s)] := 0.0;
      visited := visited + [Index(s)];
      open := multiset{Node(s, 0.0, 0.0 + Octile(s, goal))};
    }

    method RelaxDirection(grid: Grid, goal: Tile, c: Node, i: int, open: multiset<Node>, ghost st: Search)
      returns (open': multiset<Node>)
      requires Shaped(st) && Holds(st) && open == st.open && InGrid(c.t) && 0 <= i < 8
      modifies this, gScore, parent
      ensures Holds(RelaxEdge(grid, goal, c, i, st)) && open' == RelaxEdge(grid, goal, c, i, st).open
    {
      open' := open;
      var nx, nz := c.t.x + DX[i], c.t.z + DZ[i];
      if IsWalkable(grid, Tile(nx, nz)) {
        if i >= 4 {
          if !IsWalkable(grid, Tile(nx, c.t.z)) || !IsWalkable(grid, Tile(c.t.x, nz)) {
            return;
          }
        }
        var tentative := c.g + MOVE_COST[i];
        var n := Index(Tile(nx, nz));
        assert gScore[n] == st.g[n];
        if tentative < gScore[n] {
          if gScore[n] >= INF {
            visited := visited + [n];
          }
          gScore[n] := tentative;
          parent[n] := c.t;
          open' := open' + multiset{OpenNode(Tile(nx, nz), tentative, goal)};
        }
      }
    }

    /** Relaxes the eight edges out of c in place. */
    method RelaxNeighbors(grid: Grid, goal: Tile, c: Node, open: multiset<Node>, ghost st: Search)
      returns (open': multiset<Node>)
      requires Shaped(st) && Holds(st) && open == st.open && InGrid(c.t)
      modifies this, gScore, parent
      ensures Holds(RelaxAll(grid, goal, c, st)) && open' == RelaxAll(grid, goal, c, st).open
    {
      open' := open;
      for i := 0 to |DX|
        invariant Holds(RelaxUpTo(grid, goal, c, i, st)) && open' == RelaxUpTo(grid, goal, c, i, st).open
      {
        open' := RelaxDirection(grid, goal, c, i, open', RelaxUpTo(grid, goal, c, i, st));
      }
    }

    /** Follows the parent links from t and turns the list around. */
    method TraceBack(grid: Grid, s: Tile, t: Tile, ghost st: Search) returns (path: seq<Tile>)
      requires Holds(st) && Traceable(grid, s, st, t)
      ensures path == Trace(grid, s, st, t)
    {
      var rev: seq<Tile> := [];
      var cur := t;
      while cur.x != -1 && cur.z != -1
        invariant cur == NONE || Traceable(grid, s, st, cur)
        invariant Trace(grid, s, st, t) == TraceOrNothing(grid, s, st, cur) + Reverse(rev)
        decreases if cur == NONE then 0.0 else 1.0 + G(st, cur)
      {
        TraceStep(grid, s, st, cur, rev);
        assert parent[Index(cur)] == P(st, cur);
        rev := rev + [cur];
        cur := parent[Index(cur)];
      }
      path := Reverse(rev);
    }
  }

  type PathCache = map<CacheKey, seq<Tile>>

  /** Whether the request is decided without a search: same tile, blocked target, or a cached walk. */
  predicate Shortcut(grid: Grid, cache: PathCache, s: Tile, e: Tile) {
    s == e || !IsWalkable(grid, e) || KeyOf(s, e) in cache
  }

  ghost predicate Answers(grid: Grid, cache: PathCache, s: Tile, e: Tile, cap: int, r: PathResult)
    requires InGrid(s)
  {
    if s == e then r == PathResult([e], false, false)
    else if !IsWalkable(grid, e) then r == PathResult([], false, true)
    else if KeyOf(s, e) in cache then r == PathResult(cache[KeyOf(s, e)], false, false)
    else CleanSearch(grid, s, e, cap, r)
  }

  /** Only a search that reached its target is filed. */
  predicate Files(grid: Grid, cache: PathCache, s: Tile, e: Tile, r: PathResult) {
    !Shortcut(grid, cache, s, e) && EndsOn(r, e)
  }

  method TakeTop(open: multiset<Node>) returns (c: Node)
    requires open != multiset{}
    ensures c in open && forall n :: n in open ==> c.f <= n.f
  {
    ghost var least := LeastNode(open);
    c :| c in open && forall n :: n in open ==> c.f <= n.f;
  }

  class GridMap {
    const grid: Grid
    var pathCache: PathCache

    /** Every cached walk is legal and joins the two buckets it is filed under; the cache stays small. */
    ghost predicate Valid()
      reads this
    {
      && |pathCache| <= CACHE_LIMIT + 1
      && forall k :: k in pathCache ==> CachedWalk(grid, k, pathCache[k])
    }

    constructor (grid: Grid)
      ensures Valid() && this.grid == grid && pathCache == map[]
    {
      this.grid := grid;
      pathCache := map[];
    }

    method ClearCache()
      modifies this
      ensures Valid() && pathCache == map[]
    {
      pathCache := map[];
    }

    /** One round for a popped node that is not the goal. */
    method ExpandTop(scratch: SearchScratch, goal: Tile, c: Node, open: multiset<Node>, best: Tile, bestH: real,
                     ghost st: Search)
      returns (open': multiset<Node>, best': Tile, bestH': real)
      requires Shaped(st) && scratch.Holds(st) && InGrid(c.t)
      requires open == Pop(c, st).open && best == st.best && bestH == st.bestH
      modifies scratch, scratch.gScore, scratch.parent
      ensures var r := Expand(grid, goal, c, st);
              scratch.Holds(r) && open' == r.open && best' == r.best && bestH' == r.bestH
    {
      open', best', bestH' := open, best, bestH;
      assert scratch.gScore[Index(c.t)] == G(st, c.t);
      if c.g > scratch.gScore[Index(c.t)] {
        return;
      }
      var currH := Octile(c.t, goal);
      if currH < bestH {
        bestH' := currH;
        best' := c.t;
      }
      open' := scratch.RelaxNeighbors(grid, goal, c, open, NoteBest(goal, c, Pop(c, st)));
    }

    /** Takes the chosen node out of the open set and does its round: the run has one more pop. */
    method ExpandNext(scratch: SearchScratch, s: Tile, goal: Tile, c: Node, open: multiset<Node>, best: Tile,
                      bestH: real,
                      ghost picks: seq<Node>)
      returns (open': multiset<Node>, best': Tile, bestH': real, ghost st: Search)
      requires InGrid(s) && Picks(grid, s, goal, picks) && scratch.Holds(After(grid, s, goal, picks))
      requires IsTop(After(grid, s, goal, picks), c) && c.t != goal
      requires var was := After(grid, s, goal, picks); open == was.open && best == was.best && bestH == was.bestH
      modifies scratch, scratch.gScore, scratch.parent
      ensures Picks(grid, s, goal, picks + [c]) && st == After(grid, s, goal, picks + [c])
      ensures scratch.Holds(st) && open' == st.open && best' == st.best && bestH' == st.bestH
    {
      ghost var was := After(grid, s, goal, picks);
      AfterOneMore(grid, s, goal, picks, c);
      open', best', bestH' := ExpandTop(scratch, goal, c, open - multiset{c}, best, bestH, was);
      st := Expand(grid, goal, c, was);
    }

    /** The search loop: clears the scratch tables, then pops until the goal, the cap or an empty open set. */
    method SearchFrom(scratch: SearchScratch, s: Tile, goal: Tile, cap: int)
      returns (end: Ending, last: Tile, ghost picks: seq<Node>)
      requires scratch.Valid() && InGrid(s) && s != goal
      modifies scratch, scratch.gScore, scratch.parent
      ensures scratch.Valid()
      ensures EndsWith(grid, s, goal, cap, picks, end)
      ensures scratch.Holds(After(grid, s, goal, picks))
      ensures last == if end == Found then goal else After(grid, s, goal, picks).best
    {
      var open := scratch.Seed(s, goal);
      var iterations := 0;
      last := s;
      var bestH := Octile(s, goal);
      picks := [];
      ghost var st := Init(s, goal);
      while open != multiset{}
        invariant Picks(grid, s, goal, picks) && st == After(grid, s, goal, picks)
        invariant scratch.Holds(st) && open == st.open && last == st.best && bestH == st.bestH
        invariant iterations == |picks| <= Max(cap, 0)
        decreases Max(cap, 0) - iterations
      {
        iterations := iterations + 1;
        if iterations > cap {
          EndingIsTraceable(grid, s, goal, cap, picks, Capped);
          return Capped, last, picks;
        }
        var c := TakeTop(open);
        assert IsTop(st, c);
        if c.t == goal {
          EndingIsTraceable(grid, s, goal, cap, picks, Found);
          return Found, goal, picks;
        }
        open, last, bestH, st := ExpandNext(scratch, s, goal, c, open, last, bestH, picks);
        picks := picks + [c];
      }
      EndingIsTraceable(grid, s, goal, cap, picks, Exhausted);
      return Exhausted, last, picks;
    }

    /** Runs the search and reads its answer off the parent table. */
    method SearchAndTrace(scratch: SearchScratch, s: Tile, e: Tile, cap: int) returns (r: PathResult, found: bool)
      requires scratch.Valid() && InGrid(s) && s != e
      modifies scratch, scratch.gScore, scratch.parent
      ensures scratch.Valid() && CleanSearch(grid, s, e, cap, r)
      ensures found <==> EndsOn(r, e)
      ensures found ==> CachedWalk(grid, KeyOf(s, e), r.waypoints)
    {
      var end, last, picks := SearchFrom(scratch, s, e, cap);
      EndingIsTraceable(grid, s, e, cap, picks, end);
      found := end == Found;
      if last == s {
        r := PathResult([], false, true);
        assert Returns(grid, s, e, cap, picks, end, r);
        return;
      }
      var waypoints := scratch.TraceBack(grid, s, last, After(grid, s, e, picks));
      r := PathResult(waypoints, end == Capped, false);
      assert Returns(grid, s, e, cap, picks, end, r);
      AnswerFitsCache(grid, s, e, cap, picks, end, r);
    }

    /**
     Answers a request: trivially, from the cache, or by a search whose answer depends on the grid, the two tiles and
     the cap alone, never on what the scratch tables held. The cache gains the walk that was found and keeps all others,
     unless it had outgrown its limit; no other request changes it.
     */
    method FindPath(scratch: SearchScratch, startX: real, startZ: real, endX: real, endZ: real, cap: int)
      returns (r: PathResult)
      requires Valid() && scratch.Valid()
      modifies this, scratch, scratch.gScore, scratch.parent
      ensures Valid() && scratch.Valid()
      ensures var s, e := SnapToTile(startX, startZ), SnapToTile(endX, endZ);
              && Answers(grid, old(pathCache), s, e, cap, r)
              && (s == e ==> r.waypoints == [e] && !r.isFailed && !r.isPartial)
              && (s != e && !IsWalkable(grid, e) ==> r.waypoints == [] && r.isFailed)
      ensures var s, e := SnapToTile(startX, startZ), SnapToTile(endX, endZ);
              && (!Files(grid, old(pathCache), s, e, r) ==> pathCache == old(pathCache))
              && (Files(grid, old(pathCache), s, e, r) && |old(pathCache)| <= CACHE_LIMIT ==>
                   pathCache == old(pathCache)[KeyOf(s, e) := r.waypoints])
              && (Files(grid, old(pathCache), s, e, r) && |old(pathCache)| > CACHE_LIMIT ==>
                   pathCache == map[KeyOf(s, e) := r.waypoints])
    {
      var s, e := SnapToTile(startX, startZ), SnapToTile(endX, endZ);
      if s == e {
        return PathResult([e], false, false);
      }
      if !IsWalkable(grid, e) {
        return PathResult([], false, true);
      }
      var key := KeyOf(s, e);
      if key in pathCache && |pathCache[key]| > 0 {
        return PathResult(pathCache[key], false, false);
      }
      r := SearchAndFile(scratch, s, e, cap);
    }

    /** A search for a request that the cache does not know; a walk that reaches the target is filed. */
    method SearchAndFile(scratch: SearchScratch, s: Tile, e: Tile, cap: int) returns (r: PathResult)
      requires Valid() && scratch.Valid() && InGrid(s) && !Shortcut(grid, pathCache, s, e)
      modifies this, scratch, scratch.gScore, scratch.parent
      ensures Valid() && scratch.Valid()
      ensures CleanSearch(grid, s, e, cap, r)
      ensures !EndsOn(r, e) ==> pathCache == old(pathCache)
      ensures EndsOn(r, e) && |old(pathCache)| <= CACHE_LIMIT ==>
                pathCache == old(pathCache)[KeyOf(s, e) := r.waypoints]
      ensures EndsOn(r, e) && |old(pathCache)| > CACHE_LIMIT ==> pathCache == map[KeyOf(s, e) := r.waypoints]
    {
      var found;
      r, found := SearchAndTrace(scratch, s, e, cap);
      if found && |r.waypoints| > 0 {
        Remember(KeyOf(s, e), r.waypoints);
      }
    }

    /** Files a finished walk; a cache grown past its limit is emptied first. */
    method Remember(key: CacheKey, w: seq<Tile>)
      requires Valid() && CachedWalk(grid, key, w)
      modifies this
      ensures Valid() && pathCache == (if |old(pathCache)| > CACHE_LIMIT then map[] else old(pathCache))[key := w]
    {
      if |pathCache| > CACHE_LIMIT {
        pathCache := map[];
      }
      pathCache := pathCache[key := w];
    }
  }

  lemma AnswerFitsCache(grid: Grid, s: Tile, e: Tile, cap: int, picks: seq<Node>, end: Ending, r: PathResult)
    requires InGrid(s) && s != e
    requires Returns(grid, s, e, cap, picks, end, r) && !r.isFailed
    ensures |r.waypoints| >= 2 && (Last(r.waypoints) == e <==> end == Found)
    ensures end == Found ==> CachedWalk(grid, KeyOf(s, e), r.waypoints)
  {
    EndingIsTraceable(grid, s, e, cap, picks, end);
    var st := After(grid, s, e, picks);
    TraceIsWalk(grid, s, st, LastTile(e, st, end));
  }

  ghost function TraceOrNothing(grid: Grid, s: Tile, st: Search, t: Tile): seq<Tile>
    requires t == NONE || Traceable(grid, s, st, t)
  {
    if t == NONE then [] else Trace(grid, s, st, t)
  }

  lemma TraceStep(grid: Grid, s: Tile, st: Search, t: Tile, rev: seq<Tile>)
    requires Traceable(grid, s, st, t)
    ensures var u := P(st, t);
            && (u == NONE || (Traceable(grid, s, st, u) && G(st, u) <= G(st, t) - 1.0 && u.x != -1))
            && Trace(grid, s, st, t) + Reverse(rev) == TraceOrNothing(grid, s, st, u) + Reverse(rev + [t])
            && 0.0 <= G(st, t)
  {
    ParentTraceable(grid, s, st, t);
    ReverseSnoc(rev, t);
  }

  lemma {:induction false} ReverseSnoc<T>(s: seq<T>, x: T)
    ensures Reverse(s + [x]) == [x] + Reverse(s)
  {
    if |s| > 0 {
      assert (s + [x])[1..] == s[1..] + [x];
      ReverseSnoc(s[1..], x);
    }
  }
}
