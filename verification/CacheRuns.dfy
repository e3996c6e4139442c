/** The path cache over runs of requests and clearings: how long a filed walk answers, and whom it serves. */
module CacheRuns {
  import opened GridWorld
  import opened AStarTheorems
  import opened PathFinder

  /** Two requests share an entry exactly when their ends lie in the same blocks of eight by eight tiles. */
  lemma SameEntryIff(s: Tile, e: Tile, t: Tile, u: Tile)
    requires InGrid(s) && InGrid(e) && InGrid(t) && InGrid(u)
    ensures KeyOf(s, e) == KeyOf(t, u) <==>
              && s.x - s.x % 8 == t.x - t.x % 8 && s.z - s.z % 8 == t.z - t.z % 8
              && e.x - e.x % 8 == u.x - u.x % 8 && e.z - e.z % 8 == u.z - u.z % 8
  {}

  datatype Call = Ask(s: Tile, e: Tile, cap: int, r: PathResult) | Clear

  ghost predicate FiledBy(grid: Grid, cache: PathCache, c: Call) {
    c.Ask? && Files(grid, cache, c.s, c.e, c.r)
  }

  ghost predicate Answered(grid: Grid, cache: PathCache, c: Call) {
    c.Ask? ==> InGrid(c.s) && InGrid(c.e) && Answers(grid, cache, c.s, c.e, c.cap, c.r)
  }

  /** What a call does to the cache. */
  ghost predicate Changes(grid: Grid, before: PathCache, c: Call, after: PathCache) {
    if c.Clear? then after == map[]
    else if !FiledBy(grid, before, c) then after == before
    else if |before| <= CACHE_LIMIT then after == before[KeyOf(c.s, c.e) := c.r.waypoints]
    else after == map[KeyOf(c.s, c.e) := c.r.waypoints]
  }

  /** The caches between the calls of a run. */
  ghost predicate Run(grid: Grid, caches: seq<PathCache>, calls: seq<Call>) {
    && |caches| == |calls| + 1
    && forall i :: 0 <= i < |calls| ==>
         Answered(grid, caches[i], calls[i]) && Changes(grid, caches[i], calls[i], caches[i + 1])
  }

  /** The calls that throw entries away. */
  ghost predicate Forgets(grid: Grid, before: PathCache, c: Call) {
    c.Clear? || (FiledBy(grid, before, c) && |before| > CACHE_LIMIT)
  }

  ghost predicate Keeps(before: PathCache, after: PathCache) {
    forall k :: k in before ==> k in after && after[k] == before[k]
  }

  /** A filing with the cache within its limit keeps every entry with its walk; so does any other request. */
  lemma OthersAreKept(grid: Grid, before: PathCache, c: Call, after: PathCache)
    requires Changes(grid, before, c, after) && !Forgets(grid, before, c)
    ensures Keeps(before, after)
    ensures forall k :: k in after && k !in before ==> FiledBy(grid, before, c) && k == KeyOf(c.s, c.e)
  {}

  /** A call that forgets leaves nothing but what it files itself. */
  lemma NothingElseStays(grid: Grid, before: PathCache, c: Call, after: PathCache)
    requires Changes(grid, before, c, after) && Forgets(grid, before, c)
    ensures after.Keys == if c.Clear? then {} else {KeyOf(c.s, c.e)}
  {}

  lemma {:induction false} KeepsAlong(caches: seq<PathCache>, i: nat, j: nat)
    requires i <= j < |caches| && forall m :: i <= m < j ==> Keeps(caches[m], caches[m + 1])
    ensures Keeps(caches[i], caches[j])
    decreases j - i
  {
    if i < j {
      KeepsAlong(caches, i, j - 1);
      assert Keeps(caches[j - 1], caches[j - 1 + 1]);
    }
  }

  lemma EntriesStay(grid: Grid, caches: seq<PathCache>, calls: seq<Call>, i: nat, j: nat)
    requires Run(grid, caches, calls) && i <= j <= |calls|
    requires forall m :: i <= m < j ==> !Forgets(grid, caches[m], calls[m])
    ensures Keeps(caches[i], caches[j])
  {
    forall m | i <= m < j
      ensures Keeps(caches[m], caches[m + 1])
    {
      OthersAreKept(grid, caches[m], calls[m], caches[m + 1]);
    }
    KeepsAlong(caches, i, j);
  }

  lemma FilingIsKept(grid: Grid, before: PathCache, c: Call, after: PathCache)
    requires Changes(grid, before, c, after) && FiledBy(grid, before, c)
    ensures KeyOf(c.s, c.e) in after && after[KeyOf(c.s, c.e)] == c.r.waypoints
  {}

  /**
   A walk found at call i answers every later request of its buckets until the cache is cleared or a filing finds it
   above its limit. It leads from the tile asked for to the tile asked for exactly if both are those of call i.
   */
  lemma FiledWalkAnswers(grid: Grid, caches: seq<PathCache>, calls: seq<Call>, i: nat, j: nat)
    requires Run(grid, caches, calls) && i < j < |calls| && FiledBy(grid, caches[i], calls[i]) && calls[j].Ask?
    requires forall m :: i < m < j ==> !Forgets(grid, caches[m], calls[m])
    requires var first, later := calls[i], calls[j];
             KeyOf(later.s, later.e) == KeyOf(first.s, first.e) && later.s != later.e && IsWalkable(grid, later.e)
    ensures calls[j].r == PathResult(calls[i].r.waypoints, false, false)
    ensures WalkFromTo(grid, calls[j].r.waypoints, calls[j].s, calls[j].e) <==>
              calls[j].s == calls[i].s && calls[j].e == calls[i].e
  {
    var first, later := calls[i], calls[j];
    FilingIsKept(grid, caches[i], first, caches[i + 1]);
    EntriesStay(grid, caches, calls, i + 1, j);
    FiledIsWalk(grid, caches[i], first);
    HitIsEntry(grid, caches[j], later);
  }

  lemma HitIsEntry(grid: Grid, cache: PathCache, c: Call)
    requires Answered(grid, cache, c) && c.Ask? && c.s != c.e && IsWalkable(grid, c.e) && KeyOf(c.s, c.e) in cache
    ensures c.r == PathResult(cache[KeyOf(c.s, c.e)], false, false)
  {}

  lemma FiledIsWalk(grid: Grid, cache: PathCache, c: Call)
    requires Answered(grid, cache, c) && FiledBy(grid, cache, c)
    ensures WalkFromTo(grid, c.r.waypoints, c.s, c.e)
    ensures forall p :: WalkFromTo(grid, p, c.s, c.e) ==> WalkCost(c.r.waypoints) <= WalkCost(p)
  {
    SearchIsSound(grid, c.s, c.e, c.cap, c.r);
    forall p | WalkFromTo(grid, p, c.s, c.e)
      ensures WalkCost(c.r.waypoints) <= WalkCost(p)
    {
      SearchIsOptimal(grid, c.s, c.e, c.cap, c.r, p);
    }
  }

  /** After the cache was thrown away, a request that is not answered outright is searched again. */
  lemma ForgottenIsSearchedAgain(grid: Grid, caches: seq<PathCache>, calls: seq<Call>, m: nat)
    requires Run(grid, caches, calls) && m + 1 < |calls| && Forgets(grid, caches[m], calls[m]) && calls[m + 1].Ask?
    requires var next := calls[m + 1];
             && next.s != next.e && IsWalkable(grid, next.e)
             && (calls[m].Ask? ==> KeyOf(next.s, next.e) != KeyOf(calls[m].s, calls[m].e))
    ensures CleanSearch(grid, calls[m + 1].s, calls[m + 1].e, calls[m + 1].cap, calls[m + 1].r)
  {
    NothingElseStays(grid, caches[m], calls[m], caches[m + 1]);
    assert Answered(grid, caches[m + 1], calls[m + 1]);
  }

  lemma {:induction false} CacheStaysSmall(grid: Grid, caches: seq<PathCache>, calls: seq<Call>, k: nat)
    requires Run(grid, caches, calls) && k <= |calls| && |caches[0]| <= CACHE_LIMIT + 1
    ensures |caches[k]| <= CACHE_LIMIT + 1
  {
    if k > 0 {
      CacheStaysSmall(grid, caches, calls, k - 1);
      assert Changes(grid, caches[k - 1], calls[k - 1], caches[k - 1 + 1]);
    }
  }

  // ---- The calls of the map object make such runs

  datatype Request = Request(startX: real, startZ: real, endX: real, endZ: real, cap: int) | Emptying

  lemma RunSnoc(grid: Grid, caches: seq<PathCache>, calls: seq<Call>, c: Call, after: PathCache)
    requires Run(grid, caches, calls) && Answered(grid, caches[|calls|], c) && Changes(grid, caches[|calls|], c, after)
    ensures Run(grid, caches + [after], calls + [c])
  {
    var caches', calls' := caches + [after], calls + [c];
    forall i | 0 <= i < |calls'|
      ensures Answered(grid, caches'[i], calls'[i]) && Changes(grid, caches'[i], calls'[i], caches'[i + 1])
    {
      if i < |calls| {
        assert caches'[i] == caches[i] && caches'[i + 1] == caches[i + 1] && calls'[i] == calls[i];
      } else {
        assert caches'[i] == caches[|calls|] && caches'[i + 1] == after && calls'[i] == c;
      }
    }
  }

  method ServeOne(world: GridMap, scratch: SearchScratch, q: Request) returns (ghost c: Call)
    requires world.Valid() && scratch.Valid()
    modifies world, scratch, scratch.gScore, scratch.parent
    ensures world.Valid() && scratch.Valid()
    ensures Answered(world.grid, old(world.pathCache), c)
    ensures Changes(world.grid, old(world.pathCache), c, world.pathCache)
    ensures match q
            case Emptying => c == Clear
            case Request(sx, sz, ex, ez, cap) =>
              c.Ask? && c.s == SnapToTile(sx, sz) && c.e == SnapToTile(ex, ez) && c.cap == cap
  {
    match q {
      case Emptying =>
        world.ClearCache();
        c := Clear;
      case Request(sx, sz, ex, ez, cap) =>
        var r := world.FindPath(scratch, sx, sz, ex, ez, cap);
        c := Ask(SnapToTile(sx, sz), SnapToTile(ex, ez), cap, r);
    }
  }

  /** Any series of requests and clearings, whatever the scratch tables held at its start, is a run. */
  method Serve(world: GridMap, scratch: SearchScratch, requests: seq<Request>)
    returns (ghost caches: seq<PathCache>, ghost calls: seq<Call>)
    requires world.Valid() && scratch.Valid()
    modifies world, scratch, scratch.gScore, scratch.parent
    ensures world.Valid() && scratch.Valid() && |calls| == |requests|
    ensures Run(world.grid, caches, calls) && caches[0] == old(world.pathCache) && caches[|calls|] == world.pathCache
  {
    caches, calls := [world.pathCache], [];
    for k := 0 to |requests|
      invariant world.Valid() && scratch.Valid() && |calls| == k && Run(world.grid, caches, calls)
      invariant caches[0] == old(world.pathCache) && caches[k] == world.pathCache
    {
      ghost var c := ServeOne(world, scratch, requests[k]);
      RunSnoc(world.grid, caches, calls, c, world.pathCache);
      caches, calls := caches + [world.pathCache], calls + [c];
    }
  }
}
