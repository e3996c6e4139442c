# Verified model of the Mundus Vivens game server

The game server simulates a town: creatures find their way over a tile grid, see each other along straight lines, claim
furniture when they are hungry or tired, form dialogue groups, and follow a logical clock kept in step with a remote AI
server. It carries the Tracy profiler as a third-party client, whose event pipeline is as intricate as the game itself.
This project models the parts of both where several steps, loops or threads must cooperate, and proves in Dafny what
they keep and what they compute. `dafny verify dfyconfig.toml` checks all of it.

| files | what they cover |
|---|---|
| `GridWorld`, `AStar`, `AStarTheorems`, `ExpandOnce`, `PathFinder`, `UnreachableGoal`, `CacheRuns` | A* with lazy table reset, iteration cap, best-so-far fallback and path cache: soundness, optimality of every answer, completeness, the bound on its rounds, independence from earlier calls; how long a cached walk answers |
| `RetryGuard`, `PathChaining` | reaching a far target by consuming partial paths, from real positions, until it comes in sight; exactly when the retry guard gives up, and what one journey leaves to the next |
| `ShortRuns`, `Corridor` | small searches, and the grids on which the guard and the cache go wrong |
| `LineOfSight` | the integer line walk: shape, error bound, refinement, and exactly when sight is symmetric |
| `SpscQueue`, `SpscRing` | the single-producer single-consumer ring as an interleaving of atomic steps, and as an object |
| `SampleMerge`, `TraceRing`, `TraceWorker` | the k-way merge of trace rings with in-place compaction, reading from a wrapped ring, and the rounds that move the tails |
| `DeltaCoding`, `DeltaSender` | delta coding of four interleaved clocks over three dequeue paths |
| `OutputBuffer` | the three-frame output buffer and the compressor's 64 KiB window |
| `PathNormalizer` | in-place path normalisation as a refinement of a component stack |
| `SpatialIndex`, `ZoneMap` | the hash grid over entities against a plain scan, and the baked zone map |
| `Furniture` | ownership between creatures and furniture under all survival steps and the resolver |
| `DialogueGroups` | group formation for all random outcomes: who is grouped, and who is not left over |
| `TickHandshake`, `TickProgress` | the tick request/reply protocol over the double-buffered task queue: what it never does, and that it gets on |
| `Arith` | facts about integer division, remainders and squares |

Coordinates, costs and needs are exact reals; the diagonal cost is exactly 1.41421356. Random draws are arbitrary values,
hash-map iteration visits its keys in arbitrary order, and a priority queue may return any node of least key. Algorithms
that the server runs in place are methods on arrays or objects; each is tied to a function or transition system about
which the theorems are proved.

Some properties that one might expect do not hold of the code. For each, the model states exactly when it does, and gives
an input for which it does not:

- A search answer that is "neither partial nor failed" need not end on the target: it does if and only if the target can
  be reached (`AStarTheorems.SearchIsComplete`, `UnreachableGoal.CompleteYetOffTarget`). A mover at the end of such a
  path is put on the target all the same (`PathChaining.PutOnTargetUnreached`).
- A path from the cache need not lead from the tile asked for to the tile asked for: it does if and only if these are the
  tiles of the request that was searched (`CacheRuns.FiledWalkAnswers`, `Corridor.WayBackIsWrong`).
- Line of sight is not symmetric: two tiles see each other alike on every grid if and only if the ideal line nowhere
  passes exactly between two cells (`LineOfSight.SightIsSymmetricIffNoTie`, `LineOfSight.SightIsNotSymmetric`).
- `NormalizePath` steps below its buffer if and only if some prefix of the path climbs above the root
  (`PathNormalizer.NormalizesIffNeverClimbs`, `PathNormalizer.RootHasNoParent`).
- The trace merge ends if and only if no sample carries the largest 64-bit time; otherwise it repeats one round for ever
  (`SampleMerge.Merge`, `SampleMerge.LargestTimeBlocks`). The clock behind the rings counts nanoseconds since
  boot (`thirdparty/tracy/client/TracySysTrace.cpp:1143-1146`) and would reach that time after 292 years.
- The retry guard of path chaining can give up on a later plan than the first, and on a target that could be reached; the
  exact condition is on where the journey starts and which stops it plans at (`RetryGuard.GivesUpIff`,
  `Corridor.GivesUpOnReachableGoal`).
- A new connection does not clear the thread reference of the profiler, so a stale one distorts the first thread-clock
  times if and only if that clock is first used under thread number 0 (`DeltaCoding.RoundTrip`,
  `DeltaCoding.StaleReferenceIsRead`). That number arises where the platform offers none, so that every thread gets
  it (`thirdparty/tracy/common/TracySystem.cpp:88-90`), or where a 64-bit number is cut to 32 bits
  (`thirdparty/tracy/common/TracySystem.cpp:68-71`); under other numbers the round trip is unconditional
  (`DeltaCoding.NonZeroThreadsRoundTrip`).

One more result about a guard: the furniture resolver never has anything to do in a state that the other survival steps
can reach (`Furniture.World.SystemAffordanceResolver`).

## Model

| member | source | states |
|---|---|---|
| GridWorld.SnapIsNearestTile | GridMap.cpp:112-115 | along either axis no tile of the grid is nearer to the point than the snapped one, and of two equally near ones the larger is taken |
| GridWorld.InteriorSnaps | GridMap.cpp:112-115 | every point less than half a unit from a tile along both axes snaps to it |
| GridWorld.OctileIsConsistent | GridMap.cpp:156-161 | the heuristic is zero exactly on the target and never drops by more than one legal move costs |
| GridWorld.OctileIsAdmissible | GridMap.cpp:156-161 | no legal walk of any length is cheaper than the octile distance of its ends |
| GridWorld.LegalMoveIff | GridMap.cpp:168-217 | a legal move in terms of the flat table: to a different tile at most one column and row off, free, and diagonally only between two free tiles |
| AStar.DirectionIsMove | GridMap.cpp:168-217 | offset, cost and corner test of each of the eight directions are those of the legal move it makes, and admit exactly the legal moves |
| AStar.MoveHasDirection | GridMap.cpp:168-217 | every legal move is one of the eight directions |
| AStar.InitInv | GridMap.cpp:163-166 | the state after the start tile is pushed satisfies the search invariant |
| AStar.RelaxKeepsCore | GridMap.cpp:208-231 | relaxing one edge keeps scores bounded, parents legal and paid for, queue entries sound, and every changed table entry logged |
| AStar.RelaxKeepsExpanding | GridMap.cpp:208-231 | relaxing one edge settles that direction and leaves every other reached tile waiting or settled |
| AStar.PopKeepsFrontier | GridMap.cpp:188-198 | popping a stale node loses nothing; popping a live one concerns its own tile alone |
| AStar.ExpandInv | GridMap.cpp:182-232 | every round keeps the whole invariant, whichever of the least-f nodes the queue hands out |
| AStarTheorems.AfterInv | GridMap.cpp:182-232 | every state of every run satisfies the invariant |
| AStarTheorems.ParentTraceable | GridMap.cpp:243-251 | only the start has no parent, and a parent's score is at least one less, so following parents terminates |
| AStarTheorems.TraceIsWalk | GridMap.cpp:243-252 | following parents from any reached tile gives a legal walk from the start, without repeated tiles, that costs no more than the score |
| AStarTheorems.TopIsLowerBound | GridMap.cpp:188-198 | the least f in the queue is a lower bound on the cost of every legal walk to the goal |
| AStarTheorems.PoppedGoalIsLive | GridMap.cpp:191-196 | the goal test comes before the stale test, yet a popped goal node always carries the goal's current score |
| AStarTheorems.FoundIsOptimal | GridMap.cpp:191-252 | when the goal is popped, the traced walk is at most as expensive as any legal walk |
| AStarTheorems.LivePopIsExact | GridMap.cpp:188-206 | the score with which any tile is expanded is the cost of a cheapest legal walk to it, whatever the goal |
| AStarTheorems.ExactStays | GridMap.cpp:219-228 | such a score never moves again |
| AStarTheorems.AfterBestIsExact | GridMap.cpp:200-206 | in every state of every run the best-so-far tile has such a score |
| AStarTheorems.ExhaustedScoreIsExact | GridMap.cpp:182-232 | when the queue runs empty every finite score is exactly the cost of its trace |
| AStarTheorems.ExhaustedScoreIsSmall | GridMap.cpp:145-145 | so real scores stay far below the sentinel 1e9 that stands for "unreached" |
| AStarTheorems.ExhaustedReachesAll | GridMap.cpp:182-232 | when the queue runs empty every tile with a legal walk from the start has been reached, and the best-so-far tile is at most as far from the goal |
| AStarTheorems.EndingIsTraceable | GridMap.cpp:234-252 | whichever way the loop ends, the chosen tile can be traced back, it is the goal exactly when the goal was popped, and the visited log covers the tables |
| AStarTheorems.SearchIsSound | GridMap.cpp:182-266 | an answer that is not a failure is a legal, duplicate-free walk from the start to a tile strictly nearer to the goal, and a partial one does not end on the goal |
| AStarTheorems.SearchIsOptimal | GridMap.cpp:156-255 | every answer that is not a failure, partial and exhausted ones included, is a cheapest legal walk to the tile it ends on |
| AStarTheorems.SearchIsComplete | GridMap.cpp:182-255 | an answer that is neither partial nor failed ends on the goal if and only if some legal walk does; otherwise it ends on a reachable tile that no reachable tile beats in octile distance |
| AStarTheorems.FailureUnderCapMeansNoWay | GridMap.cpp:182-241 | a search that fails before reaching its cap proves that no legal walk to the goal exists |
| ExpandOnce.FinishedStays | GridMap.cpp:182-231 | a tile once expanded never waits again |
| ExpandOnce.EachTileIsExpandedOnce | GridMap.cpp:182-231 | in every run each tile is expanded at most once, and pops and waiting nodes together are at most eight a tile and one |
| ExpandOnce.AmpleCapIsNeverHit | GridMap.cpp:183-186 | a cap of that size is never hit |
| ExpandOnce.AmpleCapDecides | GridMap.cpp:182-255 | with such a cap an answer is never partial, and ends on the goal if and only if some legal walk does |
| ExpandOnce.BestIsNearestExpanded | GridMap.cpp:176-206 | after any number of pops the best-so-far tile is the start or an expanded tile, and none of these is nearer to the goal |
| ExpandOnce.PartialEndsNearest | GridMap.cpp:183-255 | a partial answer comes after exactly the capped number of pops and ends on the nearest tile they expanded |
| UnreachableGoal.CompleteYetOffTarget | GridMap.cpp:182-255 | on a grid of three free tiles, any cap of two or more gives an answer that is neither partial nor failed and ends off its free but cut-off target |
| UnreachableGoal.CutOffGridExists | GridMap.cpp:182-255 | that grid |
| PathFinder.SearchScratch.Reset | GridMap.cpp:149-154 | clearing only the logged entries leaves both tables wholly at their defaults |
| PathFinder.SearchScratch.Seed | GridMap.cpp:149-166 | after the reset and the push of the start, tables, log and queue are those of a fresh search |
| PathFinder.SearchScratch.RelaxDirection | GridMap.cpp:208-230 | the in-place edge step is the edge step of the transition system, for tables, log and queue |
| PathFinder.SearchScratch.RelaxNeighbors | GridMap.cpp:208-231 | the in-place expansion relaxes all eight edges |
| PathFinder.SearchScratch.TraceBack | GridMap.cpp:243-252 | the trace-back loop terminates and returns the trace of the transition system, start first |
| PathFinder.LeastNode | GridMap.cpp:188-189 | a non-empty queue has a node of least f |
| PathFinder.GridMap.ExpandTop | GridMap.cpp:198-231 | the body of the loop is one round of the transition system |
| PathFinder.GridMap.ExpandNext | GridMap.cpp:188-231 | the chosen node leaves the queue and the run has one more pop |
| PathFinder.GridMap.SearchFrom | GridMap.cpp:149-232 | the search loop ends within the cap, and its tables and best tile are those of a run on clean tables, whatever the tables held before |
| PathFinder.GridMap.SearchAndTrace | GridMap.cpp:149-255 | the answer is one that a search on clean tables gives, and a walk that reaches the target fits the cache |
| PathFinder.GridMap.SearchAndFile | GridMap.cpp:141-266 | a request that the cache does not know is searched; a walk that reaches the target is filed, up to 500 entries beside all that were there, above that alone; otherwise the cache stays as it is |
| PathFinder.GridMap.FindPath | GridMap.cpp:111-266 | the answer is the trivial one, a failure, a cached walk or that of a clean search; it depends on nothing an earlier call left in the scratch tables; the cache gains the filed walk, is replaced by it above 500 entries, and changes in no other case |
| PathFinder.GridMap.Remember | GridMap.cpp:257-263 | a finished walk is filed, after a cache of more than 500 entries was emptied; at most 501 entries are ever held |
| PathFinder.GridMap.ClearCache | GridMap.h:47-47 | an emptied cache is valid |
| PathFinder.CachedWalkIsNear | GridMap.cpp:131-139 | a cache hit joins tiles at most 7 columns and rows off the requested ones |
| CacheRuns.SameEntryIff | GridMap.cpp:130-131 | two requests share an entry if and only if their ends lie in the same blocks of eight by eight tiles |
| CacheRuns.OthersAreKept | GridMap.cpp:257-263 | a filing with at most 500 entries keeps every other entry with its walk, and no call but a filing adds one |
| CacheRuns.NothingElseStays | GridMap.cpp:257-263 | after a filing above 500 entries only its own entry is left, after a clearing none |
| CacheRuns.EntriesStay | GridMap.cpp:131-263 | over any run of calls that neither clears nor files above the limit, every entry stays with its walk |
| CacheRuns.FiledWalkAnswers | GridMap.cpp:131-263 | over any run: a filed walk answers every later request of its buckets until the cache is cleared or a filing finds more than 500 entries, and it leads from the tile asked for to the tile asked for if and only if both are those of the first request |
| CacheRuns.FiledIsWalk | GridMap.cpp:182-263 | a filed walk is a cheapest legal walk between the ends it was asked for |
| CacheRuns.ForgottenIsSearchedAgain | GridMap.cpp:131-263 | after entries were thrown away, the next request of other buckets is answered by a search |
| CacheRuns.CacheStaysSmall | GridMap.cpp:257-263 | no run makes the cache hold more than 501 entries |
| CacheRuns.Serve | GridMap.cpp:111-266 | every series of requests and clearings, served one after the other, is such a run |
| Corridor.WayThereIsFound | GridMap.cpp:131-263 | between two free tiles side by side the way is found and filed |
| Corridor.WayBackIsWrong | GridMap.cpp:131-139 | then a request for the way back is answered with the way there |
| PathChaining.LegDescends | SystemMovement.cpp:57-73 | an uncached search that does not fail moves strictly closer to the target |
| PathChaining.LegsAreFinite | SystemMovement.cpp:269-274 | any series of legs is bounded by the first distance, visits no stop twice, and every stop is connected to the first |
| PathChaining.WalksJoin | SystemMovement.cpp:269-274 | walks that meet join into one legal walk |
| RetryGuard.WaypointSnaps | SystemMovement.cpp:283-296 | a position from which a waypoint counts as reached snaps to that waypoint's tile |
| RetryGuard.FirstLegMayBeShort | SystemMovement.cpp:77-79 | from some position in one tile to some position at a waypoint in another it is less than one unit if and only if the tiles touch |
| RetryGuard.LaterLegMayBeShort | SystemMovement.cpp:77-79 | between positions at two waypoints, if and only if their tiles share a side |
| RetryGuard.GivesUpIff | SystemMovement.cpp:75-97 | given where a journey starts, its count, and the stops it plans at, it can give up on its last plan and not before if and only if: one stop, the count is one and the start close to the last partial plan; two, the start is close to that and less than 1.1 off the second stop; three, the start is not close to it, less than 1.1 off the second stop, and the next leg joins tiles that share a side; four or more, the last two legs do, and the first two plans need not trip it |
| RetryGuard.GivingUpNeeds | SystemMovement.cpp:75-97 | that condition is needed |
| RetryGuard.LateGivingUp | SystemMovement.cpp:75-97 | from four stops on it is enough |
| RetryGuard.EarlyGivingUp | SystemMovement.cpp:75-97 | and up to three |
| RetryGuard.CountReachesTwoIff | SystemMovement.cpp:75-97 | whatever the start, the count over three stops or more can reach two if and only if the last leg joins tiles that share a side, and the one before it too, or tiles that touch if it is the first |
| RetryGuard.CloseToWaypoint | SystemMovement.cpp:77-79 | a waypoint can be reached within one unit only from less than 1.1 off its centre |
| RetryGuard.OffWaypoint | SystemMovement.cpp:77-79 | and at one unit or more only from more than 0.9 off it |
| Corridor.GivesUpOnReachableGoal | SystemMovement.cpp:57-97 | a grid, goal and cap of two for which it gives up on the second plan, out of sight of a goal it could reach |
| Corridor.LegOfOne | SystemMovement.cpp:57-73 | the capped searches of that grid end one tile on |
| PathChaining.TripGivesUp | SystemMovement.cpp:57-118 | the stops of a trip are finitely many, all different, and connected to the first; a trip given up on meets the condition of the guard |
| PathChaining.PutOnTargetUnreached | SystemMovement.cpp:232-268 | a mover put on its target at the end of a complete path, still out of sight of it, was not led there: its own tile is blocked, or no legal walk exists, or the path was cached for another target |
| PathChaining.BesideIsNeighbor | SystemMovement.cpp:233-238 | a mover put on its target from beside it stood in the target's tile or in one that touches it |
| PathChaining.Mover.NoteCap | SystemMovement.cpp:75-97 | the retry counter over real positions, the second-in-a-row rule, and that giving up clears the count |
| PathChaining.Mover.Accept | SystemMovement.cpp:70-118 | nothing to follow idles the mover and leaves the count as it is; a partial path is counted, and giving up on it clears the count, as a complete path does |
| PathChaining.Mover.Look | SystemMovement.cpp:37-48 | with the target in sight the path is dropped and the count cleared, and only then |
| PathChaining.Mover.Plan | SystemMovement.cpp:37-118 | it plans only with the target out of sight; what is followed is a search answer or a cached walk for the tiles of the two positions; a partial one is counted at the mover's real position; if nothing can be followed the target is blocked or the search found no nearer tile; what the count is afterwards in each case |
| PathChaining.Mover.WalkPath | SystemMovement.cpp:277-301 | the walk ends at the last waypoint, or wherever the target comes in sight |
| PathChaining.Mover.FinishPath | SystemMovement.cpp:232-275 | at the end of a complete path, or less than one unit from the target, the mover is put there, works and has its count cleared; otherwise it stays, keeps its count and plans again |
| PathChaining.Mover.Hop | SystemMovement.cpp:37-118 | one plan and the walk along it: the new count, and why it sees its target, idles, works or goes on |
| PathChaining.Mover.Journey | SystemMovement.cpp:37-118 | plan-and-walk terminates for every grid, cache and cap; its stops are a descending chain of legs, each planned with the target out of sight; it gives up if and only if the guard trips over the positions of its partial plans; it works only unseen, at the end of a path flagged complete or beside the target; the count it leaves is 0, or after a journey with nothing to follow what its partial plans made it |
| PathChaining.Mover.SetOut | BehaviorTrees.h:348-359 | a new job leaves count and place of the guard as they are |
| PathChaining.Mover.TwoJourneys | SystemMovement.cpp:37-118 | a journey that follows one ended in giving up, sight or work cannot be given up on its first plan; after one that ended with nothing to follow it is, exactly when the count was one and the plan is made less than a unit from the last partial one |
| PathChaining.FirstPlanGivesUpIff | SystemMovement.cpp:75-97 | the exact condition for giving up on the first plan, from any count and place |
| PathChaining.NothingToFollowMeansNoWay | SystemMovement.cpp:108-117 | with a cap that is never hit, a mover without anything to follow has no legal walk to its target |
| LineOfSight.NearestIsWithinHalf | GridMap.cpp:276-298 | the cross coordinate is the one integer whose doubled error lies in [-major, major) |
| LineOfSight.LineShape | GridMap.cpp:268-300 | the line starts on one end, reaches the other after max(dx, dz) steps and not before, and moves one neighbour at a time |
| LineOfSight.LineIsNearIdeal | GridMap.cpp:276-298 | no cell of the line is more than half a cell off the ideal line |
| LineOfSight.LineStep | GridMap.cpp:290-298 | one round of the two error tests moves exactly to the next cell of the line |
| LineOfSight.IsPathBlocked | GridMap.cpp:268-301 | the loop terminates, and reports a block if and only if some cell of the line, either end included, is not walkable |
| LineOfSight.EveryCellBlocks | GridMap.cpp:283-298 | blocking any one cell of the line blocks it |
| LineOfSight.NoOtherTileBlocks | GridMap.cpp:283-298 | blocking any other tile does not |
| LineOfSight.EndsBlock | GridMap.cpp:283-289 | a blocked first or last tile blocks the line |
| LineOfSight.LineReversed | GridMap.cpp:283-298 | walked from the other end, the line visits the same cell at a step if and only if the ideal line does not pass exactly between two cells there |
| LineOfSight.SightIsSymmetricIffNoTie | GridMap.cpp:268-301 | two tiles see each other alike on every grid if and only if the ideal line between them nowhere passes exactly between two cells |
| LineOfSight.TieBreaksSight | GridMap.cpp:268-301 | blocking only the cell at such a place blocks one direction and not the other |
| LineOfSight.LineStaysInGrid | GridMap.cpp:269-298 | every cell of a line between tiles of the grid is a tile of the grid |
| LineOfSight.SightIsNotSymmetric | GridMap.cpp:268-301 | a concrete grid and pair of tiles where it is not |
| SpscQueue.HeldSlotIsOldest | thirdparty/tracy/client/tracy_SPSCQueue.h:82-91 | front never hands out an unwritten slot: it holds the oldest item not yet taken |
| SpscQueue.ConstructTakesRawSlot | thirdparty/tracy/client/tracy_SPSCQueue.h:70-78 | emplace never builds over a live item, although it decided from a stale read index |
| SpscQueue.StepInv | thirdparty/tracy/client/tracy_SPSCQueue.h:65-104 | every atomic action of either side keeps the invariant |
| SpscQueue.Run | thirdparty/tracy/client/tracy_SPSCQueue.h:65-104 | every state of every interleaving satisfies the invariant |
| SpscQueue.StepAccepts | thirdparty/tracy/client/tracy_SPSCQueue.h:65-80 | only the beginning of an emplace adds to the published and pending items |
| SpscQueue.ProducedInOrder | thirdparty/tracy/client/tracy_SPSCQueue.h:65-80 | published and pending items are exactly the requested ones, in order |
| SpscQueue.Fifo | thirdparty/tracy/client/tracy_SPSCQueue.h:65-104 | over every interleaving the consumer has taken a prefix of the requested items, and at most the capacity is held |
| SpscQueue.BlockedIffFull | thirdparty/tracy/client/tracy_SPSCQueue.h:75-77 | after looking again the producer is held up if and only if the whole capacity is unreleased |
| SpscQueue.EmptyHandedIffDrained | thirdparty/tracy/client/tracy_SPSCQueue.h:84-89 | front returns null if and only if everything published at that moment was taken |
| SpscQueue.SizeAtRest | thirdparty/tracy/client/tracy_SPSCQueue.h:106-118 | at rest size() is the number of items in the queue and empty() holds exactly when there is none |
| SpscRing.Ring.constructor | thirdparty/tracy/client/tracy_SPSCQueue.h:42-52 | one slack slot, an empty queue |
| SpscRing.Ring.Emplace | thirdparty/tracy/client/tracy_SPSCQueue.h:66-80 | appends one item, waiting while the queue is full until the consumer beside it has taken some; with room nothing else changes |
| SpscRing.Ring.AwaitRoom | thirdparty/tracy/client/tracy_SPSCQueue.h:75-77 | the spin loop ends, full queue or not, if the consumer does not stay idle for ever |
| SpscRing.Ring.LookAgain | thirdparty/tracy/client/tracy_SPSCQueue.h:76-76 | a fresh look bars the producer if and only if the queue is full |
| SpscRing.Ring.FrontItem | thirdparty/tracy/client/tracy_SPSCQueue.h:82-91 | the oldest item, or null if and only if the queue is empty |
| SpscRing.Ring.Pop | thirdparty/tracy/client/tracy_SPSCQueue.h:93-104 | removes exactly the oldest item |
| SampleMerge.ReadAtOffset | thirdparty/tracy/client/TracySysTrace.cpp:1403-1411 | the record found at a byte position that is a sum of record sizes is the record of that number |
| SampleMerge.EndReached | thirdparty/tracy/client/TracySysTrace.cpp:1424-1431 | the byte position reaches the end exactly after the last record |
| SampleMerge.Snapshot | thirdparty/tracy/client/TracySysTrace.cpp:1375-1394 | the active list names, in increasing order, exactly the rings whose head is not their tail, with their sizes as ends |
| SampleMerge.RemoveKeeps | thirdparty/tracy/client/TracySysTrace.cpp:1427-1429 | moving the tail of the list over an entry removes that ring and no other, and keeps the order |
| SampleMerge.RemoveAt | thirdparty/tracy/client/TracySysTrace.cpp:1427-1428 | the in-place move does that |
| SampleMerge.SteppedOk | thirdparty/tracy/client/TracySysTrace.cpp:1591-1600 | stepping over a record keeps active list, positions and ends consistent and leaves one record fewer |
| SampleMerge.Cursor.StepPast | thirdparty/tracy/client/TracySysTrace.cpp:1591-1600 | the byte arithmetic and the in-place removal perform that step |
| SampleMerge.EarliestComesFirst | thirdparty/tracy/client/TracySysTrace.cpp:1403-1422 | with only samples, the pick of the scan comes before every waiting record, equal times broken by ring number |
| SampleMerge.Cursor.LookAt | thirdparty/tracy/client/TracySysTrace.cpp:1405-1435 | one look keeps the pick correct; a removal keeps the index on the next entry |
| SampleMerge.Cursor.FindEarliest | thirdparty/tracy/client/TracySysTrace.cpp:1399-1436 | after the scan the pick is a sample at its ring's position, least among all heads if all records are samples; without a pick something was skipped, or every head is a sample of the largest time and nothing changed |
| SampleMerge.Cursor.Emit | thirdparty/tracy/client/TracySysTrace.cpp:1437-1601 | emits that head and nothing else |
| SampleMerge.Cursor.Round | thirdparty/tracy/client/TracySysTrace.cpp:1397-1601 | a round emits or skips something, or changes nothing, and then every head is a sample of the largest time |
| SampleMerge.ReadUpToBlocking | thirdparty/tracy/client/TracySysTrace.cpp:1397-1602 | where the loop ends or stands still, each ring was read exactly up to its first sample of the largest time |
| SampleMerge.Merge | thirdparty/tracy/client/TracySysTrace.cpp:1369-1602 | every ring's samples up to its first one of the largest time are emitted exactly once and in that ring's order; sorted if all records are samples and every ring is sorted; the loop ends if and only if there is no sample of the largest time |
| SampleMerge.LargestTimeBlocks | thirdparty/tracy/client/TracySysTrace.cpp:1401-1422 | the smallest input on which the loop stands still: one sample of the largest time |
| SampleMerge.SortedMergeIsUnique | thirdparty/tracy/client/TracySysTrace.cpp:1414-1420 | that specification, with ties broken by ring number, admits one output only |
| TraceRing.OverflowIsHarmless | thirdparty/tracy/client/TracyRingBuffer.hpp:80-80 | reducing a position modulo 2^64 first changes nothing, because the ring size divides it |
| TraceRing.RingBuffer.Read | thirdparty/tracy/client/TracyRingBuffer.hpp:77-92 | the copy, in one piece or two, delivers exactly the bytes of the endless stream, and leaves the rest of the destination alone |
| TraceRing.RingBuffer.Advance | thirdparty/tracy/client/TracyRingBuffer.hpp:94-98 | the tail moves on in the stream by the count, overflow included |
| TraceWorker.TrackAdvances | thirdparty/tracy/client/TracySysTrace.cpp:1603-1606 | a tail moved by the bytes of a snapshot stands right behind the records of the snapshot |
| TraceWorker.Worker.Write | thirdparty/tracy/client/TracySysTrace.cpp:1375-1388 | records that arrive, as long as they fit beside the unread ones, disturb nothing that was read or emitted |
| TraceWorker.Worker.AdvanceAll | thirdparty/tracy/client/TracySysTrace.cpp:1603-1606 | each tail moves by its own amount and no other changes |
| TraceWorker.Worker.Collect | thirdparty/tracy/client/TracySysTrace.cpp:1395-1602 | what a snapshot adds to the output, ring by ring |
| TraceWorker.Worker.Round | thirdparty/tracy/client/TracySysTrace.cpp:1369-1608 | over any number of rounds, with records arriving in between, every sample behind a tail has been emitted exactly once and in order; a snapshot halts the worker if and only if it holds a sample of the largest time |
| DeltaCoding.ItemRoundTrip | thirdparty/tracy/client/TracyProfiler.cpp:2496-2680 | one item is recovered if and only if it does not use the thread clock or both sides agree on it |
| DeltaCoding.ItemsRoundTrip | thirdparty/tracy/client/TracyProfiler.cpp:2490-2764 | the same for any number of items, the difference in the thread reference staying what it was |
| DeltaCoding.SwitchRoundTrip | thirdparty/tracy/client/TracyProfiler.cpp:3177-3187 | a context packet repairs any difference |
| DeltaCoding.BatchRoundTrip | thirdparty/tracy/client/TracyProfiler.cpp:2474-2767 | the exact condition for one batch of any of the three paths |
| DeltaCoding.RoundTrip | thirdparty/tracy/client/TracyProfiler.cpp:2474-3187 | for every interleaving of batches on a new connection, adding up the deltas recovers every item with time and thread, if and only if the old thread reference was 0 or the thread clock is not first used under thread number 0 |
| DeltaCoding.StaleReferenceIsRead | thirdparty/tracy/client/TracyProfiler.cpp:1996-1999 | the input that shows the exception: a stale reference of 7 turns the time 10 of thread 0 into 3 |
| DeltaCoding.NonZeroThreadsRoundTrip | thirdparty/tracy/client/TracyProfiler.cpp:2474-3187 | with non-zero thread numbers the round trip holds unconditionally |
| DeltaCoding.ClockTable | thirdparty/tracy/client/TracyProfiler.cpp:2490-2764 | which types are coded against the thread, context, GPU and serial reference |
| DeltaCoding.DrainKeepsInOrder | thirdparty/tracy/client/TracyProfiler.cpp:2769-2818 | the final drain keeps exactly the context switches and wake-ups before the first one later than the stop time, in order |
| DeltaSender.Profiler.Accept | thirdparty/tracy/client/TracyProfiler.cpp:1996-1999 | a new connection clears the thread and three of the four references |
| DeltaSender.Profiler.ThreadCtxCheck | thirdparty/tracy/client/TracyProfiler.cpp:3177-3187 | a context packet is sent exactly when the thread changes, and restarts the thread reference |
| DeltaSender.Profiler.Dequeue | thirdparty/tracy/client/TracyProfiler.cpp:2474-2767 | the thread path sends the coded batch and leaves the references after it |
| DeltaSender.RecoveringIsCoding | thirdparty/tracy/client/TracyProfiler.cpp:2498-3004 | exactly one packet gives an item back to a receiver with the sender's clocks: the coded one |
| DeltaSender.Profiler.CodeOne | thirdparty/tracy/client/TracyProfiler.cpp:2498-2676 | for every item type of the thread path, a receiver with the sender's clocks gets back exactly that item, and its clocks are the sender's again |
| DeltaSender.Profiler.DequeueSerial | thirdparty/tracy/client/TracyProfiler.cpp:2839-3174 | the serial path does the same with its own clock and the shared GPU clock |
| DeltaSender.Profiler.CodeSerial | thirdparty/tracy/client/TracyProfiler.cpp:2880-3004 | the same for every item type of the serial path |
| DeltaSender.Profiler.DequeueContextSwitches | thirdparty/tracy/client/TracyProfiler.cpp:2769-2827 | the final drain sends exactly the switches and wake-ups up to the first one past the stop time, and says whether there was one |
| OutputBuffer.DictionaryIsIntact | thirdparty/tracy/client/TracyProfiler.cpp:3189-3196 | whenever a block is compressed, the last 64 KiB sent are still in the buffer |
| OutputBuffer.HistoryIsNotOverwritten | thirdparty/tracy/client/TracyProfiler.hpp:885-889 | writing within one frame of the block start touches none of them |
| OutputBuffer.HistoryMovesOn | thirdparty/tracy/client/TracyProfiler.cpp:3189-3196 | sending a block, with or without a rewind, moves that window along |
| OutputBuffer.CommitKeeps | thirdparty/tracy/client/TracyProfiler.cpp:3189-3196 | a commit loses nothing, keeps blocks within a frame and the window intact |
| OutputBuffer.Sender.CommitData | thirdparty/tracy/client/TracyProfiler.cpp:3189-3196 | the pending bytes become one block, and the buffer rewinds past two frames |
| OutputBuffer.Sender.NeedDataSize | thirdparty/tracy/client/TracyProfiler.hpp:874-883 | afterwards the data fit in the frame; a commit happens exactly when they would not have |
| OutputBuffer.Sender.AppendDataUnsafe | thirdparty/tracy/client/TracyProfiler.hpp:885-889 | the bytes are appended inside the buffer |
| OutputBuffer.Sender.AppendData | thirdparty/tracy/client/TracyProfiler.hpp:867-872 | the pending tail grows by the data, or is sent first as one block |
| OutputBuffer.Sender.AppendAll | thirdparty/tracy/client/TracyProfiler.cpp:2055-2058 | for every series of appends and a final commit, the blocks, each at most one frame, are together exactly the bytes appended |
| PathNormalizer.LastSlash | thirdparty/tracy/client/TracyCallstack.cpp:988-993 | the backward walk drops exactly the last component |
| PathNormalizer.AppendName | thirdparty/tracy/client/TracyCallstack.cpp:1008-1010 | a name is copied behind one slash, inside the allocation |
| PathNormalizer.Classify | thirdparty/tracy/client/TracyCallstack.cpp:984-1006 | the switch on length tells "..", ignored pieces and names apart |
| PathNormalizer.GoUp | thirdparty/tracy/client/TracyCallstack.cpp:988-995 | takes back the last name, or finds that there is none |
| PathNormalizer.Take | thirdparty/tracy/client/TracyCallstack.cpp:982-1011 | the switch on length treats every component as the fold over the stack does |
| PathNormalizer.UpUndoesDown | thirdparty/tracy/client/TracyCallstack.cpp:984-1006 | an empty piece and a dot lead nowhere, and a name followed by two dots leads back |
| PathNormalizer.NormalizePath | thirdparty/tracy/client/TracyCallstack.cpp:970-1023 | the machine returns what splitting, folding over a stack and rendering give, and stays inside its allocation until a path climbs above the root |
| PathNormalizer.EscapesIffClimbs | thirdparty/tracy/client/TracyCallstack.cpp:986-995 | the fold fails if and only if some prefix goes up more often than down; otherwise it keeps that many names |
| PathNormalizer.NormalizesIffNeverClimbs | thirdparty/tracy/client/TracyCallstack.cpp:970-1023 | an absolute path is normalised if and only if no prefix of it climbs above the root |
| PathNormalizer.RootHasNoParent | thirdparty/tracy/client/TracyCallstack.cpp:988-992 | "/.." is a path that leaves the buffer |
| PathNormalizer.SplitJoined | thirdparty/tracy/client/TracyCallstack.cpp:980-985 | splitting undoes joining |
| PathNormalizer.RenderedIsNormal | thirdparty/tracy/client/TracyCallstack.cpp:970-1023 | a rendered stack of ordinary names is its own normal form |
| PathNormalizer.NormalizingIsIdempotent | thirdparty/tracy/client/TracyCallstack.cpp:970-1023 | every result is a rendered stack without empty, "." or ".." components, and normalising it again changes nothing |
| PathNormalizer.SameNormalIffSamePlace | thirdparty/tracy/client/TracyCallstack.cpp:970-1023 | two paths have one normal form if and only if they resolve to one place |
| SpatialIndex.KeyIsInjective | LocationRegistry.h:39-43 | two 32-bit cells share a packed key if and only if they are the same cell, negative numbers included |
| SpatialIndex.NearbyIsAdjacent | LocationRegistry.cpp:142-163 | anything within 8 m lies in one of the nine cells around |
| SpatialIndex.UnfilingKeepsInverse | LocationRegistry.cpp:85-94 | taking an entity out of its bucket keeps the two maps inverse and the buckets free of duplicates |
| SpatialIndex.FilingKeepsInverse | LocationRegistry.cpp:96-99 | so does filing it |
| SpatialIndex.LocationRegistry.UpdateEntityPosition | LocationRegistry.cpp:80-131 | the entity is filed under its new cell, its position is written, the maps stay inverse, and index and positions keep agreeing |
| SpatialIndex.LocationRegistry.RemoveEntity | LocationRegistry.cpp:133-140 | exactly that entity leaves the index |
| SpatialIndex.LocationRegistry.GetNearbyEntities | LocationRegistry.cpp:142-169 | the scan returns each live entity of the nine cells within the radius once, and no other |
| SpatialIndex.LocationRegistry.NineCellsSuffice | LocationRegistry.cpp:142-169 | up to 8 m nothing is missed |
| SpatialIndex.LocationRegistry.ScannedIffAdjacent | LocationRegistry.cpp:142-169 | for any radius, an entity can be found if and only if its cell touches the centre's cell |
| SpatialIndex.LocationRegistry.Query | LocationRegistry.cpp:142-169 | with the index in step, a query up to 8 m equals a scan of all registered live entities |
| ZoneMap.ZoneRegistry.GetOrCreateZoneId | LocationRegistry.cpp:4-16 | the name's number; earlier numbers stay, a known name changes nothing |
| ZoneMap.ZoneRegistry.ZonesAreDistinct | LocationRegistry.cpp:4-16 | two names never share a number |
| ZoneMap.ZoneRegistry.RegisterLocation | LocationRegistry.cpp:18-24 | every registered location has a number |
| ZoneMap.CoveredIsScanned | LocationRegistry.cpp:34-37 | a tile within the radius lies in the scanned rectangle |
| ZoneMap.SlotIsInjective | LocationRegistry.cpp:44-44 | two tiles of the map never share a table index |
| ZoneMap.ZoneRegistry.BakeOne | LocationRegistry.cpp:34-47 | one location marks exactly the tiles within its radius |
| ZoneMap.ZoneRegistry.BakeRegionMap | LocationRegistry.cpp:26-50 | for every order of the locations each tile names a location that covers it, or wilderness if and only if none does |
| ZoneMap.ZoneRegistry.GetLocationNameAt | LocationRegistry.cpp:52-78 | the baked answer is right for the nearest tile; without a map it is the nearest location within the radius |
| ZoneMap.ZoneRegistry.RefreshPlace | LocationRegistry.cpp:101-112 | the name and number that a moved entity carries: those of a location that covers its tile, or wilderness if and only if none does, and never number 0 |
| TickHandshake.StepInv | main.cpp:445-596 | every step of frame, network or other threads keeps the invariant |
| TickHandshake.RunInv | main.cpp:445-596 | every state of every interleaving satisfies it |
| TickHandshake.HandshakeIsSafe | main.cpp:445-596 | tasks run in push order and once, at most one request is on the wire, applied ticks are contiguous, and the applied deltas are the successful replies in order, at most one still to come |
| TickHandshake.RequestAfterAllApplied | main.cpp:573-596 | when the next tick is requested, every successful reply so far has been applied exactly once |
| TickProgress.RequestGoesOutIff | main.cpp:573-581 | a request goes out, for the following tick, if and only if the frame is due and none is pending; no other event sends one |
| TickProgress.RoundRaisesTick | main.cpp:445-596 | from every reachable state with none pending: a due request, its answer at any later time, the first swap after the answer and the first apply after that, whatever else happens in between, raise the tick by one and apply the deltas of that answer once, or change neither if the answer is a failure |
| TickProgress.NextTickToAsk | main.cpp:573-596 | however long nothing is due after that, the tick to ask for next is the following one, or after a failure the same one |
| TickProgress.RoundIsPossible | main.cpp:445-596 | from every state about to decide with none pending there is such a round, whatever the server answers |
| TickProgress.FrameReachesDecision | main.cpp:445-596 | every frame that begins can drain its tasks and comes to its decision |
| TickProgress.AskedStays | main.cpp:573-594 | while a request is on the wire, nothing but its answer ends that |
| TickProgress.AnsweredStays | GrpcResultQueue.h:17-37 | an answer pushed stays queued until the next swap, whatever else runs |
| TickProgress.DrawnStays | GrpcResultQueue.h:24-37 | once drained, the answer runs before the drain ends |
| TickHandshake.RunReplyIsOnly | main.cpp:581-594 | a reply that runs is the only one open and names the next tick |
| TickHandshake.GrpcResultQueue.Push | GrpcResultQueue.h:17-21 | appends to the write buffer |
| TickHandshake.GrpcResultQueue.Drain | GrpcResultQueue.h:24-37 | runs exactly what was queued at the swap, in order; what those tasks and other threads push meanwhile waits, complete and in order, for the next drain |
| Furniture.UnrelatedChangeKeeps | SystemSurvival.cpp:8-37 | changes outside seat and crisis keep ownership consistent |
| Furniture.CrisisKeeps | BehaviorTrees.h:28-31 | an NPC that enters a crisis has no seat |
| Furniture.ClaimKeeps | BehaviorTrees.h:430-433 | claiming free, serving furniture keeps ownership mutual and exclusive |
| Furniture.ReleaseKeeps | BehaviorTrees.h:508-523 | releasing a seat, or tearing the camp down, keeps it |
| Furniture.SeatsAreExclusive | BehaviorTrees.h:430-433 | two NPCs never share a seat |
| Furniture.World.ConditionIsCritical | BehaviorTrees.h:12-158 | exactly when the conditions succeed, that only an NPC outside any crisis enters one, and the whole state with which it does |
| Furniture.World.ConditionIsScheduled | BehaviorTrees.h:160-226 | the same for scheduled meals and sleep |
| Furniture.World.NearestFurniture | BehaviorTrees.h:244-280 | the scan finds a nearest free serving piece within 50 m, or shows that there is none |
| Furniture.World.ActionFindFurniture | BehaviorTrees.h:229-324 | where the NPC heads, when a camp is set up, and that a chosen target stays |
| Furniture.World.ActionMoveToTarget | BehaviorTrees.h:327-372 | success exactly on arrival; never a failure |
| Furniture.World.Settle | BehaviorTrees.h:389-470 | the NPC takes suitable free furniture or a new camp, and settles on the floor only if there is neither; the exact change to NPC and furniture |
| Furniture.World.Recover | BehaviorTrees.h:472-541 | the need grows by the rate of the seat up to 100; at 95 the crisis is over and the seat left: a camp disappears, any other piece is free again and stays, and nothing else about furniture changes |
| Furniture.World.ActionInteractFurniture | BehaviorTrees.h:375-543 | the first frame takes a place and leaves the need as it is, every later one recovers; which furniture changes and how |
| Furniture.World.SeeToCrisis | BehaviorTrees.h:1082-1094 | an NPC off its target walks, one at it takes a place or recovers; without a target it heads for the nearest suitable piece |
| Furniture.World.RecoverUndisturbed | BehaviorTrees.h:375-541 | left alone at its target an NPC gets over its crisis in exactly the number of frames that its gain takes to the limit |
| Furniture.LevelIsLinear | BehaviorTrees.h:472-500 | after so many frames the need has grown by as many gains |
| Furniture.RecoveryOrder | BehaviorTrees.h:472-488 | the gains, and that furniture beats the floor and lasting furniture a camp |
| Furniture.WhatServes | BehaviorTrees.h:248-258 | which kinds of furniture one may eat and sleep at |
| Furniture.OwnSeatsAfterCamp | BehaviorTrees.h:280-433 | setting up a camp and then taking or leaving a seat touches no other piece |
| Furniture.World.CrisisSequence | BehaviorTrees.h:1082-1094 | fails exactly when its crisis neither goes on nor starts, and then changes nothing; otherwise what the NPC does, and what becomes of furniture |
| Furniture.World.ScheduledSequence | BehaviorTrees.h:160-226 | fails exactly when no scheduled stay of this kind is on and its crisis does not go on; which furniture changes and how |
| Furniture.World.TickTree | BehaviorTrees.h:1065-1122 | ownership survives the tick, no crisis is exchanged for another, hunger goes before fatigue, nobody else's state is touched; every piece but the old and the new seat stays as it is, new pieces are camps, a seat left is free or, if temporary, gone, and no permanent piece ever disappears |
| Furniture.World.Decay | SystemSurvival.cpp:8-37 | hunger falls by 0.045 and fatigue by 0.025, to 0 at least, except the need being resolved or served by a scheduled stay on furniture; nothing else changes |
| Furniture.World.OverwriteJob | BehaviorTrees.h:65-77 | a job overwritten at any moment keeps ownership consistent |
| Furniture.World.Relocate | SystemMovement.cpp:225-228 | movement by any other system keeps ownership consistent |
| Furniture.World.RepairOwner | SystemSurvival.cpp:43-54 | an owner that is gone or sits elsewhere is cleared, and no other |
| Furniture.World.ReturnFurniture | SystemSurvival.cpp:58-104 | exactly when a seat is given back, and what becomes of the furniture |
| Furniture.World.SystemAffordanceResolver | SystemSurvival.cpp:40-105 | from any state whatever the owners recorded are honest afterwards, NPCs in a crisis are untouched, a seat kept by another serves the meal or sleep it is at, and only what is named a camp is taken down; in a state the other systems reach it changes nothing |
| DialogueGroups.World.RecoverEnergy | SystemSocial.cpp:134-148 | everyone below the maximum gains one point in a pub, and elsewhere on every tenth tick |
| DialogueGroups.EligibleOnceRested | SystemSocial.cpp:134-197 | who may take part, told from the state before the call: one point short is enough where rest comes first |
| DialogueGroups.World.MayTalk | SystemSocial.cpp:186-208 | exactly when a neighbour may be asked |
| DialogueGroups.World.CollectCandidates | SystemSocial.cpp:177-209 | exactly the initiator and the neighbours in reach that may be asked, each once |
| DialogueGroups.World.InReachIffNear | SystemSocial.cpp:174-174 | with the index in step, in reach means filed and at most 8 m away |
| DialogueGroups.World.PotentialTargets | SystemSocial.cpp:247-290 | exactly the candidates other than the initiator without grudge on either side and without cooldown |
| DialogueGroups.World.AverageLiking | SystemSocial.cpp:352-368 | the mean liking over the members the newcomer knows, 0 if none |
| DialogueGroups.World.Join | SystemSocial.cpp:339-389 | two to four distinct candidates, initiator and target first, every later one drawn to join and on average liking those before it by 20; in a group below four, whoever was drawn and did not join liked some earlier part of the group less |
| DialogueGroups.World.Ask | SystemSocial.cpp:242-337 | somebody is asked if and only if a candidate is on speaking terms; the attempt is remembered, a refusal makes the initiator pause for one to three ticks by its extroversion and spares that target for three; nothing else changes |
| DialogueGroups.World.Engage | SystemSocial.cpp:391-415 | exactly the members become processed and busy |
| DialogueGroups.World.Initiate | SystemSocial.cpp:166-415 | a turn forms a proper group of creatures nobody has taken if and only if the initiator may begin, the draws let it, and somebody free in reach is on speaking terms with it |
| DialogueGroups.ProperBefore | SystemSocial.cpp:166-415 | a group that is proper in the middle of the tick was so once everyone had rested |
| DialogueGroups.GroupAdded | SystemSocial.cpp:391-415 | a group of creatures not yet taken is disjoint from all earlier ones |
| DialogueGroups.TakeTurn | SystemSocial.cpp:166-415 | one turn adds at most one fit group, touches nothing but timers and busy marks, and leaves the creature taken or with nobody to address |
| DialogueGroups.NobodyFound | SystemSocial.cpp:166-290 | who finds nobody in the middle of the tick has nobody free by the standards of its start |
| DialogueGroups.LonelyStays | SystemSocial.cpp:166-415 | who was left alone stays so for the rest of the tick |
| DialogueGroups.SystemSocialInteraction | SystemSocial.cpp:128-415 | for all random outcomes the groups of a tick are disjoint and proper as judged once everyone had rested, exactly their members are newly busy, and nobody who could begin and was let by the draws is left next to somebody free to be asked |
| DialogueGroups.WhyLeftOver | SystemSocial.cpp:166-415 | of two creatures left over within 8 m, in one place, fit to talk and on speaking terms, the one that could begin was held back by a draw, or the other was absorbed or pausing |
| DialogueGroups.MembersWereFree | SystemSocial.cpp:166-209 | no member of a group was a player, dead, witless, fighting, busy or below 20 points of energy |

## Left out

- Floating-point rounding, `NaN`, and conversion of out-of-range floats to integers; everything is exact arithmetic.
- Overflow of the iteration counter of the search (for a cap of the largest integer) and of 64-bit time differences.
- Loading maps, settings and obstacles, sockets, gRPC, JSON, logging, broadcasts, the AI server's decisions.
- Hardware memory orderings: acquire and release are taken to give the interleaving of atomic steps.
- LZ4, rpmalloc and `moodycamel::ConcurrentQueue`: a send appends one block, a dequeue yields a thread number and a batch; a failed send is not modelled.
- `SendString`, source-location and callstack payloads, and the query and answer traffic of the profiler: they use `AppendData` but carry no running state.
- Fibers: the profiler is modelled as built without them.
- Byte layout of perf records: a record is a sample with a time, or something else, with a size; the conversion of times to the timestamp counter and the payload of the emitted items are not modelled.
- SampleMerge.Merge: states no order of the output when records other than samples occur, because the round that skips one does not look at that ring again; where the original would repeat a round for ever it returns and says so.
- SpscRing.Ring.Emplace: interleaves whole calls of the consumer with the spin loop and needs a capacity of at least one and a consumer that does not stay idle for ever, without which the original never returns; `SpscQueue` interleaves single actions.
- SpscQueue.SizeAtRest: is stated for a consumer that is not inside `pop`, because `size` and `empty` load the two indices separately.
- PathNormalizer.NormalizePath: the answer `Underflow` stands for the store below the buffer that the original would go on to make.
- PathChaining.Mover.Plan: leaves out changing targets and the per-tick search budget, during which a mover may steer without a path.
- PathChaining.Mover.Journey: ends where the target comes in sight, which clears the count; the direct steering that follows is not modelled, nor are the frames between two waypoints.
- PathChaining.Mover.Hop: likewise ends where the target comes in sight, at any position whatever.
- SpatialIndex.LocationRegistry.UpdateEntityPosition: leaves the refresh of name and zone to `ZoneMap.ZoneRegistry.RefreshPlace`, omits the other metadata of a place, and requires cell numbers that fit 32 bits.
- Completeness of neighbour queries beyond 8 m; `SpatialIndex.LocationRegistry.ScannedIffAdjacent` says what they find.
- Furniture.World.Settle: sets the coordinates of the seat without the spatial index, as the code does; agreement of index and position after that is not claimed.
- Furniture.World.ReturnFurniture: whether a display name carries the word for "temporary" is a flag beside the name, separate from the temporary flag.
- Furniture.World.TickTree: fleeing, aggression, combat and wandering are one input that leaves needs and seats alone; deaths and the destruction of entities other than camps are not modelled.
- Furniture.World.NearestFurniture: compares squared distances within the NPC's zone only; the penalty of 1000 m for other zones lies beyond the limit of 50 m.
- DialogueGroups.SystemSocialInteraction: the draws of a turn are an input that may come out in any way, and the shuffled order and the weighted choice of a target are any order and any target, so nothing is said about likelihood; energy spent on a dialogue, emotion contagion, the asynchronous result of a dialogue, and the release of the busy mark are not modelled.
- TraceWorker.Worker.Round: takes the records that a snapshot shows as given; that the bytes read by `TraceRing.RingBuffer.Read` spell those records is not modelled.
- TickHandshake.HandshakeIsSafe: tasks other than tick replies carry no payload, and the systems that run on an applied tick are not modelled; that a request is answered at all is up to the server.
- `RandomizeWithinRadius`, ambient and player systems, the job driver, benchmarks, Windows tracing, texture compression and crash handlers: easy or unrelated members.
