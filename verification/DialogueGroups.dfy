/** One tick of social interaction: initiators pick targets among their neighbours and groups of two to four form. */
module DialogueGroups {
  import opened Arith
  import opened SpatialIndex

  const MAX_DIALOGUE_DISTANCE: real := 8.0
  const MIN_ENERGY: int := 20
  const MAX_GROUP: int := 4
  const GRUDGE: int := -70
  const JOIN_LIKING: int := 20

  datatype Relation = Relation(liking: int, trust: int)

  /** The components of one talking creature; entities without them are absent from the world's map. */
  datatype Npc = Npc(
    npcId: int,
    player: bool, dead: bool, sentient: bool, fighting: bool, busy: bool,
    place: string, inPub: bool,
    energy: int, maxEnergy: int, refractoryUntil: int, lastInitiative: int, extroversion: real,
    targetCooldown: map<int, int>,
    relations: map<int, Relation>)

  /** Everything that decides whether a creature may take part, except its own cooldown timers. */
  predicate Eligible(n: Npc) {
    !n.player && !n.busy && !n.dead && n.sentient && !n.fighting && n.energy >= MIN_ENERGY
  }

  // ---- Rest

  /** In a pub every tick gives energy back, elsewhere every tenth. */
  predicate Recovers(n: Npc, tick: int) {
    n.energy < n.maxEnergy && (n.inPub || tick % 10 == 0)
  }

  function Rested(n: Npc, tick: int): Npc {
    if Recovers(n, tick) then n.(energy := n.energy + 1) else n
  }

  function AllRested(m: map<Entity, Npc>, tick: int): map<Entity, Npc> {
    map e | e in m :: Rested(m[e], tick)
  }

  lemma SomeMember(s: set<Entity>)
    requires s != {}
    ensures exists e :: e in s
  {
    assert (forall e :: e !in s) ==> s == {};
  }

  /** Everyone rested but those still to come. */
  function RestedBut(m: map<Entity, Npc>, todo: set<Entity>, tick: int): map<Entity, Npc> {
    map e | e in m :: if e in todo then m[e] else Rested(m[e], tick)
  }

  /** Who may take part this tick, told from the state before it: one point short is enough where rest comes first. */
  lemma EligibleOnceRested(n: Npc, tick: int)
    ensures Eligible(Rested(n, tick)) <==>
              Eligible(n.(energy := MIN_ENERGY)) &&
              (n.energy >= MIN_ENERGY || (n.energy == MIN_ENERGY - 1 && Recovers(n, tick)))
  {}

  function LikingOf(n: Npc, id: int): int {
    if id in n.relations then n.relations[id].liking else 0
  }

  /** The two do not refuse each other, and the initiator is not waiting out a cooldown towards the target. */
  predicate OnSpeakingTerms(i: Npc, t: Npc, tick: int) {
    && LikingOf(i, t.npcId) >= GRUDGE && LikingOf(t, i.npcId) >= GRUDGE
    && (t.npcId in i.targetCooldown ==> tick >= i.targetCooldown[t.npcId])
  }

  /** A creature may only have changed in its timers, and a pause is never shortened. */
  predicate TimersOnly(before: Npc, after: Npc) {
    && before.refractoryUntil <= after.refractoryUntil
    && before == after.(refractoryUntil := before.refractoryUntil, lastInitiative := before.lastInitiative,
                        targetCooldown := before.targetCooldown)
  }

  /** One turn touches the initiator's timers and the group's busy marks, nothing else. */
  ghost predicate Turn(before: map<Entity, Npc>, after: map<Entity, Npc>, initiator: Entity, group: seq<Entity>) {
    && after.Keys == before.Keys
    && forall e :: e in before ==>
         var marked := if e in group then before[e].(busy := true) else before[e];
         if e == initiator then TimersOnly(marked, after[e]) else after[e] == marked
  }

  lemma TimersAreTurn(before: map<Entity, Npc>, initiator: Entity, last: int, pause: int, spared: map<int, int>)
    requires initiator in before && before[initiator].refractoryUntil <= pause
    ensures var n :=
              before[initiator].(refractoryUntil := pause, lastInitiative := last, targetCooldown := spared);
            Turn(before, before[initiator := n], initiator, [])
  {}

  lemma MarkedIsTurn(before: map<Entity, Npc>, mid: map<Entity, Npc>, initiator: Entity, group: seq<Entity>)
    requires Turn(before, mid, initiator, [])
    ensures Turn(before, Marked(mid, group), initiator, group)
  {}

  // ---- Chance

  /**
   How the draws of one turn come out: who is absorbed in an activity, whether the initiator hesitates, whether the
   target refuses, and who would join. Order and target are left open.
   */
  datatype Chance = Chance(absorbed: set<Entity>, hesitates: bool, refuses: bool, joins: set<Entity>)

  /** For how long a refusal puts the initiator off. */
  function Embarrassment(n: Npc): int {
    if n.extroversion > 0.7 then 1 else if n.extroversion < 0.3 then 3 else 2
  }

  /** May be asked by the initiator: not taken yet in this tick, fit to talk, in the same place and not absorbed. */
  predicate Free(npcs: map<Entity, Npc>, processed: set<Entity>, n: Entity, initiator: Entity, tick: int,
                 absorbed: set<Entity>)
    requires initiator in npcs
  {
    && n != initiator && n in npcs && n !in processed && n !in absorbed
    && Eligible(npcs[n]) && npcs[n].place == npcs[initiator].place && tick > npcs[n].refractoryUntil
  }

  /** Among these there is somebody else on speaking terms with the initiator. */
  ghost predicate SomeTarget(npcs: map<Entity, Npc>, initiator: Entity, candidates: seq<Entity>, tick: int) {
    initiator in npcs &&
    exists x ::
      x in candidates && x != initiator && x in npcs && OnSpeakingTerms(npcs[initiator], npcs[x], tick)
  }

  /** May begin a dialogue, as far as the initiator itself is concerned. */
  predicate CanStart(n: Npc, tick: int) {
    !n.busy && !n.fighting && n.energy >= MIN_ENERGY && tick > n.refractoryUntil && tick > n.lastInitiative
  }

  method Shuffle(s: seq<Entity>) returns (t: seq<Entity>)
    ensures multiset(t) == multiset(s)
  {
    t := s;
    var rounds :| rounds >= 0;
    for k := 0 to rounds
      invariant multiset(t) == multiset(s)
    {
      var i: int, j: int := *, *;
      if 0 <= i < |t| && 0 <= j < |t| {
        t := t[i := t[j]][j := t[i]];
      }
    }
  }

  method Pick(s: seq<Entity>) returns (e: Entity)
    requires s != []
    ensures e in s
  {
    var k :| 0 <= k < |s|;
    e := s[k];
  }

  function Marked(m: map<Entity, Npc>, group: seq<Entity>): (r: map<Entity, Npc>)
    ensures r.Keys == m.Keys
    ensures forall e :: e in m ==> r[e] == if e in group then m[e].(busy := true) else m[e]
  {
    map e | e in m :: if e in group then m[e].(busy := true) else m[e]
  }

  lemma MarkedSnoc(m: map<Entity, Npc>, group: seq<Entity>, e: Entity)
    requires e in m
    ensures Marked(m, group + [e]) == Marked(m, group)[e := Marked(m, group)[e].(busy := true)]
  {
    assert forall x :: x in group + [e] <==> x in group || x == e;
  }

  ghost predicate Disjoint(groups: seq<seq<Entity>>) {
    forall i, j, e :: 0 <= i < j < |groups| && e in groups[i] ==> e !in groups[j]
  }

  ghost function Members(groups: seq<seq<Entity>>): set<Entity> {
    set i, e | 0 <= i < |groups| && e in groups[i] :: e
  }

  function KnownLiking(npcs: map<Entity, Npc>, other: Npc, group: seq<Entity>): int {
    if group == [] then 0
    else
      KnownLiking(npcs, other, group[..|group| - 1]) +
      (if Knows(npcs, other, group[|group| - 1]) then other.relations[npcs[group[|group| - 1]].npcId].liking else 0)
  }

  function KnownCount(npcs: map<Entity, Npc>, other: Npc, group: seq<Entity>): nat {
    if group == [] then 0
    else KnownCount(npcs, other, group[..|group| - 1]) + (if Knows(npcs, other, group[|group| - 1]) then 1 else 0)
  }

  predicate Knows(npcs: map<Entity, Npc>, other: Npc, member: Entity) {
    member in npcs && npcs[member].npcId in other.relations
  }

  /** The mean liking a newcomer has for the members it knows; 0 when it knows none. */
  function MeanLiking(npcs: map<Entity, Npc>, other: Npc, group: seq<Entity>): real {
    var count := KnownCount(npcs, other, group);
    if count > 0 then KnownLiking(npcs, other, group) as real / count as real else 0.0
  }

  /** Everyone after the first two liked, on average, those who were there before. */
  ghost predicate Welcome(g: seq<Entity>, npcs: map<Entity, Npc>) {
    forall k :: 2 <= k < |g| && g[k] in npcs ==> MeanLiking(npcs, npcs[g[k]], g[..k]) >= JOIN_LIKING as real
  }

  /** When the group had come together this far, this creature did not like those in it enough. */
  ghost predicate TurnedAway(e: Entity, g: seq<Entity>, npcs: map<Entity, Npc>) {
    e in npcs && exists k :: 2 <= k <= |g| && MeanLiking(npcs, npcs[e], g[..k]) < JOIN_LIKING as real
  }

  lemma TurnedAwayStays(g: seq<Entity>, other: Entity, npcs: map<Entity, Npc>)
    ensures forall e :: TurnedAway(e, g, npcs) ==> TurnedAway(e, g + [other], npcs)
  {
    forall e | TurnedAway(e, g, npcs)
      ensures TurnedAway(e, g + [other], npcs)
    {
      var k :| 2 <= k <= |g| && MeanLiking(npcs, npcs[e], g[..k]) < JOIN_LIKING as real;
      assert (g + [other])[..k] == g[..k];
    }
  }

  lemma WelcomeSnoc(g: seq<Entity>, e: Entity, npcs: map<Entity, Npc>)
    requires Welcome(g, npcs) && e in npcs && MeanLiking(npcs, npcs[e], g) >= JOIN_LIKING as real
    ensures Welcome(g + [e], npcs)
  {
    forall k | 2 <= k < |g + [e]| && (g + [e])[k] in npcs
      ensures MeanLiking(npcs, npcs[(g + [e])[k]], (g + [e])[..k]) >= JOIN_LIKING as real
    {
      assert (g + [e])[..k] == g[..k];
    }
  }

  /** Whom one knows and likes does not change within a tick. */
  ghost predicate SameBonds(a: map<Entity, Npc>, b: map<Entity, Npc>) {
    a.Keys == b.Keys && forall e :: e in a ==> a[e].npcId == b[e].npcId && a[e].relations == b[e].relations
  }

  lemma {:induction false} SameMean(a: map<Entity, Npc>, b: map<Entity, Npc>, x: Npc, y: Npc, group: seq<Entity>)
    requires SameBonds(a, b) && x.relations == y.relations
    ensures KnownLiking(a, x, group) == KnownLiking(b, y, group) && KnownCount(a, x, group) == KnownCount(b, y, group)
    decreases |group|
  {
    if group != [] {
      SameMean(a, b, x, y, group[..|group| - 1]);
    }
  }

  lemma SameWelcome(a: map<Entity, Npc>, b: map<Entity, Npc>, g: seq<Entity>)
    requires SameBonds(a, b) && Welcome(g, a)
    ensures Welcome(g, b)
  {
    forall k | 2 <= k < |g| && g[k] in b
      ensures MeanLiking(b, b[g[k]], g[..k]) >= JOIN_LIKING as real
    {
      var e := g[k];
      assert e in a;
      SameMean(a, b, a[e], b[e], g[..k]);
    }
  }

  /** A proper group: two to four different creatures, all free to talk, in the initiator's place and reach. */
  ghost predicate ProperGroup(g: seq<Entity>, npcs: map<Entity, Npc>, pos: map<Entity, Pos>) {
    && 2 <= |g| <= MAX_GROUP && NoDuplicates(g) && Welcome(g, npcs)
    && forall e :: e in g ==>
         && e in npcs && Eligible(npcs[e])
         && g[0] in npcs && npcs[e].place == npcs[g[0]].place
         && e in pos && g[0] in pos
         && DistanceSquared(pos[e], pos[g[0]]) <= MAX_DIALOGUE_DISTANCE * MAX_DIALOGUE_DISTANCE
  }

  class World {
    var npcs: map<Entity, Npc>
    const reg: Registry
    const grid: LocationRegistry
    var processed: set<Entity>

    constructor (npcs: map<Entity, Npc>, reg: Registry, grid: LocationRegistry)
      ensures this.npcs == npcs && this.reg == reg && this.grid == grid && processed == {}
    {
      this.npcs, this.reg, this.grid, processed := npcs, reg, grid, {};
    }

    ghost predicate Valid()
      reads this, reg, grid
    {
      grid.Valid() && npcs.Keys <= reg.pos.Keys && forall e :: e in reg.pos ==> Fits(reg.pos[e])
    }

    /** The recovery pass over everyone, players included. */
    method RecoverEnergy(tick: int)
      modifies `npcs
      ensures npcs == AllRested(old(npcs), tick)
    {
      var todo: set<Entity> := npcs.Keys;
      assert npcs == RestedBut(old(npcs), todo, tick);
      while todo != {}
        invariant todo <= old(npcs).Keys && npcs == RestedBut(old(npcs), todo, tick)
        decreases |todo|
      {
        SomeMember(todo);
        var e :| e in todo;
        Rest(e, tick);
        todo := todo - {e};
      }
    }

    method Rest(e: Entity, tick: int)
      requires e in npcs
      modifies `npcs
      ensures npcs == old(npcs)[e := Rested(old(npcs)[e], tick)]
    {
      var n := npcs[e];
      if n.inPub {
        if n.energy < n.maxEnergy {
          npcs := npcs[e := n.(energy := Min(n.maxEnergy, n.energy + 1))];
        }
      } else if tick % 10 == 0 && n.energy < n.maxEnergy {
        npcs := npcs[e := n.(energy := Min(n.maxEnergy, n.energy + 1))];
      }
      assert Rested(n, tick) == npcs[e];
    }

    /** Whether a neighbour may be asked at all. */
    method MayTalk(n: Entity, initiator: Entity, tick: int, absorbed: set<Entity>) returns (ok: bool)
      requires initiator in npcs
      ensures ok <==>
                && n != initiator && n in npcs && n !in processed && n !in absorbed
                && Eligible(npcs[n]) && npcs[n].place == npcs[initiator].place && tick > npcs[n].refractoryUntil
    {
      if n == initiator || n in processed || n !in npcs {
        return false;
      }
      var c := npcs[n];
      if c.player || c.busy || c.fighting || c.dead || !c.sentient {
        return false;
      }
      if c.energy < MIN_ENERGY || tick <= c.refractoryUntil {
        return false;
      }
      if n in absorbed {
        return false;
      }
      ok := npcs[initiator].place == c.place;
    }

    /** Filed in the nine cells around the initiator and within its reach. */
    ghost predicate InReach(e: Entity, initiator: Entity)
      reads reg, grid
    {
      && initiator in reg.pos && grid.FiledBefore(e, Cell(reg.pos[initiator].x), Cell(reg.pos[initiator].z), 2, -1)
      && grid.Wanted(e, reg.pos[initiator], MAX_DIALOGUE_DISTANCE, reg)
    }

    /** Somebody the initiator might address: in reach, free and on speaking terms with it. */
    ghost predicate SomebodyFree(npcs: map<Entity, Npc>, processed: set<Entity>, initiator: Entity, tick: int,
                                 absorbed: set<Entity>)
      reads reg, grid
    {
      initiator in npcs &&
      exists x ::
        && x in npcs && InReach(x, initiator) && Free(npcs, processed, x, initiator, tick, absorbed)
        && OnSpeakingTerms(npcs[initiator], npcs[x], tick)
    }

    /** With the index in step, anyone filed within reach is found. */
    lemma InReachIffNear(e: Entity, initiator: Entity)
      requires grid.Valid() && grid.Agrees(reg) && initiator in reg.pos && Fits(reg.pos[initiator])
      ensures InReach(e, initiator) <==> && e in grid.entityToCell && Wanted(e, initiator)
    {
      if e in grid.entityToCell && Wanted(e, initiator) {
        grid.NineCellsSuffice(e, reg.pos[initiator], MAX_DIALOGUE_DISTANCE, reg);
      }
    }

    method Neighbors(initiator: Entity) returns (neighbors: seq<Entity>)
      requires Valid() && initiator in npcs
      ensures NoDuplicates(neighbors) && forall e :: e in neighbors <==> InReach(e, initiator)
    {
      neighbors := grid.GetNearbyEntities(reg.pos[initiator], MAX_DIALOGUE_DISTANCE, reg);
    }

    /** The initiator and every neighbour within reach that may talk, each once. */
    method CollectCandidates(initiator: Entity, tick: int, absorbed: set<Entity>) returns (candidates: seq<Entity>)
      requires Valid() && initiator in npcs
      ensures NoDuplicates(candidates)
      ensures forall e :: e in candidates <==>
                e == initiator || (InReach(e, initiator) && Free(npcs, processed, e, initiator, tick, absorbed))
    {
      var neighbors := Neighbors(initiator);
      candidates := [initiator];
      for k := 0 to |neighbors|
        invariant NoDuplicates(candidates)
        invariant forall e :: e in candidates <==>
                    e == initiator || (e in neighbors[..k] && Free(npcs, processed, e, initiator, tick, absorbed))
      {
        assert neighbors[..k + 1] == neighbors[..k] + [neighbors[k]];
        var ok := MayTalk(neighbors[k], initiator, tick, absorbed);
        assert neighbors[k] in neighbors && neighbors[k] !in neighbors[..k];
        if ok {
          candidates := candidates + [neighbors[k]];
        }
      }
      assert neighbors[..|neighbors|] == neighbors;
    }

    ghost predicate Wanted(e: Entity, initiator: Entity)
      reads reg
    {
      && e in reg.pos && initiator in reg.pos
      && DistanceSquared(reg.pos[e], reg.pos[initiator]) <= MAX_DIALOGUE_DISTANCE * MAX_DIALOGUE_DISTANCE
    }

    /** Exactly the candidates that are not refused by either side, on cooldown, or out of reach. */
    method PotentialTargets(initiator: Entity, candidates: seq<Entity>, tick: int) returns (targets: seq<Entity>)
      requires npcs.Keys <= reg.pos.Keys && initiator in npcs && forall e :: e in candidates ==> e in npcs
      requires forall e :: e in candidates ==> !npcs[e].busy && Wanted(e, initiator)
      ensures forall e :: e in targets <==>
                e in candidates && e != initiator && OnSpeakingTerms(npcs[initiator], npcs[e], tick)
    {
      targets := [];
      for k := 0 to |candidates|
        invariant forall e :: e in targets <==>
                    e in candidates[..k] && e != initiator && OnSpeakingTerms(npcs[initiator], npcs[e], tick)
      {
        var e := candidates[k];
        assert e in candidates && candidates[..k + 1] == candidates[..k] + [e];
        if e == initiator || npcs[e].busy {
          continue;
        }
        var i, c := npcs[initiator], npcs[e];
        if c.npcId in i.targetCooldown && tick < i.targetCooldown[c.npcId] {
          continue;
        }
        if DistanceSquared(reg.pos[initiator], reg.pos[e]) > MAX_DIALOGUE_DISTANCE * MAX_DIALOGUE_DISTANCE {
          continue;
        }
        if LikingOf(i, c.npcId) < GRUDGE || LikingOf(c, i.npcId) < GRUDGE {
          continue;
        }
        targets := targets + [e];
      }
      assert candidates[..|candidates|] == candidates;
    }

    method AverageLiking(other: Entity, group: seq<Entity>) returns (avg: real)
      requires other in npcs && forall e :: e in group ==> e in npcs
      ensures avg == MeanLiking(npcs, npcs[other], group)
    {
      var sum, count := 0, 0;
      for k := 0 to |group|
        invariant sum == KnownLiking(npcs, npcs[other], group[..k])
        invariant count == KnownCount(npcs, npcs[other], group[..k])
      {
        var member := group[k];
        assert member in group && group[..k + 1][..k] == group[..k];
        var id := npcs[member].npcId;
        if id in npcs[other].relations {
          sum := sum + npcs[other].relations[id].liking;
          count := count + 1;
        }
      }
      assert group[..|group|] == group;
      avg := if count > 0 then sum as real / count as real else 0.0;
    }

    /**
     Lets further candidates join until there are four. Below four, whoever would have joined and did not was not
     friendly enough towards those who were there before.
     */
    method Join(initiator: Entity, target: Entity, candidates: seq<Entity>, joins: set<Entity>)
      returns (group: seq<Entity>)
      requires initiator != target && initiator in candidates && target in candidates && NoDuplicates(candidates)
      requires forall e :: e in candidates ==> e in npcs && !npcs[e].busy
      ensures 2 <= |group| <= MAX_GROUP && NoDuplicates(group) && group[0] == initiator && group[1] == target
      ensures Welcome(group, npcs) && forall e :: e in group ==> e in candidates
      ensures forall k :: 2 <= k < |group| ==> group[k] in joins
      ensures |group| < MAX_GROUP ==>
                forall e :: e in candidates && e in joins && e !in group ==> TurnedAway(e, group, npcs)
    {
      group := [initiator, target];
      for k := 0 to |candidates|
        invariant 2 <= |group| <= MAX_GROUP && NoDuplicates(group) && group[0] == initiator && group[1] == target
        invariant Welcome(group, npcs) && forall i :: 2 <= i < |group| ==> group[i] in joins
        invariant forall e :: e in group ==> e == initiator || e == target || e in candidates[..k]
        invariant forall e :: e in candidates[..k] && e in joins && e !in group ==>
                    |group| == MAX_GROUP || TurnedAway(e, group, npcs)
      {
        var other := candidates[k];
        assert candidates[..k + 1] == candidates[..k] + [other];
        if other == initiator || other == target {
          continue;
        }
        if |group| >= MAX_GROUP {
          break;
        }
        assert other in candidates;
        if npcs[other].busy {
          continue;
        }
        assert other !in candidates[..k];
        var avg := AverageLiking(other, group);
        if avg < JOIN_LIKING as real {
          assert group[..|group|] == group;
          continue;
        }
        if other in joins {
          WelcomeSnoc(group, other, npcs);
          TurnedAwayStays(group, other, npcs);
          group := group + [other];
        }
      }
      assert candidates[..|candidates|] == candidates;
    }

    /** Everyone in the group is processed for this tick and busy. */
    method Engage(group: seq<Entity>)
      requires forall e :: e in group ==> e in npcs
      modifies `npcs, `processed
      ensures processed == old(processed) + (set e | e in group)
      ensures npcs == Marked(old(npcs), group)
    {
      processed := processed + (set e | e in group);
      for k := 0 to |group|
        invariant npcs == Marked(old(npcs), group[..k]) && processed == old(processed) + (set e | e in group)
      {
        var member := group[k];
        assert member in group;
        assert group[..k + 1] == group[..k] + [member];
        MarkedSnoc(old(npcs), group[..k], member);
        npcs := npcs[member := npcs[member].(busy := true)];
      }
      assert group[..|group|] == group;
    }

    /**
     One initiator's turn: no group, or a proper one it heads, made of creatures nobody has taken yet. A group forms
     exactly when the initiator may begin, the draws let it, and somebody free is in reach and on speaking terms.
     */
    method Initiate(initiator: Entity, tick: int, chance: Chance) returns (group: seq<Entity>)
      requires Valid() && initiator in npcs && !npcs[initiator].player && !npcs[initiator].dead
      requires npcs[initiator].sentient
      modifies `npcs, `processed
      ensures Valid() && processed == old(processed) + (set e | e in group)
      ensures Turn(old(npcs), npcs, initiator, group)
      ensures group != [] ==>
                && ProperGroup(group, old(npcs), reg.pos) && group[0] == initiator && group[1] in npcs
                && (forall e :: e in group ==> e !in old(processed))
                && OnSpeakingTerms(old(npcs[group[0]]), old(npcs[group[1]]), tick)
                && tick > old(npcs[initiator].lastInitiative)
      ensures group != [] <==>
                && CanStart(old(npcs[initiator]), tick) && initiator !in old(processed)
                && !chance.hesitates && !chance.refuses
                && SomebodyFree(old(npcs), old(processed), initiator, tick, chance.absorbed)
      ensures !CanStart(old(npcs[initiator]), tick) || chance.hesitates ==> npcs == old(npcs)
    {
      group := [];
      var me := npcs[initiator];
      if initiator in processed || me.busy || me.fighting || me.energy < MIN_ENERGY {
        return;
      }
      if tick <= me.refractoryUntil || tick <= me.lastInitiative {
        return;
      }
      var found := CollectCandidates(initiator, tick, chance.absorbed);
      if |found| < 2 {
        OnlyMember(found, initiator);
        return;
      }
      var candidates := Shuffle(found);
      ShuffleKeeps(found, candidates);
      if chance.hesitates {
        return;
      }
      group := Approach(initiator, candidates, tick, chance);
    }

    /** The initiator asks one target; a refusal costs it time, an acceptance opens the group to others. */
    method Approach(initiator: Entity, candidates: seq<Entity>, tick: int, chance: Chance)
      returns (group: seq<Entity>)
      requires Valid() && initiator in npcs && initiator in candidates && NoDuplicates(candidates)
      requires forall e :: e in candidates ==>
                e in npcs && Eligible(npcs[e]) && e !in processed && npcs[e].place == npcs[initiator].place
                && Wanted(e, initiator)
      requires tick > npcs[initiator].refractoryUntil
      modifies `npcs, `processed
      ensures Valid() && processed == old(processed) + (set e | e in group)
      ensures Turn(old(npcs), npcs, initiator, group)
      ensures group != [] ==>
                && ProperGroup(group, old(npcs), reg.pos) && group[0] == initiator && group[1] in npcs
                && (forall e :: e in group ==> e !in old(processed))
                && OnSpeakingTerms(old(npcs[group[0]]), old(npcs[group[1]]), tick)
      ensures group != [] <==> !chance.refuses && SomeTarget(old(npcs), initiator, candidates, tick)
    {
      group := [];
      var agreed, target := Ask(initiator, candidates, tick, chance.refuses);
      if agreed {
        ghost var mid := npcs;
        group := Form(initiator, target, candidates, chance.joins, old(npcs));
        MarkedIsTurn(old(npcs), mid, initiator, group);
      }
    }

    /** Any one of the potential targets, or the initiator itself when there is none. */
    method Choose(initiator: Entity, candidates: seq<Entity>, tick: int) returns (target: Entity)
      requires npcs.Keys <= reg.pos.Keys && initiator in npcs && forall e :: e in candidates ==> e in npcs
      requires forall e :: e in candidates ==> !npcs[e].busy && Wanted(e, initiator)
      ensures target != initiator ==>
                target in candidates && target in npcs && OnSpeakingTerms(npcs[initiator], npcs[target], tick)
      ensures target != initiator <==> SomeTarget(npcs, initiator, candidates, tick)
    {
      var targets := PotentialTargets(initiator, candidates, tick);
      if targets == [] {
        return initiator;
      }
      target := Pick(targets);
    }

    /**
     Asks one potential target, if there is any. The attempt is remembered; a refusal makes the initiator pause, and
     spares that target for three ticks.
     */
    method Ask(initiator: Entity, candidates: seq<Entity>, tick: int, refuses: bool)
      returns (agreed: bool, target: Entity)
      requires npcs.Keys <= reg.pos.Keys && initiator in npcs && forall e :: e in candidates ==> e in npcs
      requires forall e :: e in candidates ==> !npcs[e].busy && Wanted(e, initiator)
      requires tick > npcs[initiator].refractoryUntil
      modifies `npcs
      ensures Turn(old(npcs), npcs, initiator, [])
      ensures target != initiator ==> target in candidates && target in npcs
                                      && OnSpeakingTerms(old(npcs[initiator]), old(npcs[target]), tick)
      ensures target != initiator <==> SomeTarget(old(npcs), initiator, candidates, tick)
      ensures agreed <==> target != initiator && !refuses
      ensures var me, now := old(npcs[initiator]), npcs[initiator];
              && now.lastInitiative == tick
              && if target == initiator || agreed
                 then now.refractoryUntil == me.refractoryUntil && now.targetCooldown == me.targetCooldown
                 else && now.refractoryUntil == tick + Embarrassment(me)
                      && now.targetCooldown == me.targetCooldown[old(npcs)[target].npcId := tick + 3]
    {
      var me := npcs[initiator];
      target := Choose(initiator, candidates, tick);
      agreed := target != initiator && !refuses;
      var pause, spared := me.refractoryUntil, me.targetCooldown;
      if target != initiator && refuses {
        pause, spared := tick + Embarrassment(me), spared[npcs[target].npcId := tick + 3];
      }
      TimersAreTurn(npcs, initiator, tick, pause, spared);
      npcs := npcs[initiator := me.(refractoryUntil := pause, lastInitiative := tick, targetCooldown := spared)];
    }

    /** The target agreed: others join, and the group is taken out of circulation. */
    method Form(initiator: Entity, target: Entity, candidates: seq<Entity>, joins: set<Entity>,
                ghost before: map<Entity, Npc>)
      returns (group: seq<Entity>)
      requires Valid() && initiator in before && SameBonds(npcs, before) && NoDuplicates(candidates)
      requires initiator != target && initiator in candidates && target in candidates
      requires forall e :: e in candidates ==>
                 && e in before && Eligible(before[e]) && before[e].place == before[initiator].place
                 && Wanted(e, initiator) && !npcs[e].busy
      modifies `npcs, `processed
      ensures Valid() && npcs == Marked(old(npcs), group) && processed == old(processed) + (set e | e in group)
      ensures ProperGroup(group, before, reg.pos) && group[0] == initiator && group[1] == target
      ensures forall e :: e in group ==> e in candidates
      ensures forall k :: 2 <= k < |group| ==> group[k] in joins
      ensures |group| < MAX_GROUP ==>
                forall e :: e in candidates && e in joins && e !in group ==> TurnedAway(e, group, old(npcs))
    {
      group := Join(initiator, target, candidates, joins);
      JoinedIsProper(initiator, candidates, group, before);
      Engage(group);
    }

    lemma JoinedIsProper(initiator: Entity, candidates: seq<Entity>, group: seq<Entity>, before: map<Entity, Npc>)
      requires SameBonds(npcs, before) && Welcome(group, npcs)
      requires initiator in before && 2 <= |group| <= MAX_GROUP && NoDuplicates(group) && group[0] == initiator
      requires forall e :: e in group ==> e in candidates
      requires forall e :: e in candidates ==>
                 && e in before && Eligible(before[e]) && before[e].place == before[initiator].place
                 && Wanted(e, initiator)
      ensures ProperGroup(group, before, reg.pos) && group[1] in before
    {
      SameWelcome(npcs, before, group);
      assert group[1] in group;
    }
  }

  /** The collection pass: creatures that are no players, alive and sentient. */
  predicate Talker(n: Npc) {
    !n.player && !n.dead && n.sentient
  }

  /** A proper group whose first two are on speaking terms. */
  ghost predicate Fit(g: seq<Entity>, npcs: map<Entity, Npc>, pos: map<Entity, Pos>, tick: int) {
    && ProperGroup(g, npcs, pos) && g[0] in npcs && g[1] in npcs
    && OnSpeakingTerms(npcs[g[0]], npcs[g[1]], tick)
  }

  ghost predicate GroupsFit(before: map<Entity, Npc>, processed: set<Entity>, groups: seq<seq<Entity>>,
                            pos: map<Entity, Pos>, tick: int) {
    && processed == Members(groups) && Disjoint(groups)
    && forall k :: 0 <= k < |groups| ==> Fit(groups[k], before, pos, tick)
  }

  /** Apart from timers, only those already taken have changed, and only by being busy. */
  ghost predicate OnlyTaken(before: map<Entity, Npc>, now: map<Entity, Npc>, processed: set<Entity>) {
    && now.Keys == before.Keys
    && forall e :: e in before ==> TimersOnly(before[e].(busy := before[e].busy || e in processed), now[e])
  }

  /** What has happened to the world so far in this tick. */
  ghost predicate SoFar(before: map<Entity, Npc>, now: map<Entity, Npc>, processed: set<Entity>,
                        groups: seq<seq<Entity>>,
                        pos: map<Entity, Pos>, tick: int) {
    GroupsFit(before, processed, groups, pos, tick) && OnlyTaken(before, now, processed)
  }

  lemma NoGroupYet(before: map<Entity, Npc>, pos: map<Entity, Pos>, tick: int)
    ensures SoFar(before, before, {}, [], pos, tick)
  {}

  lemma TimersCompose(b: Npc, m: Npc, n: Npc, taken: bool, joins: bool)
    requires TimersOnly(b.(busy := b.busy || taken), m)
    requires TimersOnly(if joins then m.(busy := true) else m, n)
    ensures TimersOnly(b.(busy := b.busy || taken || joins), n)
  {}

  lemma TurnTakes(before: map<Entity, Npc>, mid: map<Entity, Npc>, now: map<Entity, Npc>, processed: set<Entity>,
                  initiator: Entity, g: seq<Entity>)
    requires OnlyTaken(before, mid, processed) && Turn(mid, now, initiator, g)
    ensures OnlyTaken(before, now, processed + (set e | e in g))
  {
    forall e | e in before
      ensures TimersOnly(before[e].(busy := before[e].busy || e in processed + (set x | x in g)), now[e])
    {
      var b, m, n := before[e], mid[e], now[e];
      TimersCompose(b, m, n, e in processed, e in g);
    }
  }

  /** A group that is proper in the middle of the tick was proper before it, when nobody in it had been taken. */
  lemma ProperBefore(before: map<Entity, Npc>, mid: map<Entity, Npc>, processed: set<Entity>,
                     g: seq<Entity>, pos: map<Entity, Pos>, tick: int)
    requires OnlyTaken(before, mid, processed) && Fit(g, mid, pos, tick)
    requires (forall e :: e in g ==> e !in processed) && before[g[0]] == mid[g[0]].(busy := before[g[0]].busy)
    ensures Fit(g, before, pos, tick)
  {
    forall e | e in g
      ensures e in before && Eligible(before[e]) && before[e].place == mid[e].place
    {
      assert TimersOnly(before[e].(busy := before[e].busy || e in processed), mid[e]);
    }
    OnlyTakenSameBonds(before, mid, processed);
    SameWelcome(mid, before, g);
    assert g[0] in g && g[1] in g;
  }

  lemma OnlyTakenSameBonds(before: map<Entity, Npc>, mid: map<Entity, Npc>, processed: set<Entity>)
    requires OnlyTaken(before, mid, processed)
    ensures SameBonds(mid, before)
  {}

  /** A group of creatures not yet taken is disjoint from all earlier ones. */
  lemma GroupAdded(before: map<Entity, Npc>, processed: set<Entity>, groups: seq<seq<Entity>>, g: seq<Entity>,
                   pos: map<Entity, Pos>, tick: int)
    requires GroupsFit(before, processed, groups, pos, tick) && Fit(g, before, pos, tick)
    requires forall e :: e in g ==> e !in processed
    ensures GroupsFit(before, processed + (set e | e in g), groups + [g], pos, tick)
  {
    MembersSnoc(groups, g);
    forall i, e | 0 <= i < |groups| && e in groups[i]
      ensures e !in g
    {
      assert e in Members(groups);
    }
  }

  lemma MembersSnoc(groups: seq<seq<Entity>>, g: seq<Entity>)
    ensures Members(groups + [g]) == Members(groups) + (set e | e in g)
  {
    var all := groups + [g];
    forall e | e in Members(groups)
      ensures e in Members(all)
    {
      var i :| 0 <= i < |groups| && e in groups[i];
      assert e in all[i];
    }
    forall e | e in g
      ensures e in Members(all)
    {
      assert e in all[|groups|];
    }
  }

  /** Everyone who may take part in dialogues at all, in order. */
  method Talkers(w: World, order: seq<Entity>) returns (all: seq<Entity>)
    requires NoDuplicates(order) && forall e :: e in order ==> e in w.npcs
    ensures NoDuplicates(all)
    ensures forall e :: e in all <==> e in order && e in w.npcs && Talker(w.npcs[e])
  {
    all := [];
    for k := 0 to |order|
      invariant NoDuplicates(all)
      invariant forall e :: e in all <==> e in order[..k] && e in w.npcs && Talker(w.npcs[e])
    {
      var e := order[k];
      assert e in order && e !in order[..k];
      assert order[..k + 1] == order[..k] + [e];
      if Talker(w.npcs[e]) {
        all := all + [e];
      }
    }
    assert order[..|order|] == order;
  }

  /** These have not had their turn: they differ from before the tick at most by being busy. */
  ghost predicate Untried(before: map<Entity, Npc>, now: map<Entity, Npc>, rest: seq<Entity>) {
    forall e :: e in rest ==>
      e in before && e in now && Talker(before[e]) && now[e] == before[e].(busy := now[e].busy)
  }

  lemma UntriedRest(before: map<Entity, Npc>, mid: map<Entity, Npc>, now: map<Entity, Npc>, all: seq<Entity>, k: nat,
                    g: seq<Entity>)
    requires NoDuplicates(all) && k < |all| && Untried(before, mid, all[k..]) && Turn(mid, now, all[k], g)
    ensures Untried(before, now, all[k + 1..])
  {
    forall e | e in all[k + 1..]
      ensures e in all[k..] && e != all[k]
    {
      var j :| 0 <= j < |all[k + 1..]| && all[k + 1..][j] == e;
      assert all[k..][j + 1] == e;
    }
  }

  /**
   Left alone although it could have begun and the draws let it: everybody in its reach that is still free has its
   pause to wait out, is absorbed, or is not on speaking terms with it.
   */
  ghost predicate Lonely(w: World, before: map<Entity, Npc>, now: map<Entity, Npc>, processed: set<Entity>,
                         e: Entity, chance: Chance, tick: int)
    reads w.reg, w.grid
  {
    forall x ::
      && e in before && x in before && x in now && w.InReach(x, e)
      && CanStart(before[e], tick) && !chance.hesitates && !chance.refuses
      && Free(before, processed, x, e, tick, chance.absorbed) && tick > now[x].refractoryUntil ==>
        !OnSpeakingTerms(before[e], before[x], tick)
  }

  /** Who was left alone stays so: fewer are free, and no pause is shortened. */
  lemma LonelyStays(w: World, before: map<Entity, Npc>, mid: map<Entity, Npc>, now: map<Entity, Npc>,
                    done: set<Entity>, processed: set<Entity>, initiator: Entity, g: seq<Entity>, e: Entity,
                    chance: Chance, tick: int)
    requires Lonely(w, before, mid, done, e, chance, tick) && Turn(mid, now, initiator, g) && done <= processed
    ensures Lonely(w, before, now, processed, e, chance, tick)
  {}

  /** Everybody of these was taken or left alone. */
  ghost predicate AllLonely(w: World, before: map<Entity, Npc>, now: map<Entity, Npc>, processed: set<Entity>,
                            tried: seq<Entity>, chances: Entity -> Chance, tick: int)
    reads w.reg, w.grid
  {
    forall e :: e in tried ==> e in processed || Lonely(w, before, now, processed, e, chances(e), tick)
  }

  lemma AllStayLonely(w: World, before: map<Entity, Npc>, mid: map<Entity, Npc>, now: map<Entity, Npc>,
                      done: set<Entity>, processed: set<Entity>, initiator: Entity, g: seq<Entity>,
                      tried: seq<Entity>, chances: Entity -> Chance, tick: int)
    requires AllLonely(w, before, mid, done, tried, chances, tick)
    requires Turn(mid, now, initiator, g) && done <= processed
    requires initiator in processed || Lonely(w, before, now, processed, initiator, chances(initiator), tick)
    ensures AllLonely(w, before, now, processed, tried + [initiator], chances, tick)
  {
    forall e | e in tried && e !in processed
      ensures Lonely(w, before, now, processed, e, chances(e), tick)
    {
      LonelyStays(w, before, mid, now, done, processed, initiator, g, e, chances(e), tick);
    }
  }

  /** One creature's turn, and what it adds to the groups of the tick. */
  method TakeTurn(w: World, initiator: Entity, tick: int, chance: Chance, groups: seq<seq<Entity>>,
                  ghost before: map<Entity, Npc>)
    returns (groups': seq<seq<Entity>>, ghost g: seq<Entity>)
    requires w.Valid() && SoFar(before, w.npcs, w.processed, groups, w.reg.pos, tick)
    requires Untried(before, w.npcs, [initiator])
    modifies w`npcs, w`processed
    ensures w.Valid() && SoFar(before, w.npcs, w.processed, groups', w.reg.pos, tick)
    ensures Turn(old(w.npcs), w.npcs, initiator, g) && old(w.processed) <= w.processed
    ensures groups' == if g == [] then groups else groups + [g]
    ensures initiator in w.processed || Lonely(w, before, w.npcs, w.processed, initiator, chance, tick)
  {
    ghost var mid, done := w.npcs, w.processed;
    assert initiator in [initiator] && Talker(before[initiator]);
    var group := w.Initiate(initiator, tick, chance);
    g, groups' := group, groups;
    TurnTakes(before, mid, w.npcs, done, initiator, group);
    if group != [] {
      ProperBefore(before, mid, done, group, w.reg.pos, tick);
      GroupAdded(before, done, groups, group, w.reg.pos, tick);
      groups' := groups + [group];
      assert initiator in group;
    } else {
      assert done + (set e | e in group) == done;
      if initiator !in w.processed {
        NobodyFound(w, before, mid, done, initiator, chance, tick);
      }
    }
  }

  /** The same, with the creatures that had their turn before. */
  method TakeNextTurn(w: World, initiator: Entity, tick: int, chances: Entity -> Chance, groups: seq<seq<Entity>>,
                      ghost before: map<Entity, Npc>, ghost tried: seq<Entity>)
    returns (groups': seq<seq<Entity>>, ghost g: seq<Entity>)
    requires w.Valid() && SoFar(before, w.npcs, w.processed, groups, w.reg.pos, tick)
    requires Untried(before, w.npcs, [initiator])
    requires AllLonely(w, before, w.npcs, w.processed, tried, chances, tick)
    modifies w`npcs, w`processed
    ensures w.Valid() && SoFar(before, w.npcs, w.processed, groups', w.reg.pos, tick)
    ensures Turn(old(w.npcs), w.npcs, initiator, g)
    ensures AllLonely(w, before, w.npcs, w.processed, tried + [initiator], chances, tick)
  {
    ghost var mid, done := w.npcs, w.processed;
    groups', g := TakeTurn(w, initiator, tick, chances(initiator), groups, before);
    AllStayLonely(w, before, mid, w.npcs, done, w.processed, initiator, g, tried, chances, tick);
  }

  /** Nobody could be asked in the middle of the tick, so nobody free can be asked by the standards of its start. */
  lemma NobodyFound(w: World, before: map<Entity, Npc>, mid: map<Entity, Npc>, done: set<Entity>, e: Entity,
                    chance: Chance, tick: int)
    requires OnlyTaken(before, mid, done) && Untried(before, mid, [e]) && e in mid
    requires Turn(mid, w.npcs, e, []) && w.processed == done && e !in done
    requires CanStart(mid[e], tick) && !chance.hesitates && !chance.refuses ==>
               !w.SomebodyFree(mid, done, e, tick, chance.absorbed)
    ensures Lonely(w, before, w.npcs, done, e, chance, tick)
  {
    assert e in [e];
    assert mid[e] == before[e];
    forall x |
      && e in before && x in before && x in w.npcs && w.InReach(x, e)
      && CanStart(before[e], tick) && !chance.hesitates && !chance.refuses
      && Free(before, done, x, e, tick, chance.absorbed) && tick > w.npcs[x].refractoryUntil
      ensures !OnSpeakingTerms(before[e], before[x], tick)
    {
      assert TimersOnly(before[x], mid[x]);
      assert Free(mid, done, x, e, tick, chance.absorbed);
    }
  }

  /**
   The whole tick. However the draws come out: the groups are disjoint and proper as judged once everyone had rested,
   nobody talks against a grudge or a cooldown, exactly the members are newly busy afterwards, and nobody who could
   have begun and was let by the draws is left next to somebody free whom it is on speaking terms with.
   */
  method SystemSocialInteraction(w: World, order: seq<Entity>, tick: int, chances: Entity -> Chance)
    returns (groups: seq<seq<Entity>>)
    requires w.Valid() && NoDuplicates(order) && forall e :: e in order ==> e in w.npcs
    modifies w`npcs, w`processed
    ensures w.Valid() && w.processed == Members(groups)
    ensures SoFar(AllRested(old(w.npcs), tick), w.npcs, w.processed, groups, w.reg.pos, tick)
    ensures forall e :: e in order && Talker(old(w.npcs)[e]) && e !in Members(groups) ==>
              Lonely(w, AllRested(old(w.npcs), tick), w.npcs, w.processed, e, chances(e), tick)
  {
    w.RecoverEnergy(tick);
    var all := Talkers(w, order);
    w.processed, groups := {}, [];
    ghost var before := w.npcs;
    NoGroupYet(before, w.reg.pos, tick);
    assert all[0..] == all;
    for k := 0 to |all|
      invariant w.Valid() && SoFar(before, w.npcs, w.processed, groups, w.reg.pos, tick)
      invariant Untried(before, w.npcs, all[k..])
      invariant AllLonely(w, before, w.npcs, w.processed, all[..k], chances, tick)
    {
      ghost var mid := w.npcs;
      ghost var g;
      assert all[k..][0] == all[k] && all[..k + 1] == all[..k] + [all[k]];
      groups, g := TakeNextTurn(w, all[k], tick, chances, groups, before, all[..k]);
      UntriedRest(before, mid, w.npcs, all, k, g);
    }
    assert all[..|all|] == all;
  }

  /**
   After the tick, of two creatures left over that stand within eight metres of each other in one place, fit to talk and
   on speaking terms, the one that could have begun was held back by a draw, or the other is absorbed or pausing.
   */
  lemma WhyLeftOver(w: World, before: map<Entity, Npc>, now: map<Entity, Npc>, processed: set<Entity>,
                    e: Entity, x: Entity, chance: Chance, tick: int)
    requires Lonely(w, before, now, processed, e, chance, tick) && e != x && x !in processed
    requires w.grid.Valid() && w.grid.Agrees(w.reg) && x in w.grid.entityToCell
    requires e in w.reg.pos && Fits(w.reg.pos[e]) && x in w.reg.pos
    requires DistanceSquared(w.reg.pos[x], w.reg.pos[e]) <= 64.0
    requires e in before && x in before && x in now && before[e].place == before[x].place
    requires CanStart(before[e], tick) && Eligible(before[x]) && OnSpeakingTerms(before[e], before[x], tick)
    ensures || chance.hesitates || chance.refuses || x in chance.absorbed
            || tick <= before[x].refractoryUntil || tick <= now[x].refractoryUntil
  {
    w.InReachIffNear(x, e);
  }

  /** Nobody in a group was a player, dead, witless, fighting, busy or tired, and all were in one place. */
  lemma MembersWereFree(g: seq<Entity>, npcs: map<Entity, Npc>, pos: map<Entity, Pos>, e: Entity, x: Entity)
    requires ProperGroup(g, npcs, pos) && e in g && x in g
    ensures var n := npcs[e];
            && !n.player && !n.dead && n.sentient && !n.fighting && !n.busy && n.energy >= 20
            && n.place == npcs[x].place
    ensures DistanceSquared(pos[e], pos[g[0]]) <= 64.0 && |g| <= 4
  {}

  lemma ShuffleKeeps(s: seq<Entity>, t: seq<Entity>)
    requires multiset(s) == multiset(t) && NoDuplicates(s)
    ensures NoDuplicates(t) && forall e :: e in t <==> e in s
  {
    forall e
      ensures e in t <==> e in s
    {
      assert e in multiset(s) <==> e in multiset(t);
    }
    forall i, j | 0 <= i < j < |t|
      ensures t[i] != t[j]
    {
      if t[i] == t[j] {
        var e := t[i];
        assert t == t[..i] + [e] + t[i + 1..j] + [e] + t[j + 1..];
        assert multiset(t)[e] >= 2;
        OnceIfNoDuplicates(s, e);
      }
    }
  }

  lemma OnlyMember(s: seq<Entity>, e: Entity)
    requires |s| < 2 && e in s
    ensures forall x :: x in s ==> x == e
  {}

  lemma {:induction false} OnceIfNoDuplicates(s: seq<Entity>, e: Entity)
    requires NoDuplicates(s)
    ensures multiset(s)[e] <= 1
  {
    if s != [] {
      var f := s[..|s| - 1];
      OnceIfNoDuplicates(f, e);
      assert s == f + [s[|s| - 1]];
      if s[|s| - 1] == e {
        assert e !in f;
      }
    }
  }
}
