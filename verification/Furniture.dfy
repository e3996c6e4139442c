/** Who sits where: survival crises, the furniture claimed to resolve them, and the resolver that double-checks. */
module Furniture {

  datatype Option<+T> = None | Some(value: T)

  type Entity = nat

  datatype Crisis = NoCrisis | Hunger | Fatigue

  datatype AffordanceType = Unspecified | Sit | Sleep | Eat | Drink | Pray

  datatype ToilState = Idle | Moving | Working | Interrupted

  datatype Category = OtherJob | SleepJob | EatJob

  datatype Status = Success | Failure | Running

  /** A named place and a point in it. */
  datatype Spot = Spot(place: string, x: real, z: real)

  /** Temporary is the flag of a camp; campName says that its display name carries the word for "temporary". */
  datatype Affordance = Affordance(
    kind: AffordanceType, occupiedBy: Option<Entity>, temporary: bool, campName: bool, zone: int, spot: Spot)

  datatype Job = Job(category: Category, active: bool, target: Spot)

  datatype Npc = Npc(
    hunger: real, fatigue: real,
    resolving: bool, crisis: Crisis, seat: Option<Entity>,
    job: Job, toil: ToilState, onFloor: bool, busy: bool,
    zone: int, spot: Spot)

  const CRITICAL: real := 15.0
  const RESOLVED: real := 95.0
  const FULL: real := 100.0
  const NEAR: real := 50.0
  const ARRIVED: real := 0.8
  const NOWHERE: Spot := Spot("", 0.0, 0.0)

  predicate Wild(place: string) {
    place == "Wilderness" || place == "\U{D669}\U{BB34}\U{C9C0}"
  }

  function DistanceSquared(a: Spot, b: Spot): real {
    (a.x - b.x) * (a.x - b.x) + (a.z - b.z) * (a.z - b.z)
  }

  /** A target at the exact origin counts as none. */
  predicate HasTarget(j: Job) {
    j.target.place != "" && (j.target.x != 0.0 || j.target.z != 0.0)
  }

  predicate AtTarget(n: Npc) {
    n.spot.place == n.job.target.place || DistanceSquared(n.job.target, n.spot) < ARRIVED * ARRIVED
  }

  /** The furniture that a crisis of this kind may use. */
  predicate Serves(kind: AffordanceType, crisis: Crisis) {
    match crisis
    case Hunger => kind == Eat || kind == Drink || kind == Sit
    case Fatigue => kind == Sleep || kind == Sit
    case NoCrisis => false
  }

  /** Free furniture of the NPC's zone that serves its crisis. */
  predicate Suits(a: Affordance, n: Npc) {
    a.zone == n.zone && a.occupiedBy == None && Serves(a.kind, n.crisis)
  }

  /** No piece of furniture that suits the NPC is nearer. */
  ghost predicate Nearest(furniture: map<Entity, Affordance>, n: Npc, f: Entity) {
    && f in furniture && Suits(furniture[f], n) && DistanceSquared(furniture[f].spot, n.spot) < NEAR * NEAR
    && forall g :: g in furniture && Suits(furniture[g], n) ==>
         DistanceSquared(furniture[f].spot, n.spot) <= DistanceSquared(furniture[g].spot, n.spot)
  }

  ghost predicate NothingNear(furniture: map<Entity, Affordance>, n: Npc) {
    forall g :: g in furniture && Suits(furniture[g], n) ==> DistanceSquared(furniture[g].spot, n.spot) >= NEAR * NEAR
  }

  /** Where one heads for: the nearest piece that suits within reach, or if there is none, where one stands. */
  ghost predicate Chosen(furniture: map<Entity, Affordance>, n: Npc, target: Spot) {
    || (exists f :: Nearest(furniture, n, f) && target == furniture[f].spot)
    || (NothingNear(furniture, n) && target == n.spot)
  }

  /** Only zone, place and crisis matter for the choice. */
  lemma SameChoice(furniture: map<Entity, Affordance>, a: Npc, b: Npc, target: Spot)
    requires a.zone == b.zone && a.spot == b.spot && a.crisis == b.crisis
    ensures Chosen(furniture, a, target) <==> Chosen(furniture, b, target)
  {}

  /** What a camp is when it is set up. */
  function Camp(n: Npc): Affordance {
    Affordance(if n.crisis == Hunger then Eat else Sleep, None, true, true, n.zone, n.spot)
  }

  /** Gain per frame while eating or sleeping, by what one sits on. */
  function Recovery(crisis: Crisis, seat: Option<Affordance>): real {
    match crisis
    case NoCrisis => 0.0
    case Hunger =>
      (match seat
       case None => 0.125
       case Some(a) => if a.temporary then 0.25 else 0.5)
    case Fatigue =>
      (match seat
       case None => 0.025
       case Some(a) => if a.temporary then 0.0625 else if a.kind == Sit then 0.083 else 0.125)
  }

  /** How well the need behind a crisis is met. */
  function Need(n: Npc, kind: Crisis): real {
    if kind == Hunger then n.hunger else n.fatigue
  }

  function Capped(v: real): real {
    if v > FULL then FULL else v
  }

  function Floored(v: real): real {
    if v < 0.0 then 0.0 else v
  }

  // ---- The invariant on values

  ghost predicate Seated(npcs: map<Entity, Npc>, furniture: map<Entity, Affordance>) {
    forall n :: n in npcs && npcs[n].seat.Some? ==>
      var f := npcs[n].seat.value;
      && f in furniture && furniture[f].occupiedBy == Some(n)
      && npcs[n].resolving && Serves(furniture[f].kind, npcs[n].crisis)
  }

  ghost predicate Owned(npcs: map<Entity, Npc>, furniture: map<Entity, Affordance>) {
    forall f :: f in furniture ==> OwnerIsHonest(npcs, furniture, f)
  }

  predicate Sane(n: Npc) {
    && (n.resolving <==> n.crisis != NoCrisis)
    && 0.0 <= n.hunger <= FULL && 0.0 <= n.fatigue <= FULL
  }

  ghost predicate Consistent(npcs: map<Entity, Npc>, furniture: map<Entity, Affordance>) {
    Seated(npcs, furniture) && Owned(npcs, furniture) && forall n :: n in npcs ==> Sane(npcs[n])
  }

  /** Nothing that ownership depends on has changed. */
  predicate SameClaim(a: Npc, b: Npc) {
    a.seat == b.seat && a.resolving == b.resolving && a.crisis == b.crisis
  }

  lemma UnrelatedChangeKeeps(npcs: map<Entity, Npc>, furniture: map<Entity, Affordance>, e: Entity, n: Npc)
    requires Consistent(npcs, furniture) && e in npcs && Sane(n) && SameClaim(npcs[e], n)
    ensures Consistent(npcs[e := n], furniture)
  {}

  /** Only an NPC without a crisis enters one, and it has no seat then. */
  lemma CrisisKeeps(npcs: map<Entity, Npc>, furniture: map<Entity, Affordance>, e: Entity, n: Npc)
    requires Consistent(npcs, furniture) && e in npcs && !npcs[e].resolving && Sane(n) && n.seat == npcs[e].seat
    ensures Consistent(npcs[e := n], furniture) && n.seat == None
  {}

  lemma ClaimKeeps(npcs: map<Entity, Npc>, furniture: map<Entity, Affordance>, e: Entity, f: Entity, n: Npc)
    requires Consistent(npcs, furniture) && e in npcs && npcs[e].seat == None && f in furniture
    requires furniture[f].occupiedBy == None && Serves(furniture[f].kind, n.crisis)
    requires Sane(n) && n.seat == Some(f)
    ensures Consistent(npcs[e := n], furniture[f := furniture[f].(occupiedBy := Some(e))])
  {
    forall m | m in npcs && m != e && npcs[m].seat.Some?
      ensures npcs[m].seat.value != f
    {
      assert furniture[npcs[m].seat.value].occupiedBy == Some(m);
    }
  }

  lemma ReleaseKeeps(npcs: map<Entity, Npc>, furniture: map<Entity, Affordance>, e: Entity, n: Npc)
    requires Consistent(npcs, furniture) && e in npcs && npcs[e].seat.Some? && Sane(n) && n.seat == None
    ensures var f := npcs[e].seat.value;
            && f in furniture
            && Consistent(npcs[e := n], furniture[f := furniture[f].(occupiedBy := None)])
            && Consistent(npcs[e := n], furniture - {f})
  {
    var f := npcs[e].seat.value;
    assert furniture[f].occupiedBy == Some(e);
    forall m | m in npcs && m != e && npcs[m].seat.Some?
      ensures npcs[m].seat.value != f
    {
      assert furniture[npcs[m].seat.value].occupiedBy == Some(m);
    }
  }

  lemma SpawnKeeps(npcs: map<Entity, Npc>, furniture: map<Entity, Affordance>, f: Entity, a: Affordance)
    requires Consistent(npcs, furniture) && f !in furniture && a.occupiedBy == None
    ensures Consistent(npcs, furniture[f := a])
  {}

  /** Two NPCs never share a seat. */
  lemma SeatsAreExclusive(npcs: map<Entity, Npc>, furniture: map<Entity, Affordance>, m: Entity, n: Entity)
    requires Consistent(npcs, furniture) && m in npcs && n in npcs && npcs[m].seat == npcs[n].seat != None
    ensures m == n
  {
    assert furniture[npcs[m].seat.value].occupiedBy == Some(m);
    assert furniture[npcs[n].seat.value].occupiedBy == Some(n);
  }

  class World {
    var npcs: map<Entity, Npc>
    var furniture: map<Entity, Affordance>
    var nextId: Entity

    ghost predicate Valid()
      reads this
    {
      Consistent(npcs, furniture) && forall f :: f in furniture ==> f < nextId
    }

    /** The world at start-up: nobody sits, nothing is taken. */
    constructor (npcs: map<Entity, Npc>, furniture: map<Entity, Affordance>, nextId: Entity)
      requires forall n :: n in npcs ==> Sane(npcs[n]) && npcs[n].seat == None
      requires forall f :: f in furniture ==> furniture[f].occupiedBy == None && f < nextId
      ensures Valid() && this.npcs == npcs && this.furniture == furniture
    {
      this.npcs, this.furniture, this.nextId := npcs, furniture, nextId;
    }

    /** Hunger and fatigue trees: go on with a crisis of this kind, yield to another, or enter one below the limit. */
    method ConditionIsCritical(e: Entity, kind: Crisis) returns (s: Status)
      requires Valid() && e in npcs && kind != NoCrisis
      modifies `npcs
      ensures Valid() && npcs.Keys == old(npcs).Keys
      ensures s == (if Starts(old(npcs[e]), kind) || old(npcs[e].crisis) == kind then Success else Failure)
      ensures s == Success <==> npcs[e].crisis == kind
      ensures !Starts(old(npcs[e]), kind) ==> npcs == old(npcs)
      ensures Starts(old(npcs[e]), kind) ==>
                npcs == old(npcs)[e := old(npcs[e]).(
                  resolving := true, crisis := kind, busy := false,
                  job := Job(if kind == Hunger then EatJob else SleepJob, true, Spot("", 0.0, 0.0)),
                  toil := Idle, onFloor := false)]
    {
      var n := npcs[e];
      if n.resolving && n.crisis == kind {
        return Success;
      }
      if n.resolving {
        return Failure;
      }
      if Need(n, kind) < CRITICAL {
        var job := Job(if kind == Hunger then EatJob else SleepJob, true, NOWHERE);
        var n' := n.(resolving := true, crisis := kind, busy := false, job := job, toil := Idle, onFloor := false);
        CrisisKeeps(npcs, furniture, e, n');
        npcs := npcs[e := n'];
        return Success;
      }
      return Failure;
    }

    /** Scheduled meals and sleep: the same crisis state, entered when a fitting job is being worked at its place. */
    method ConditionIsScheduled(e: Entity, kind: Crisis) returns (s: Status)
      requires Valid() && e in npcs && kind != NoCrisis
      modifies `npcs
      ensures Valid() && npcs.Keys == old(npcs).Keys
      ensures s == (if old(npcs[e].crisis) == kind || Stays(old(npcs[e]), kind) then Success else Failure)
      ensures s == Success <==> npcs[e].crisis == kind
      ensures npcs == if s == Success && old(npcs[e].crisis) == NoCrisis
                      then old(npcs)[e := old(npcs[e]).(resolving := true, crisis := kind)] else old(npcs)
    {
      var n := npcs[e];
      if n.resolving && n.crisis == kind {
        return Success;
      }
      if n.resolving {
        return Failure;
      }
      var category := if kind == Hunger then EatJob else SleepJob;
      if n.job.active && n.job.category == category && n.toil == Working && n.spot.place == n.job.target.place {
        var n' := n.(resolving := true, crisis := kind);
        CrisisKeeps(npcs, furniture, e, n');
        npcs := npcs[e := n'];
        return Success;
      }
      return Failure;
    }

    method SpawnCamp(n: Npc) returns (f: Entity)
      requires Valid()
      modifies `furniture, `nextId
      ensures Valid() && f !in old(furniture) && furniture == old(furniture)[f := Camp(n)]
    {
      f := nextId;
      nextId := nextId + 1;
      SpawnKeeps(npcs, furniture, f, Camp(n));
      furniture := furniture[f := Camp(n)];
    }

    /** The scan for the nearest one. Furniture of other zones carries a penalty beyond the limit and never wins. */
    method NearestFurniture(n: Npc) returns (r: Option<Entity>)
      ensures r.Some? ==> Nearest(furniture, n, r.value)
      ensures r == None ==> NothingNear(furniture, n)
    {
      r := None;
      var todo := furniture.Keys;
      while todo != {}
        invariant todo <= furniture.Keys
        invariant r.Some? ==> r.value in furniture && Suits(furniture[r.value], n)
        invariant forall g :: g in furniture && g !in todo && Suits(furniture[g], n) ==>
                    && r.Some?
                    && DistanceSquared(furniture[r.value].spot, n.spot) <= DistanceSquared(furniture[g].spot, n.spot)
        decreases |todo|
      {
        var f :| f in todo;
        todo := todo - {f};
        if Suits(furniture[f], n) {
          var distance := DistanceSquared(furniture[f].spot, n.spot);
          if r == None || distance < DistanceSquared(furniture[r.value].spot, n.spot) {
            r := Some(f);
          }
        }
      }
      if r.Some? && DistanceSquared(furniture[r.value].spot, n.spot) >= NEAR * NEAR {
        r := None;
      }
    }

    /**
     Chooses where to go: the nearest suitable furniture within reach, else the spot itself, where in the wilderness a
     camp is set up. A target once chosen stays.
     */
    method ActionFindFurniture(e: Entity) returns (s: Status)
      requires Valid() && e in npcs && npcs[e].resolving
      modifies `npcs, `furniture, `nextId
      ensures Valid() && s == Success
      ensures var n := old(npcs[e]);
              if HasTarget(n.job) then npcs == old(npcs) && furniture == old(furniture)
              else
                || (&& furniture == old(furniture)
                    && exists f :: Nearest(furniture, n, f) && npcs == old(npcs)[e := Headed(n, furniture[f].spot)])
                || (&& NothingNear(old(furniture), n) && npcs == old(npcs)[e := Headed(n, n.spot)]
                    && (!Wild(n.spot.place) ==> furniture == old(furniture))
                    && (Wild(n.spot.place) ==>
                         exists f: Entity :: f !in old(furniture) && furniture == old(furniture)[f := Camp(n)]))
    {
      s := Success;
      var n := npcs[e];
      if HasTarget(n.job) {
        return;
      }
      var target := n.spot;
      var found := NearestFurniture(n);
      if found.Some? {
        target := furniture[found.value].spot;
      } else if Wild(n.spot.place) {
        var _ := SpawnCamp(n);
      }
      UnrelatedChangeKeeps(npcs, furniture, e, Headed(n, target));
      npcs := npcs[e := Headed(n, target)];
    }

    /** Success on arrival; otherwise the walk is started or goes on. */
    method ActionMoveToTarget(e: Entity) returns (s: Status)
      requires Valid() && e in npcs
      modifies `npcs
      ensures Valid() && (s == Success <==> AtTarget(old(npcs[e]))) && s != Failure
      ensures npcs == if s == Success then old(npcs) else old(npcs)[e := old(npcs[e]).(toil := Moving)]
    {
      var n := npcs[e];
      if n.spot.place == n.job.target.place {
        return Success;
      }
      if DistanceSquared(n.job.target, n.spot) < ARRIVED * ARRIVED {
        return Success;
      }
      if n.toil != Moving {
        UnrelatedChangeKeeps(npcs, furniture, e, n.(toil := Moving));
        npcs := npcs[e := n.(toil := Moving)];
      }
      return Running;
    }

    /** The two middle actions of a crisis sequence; they claim and release nothing, and set up a camp at most. */
    method GoToFurniture(e: Entity) returns (s: Status)
      requires Valid() && e in npcs && npcs[e].resolving
      modifies `npcs, `furniture, `nextId
      ensures Valid() && npcs.Keys == old(npcs).Keys && s != Failure
      ensures forall m :: m in npcs && m != e ==> npcs[m] == old(npcs[m])
      ensures SameClaim(npcs[e], old(npcs[e]))
      ensures npcs[e].hunger == old(npcs[e].hunger) && npcs[e].fatigue == old(npcs[e].fatigue)
      ensures npcs[e].onFloor == old(npcs[e].onFloor)
      ensures OwnSeatsOnly(old(furniture), furniture, e, old(npcs[e].seat), old(npcs[e].seat))
      ensures HasTarget(old(npcs[e].job)) ==>
                && furniture == old(furniture) && s == (if AtTarget(old(npcs[e])) then Success else Running)
                && npcs == if s == Success then old(npcs) else old(npcs)[e := old(npcs[e]).(toil := Moving)]
      ensures !HasTarget(old(npcs[e].job)) ==>
                && Chosen(old(furniture), old(npcs[e]), npcs[e].job.target)
                && s == (if AtTarget(npcs[e]) then Success else Running)
                && npcs[e].toil == (if s == Success then Idle else Moving) && npcs[e].spot == old(npcs[e].spot)
    {
      s := ActionFindFurniture(e);
      CampsOnly(old(furniture), furniture, e, old(npcs[e]));
      s := ActionMoveToTarget(e);
    }

    /** Free furniture of the NPC's zone that serves its crisis, if there is any. */
    method FreeFurniture(n: Npc) returns (r: Option<Entity>)
      ensures match r
              case Some(f) => f in furniture && Suits(furniture[f], n)
              case None => forall f :: f in furniture ==> !Suits(furniture[f], n)
    {
      if f :| f in furniture && Suits(furniture[f], n) {
        r := Some(f);
      } else {
        r := None;
      }
    }

    /** First frame: sit down on free furniture, on a new camp in the wilderness, or else settle on the floor. */
    method Settle(e: Entity)
      requires Valid() && e in npcs && npcs[e].resolving && npcs[e].seat == None
      modifies `npcs, `furniture, `nextId
      ensures Valid() && npcs.Keys == old(npcs).Keys
      ensures forall m :: m in npcs && m != e ==> npcs[m] == old(npcs[m])
      ensures npcs[e] == old(npcs[e]).(seat := npcs[e].seat, spot := npcs[e].spot, toil := Working,
                                       onFloor := npcs[e].seat == None)
      ensures npcs[e].spot.place == old(npcs[e].spot.place)
      ensures npcs[e].seat == None ==> npcs[e].spot == old(npcs[e].spot)
      ensures match npcs[e].seat
              case None =>
                && furniture == old(furniture) && !Wild(old(npcs[e].spot.place))
                && forall f :: f in furniture ==> !Suits(furniture[f], old(npcs[e]))
              case Some(f) =>
                && f in furniture && npcs[e].spot.x == furniture[f].spot.x && npcs[e].spot.z == furniture[f].spot.z
                && if f in old(furniture)
                   then && Suits(old(furniture)[f], old(npcs[e]))
                        && furniture == old(furniture)[f := old(furniture)[f].(occupiedBy := Some(e))]
                   else && Wild(old(npcs[e].spot.place))
                        && (forall g :: g in old(furniture) ==> !Suits(old(furniture)[g], old(npcs[e])))
                        && furniture == old(furniture)[f := Camp(old(npcs[e])).(occupiedBy := Some(e))]
      ensures OwnSeatsOnly(old(furniture), furniture, e, None, npcs[e].seat)
    {
      var n := npcs[e];
      var target := FreeFurniture(n);
      if target == None && Wild(n.spot.place) {
        var camp := SpawnCamp(n);
        target := Some(camp);
      }
      match target {
        case Some(f) =>
          var there := n.spot.(x := furniture[f].spot.x, z := furniture[f].spot.z);
          var n' := n.(seat := Some(f), spot := there, toil := Working, onFloor := false);
          ClaimKeeps(npcs, furniture, e, f, n');
          furniture := furniture[f := furniture[f].(occupiedBy := Some(e))];
          npcs := npcs[e := n'];
          ClaimsOnly(old(furniture), furniture, e, n, f);
        case None =>
          var n' := n.(toil := Working, onFloor := true);
          UnrelatedChangeKeeps(npcs, furniture, e, n');
          npcs := npcs[e := n'];
      }
    }

    /** Leaves the seat: furniture becomes free, a temporary camp disappears. */
    method LeaveSeat(e: Entity, ghost to: Npc)
      requires Valid() && e in npcs && npcs[e].seat.Some? && Sane(to) && to.seat == None
      modifies `furniture
      ensures var f := old(npcs[e].seat.value);
              && f in old(furniture) && old(furniture)[f].occupiedBy == Some(e)
              && furniture == if old(furniture)[f].temporary then old(furniture) - {f}
                              else old(furniture)[f := old(furniture)[f].(occupiedBy := None)]
      ensures Consistent(npcs[e := to], furniture)
      ensures forall f :: f in furniture ==> f < nextId
    {
      var f := npcs[e].seat.value;
      ReleaseKeeps(npcs, furniture, e, to);
      assert furniture[f].occupiedBy == Some(e);
      if furniture[f].temporary {
        furniture := furniture - {f};
      } else {
        furniture := furniture[f := furniture[f].(occupiedBy := None)];
      }
    }

    /** Later frames: recover, and when recovered give everything back. */
    method Recover(e: Entity) returns (s: Status)
      requires Valid() && e in npcs && npcs[e].resolving
      modifies `npcs, `furniture
      ensures Valid() && npcs.Keys == old(npcs).Keys
      ensures forall m :: m in npcs && m != e ==> npcs[m] == old(npcs[m])
      ensures s == (if Need(npcs[e], old(npcs[e].crisis)) >= RESOLVED then Success else Running)
      ensures Need(npcs[e], old(npcs[e].crisis)) ==
                Capped(old(Need(npcs[e], npcs[e].crisis) + Gain(npcs[e], furniture)))
      ensures if old(npcs[e].crisis) == Hunger then npcs[e].fatigue == old(npcs[e].fatigue)
              else npcs[e].hunger == old(npcs[e].hunger)
      ensures s != Success ==>
                && furniture == old(furniture)
                && npcs[e] == old(npcs[e]).(hunger := npcs[e].hunger, fatigue := npcs[e].fatigue)
      ensures s == Success ==>
                npcs[e] == old(npcs[e]).(hunger := npcs[e].hunger, fatigue := npcs[e].fatigue, seat := None,
                                         resolving := false, crisis := NoCrisis,
                                         job := old(npcs[e].job).(active := false), toil := Idle, onFloor := false)
      ensures s == Success ==>
                match old(npcs[e].seat)
                case None => furniture == old(furniture)
                case Some(f) =>
                  && f in old(furniture)
                  && furniture == if old(furniture)[f].temporary then old(furniture) - {f}
                                  else old(furniture)[f := old(furniture)[f].(occupiedBy := None)]
      ensures OwnSeatsOnly(old(furniture), furniture, e, old(npcs[e].seat), npcs[e].seat)
    {
      var n := npcs[e];
      var gain := Gain(n, furniture);
      if n.crisis == Hunger {
        n := n.(hunger := Capped(n.hunger + gain));
      } else {
        n := n.(fatigue := Capped(n.fatigue + gain));
      }
      if Need(n, n.crisis) >= RESOLVED {
        var n' := n.(seat := None, resolving := false, crisis := NoCrisis, job := n.job.(active := false),
                     toil := Idle, onFloor := false);
        if n.seat.Some? {
          LeaveSeat(e, n');
          LeavesOnly(old(furniture), furniture, e, n.seat.value);
        } else {
          UnseatedKeeps(npcs, furniture, e, n');
        }
        npcs := npcs[e := n'];
        return Success;
      }
      UnrelatedChangeKeeps(npcs, furniture, e, n);
      npcs := npcs[e := n];
      return Running;
    }

    /** The last action of a sequence: takes a place in the first frame, and recovers in the following ones. */
    method ActionInteractFurniture(e: Entity) returns (s: Status)
      requires Valid() && e in npcs && npcs[e].resolving
      modifies this
      ensures Valid() && npcs.Keys == old(npcs).Keys
      ensures forall m :: m in npcs && m != e ==> npcs[m] == old(npcs[m])
      ensures s == (if npcs[e].resolving then Running else Success)
      ensures npcs[e].resolving ==> npcs[e].crisis == old(npcs[e].crisis) && (npcs[e].seat.Some? || npcs[e].onFloor)
      ensures s == Success ==> npcs[e].seat == None && npcs[e].crisis == NoCrisis
      ensures s == Success ==> old(Need(npcs[e], npcs[e].crisis)) >= RESOLVED - 0.5
      ensures Need(npcs[e], old(npcs[e].crisis)) ==
                if Settled(old(npcs[e])) then Capped(old(Need(npcs[e], npcs[e].crisis) + Gain(npcs[e], furniture)))
                else old(Need(npcs[e], npcs[e].crisis))
      ensures npcs[e].job.target == old(npcs[e].job.target)
      ensures s == Success <==> Settled(old(npcs[e])) && Need(npcs[e], old(npcs[e].crisis)) >= RESOLVED
      ensures OwnSeatsOnly(old(furniture), furniture, e, old(npcs[e].seat), npcs[e].seat)
      ensures s == Running && Settled(old(npcs[e])) ==>
                && furniture == old(furniture)
                && npcs[e] == old(npcs[e]).(hunger := npcs[e].hunger, fatigue := npcs[e].fatigue)
    {
      if npcs[e].seat == None && !npcs[e].onFloor {
        Settle(e);
        return Running;
      }
      s := Recover(e);
    }

    /** The actions of a crisis sequence, up to the first that does not succeed. */
    method SeeToCrisis(e: Entity) returns (s: Status)
      requires Valid() && e in npcs && npcs[e].resolving
      modifies this
      ensures Valid() && npcs.Keys == old(npcs).Keys
      ensures forall m :: m in npcs && m != e ==> npcs[m] == old(npcs[m])
      ensures s == (if npcs[e].resolving then Running else Success)
      ensures npcs[e].crisis == if s == Success then NoCrisis else old(npcs[e].crisis)
      ensures s == Success ==> old(Need(npcs[e], npcs[e].crisis)) >= RESOLVED - 0.5
      ensures OwnSeatsOnly(old(furniture), furniture, e, old(npcs[e].seat), npcs[e].seat)
      ensures HasTarget(old(npcs[e].job)) && !AtTarget(old(npcs[e])) ==>
                npcs == old(npcs)[e := old(npcs[e]).(toil := Moving)] && furniture == old(furniture)
      ensures HasTarget(old(npcs[e].job)) && AtTarget(old(npcs[e])) ==>
                Served(old(npcs[e]), old(furniture), npcs[e], old(npcs[e].crisis))
      ensures !HasTarget(old(npcs[e].job)) ==> Chosen(old(furniture), old(npcs[e]), npcs[e].job.target)
      ensures HasTarget(old(npcs[e].job)) && AtTarget(old(npcs[e])) && Settled(old(npcs[e])) && s == Running ==>
                && furniture == old(furniture)
                && npcs[e] == old(npcs[e]).(hunger := npcs[e].hunger, fatigue := npcs[e].fatigue)
    {
      s := GoToFurniture(e);
      if s != Success {
        return;
      }
      ghost var camped := furniture;
      s := ActionInteractFurniture(e);
      OwnSeatsAfterCamp(old(furniture), camped, furniture, e, old(npcs[e].seat), npcs[e].seat);
    }

    /** One frame of an NPC at its target with a place taken. */
    method RecoverAtTarget(e: Entity) returns (s: Status)
      requires Valid() && e in npcs && npcs[e].resolving && Settled(npcs[e])
      requires HasTarget(npcs[e].job) && AtTarget(npcs[e])
      modifies this
      ensures Valid() && npcs.Keys == old(npcs).Keys
      ensures var need := Capped(old(Need(npcs[e], npcs[e].crisis) + Gain(npcs[e], furniture)));
              if need >= RESOLVED then s == Success && npcs[e].crisis == NoCrisis && npcs[e].seat == None
              else && s == Running && furniture == old(furniture) && Need(npcs[e], old(npcs[e].crisis)) == need
                   && npcs[e] == old(npcs[e]).(hunger := npcs[e].hunger, fatigue := npcs[e].fatigue)
    {
      s := SeeToCrisis(e);
    }

    /**
     Left alone at its target with a place taken, an NPC gets over its crisis, in exactly the number of frames that its
     gain takes to the limit.
     */
    method RecoverUndisturbed(e: Entity) returns (frames: nat)
      requires Valid() && e in npcs && npcs[e].resolving && Settled(npcs[e])
      requires HasTarget(npcs[e].job) && AtTarget(npcs[e])
      modifies this
      ensures Valid() && npcs.Keys == old(npcs).Keys && npcs[e].crisis == NoCrisis && npcs[e].seat == None
      ensures var need, gain := old(Need(npcs[e], npcs[e].crisis)), old(Gain(npcs[e], furniture));
              && frames > 0 && Level(need, gain, frames) >= RESOLVED
              && (frames > 1 ==> Level(need, gain, frames - 1) < RESOLVED)
    {
      ghost var need, gain, was := Need(npcs[e], npcs[e].crisis), Gain(npcs[e], furniture), npcs[e];
      SomeGain(npcs[e], furniture);
      frames := 0;
      var s := Running;
      while s == Running
        invariant Valid() && npcs.Keys == old(npcs).Keys && s != Failure
        invariant frames > 1 ==> Level(need, gain, frames - 1) < RESOLVED
        invariant s == Running ==>
                    && npcs[e] == was.(hunger := npcs[e].hunger, fatigue := npcs[e].fatigue)
                    && furniture == old(furniture) && Need(npcs[e], was.crisis) == Level(need, gain, frames)
                    && (frames > 0 ==> Level(need, gain, frames) < RESOLVED)
        invariant s == Success ==>
                    && npcs[e].crisis == NoCrisis && npcs[e].seat == None
                    && frames > 0 && Level(need, gain, frames) >= RESOLVED
        decreases s == Running, 40.0 * (FULL + 1.0 - Level(need, gain, frames))
      {
        s := RecoverAtTarget(e);
        frames := frames + 1;
      }
    }

    /** A condition followed by the actions of its sequence, up to the first that does not succeed. */
    method CrisisSequence(e: Entity, kind: Crisis) returns (s: Status)
      requires Valid() && e in npcs && kind != NoCrisis
      modifies this
      ensures Valid() && npcs.Keys == old(npcs).Keys
      ensures forall m :: m in npcs && m != e ==> npcs[m] == old(npcs[m])
      ensures s == Failure <==> !Starts(old(npcs[e]), kind) && old(npcs[e].crisis) != kind
      ensures s == Failure ==> npcs == old(npcs) && furniture == old(furniture)
      ensures s == Running ==> npcs[e].crisis == kind
      ensures s == Success ==> npcs[e].crisis == NoCrisis && old(npcs[e].crisis) == kind
      ensures OwnSeatsOnly(old(furniture), furniture, e, old(npcs[e].seat), npcs[e].seat)
      ensures old(npcs[e].crisis) == kind && HasTarget(old(npcs[e].job)) && !AtTarget(old(npcs[e])) ==>
                npcs == old(npcs)[e := old(npcs[e]).(toil := Moving)] && furniture == old(furniture)
      ensures old(npcs[e].crisis) == kind && HasTarget(old(npcs[e].job)) && AtTarget(old(npcs[e])) ==>
                Served(old(npcs[e]), old(furniture), npcs[e], kind)
      ensures Starts(old(npcs[e]), kind) || (old(npcs[e].crisis) == kind && !HasTarget(old(npcs[e].job))) ==>
                Chosen(old(furniture), old(npcs[e]).(crisis := kind), npcs[e].job.target)
    {
      s := ConditionIsCritical(e, kind);
      if s == Success {
        ghost var n := npcs[e];
        s := SeeToCrisis(e);
        SameChoice(old(furniture), n, old(npcs[e]).(crisis := kind), npcs[e].job.target);
      }
    }

    method ScheduledSequence(e: Entity, kind: Crisis) returns (s: Status)
      requires Valid() && e in npcs && kind != NoCrisis
      modifies this
      ensures Valid() && npcs.Keys == old(npcs).Keys
      ensures forall m :: m in npcs && m != e ==> npcs[m] == old(npcs[m])
      ensures old(npcs[e].crisis) != NoCrisis && old(npcs[e].crisis) != kind ==> s == Failure
      ensures s == Failure ==> npcs == old(npcs) && furniture == old(furniture)
      ensures s != Failure ==> npcs[e].crisis == kind || npcs[e].crisis == NoCrisis
      ensures OwnSeatsOnly(old(furniture), furniture, e, old(npcs[e].seat), npcs[e].seat)
      ensures s == Failure <==> old(npcs[e].crisis) != kind && !Stays(old(npcs[e]), kind)
      ensures s != Failure ==> npcs[e].crisis == kind || Need(npcs[e], kind) >= RESOLVED
    {
      s := ConditionIsScheduled(e, kind);
      if s != Success {
        return;
      }
      s := ActionInteractFurniture(e);
    }

    /**
     One tick of the survival tree; fleeing and fighting come first and leave needs and seats alone. A crisis is never
     exchanged for another, and hunger is seen to before fatigue.
     */
    method TickTree(e: Entity, fightsOrFlees: bool)
      requires Valid() && e in npcs
      modifies this
      ensures Valid() && npcs.Keys == old(npcs).Keys
      ensures forall m :: m in npcs && m != e ==> npcs[m] == old(npcs[m])
      ensures fightsOrFlees || old(npcs[e].busy) ==> npcs == old(npcs) && furniture == old(furniture)
      ensures old(npcs[e].crisis) != NoCrisis ==> npcs[e].crisis == old(npcs[e].crisis) || npcs[e].crisis == NoCrisis
      ensures !fightsOrFlees && !old(npcs[e].busy) ==>
                && (Starts(old(npcs[e]), Hunger) ==> npcs[e].crisis == Hunger)
                && (Starts(old(npcs[e]), Fatigue) && !Starts(old(npcs[e]), Hunger) ==> npcs[e].crisis == Fatigue)
      ensures && !fightsOrFlees && !old(npcs[e].busy)
              && !Starts(old(npcs[e]), Hunger) && !Starts(old(npcs[e]), Fatigue) ==>
                && (Stays(old(npcs[e]), Hunger) ==> npcs[e].crisis == Hunger || npcs[e].hunger >= RESOLVED)
                && (Stays(old(npcs[e]), Fatigue) ==> npcs[e].crisis == Fatigue || npcs[e].fatigue >= RESOLVED)
      ensures && !fightsOrFlees && !old(npcs[e].busy) && old(npcs[e].crisis) != NoCrisis
              && HasTarget(old(npcs[e].job)) && AtTarget(old(npcs[e])) ==>
                Served(old(npcs[e]), old(furniture), npcs[e], old(npcs[e].crisis))
      ensures && !fightsOrFlees && !old(npcs[e].busy) && old(npcs[e].crisis) != NoCrisis
              && HasTarget(old(npcs[e].job)) && !AtTarget(old(npcs[e])) ==>
                npcs == old(npcs)[e := old(npcs[e]).(toil := Moving)] && furniture == old(furniture)
      ensures && old(npcs[e].crisis) == NoCrisis && old(npcs[e].hunger) >= CRITICAL && old(npcs[e].fatigue) >= CRITICAL
              && !Stays(old(npcs[e]), Hunger) && !Stays(old(npcs[e]), Fatigue) ==>
                npcs == old(npcs) && furniture == old(furniture)
      ensures && !fightsOrFlees && !old(npcs[e].busy) && npcs[e].crisis != NoCrisis
              && (Starts(old(npcs[e]), npcs[e].crisis)
                  || (old(npcs[e].crisis) == npcs[e].crisis && !HasTarget(old(npcs[e].job)))) ==>
                Chosen(old(furniture), old(npcs[e]).(crisis := npcs[e].crisis), npcs[e].job.target)
      ensures forall f :: f in old(furniture) && Some(f) != old(npcs[e].seat) && Some(f) != npcs[e].seat ==>
                f in furniture && furniture[f] == old(furniture)[f]
      ensures forall f :: f in furniture && f !in old(furniture) ==>
                && furniture[f].temporary && furniture[f].campName
                && furniture[f].occupiedBy == if npcs[e].seat == Some(f) then Some(e) else None
      ensures forall f :: f in old(furniture) && f in furniture ==>
                furniture[f] == old(furniture)[f].(occupiedBy := furniture[f].occupiedBy)
      ensures forall f :: f in old(furniture) && !old(furniture)[f].temporary ==> f in furniture
      ensures old(npcs[e].seat).Some? && npcs[e].seat != old(npcs[e].seat) ==>
                var f := old(npcs[e].seat.value);
                && npcs[e].seat == None && f in old(furniture)
                && if old(furniture)[f].temporary then f !in furniture
                   else f in furniture && furniture[f].occupiedBy == None
      ensures npcs[e].seat.Some? && npcs[e].seat != old(npcs[e].seat) ==>
                var f := npcs[e].seat.value;
                && f in furniture && furniture[f].occupiedBy == Some(e)
                && (f in old(furniture) ==> old(furniture)[f].occupiedBy == None)
    {
      if npcs[e].busy || fightsOrFlees {
        return;
      }
      var s := CrisisSequence(e, Hunger);
      if s == Failure {
        s := CrisisSequence(e, Fatigue);
      }
      if s == Failure {
        s := ScheduledSequence(e, Hunger);
      }
      if s == Failure {
        s := ScheduledSequence(e, Fatigue);
      }
    }

    /** Needs decay each frame, except the one being resolved or served by a scheduled stay on furniture. */
    method Decay(e: Entity)
      requires Valid() && e in npcs
      modifies `npcs
      ensures Valid() && npcs.Keys == old(npcs).Keys
      ensures npcs == old(npcs)[e := old(npcs[e]).(hunger := npcs[e].hunger, fatigue := npcs[e].fatigue)]
      ensures var n := old(npcs[e]);
              var eats := n.job.active && n.toil == Working && n.job.category == EatJob && n.seat != None;
              npcs[e].hunger == if n.crisis == Hunger || eats then n.hunger
                                else if n.hunger >= 0.045 then n.hunger - 0.045 else 0.0
      ensures var n := old(npcs[e]);
              var sleeps := n.job.active && n.toil == Working && n.job.category == SleepJob && n.seat != None;
              npcs[e].fatigue == if n.crisis == Fatigue || sleeps then n.fatigue
                                 else if n.fatigue >= 0.025 then n.fatigue - 0.025 else 0.0
    {
      var n := npcs[e];
      var scheduledEat := n.job.active && n.toil == Working && n.job.category == EatJob;
      var scheduledSleep := n.job.active && n.toil == Working && n.job.category == SleepJob;
      var skipHunger := (n.resolving && n.crisis == Hunger) || (scheduledEat && n.seat.Some?);
      var skipFatigue := (n.resolving && n.crisis == Fatigue) || (scheduledSleep && n.seat.Some?);
      if !skipHunger {
        n := n.(hunger := Floored(n.hunger - 0.045));
      }
      if !skipFatigue {
        n := n.(fatigue := Floored(n.fatigue - 0.025));
      }
      UnrelatedChangeKeeps(npcs, furniture, e, n);
      npcs := npcs[e := n];
    }

    /** A plan from the server or from elsewhere replaces the job at any moment. */
    method OverwriteJob(e: Entity, job: Job, toil: ToilState, onFloor: bool)
      requires Valid() && e in npcs
      modifies `npcs
      ensures Valid() && npcs == old(npcs)[e := old(npcs[e]).(job := job, toil := toil, onFloor := onFloor)]
    {
      var n := npcs[e].(job := job, toil := toil, onFloor := onFloor);
      UnrelatedChangeKeeps(npcs, furniture, e, n);
      npcs := npcs[e := n];
    }

    /** Movement, by whatever system, to another place, zone or point. */
    method Relocate(e: Entity, zone: int, spot: Spot)
      requires Valid() && e in npcs
      modifies `npcs
      ensures Valid() && npcs == old(npcs)[e := old(npcs[e]).(zone := zone, spot := spot)]
    {
      var n := npcs[e].(zone := zone, spot := spot);
      UnrelatedChangeKeeps(npcs, furniture, e, n);
      npcs := npcs[e := n];
    }

    /** The resolver's first half, for one piece of furniture: clear an owner that is gone or sits elsewhere. */
    method RepairOwner(f: Entity)
      requires f in furniture
      modifies `furniture
      ensures furniture == old(furniture)[f := old(furniture)[f].(occupiedBy := RightfulOwner(npcs, old(furniture), f))]
    {
      var a := furniture[f];
      if a.occupiedBy.Some? {
        var n := a.occupiedBy.value;
        if n !in npcs || npcs[n].seat != Some(f) {
          furniture := furniture[f := a.(occupiedBy := None)];
        }
      }
    }

    /** Its second half, for one NPC: outside a crisis, give back furniture the current job has no use for. */
    method ReturnFurniture(e: Entity)
      requires e in npcs
      modifies `npcs, `furniture
      ensures if MustReturn(old(npcs[e]), old(furniture))
              then npcs == old(npcs)[e := old(npcs[e]).(seat := None)]
                   && furniture == Freed(old(furniture), old(npcs[e]).seat.value)
              else npcs == old(npcs) && furniture == old(furniture)
    {
      var n := npcs[e];
      if n.resolving {
        return;
      }
      if n.seat.Some? {
        var f := n.seat.value;
        var keep := false;
        if n.job.active && n.toil == Working {
          if n.job.category == SleepJob {
            if f in furniture {
              keep := Serves(furniture[f].kind, Fatigue);
            }
          } else if n.job.category == EatJob {
            if f in furniture {
              keep := Serves(furniture[f].kind, Hunger);
            }
          }
        }
        if !keep {
          if f in furniture {
            if furniture[f].campName {
              furniture := furniture - {f};
            } else {
              furniture := furniture[f := furniture[f].(occupiedBy := None)];
            }
          }
          npcs := npcs[e := n.(seat := None)];
        }
      }
    }

    /**
     From any state whatever, ownership claims by furniture are honest afterwards; and in a state the other systems
     can reach there is nothing to repair and nothing to give back.
     */
    method SystemAffordanceResolver()
      modifies `npcs, `furniture
      ensures Owned(npcs, furniture)
      ensures old(Valid()) ==> npcs == old(npcs) && furniture == old(furniture)
      ensures OnlyReturned(old(npcs), old(furniture), npcs, furniture)
      ensures forall m :: m in npcs && npcs[m].seat.Some? && !npcs[m].resolving ==>
                && npcs[m].job.active && npcs[m].toil == Working && npcs[m].seat.value in old(furniture)
                && var kind := old(furniture)[npcs[m].seat.value].kind;
                   || (npcs[m].job.category == SleepJob && Serves(kind, Fatigue))
                   || (npcs[m].job.category == EatJob && Serves(kind, Hunger))
    {
      RepairOwners();
      ghost var repaired := furniture;
      ReturnAll();
      ReturnedAfterRepair(old(npcs), old(furniture), repaired, npcs, furniture);
    }

    method RepairOwners()
      modifies `furniture
      ensures furniture.Keys == old(furniture).Keys && OwnersCleared(old(furniture), furniture)
      ensures Owned(npcs, furniture)
      ensures Owned(npcs, old(furniture)) ==> furniture == old(furniture)
    {
      var todo := furniture.Keys;
      while todo != {}
        invariant todo <= furniture.Keys == old(furniture).Keys && OwnersCleared(old(furniture), furniture)
        invariant forall f :: f in furniture && f !in todo ==> OwnerIsHonest(npcs, furniture, f)
        invariant Owned(npcs, old(furniture)) ==> furniture == old(furniture)
        decreases |todo|
      {
        var f :| f in todo;
        RepairOwner(f);
        todo := todo - {f};
      }
    }

    method ReturnAll()
      requires Owned(npcs, furniture)
      modifies `npcs, `furniture
      ensures Owned(npcs, furniture) && OnlyReturned(old(npcs), old(furniture), npcs, furniture)
      ensures forall m :: m in npcs ==> !MustReturn(npcs[m], old(furniture))
      ensures old(Consistent(npcs, furniture)) ==> npcs == old(npcs) && furniture == old(furniture)
    {
      var todo := npcs.Keys;
      while todo != {}
        invariant todo <= npcs.Keys && Owned(npcs, furniture)
        invariant old(Consistent(npcs, furniture)) ==> npcs == old(npcs) && furniture == old(furniture)
        invariant OnlyReturned(old(npcs), old(furniture), npcs, furniture)
        invariant forall m :: m in npcs && m !in todo ==> !MustReturn(npcs[m], old(furniture))
        decreases |todo|
      {
        var e :| e in todo;
        ReturnKeepsOwned(npcs, furniture, e);
        OneMoreReturned(old(npcs), old(furniture), npcs, furniture, e);
        ReturnFurniture(e);
        todo := todo - {e};
      }
    }
  }

  /** Some pieces may have lost their owner; nothing else about them has changed. */
  ghost predicate OwnersCleared(before: map<Entity, Affordance>, after: map<Entity, Affordance>) {
    forall f :: f in after ==>
      f in before && (after[f] == before[f] || after[f] == before[f].(occupiedBy := None))
  }

  /** Some NPCs outside a crisis have given back their seats; what was taken down for that was named a camp. */
  ghost predicate OnlyReturned(npcs0: map<Entity, Npc>, furniture0: map<Entity, Affordance>,
                               npcs: map<Entity, Npc>, furniture: map<Entity, Affordance>)
  {
    && npcs.Keys == npcs0.Keys && OwnersCleared(furniture0, furniture)
    && (forall m :: m in npcs ==>
          npcs[m] == npcs0[m] || (!npcs0[m].resolving && npcs[m] == npcs0[m].(seat := None)))
    && (forall f :: f in furniture0 && f !in furniture ==>
          furniture0[f].campName && exists m :: m in npcs && npcs[m].seat == None && npcs0[m].seat == Some(f))
  }

  lemma ReturnedAfterRepair(npcs0: map<Entity, Npc>, furniture0: map<Entity, Affordance>,
                            repaired: map<Entity, Affordance>,
                            npcs: map<Entity, Npc>, furniture: map<Entity, Affordance>)
    requires repaired.Keys == furniture0.Keys && OwnersCleared(furniture0, repaired)
    requires OnlyReturned(npcs0, repaired, npcs, furniture)
    ensures OnlyReturned(npcs0, furniture0, npcs, furniture)
  {}

  lemma OneMoreReturned(npcs0: map<Entity, Npc>, furniture0: map<Entity, Affordance>,
                        npcs: map<Entity, Npc>, furniture: map<Entity, Affordance>, e: Entity)
    requires OnlyReturned(npcs0, furniture0, npcs, furniture) && e in npcs
    ensures MustReturn(npcs[e], furniture) ==>
              OnlyReturned(npcs0, furniture0, npcs[e := npcs[e].(seat := None)],
                           Freed(furniture, npcs[e].seat.value))
    ensures !MustReturn(npcs[e], furniture) ==> !MustReturn(npcs[e], furniture0)
  {
    if MustReturn(npcs[e], furniture) {
      var seat := npcs[e].seat.value;
      var now, left := npcs[e := npcs[e].(seat := None)], Freed(furniture, seat);
      forall f | f in furniture0 && f !in left
        ensures furniture0[f].campName && exists m :: m in now && now[m].seat == None && npcs0[m].seat == Some(f)
      {
        if f !in furniture {
          var m :| m in npcs && npcs[m].seat == None && npcs0[m].seat == Some(f);
          assert m in now && now[m].seat == None;
        } else {
          assert e in now && now[e].seat == None && npcs0[e].seat == Some(f);
        }
      }
    }
  }

  /** Outside any crisis, with the need below its limit. */
  predicate Starts(n: Npc, kind: Crisis) {
    n.crisis == NoCrisis && Need(n, kind) < CRITICAL
  }

  function Gain(n: Npc, furniture: map<Entity, Affordance>): real {
    Recovery(n.crisis, if n.seat.Some? && n.seat.value in furniture then Some(furniture[n.seat.value]) else None)
  }

  /** One eats at what is for eating, drinking or sitting, and sleeps on what is for sleeping or sitting. */
  lemma WhatServes(a: Affordance)
    ensures Serves(a.kind, Hunger) <==> a.kind in {Eat, Drink, Sit}
    ensures Serves(a.kind, Fatigue) <==> a.kind in {Sleep, Sit}
    ensures !Serves(a.kind, NoCrisis)
  {}

  /** What a frame brings: more on furniture than on the floor, more on lasting furniture than in a camp. */
  lemma RecoveryOrder(crisis: Crisis, a: Affordance)
    requires crisis != NoCrisis && Serves(a.kind, crisis)
    ensures Recovery(crisis, None) == if crisis == Hunger then 0.125 else 0.025
    ensures Recovery(crisis, None) < Recovery(crisis, Some(a))
    ensures Recovery(crisis, Some(a.(temporary := true))) < Recovery(crisis, Some(a.(temporary := false)))
    ensures crisis == Hunger ==> Recovery(crisis, Some(a)) == if a.temporary then 0.25 else 0.5
    ensures crisis == Fatigue && !a.temporary ==>
              Recovery(crisis, Some(a)) == if a.kind == Sleep then 0.125 else 0.083
    ensures crisis == Fatigue && a.temporary ==> Recovery(crisis, Some(a)) == 0.0625
  {}

  lemma SomeGain(n: Npc, furniture: map<Entity, Affordance>)
    requires n.crisis != NoCrisis
    ensures 0.025 <= Gain(n, furniture) <= 0.5
  {}

  /** A need after so many frames that each gain as much. */
  function Level(need: real, gain: real, frames: nat): real {
    if frames == 0 then need else Level(need, gain, frames - 1) + gain
  }

  lemma {:induction false} LevelIsLinear(need: real, gain: real, frames: nat)
    ensures Level(need, gain, frames) == need + frames as real * gain
  {
    if frames > 0 {
      LevelIsLinear(need, gain, frames - 1);
      assert frames as real == (frames - 1) as real + 1.0;
    }
  }

  /** With a place taken, be it the floor. */
  predicate Settled(n: Npc) {
    n.seat.Some? || n.onFloor
  }

  /** At work on a meal or a sleep of its plan, at the place of that job. */
  predicate Stays(n: Npc, kind: Crisis) {
    && n.crisis == NoCrisis && n.job.active && n.job.category == (if kind == Hunger then EatJob else SleepJob)
    && n.toil == Working && n.spot.place == n.job.target.place
  }

  /** An NPC at its target takes a place; once it has one it recovers, and its crisis ends when it has recovered. */
  predicate Served(was: Npc, furniture: map<Entity, Affordance>, now: Npc, kind: Crisis) {
    if Settled(was) then
      && Need(now, kind) == Capped(Need(was, kind) + Gain(was, furniture))
      && (now.crisis == if Need(now, kind) >= RESOLVED then NoCrisis else kind)
    else now.crisis == kind && Settled(now) && Need(now, kind) == Need(was, kind)
  }

  /**
   How furniture may change while NPC e goes from one seat to another: every other piece stays as it is, new pieces are
   camps, a seat taken was free, a seat left is free again or, if temporary, gone.
   */
  ghost predicate OwnSeatsOnly(before: map<Entity, Affordance>, after: map<Entity, Affordance>, e: Entity,
                               from: Option<Entity>, to: Option<Entity>)
  {
    && (forall f :: f in before && Some(f) != from && Some(f) != to ==> f in after && after[f] == before[f])
    && (forall f :: f in after && f !in before ==>
          && after[f].temporary && after[f].campName
          && after[f].occupiedBy == if to == Some(f) then Some(e) else None)
    && (forall f :: f in before && f in after ==> after[f] == before[f].(occupiedBy := after[f].occupiedBy))
    && (forall f :: f in before && !before[f].temporary ==> f in after)
    && (from.Some? && from.value in before && to != from ==>
          && to == None
          && if before[from.value].temporary then from.value !in after
             else from.value in after && after[from.value].occupiedBy == None)
    && (to.Some? && to != from ==>
          && to.value in after && after[to.value].occupiedBy == Some(e)
          && (to.value in before ==> before[to.value].occupiedBy == None))
    && (to.Some? && to == from && to.value in before ==> to.value in after && after[to.value] == before[to.value])
  }

  lemma CampsOnly(before: map<Entity, Affordance>, after: map<Entity, Affordance>, e: Entity, n: Npc)
    requires after == before || exists f: Entity :: f !in before && after == before[f := Camp(n)]
    requires n.seat.Some? ==> n.seat.value in before
    ensures OwnSeatsOnly(before, after, e, n.seat, n.seat)
  {}

  lemma ClaimsOnly(before: map<Entity, Affordance>, after: map<Entity, Affordance>, e: Entity, n: Npc, f: Entity)
    requires if f in before then before[f].occupiedBy == None && after == before[f := before[f].(occupiedBy := Some(e))]
             else after == before[f := Camp(n).(occupiedBy := Some(e))]
    ensures OwnSeatsOnly(before, after, e, None, Some(f))
  {}

  lemma LeavesOnly(before: map<Entity, Affordance>, after: map<Entity, Affordance>, e: Entity, f: Entity)
    requires f in before
    requires after == if before[f].temporary then before - {f} else before[f := before[f].(occupiedBy := None)]
    ensures OwnSeatsOnly(before, after, e, Some(f), None)
  {}

  /** Setting up a camp and then taking or leaving a seat. */
  lemma OwnSeatsAfterCamp(a: map<Entity, Affordance>, b: map<Entity, Affordance>, c: map<Entity, Affordance>,
                          e: Entity, from: Option<Entity>, to: Option<Entity>)
    requires OwnSeatsOnly(a, b, e, from, from) && OwnSeatsOnly(b, c, e, from, to)
    requires from.Some? ==> from.value in a
    ensures OwnSeatsOnly(a, c, e, from, to)
  {}

  /** On the way to a spot. */
  function Headed(n: Npc, target: Spot): Npc {
    n.(job := n.job.(target := target), toil := Idle)
  }

  predicate OwnerIsHonest(npcs: map<Entity, Npc>, furniture: map<Entity, Affordance>, f: Entity)
    requires f in furniture
  {
    match furniture[f].occupiedBy
    case None => true
    case Some(n) => n in npcs && npcs[n].seat == Some(f)
  }

  function RightfulOwner(npcs: map<Entity, Npc>, furniture: map<Entity, Affordance>, f: Entity): Option<Entity>
    requires f in furniture
  {
    if OwnerIsHonest(npcs, furniture, f) then furniture[f].occupiedBy else None
  }

  /** The furniture once f was given back: what is named a camp is taken down, anything else is free again. */
  function Freed(furniture: map<Entity, Affordance>, f: Entity): map<Entity, Affordance> {
    if f !in furniture then furniture
    else if furniture[f].campName then furniture - {f}
    else furniture[f := furniture[f].(occupiedBy := None)]
  }

  /** Outside a crisis a seat is kept only for an active meal or sleep that it serves. */
  predicate MustReturn(n: Npc, furniture: map<Entity, Affordance>) {
    !n.resolving && n.seat.Some? &&
    !(n.job.active && n.toil == Working && n.job.category != OtherJob && n.seat.value in furniture
      && Serves(furniture[n.seat.value].kind, if n.job.category == SleepJob then Fatigue else Hunger))
  }

  lemma ReturnKeepsOwned(npcs: map<Entity, Npc>, furniture: map<Entity, Affordance>, e: Entity)
    requires Owned(npcs, furniture) && e in npcs
    ensures npcs[e].seat.Some? ==> Owned(npcs[e := npcs[e].(seat := None)], Freed(furniture, npcs[e].seat.value))
  {}

  lemma UnseatedKeeps(npcs: map<Entity, Npc>, furniture: map<Entity, Affordance>, e: Entity, n: Npc)
    requires Consistent(npcs, furniture) && e in npcs && npcs[e].seat == None && Sane(n) && n.seat == None
    ensures Consistent(npcs[e := n], furniture)
  {}
}
