/**
 The single-producer single-consumer ring: every atomic action of emplace, front and pop is one step, and the two sides
 interleave freely. Each side decides from its own stale copy of the other side's index.
 */
module SpscQueue {
  import opened Arith

  datatype Slot<T> = Raw | Live(value: T)

  datatype Producer<T> = Resting | Waiting(item: T, next: nat) | Constructed(item: T, next: nat)

  datatype Consumer = Looking | Reloading | Holding | Destroyed(next: nat)

  /**
   ring is the slot count, one more than the capacity. produced and consumed are the values published and taken so far;
   poppedSeen and pushedSeen count the pops and pushes behind the two cached indices.
   */
  datatype Queue<T> = Queue(
    ring: nat,
    slots: seq<Slot<T>>,
    writeIdx: nat, readIdxCache: nat,
    readIdx: nat, writeIdxCache: nat,
    producer: Producer<T>, consumer: Consumer,
    produced: seq<T>, consumed: seq<T>,
    poppedSeen: nat, pushedSeen: nat)

  function Init<T>(capacity: nat): Queue<T> {
    Queue(capacity + 1, seq(capacity + 1, _ => Raw), 0, 0, 0, 0, Resting, Looking, [], [], 0, 0)
  }

  function Capacity<T>(q: Queue<T>): int {
    q.ring - 1
  }

  datatype Action<T> =
    | Begin(item: T)   // emplace is called: own index read, next index computed
    | Refresh          // emplace: next index equals the cached read index, so that is loaded again
    | Construct        // emplace: next index differs from the cached read index, the item is built in its slot
    | Publish          // emplace: the write index is stored
    | Front            // front is called: own index compared with the cached write index
    | Reload           // front: the write index is loaded and compared again
    | Destroy          // pop: the item leaves its slot
    | Advance          // pop: the read index is stored

  function Next<T>(q: Queue<T>, i: nat): nat {
    if i + 1 == q.ring then 0 else i + 1
  }

  predicate Enabled<T(==)>(q: Queue<T>, a: Action<T>) {
    match a
    case Begin(_) => q.producer.Resting?
    case Refresh => q.producer.Waiting? && q.producer.next == q.readIdxCache
    case Construct => q.producer.Waiting? && q.producer.next != q.readIdxCache
    case Publish => q.producer.Constructed?
    case Front => q.consumer.Looking? || q.consumer.Holding?
    case Reload => q.consumer.Reloading?
    case Destroy => q.consumer.Holding?
    case Advance => q.consumer.Destroyed?
  }

  /** Pops whose read index has been stored. */
  function Pops<T>(q: Queue<T>): int {
    if q.consumer.Destroyed? then |q.consumed| - 1 else |q.consumed|
  }

  function Step<T(==)>(q: Queue<T>, a: Action<T>): Queue<T>
    requires Inv(q) && Enabled(q, a)
  {
    match a
    case Begin(x) => q.(producer := Waiting(x, Next(q, q.writeIdx)))
    case Refresh => q.(readIdxCache := q.readIdx, poppedSeen := Pops(q))
    case Construct =>
      q.(slots := q.slots[q.writeIdx := Live(q.producer.item)],
         producer := Constructed(q.producer.item, q.producer.next))
    case Publish =>
      q.(writeIdx := q.producer.next, producer := Resting, produced := q.produced + [q.producer.item])
    case Front => q.(consumer := if q.readIdx == q.writeIdxCache then Reloading else Holding)
    case Reload =>
      q.(writeIdxCache := q.writeIdx, pushedSeen := |q.produced|,
         consumer := if q.writeIdx == q.readIdx then Looking else Holding)
    case Destroy =>
      assert q.slots[q.readIdx].Live? by { HeldSlotIsOldest(q); }
      q.(slots := q.slots[q.readIdx := Raw], consumed := q.consumed + [q.slots[q.readIdx].value],
         consumer := Destroyed(Next(q, q.readIdx)))
    case Advance => q.(readIdx := q.consumer.next, consumer := Looking)
  }

  // ---- The invariant

  /** Items built so far, published or not. */
  function Built<T>(q: Queue<T>): seq<T> {
    if q.producer.Constructed? then q.produced + [q.producer.item] else q.produced
  }

  ghost predicate Indices<T>(q: Queue<T>) {
    && q.ring > 0 && Pops(q) >= 0
    && q.writeIdx == |q.produced| % q.ring
    && q.readIdx == Pops(q) % q.ring
    && q.readIdxCache == q.poppedSeen % q.ring
    && q.writeIdxCache == q.pushedSeen % q.ring
    && q.poppedSeen <= Pops(q) <= q.pushedSeen <= |q.produced| <= |Built(q)| < q.poppedSeen + q.ring
  }

  ghost predicate Sides<T>(q: Queue<T>)
    requires q.ring > 0
  {
    && (!q.producer.Resting? ==> q.producer.next == (|q.produced| + 1) % q.ring)
    && (q.consumer.Reloading? ==> q.pushedSeen == Pops(q))
    && (q.consumer.Holding? || q.consumer.Destroyed? ==> Pops(q) < q.pushedSeen)
    && (q.consumer.Destroyed? ==> q.consumer.next == (Pops(q) + 1) % q.ring)
  }

  /** The live slots hold exactly the items built and not yet taken, each at its own position of the ring. */
  ghost predicate Slots<T>(q: Queue<T>)
    requires q.ring > 0
  {
    && |q.slots| == q.ring
    && |q.consumed| <= |q.produced| && q.consumed == q.produced[..|q.consumed|]
    && (forall k :: |q.consumed| <= k < |Built(q)| ==> q.slots[k % q.ring] == Live(Built(q)[k]))
    && (forall k :: |Built(q)| <= k < |q.consumed| + q.ring ==> q.slots[k % q.ring] == Raw)
  }

  ghost predicate Inv<T>(q: Queue<T>) {
    Indices(q) && Sides(q) && Slots(q)
  }

  lemma InitInv<T>(capacity: nat)
    ensures Inv(Init<T>(capacity))
  {}

  /** front never hands out an unwritten slot: the slot at the read index holds the oldest item not yet taken. */
  lemma HeldSlotIsOldest<T>(q: Queue<T>)
    requires Inv(q) && q.consumer.Holding?
    ensures |q.consumed| < |q.produced| && q.slots[q.readIdx] == Live(q.produced[|q.consumed|])
  {
    assert q.slots[|q.consumed| % q.ring] == Live(Built(q)[|q.consumed|]);
  }

  /** emplace never overwrites a live slot, although it looked at an old read index. */
  lemma ConstructTakesRawSlot<T>(q: Queue<T>)
    requires Inv(q) && Enabled(q, Construct)
    ensures q.slots[q.writeIdx] == Raw
    ensures |q.produced| + 1 < q.poppedSeen + q.ring
  {
    ModPeriod(q.poppedSeen, q.ring);
    assert q.slots[|Built(q)| % q.ring] == Raw;
  }

  // ---- Every step keeps the invariant

  lemma ConstructInv<T>(q: Queue<T>)
    requires Inv(q) && Enabled(q, Construct)
    ensures Inv(Step(q, Construct))
  {
    ConstructTakesRawSlot(q);
    var r := Step(q, Construct);
    var m := |q.produced|;
    forall k | |q.consumed| <= k < |q.consumed| + q.ring && k != m
      ensures r.slots[k % q.ring] == q.slots[k % q.ring]
    {
      if k < m {
        ModSame(k, m, q.ring);
      } else {
        ModSame(m, k, q.ring);
      }
    }
  }

  lemma DestroyInv<T>(q: Queue<T>)
    requires Inv(q) && Enabled(q, Destroy)
    ensures Inv(Step(q, Destroy))
  {
    HeldSlotIsOldest(q);
    var r := Step(q, Destroy);
    var m := |q.consumed|;
    ModNext(m, q.ring);
    ModPeriod(m, q.ring);
    forall k | m < k < m + q.ring
      ensures r.slots[k % q.ring] == q.slots[k % q.ring]
    {
      ModSame(m, k, q.ring);
    }
  }

  /** Whichever side moves, and whatever it last saw of the other, the invariant survives. */
  lemma StepInv<T>(q: Queue<T>, a: Action<T>)
    requires Inv(q) && Enabled(q, a)
    ensures Inv(Step(q, a))
  {
    match a
    case Begin(_) => ModNext(|q.produced|, q.ring);
    case Refresh =>
    case Construct => ConstructInv(q);
    case Publish =>
    case Front => ModSame(Pops(q), q.pushedSeen, q.ring);
    case Reload => ModSame(Pops(q), |q.produced|, q.ring);
    case Destroy => DestroyInv(q);
    case Advance =>
  }

  // ---- Runs

  /** The states of a run: each action is enabled where it is taken. */
  ghost predicate Schedule<T>(capacity: nat, actions: seq<Action<T>>)
    decreases |actions|, 0
  {
    |actions| > 0 ==>
      var front := actions[..|actions| - 1];
      Schedule(capacity, front) && Enabled(Run(capacity, front), actions[|actions| - 1])
  }

  ghost function Run<T>(capacity: nat, actions: seq<Action<T>>): (q: Queue<T>)
    requires Schedule(capacity, actions)
    ensures Inv(q) && q.ring == capacity + 1
    decreases |actions|, 1
  {
    if |actions| == 0 then
      InitInv<T>(capacity);
      Init(capacity)
    else
      var q := Run(capacity, actions[..|actions| - 1]);
      StepInv(q, actions[|actions| - 1]);
      Step(q, actions[|actions| - 1])
  }

  /** The items emplace was called with, in order. */
  ghost function Requested<T>(actions: seq<Action<T>>): seq<T> {
    if |actions| == 0 then []
    else
      var a := actions[|actions| - 1];
      Requested(actions[..|actions| - 1]) + (if a.Begin? then [a.item] else [])
  }

  /** Published and pending items, in order. */
  function Accepted<T>(q: Queue<T>): seq<T> {
    if q.producer.Resting? then q.produced else q.produced + [q.producer.item]
  }

  /** Only the beginning of a call adds to them. */
  lemma StepAccepts<T>(q: Queue<T>, a: Action<T>)
    requires Inv(q) && Enabled(q, a)
    ensures Accepted(Step(q, a)) == if a.Begin? then Accepted(q) + [a.item] else Accepted(q)
  {}

  /** Nothing is lost, repeated or reordered on the way in. */
  lemma {:induction false} ProducedInOrder<T>(capacity: nat, actions: seq<Action<T>>)
    requires Schedule(capacity, actions)
    ensures Accepted(Run(capacity, actions)) == Requested(actions)
    decreases |actions|
  {
    if |actions| > 0 {
      var front, a := actions[..|actions| - 1], actions[|actions| - 1];
      ProducedInOrder(capacity, front);
      StepAccepts(Run(capacity, front), a);
      assert a.Begin? || Requested(front) + [] == Requested(front);
    }
  }

  /** First in, first out over every interleaving, with never more than the capacity in the ring. */
  lemma Fifo<T>(capacity: nat, actions: seq<Action<T>>)
    requires Schedule(capacity, actions)
    ensures var q := Run(capacity, actions);
            && q.consumed <= Requested(actions)
            && |q.consumed| <= |q.produced|
            && |Built(q)| - |q.consumed| <= capacity
  {
    ProducedInOrder(capacity, actions);
  }

  // ---- What the stale indices decide

  /** A producer that looks again is held up exactly when all its capacity is taken by items not yet released. */
  lemma BlockedIffFull<T>(q: Queue<T>)
    requires Inv(q) && Enabled(q, Refresh)
    ensures Enabled(Step(q, Refresh), Refresh) <==> |q.produced| - Pops(q) == Capacity(q)
    ensures Enabled(Step(q, Refresh), Construct) <==> |q.produced| - Pops(q) < Capacity(q)
  {
    ModPeriod(Pops(q), q.ring);
    if |q.produced| + 1 < Pops(q) + q.ring {
      ModSame(Pops(q), |q.produced| + 1, q.ring);
    }
  }

  /** front answers "nothing" exactly when it has just seen that everything published was taken. */
  lemma EmptyHandedIffDrained<T>(q: Queue<T>)
    requires Inv(q) && Enabled(q, Reload)
    ensures Step(q, Reload).consumer.Looking? <==> q.consumed == q.produced
  {
    ModSame(Pops(q), |q.produced|, q.ring);
  }

  /** The size computed from the two indices, an underflow corrected by the ring length. */
  function Size<T>(q: Queue<T>): int {
    if q.writeIdx < q.readIdx then q.writeIdx - q.readIdx + q.ring else q.writeIdx - q.readIdx
  }

  /** With both sides at rest the computed size is the number of items in the queue. */
  lemma SizeAtRest<T>(q: Queue<T>)
    requires Inv(q) && !q.consumer.Destroyed?
    ensures Size(q) == |q.produced| - |q.consumed|
    ensures q.writeIdx == q.readIdx <==> q.consumed == q.produced
  {
    SizeOfWindow(Pops(q), |q.produced|, q.ring);
    ModSame(Pops(q), |q.produced|, q.ring);
  }

  lemma SizeOfWindow(a: int, b: int, n: int)
    requires n > 0 && 0 <= a <= b < a + n
    ensures (if b % n < a % n then b % n - a % n + n else b % n - a % n) == b - a
  {
    var r := a % n + (b - a);
    if r < n {
      DivModUnique(b, n, a / n, r);
    } else {
      assert (a / n + 1) * n == a / n * n + n;
      DivModUnique(b, n, a / n + 1, r - n);
    }
  }
}
