/** The queue object in place, one side at a time: its three calls are runs of the atomic actions. */
module SpscRing {
  import opened SpscQueue

  class Ring<T(0)> {
    const ring: nat
    const slots: array<Slot<T>>
    var writeIdx: nat
    var readIdxCache: nat
    var readIdx: nat
    var writeIdxCache: nat

    ghost var producing: Producer<T>
    ghost var holding: bool
    ghost var produced: seq<T>
    ghost var consumed: seq<T>
    ghost var poppedSeen: nat
    ghost var pushedSeen: nat

    /** The object as a state of the interleaving machine, with the consumer between two calls. */
    ghost function View(): Queue<T>
      reads this, slots
    {
      Queue(ring, slots[..], writeIdx, readIdxCache, readIdx, writeIdxCache,
            producing, if holding then Holding else Looking, produced, consumed, poppedSeen, pushedSeen)
    }

    ghost predicate Valid()
      reads this, slots
    {
      Inv(View())
    }

    ghost function Contents(): seq<T>
      requires Valid()
      reads this, slots
    {
      produced[|consumed|..]
    }

    constructor (capacity: nat)
      ensures Valid() && View() == Init(capacity)
    {
      ring := capacity + 1;
      slots := new Slot<T>[capacity + 1](_ => Raw);
      writeIdx, readIdxCache, readIdx, writeIdxCache := 0, 0, 0, 0;
      producing, holding, produced, consumed, poppedSeen, pushedSeen := Resting, false, [], [], 0, 0;
      new;
      InitInv<T>(capacity);
      assert slots[..] == Init<T>(capacity).slots;
    }

    /** Items published and not yet taken. */
    ghost function Held(): int
      reads this
    {
      |produced| - |consumed|
    }

    /**
     Appends one item. While the queue is full the producer spins and the consumer takes items beside it; the spinning
     ends because the consumer stays idle for a bounded number of looks only.
     */
    method Emplace(x: T, patience: nat)
      requires Valid() && producing.Resting? && ring > 1
      modifies this, slots
      ensures Valid() && producing.Resting?
      ensures produced == old(produced) + [x] && old(consumed) <= consumed
      ensures old(Held()) < ring - 1 ==> consumed == old(consumed) && Contents() == old(Contents()) + [x]
    {
      var w := writeIdx;
      var next := w + 1;
      if next == ring {
        next := 0;
      }
      Begins(x, next);
      AwaitRoom(next, patience);
      Store(x, w, next);
    }

    /** The call begins: its item is pending. */
    ghost method Begins(x: T, next: nat)
      requires Valid() && producing.Resting? && next == Next(View(), writeIdx)
      modifies `producing
      ensures Valid() && producing == Waiting(x, next)
    {
      StepInv(View(), Begin(x));
      ghost var begun := Step(View(), Begin(x));
      producing := Waiting(x, next);
      assert View() == begun;
    }

    /** The spin loop. */
    method AwaitRoom(next: nat, patience: nat)
      requires Valid() && producing.Waiting? && next == producing.next && ring > 1
      modifies `readIdxCache, `poppedSeen, `writeIdxCache, `pushedSeen, `holding, `readIdx, `consumed, slots
      ensures Valid() && next != readIdxCache && old(consumed) <= consumed
      ensures old(Held()) < ring - 1 ==> consumed == old(consumed)
    {
      var left := patience;
      while next == readIdxCache
        invariant Valid() && old(consumed) <= consumed
        invariant old(Held()) < ring - 1 ==> consumed == old(consumed)
        decreases left + (if Held() < ring - 1 then 0 else 1), if next == readIdxCache then 1 else 0
      {
        LookAgain();
        if next == readIdxCache {
          var idle: bool := *;
          if idle && left > 0 {
            left := left - 1;
          } else {
            ConsumerTakes();
          }
        }
      }
    }

    /** The other side calls front and then pop. */
    method ConsumerTakes()
      requires Valid() && Held() > 0
      modifies `writeIdxCache, `pushedSeen, `holding, `readIdx, `consumed, slots
      ensures Valid() && old(consumed) <= consumed && |consumed| == |old(consumed)| + 1
    {
      var _ := FrontItem();
      Pop();
    }

    /** Loads the read index; it still bars the producer exactly when the queue is full. */
    method LookAgain()
      requires Valid() && Enabled(View(), Refresh)
      modifies `readIdxCache, `poppedSeen
      ensures Valid() && (producing.next == readIdxCache <==> Held() == ring - 1)
    {
      ghost var st := View();
      BlockedIffFull(st);
      StepInv(st, Refresh);
      readIdxCache := readIdx;
      poppedSeen := Pops(st);
      assert View() == Step(st, Refresh);
    }

    /** Builds the item in its slot and publishes it. */
    method Store(x: T, w: nat, next: nat)
      requires Valid() && Enabled(View(), Construct) && w == writeIdx && producing == Waiting(x, next)
      modifies `writeIdx, `producing, `produced, slots
      ensures Valid() && producing.Resting? && produced == old(produced) + [x]
    {
      ghost var st := View();
      StepInv(st, Construct);
      ghost var built := Step(st, Construct);
      slots[w] := Live(x);
      StepInv(built, Publish);
      writeIdx := next;
      producing := Resting;
      produced := produced + [x];
      assert View() == Step(built, Publish);
    }

    method FrontItem() returns (r: Slot<T>)
      requires Valid()
      modifies `writeIdxCache, `pushedSeen, `holding
      ensures Valid() && Contents() == old(Contents())
      ensures if Contents() == [] then r == Raw && !holding else r == Live(Contents()[0]) && holding
    {
      ghost var st := Step(View(), Front);
      StepInv(View(), Front);
      if readIdx == writeIdxCache {
        EmptyHandedIffDrained(st);
        StepInv(st, Reload);
        st := Step(st, Reload);
        writeIdxCache := writeIdx;
        pushedSeen := |produced|;
        if writeIdxCache == readIdx {
          holding := false;
          assert View() == st;
          return Raw;
        }
      }
      holding := true;
      assert View() == st;
      HeldSlotIsOldest(st);
      r := slots[readIdx];
    }

    method Pop()
      requires Valid() && holding
      modifies `readIdx, `consumed, `holding, slots
      ensures Valid() && !holding
      ensures old(Contents()) != [] && Contents() == old(Contents())[1..]
      ensures consumed == old(consumed) + [old(Contents())[0]]
    {
      ghost var st := View();
      HeldSlotIsOldest(st);
      StepInv(st, Destroy);
      st := Step(st, Destroy);
      slots[readIdx] := Raw;
      var next := readIdx + 1;
      if next == ring {
        next := 0;
      }
      StepInv(st, Advance);
      st := Step(st, Advance);
      readIdx := next;
      consumed := st.consumed;
      holding := false;
      assert View() == st;
    }
  }
}
