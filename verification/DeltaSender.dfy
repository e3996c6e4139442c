/** The profiler's dequeue loops in place: local references during a batch, written back when it ends. */
module DeltaSender {
  import opened DeltaCoding

  class Profiler {
    var threadCtx: int
    var refTimeThread: int
    var refTimeCtx: int
    var refTimeGpu: int
    var refTimeSerial: int
    var sent: seq<Packet>

    ghost function View(): Clocks
      reads this
    {
      Clocks(threadCtx, refTimeThread, refTimeCtx, refTimeGpu, refTimeSerial)
    }

    constructor ()
      ensures View() == FRESH && sent == []
    {
      threadCtx, refTimeThread, refTimeCtx, refTimeGpu, refTimeSerial, sent := 0, 0, 0, 0, 0, [];
    }

    /** A new connection: its stream is empty and everything but the thread reference is cleared. */
    method Accept()
      modifies this
      ensures View() == Connect(old(View())) && sent == []
    {
      threadCtx, refTimeSerial, refTimeCtx, refTimeGpu, sent := 0, 0, 0, 0, [];
    }

    method ThreadCtxCheck(threadId: int) returns (changed: bool)
      modifies this
      ensures var b := FromThread(threadId, []);
              && View() == Switch(old(View()), b)
              && sent == old(sent) + SwitchPackets(old(View()), b)
              && (changed <==> threadId != old(threadCtx))
    {
      if threadCtx == threadId {
        return false;
      }
      sent := sent + [Context(threadId)];
      threadCtx := threadId;
      refTimeThread := 0;
      return true;
    }

    /** A batch of one producer thread. */
    method Dequeue(thread: int, items: seq<Item>)
      requires WellTyped(FromThread(thread, items))
      modifies this
      ensures View() == AfterBatch(old(View()), FromThread(thread, items))
      ensures sent == old(sent) + BatchCoded(old(View()), FromThread(thread, items))
    {
      var _ := ThreadCtxCheck(thread);
      DequeueItems(items);
    }

    /**
     The type switch of the thread path. A receiver whose clocks are those of the sender gets back the item, and its
     clocks are the sender's again.
     */
    static method CodeOne(it: Item, rt: int, rc: int, rg: int, ghost thread: int, ghost rs: int)
      returns (p: Packet, refThread: int, refCtx: int, refGpu: int)
      requires ThreadType(it.kind)
      ensures var c := Clocks(thread, rt, rc, rg, rs);
              Recovers(c, p, it) && AfterPacket(c, p) == Clocks(thread, refThread, refCtx, refGpu, rs)
    {
      var stamp := it.time;
      refThread, refCtx, refGpu := rt, rc, rg;
      match it.kind {
        case ZoneBeginAllocSrcLoc | ZoneBeginAllocSrcLocCallstack
           | ZoneBegin | ZoneBeginCallstack | ZoneEnd
           | GpuZoneBegin | GpuZoneBeginCallstack
           | GpuZoneBeginAllocSrcLoc | GpuZoneBeginAllocSrcLocCallstack | GpuZoneEnd
           | PlotDataInt | PlotDataFloat | PlotDataDouble =>
          stamp := it.time - refThread;
          refThread := it.time;
        case CallstackSample | CallstackSampleContextSwitch | ContextSwitch | ThreadWakeup =>
          stamp := it.time - refCtx;
          refCtx := it.time;
        case GpuTime =>
          stamp := it.time - refGpu;
          refGpu := it.time;
        case _ =>
      }
      p := Data(it.kind, stamp, it.body);
    }

    method DequeueItems(items: seq<Item>)
      requires forall k :: 0 <= k < |items| ==> ThreadType(items[k].kind)
      modifies this
      ensures View() == AfterItems(old(View()), items)
      ensures sent == old(sent) + ItemsCoded(old(View()), items)
    {
      ghost var c0, sent0 := View(), sent;
      var refThread, refCtx, refGpu := refTimeThread, refTimeCtx, refTimeGpu;
      for i := 0 to |items|
        invariant View() == c0 && sent == sent0 + ItemsCoded(c0, items[..i])
        invariant AfterItems(c0, items[..i]) == Clocks(threadCtx, refThread, refCtx, refGpu, refTimeSerial)
      {
        CodedSnoc(c0, items[..i], items[i]);
        assert items[..i + 1] == items[..i] + [items[i]];
        var p;
        ghost var c := Clocks(threadCtx, refThread, refCtx, refGpu, refTimeSerial);
        p, refThread, refCtx, refGpu := CodeOne(items[i], refThread, refCtx, refGpu, threadCtx, refTimeSerial);
        RecoveringIsCoding(c, p, items[i]);
        sent := sent + [p];
      }
      assert items[..|items|] == items;
      refTimeThread, refTimeCtx, refTimeGpu := refThread, refCtx, refGpu;
    }

    /** The serial queue: its own clock, and the GPU clock it shares with the thread queues. */
    method DequeueSerial(items: seq<Item>)
      requires WellTyped(FromSerial(items))
      modifies this
      ensures View() == AfterBatch(old(View()), FromSerial(items))
      ensures sent == old(sent) + BatchCoded(old(View()), FromSerial(items))
    {
      NoSwitch(View(), FromSerial(items));
      DequeueSerialItems(items);
    }

    method DequeueSerialItems(items: seq<Item>)
      requires forall k :: 0 <= k < |items| ==> SerialType(items[k].kind)
      modifies this
      ensures View() == AfterItems(old(View()), items)
      ensures sent == old(sent) + ItemsCoded(old(View()), items)
    {
      ghost var c0, sent0 := View(), sent;
      var refSerial, refGpu := refTimeSerial, refTimeGpu;
      for i := 0 to |items|
        invariant View() == c0 && sent == sent0 + ItemsCoded(c0, items[..i])
        invariant AfterItems(c0, items[..i]) == Clocks(threadCtx, refTimeThread, refTimeCtx, refGpu, refSerial)
      {
        CodedSnoc(c0, items[..i], items[i]);
        assert items[..i + 1] == items[..i] + [items[i]];
        var p;
        ghost var c := Clocks(threadCtx, refTimeThread, refTimeCtx, refGpu, refSerial);
        p, refSerial, refGpu := CodeSerial(items[i], refSerial, refGpu, threadCtx, refTimeThread, refTimeCtx);
        RecoveringIsCoding(c, p, items[i]);
        sent := sent + [p];
      }
      assert items[..|items|] == items;
      refTimeSerial, refTimeGpu := refSerial, refGpu;
    }

    /** The type switch of the serial path, with the same promise. */
    static method CodeSerial(it: Item, rs: int, rg: int, ghost thread: int, ghost rt: int, ghost rc: int)
      returns (p: Packet, refSerial: int, refGpu: int)
      requires SerialType(it.kind)
      ensures var c := Clocks(thread, rt, rc, rg, rs);
              Recovers(c, p, it) && AfterPacket(c, p) == Clocks(thread, rt, rc, refGpu, refSerial)
    {
      var stamp := it.time;
      refSerial, refGpu := rs, rg;
      match it.kind {
        case LockWait | LockSharedWait | LockObtain | LockSharedObtain | LockRelease | LockSharedRelease
           | MemAlloc | MemAllocNamed | MemAllocCallstack | MemAllocCallstackNamed
           | MemFree | MemFreeNamed | MemFreeCallstack | MemFreeCallstackNamed
           | MemDiscard | MemDiscardCallstack
           | GpuZoneBeginSerial | GpuZoneBeginCallstackSerial
           | GpuZoneBeginAllocSrcLocSerial | GpuZoneBeginAllocSrcLocCallstackSerial | GpuZoneEndSerial =>
          stamp := it.time - refSerial;
          refSerial := it.time;
        case GpuTime =>
          stamp := it.time - refGpu;
          refGpu := it.time;
        case _ =>
      }
      p := Data(it.kind, stamp, it.body);
    }

    /** The drain at shutdown: context switches and wake-ups only, up to the first one past the stop time. */
    method DequeueContextSwitches(items: seq<Item>, timeStop: int) returns (timeStop': int)
      modifies this
      ensures View() == AfterBatch(old(View()), FromDrain(items, timeStop))
      ensures sent == old(sent) + BatchCoded(old(View()), FromDrain(items, timeStop))
      ensures timeStop' == if timeStop >= 0 && Overran(items, timeStop) then -1 else timeStop
    {
      var packets, refCtx;
      packets, refCtx, timeStop' := DrainItems(items, timeStop, refTimeCtx, View());
      NoSwitch(View(), FromDrain(items, timeStop));
      sent := sent + packets;
      refTimeCtx := refCtx;
    }

    /** Codes one more switch or wake-up. */
    static method TakeSwitch(it: Item, before: seq<Packet>, last: int, ghost c: Clocks, ghost kept: seq<Item>)
      returns (packets: seq<Packet>, refCtx: int)
      requires Kept(it) && DrainedSoFar(c, kept, before, last)
      ensures DrainedSoFar(c, kept + [it], packets, refCtx)
    {
      CodedSnoc(c, kept, it);
      packets := before + [Data(it.kind, it.time - last, it.body)];
      refCtx := it.time;
    }

    static method DrainItems(items: seq<Item>, timeStop: int, start: int, ghost c: Clocks)
      returns (packets: seq<Packet>, refCtx: int, timeStop': int)
      requires start == c.refCtx
      ensures DrainedSoFar(c, Drained(items, timeStop), packets, refCtx)
      ensures timeStop' == if timeStop >= 0 && Overran(items, timeStop) then -1 else timeStop
    {
      packets, refCtx, timeStop' := [], start, timeStop;
      if timeStop < 0 {
        return;
      }
      ghost var kept: seq<Item> := [];
      var i := 0;
      while i < |items|
        invariant 0 <= i <= |items| && timeStop' == timeStop
        invariant forall k :: 0 <= k < i && Kept(items[k]) ==> items[k].time <= timeStop
        invariant Drained(items, timeStop) == kept + DrainedFrom(items, i, timeStop)
        invariant DrainedSoFar(c, kept, packets, refCtx)
      {
        var it := items[i];
        DrainStep(items, timeStop, i, kept);
        if it.kind == ContextSwitch || it.kind == ThreadWakeup {
          if it.time > timeStop {
            timeStop' := -1;
            return;
          }
          packets, refCtx := TakeSwitch(it, packets, refCtx, c, kept);
          kept := kept + [it];
        }
        i := i + 1;
      }
      assert kept + [] == kept;
    }
  }

  /** Read with these clocks, the packet gives back the item. */
  predicate Recovers(c: Clocks, p: Packet, it: Item) {
    Decoded(c, p) == [Labelled(c.thread, it)]
  }

  /** Exactly one packet gives the item back: the one the specification codes it as. */
  lemma RecoveringIsCoding(c: Clocks, p: Packet, it: Item)
    ensures Recovers(c, p, it) <==> p == Coded(c, it)
    ensures Recovers(c, p, it) ==> AfterPacket(c, p) == AfterItem(c, it)
  {
    if Recovers(c, p, it) {
      assert p.Data? && Decoded(c, p)[0].item == it;
    }
  }

  ghost predicate DrainedSoFar(c: Clocks, kept: seq<Item>, packets: seq<Packet>, refCtx: int) {
    packets == ItemsCoded(c, kept) && AfterItems(c, kept) == c.(refCtx := refCtx)
  }

  /** What the drain does with the next item, as the filter of the specification sees it. */
  lemma DrainStep(items: seq<Item>, stop: int, i: nat, kept: seq<Item>)
    requires i < |items|
    ensures var it, now, later := items[i], kept + DrainedFrom(items, i, stop), DrainedFrom(items, i + 1, stop);
            if !Kept(it) then now == kept + later
            else if it.time > stop then now == kept
            else now == kept + [it] + later
  {
    assert kept + [] == kept;
  }

  /** Only a thread batch can be preceded by a context packet. */
  lemma NoSwitch(c: Clocks, b: Batch)
    requires !b.FromThread?
    ensures BatchCoded(c, b) == ItemsCoded(c, Payload(b)) && AfterBatch(c, b) == AfterItems(c, Payload(b))
  {
    assert [] + ItemsCoded(c, Payload(b)) == ItemsCoded(c, Payload(b));
  }

  lemma CodedSnoc(c: Clocks, kept: seq<Item>, it: Item)
    ensures ItemsCoded(c, kept + [it]) == ItemsCoded(c, kept) + [Coded(AfterItems(c, kept), it)]
    ensures AfterItems(c, kept + [it]) == AfterItem(AfterItems(c, kept), it)
  {
    assert (kept + [it])[..|kept|] == kept;
  }
}
