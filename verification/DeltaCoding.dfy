/** Delta coding of the profiler's four clocks, as sent by three dequeue paths and read back by the receiver. */
module DeltaCoding {

  /** The queue item types below Terminate with fibers off; the types above it pass through untouched. */
  datatype QueueType =
    | ZoneText | ZoneName | Message | MessageColor | MessageCallstack | MessageColorCallstack | MessageAppInfo
    | ZoneBeginAllocSrcLoc | ZoneBeginAllocSrcLocCallstack
    | CallstackSerial | Callstack | CallstackAlloc | CallstackSample | CallstackSampleContextSwitch | FrameImage
    | ZoneBegin | ZoneBeginCallstack | ZoneEnd
    | LockWait | LockObtain | LockRelease | LockSharedWait | LockSharedObtain | LockSharedRelease | LockName
    | MemAlloc | MemAllocNamed | MemFree | MemFreeNamed
    | MemAllocCallstack | MemAllocCallstackNamed | MemFreeCallstack | MemFreeCallstackNamed
    | MemDiscard | MemDiscardCallstack
    | GpuZoneBegin | GpuZoneBeginCallstack | GpuZoneBeginAllocSrcLoc | GpuZoneBeginAllocSrcLocCallstack | GpuZoneEnd
    | GpuZoneBeginSerial | GpuZoneBeginCallstackSerial
    | GpuZoneBeginAllocSrcLocSerial | GpuZoneBeginAllocSrcLocCallstackSerial | GpuZoneEndSerial
    | PlotDataInt | PlotDataFloat | PlotDataDouble
    | ContextSwitch | ThreadWakeup
    | GpuTime | GpuContextName | GpuAnnotationName
    | Untouched

  datatype Clock = NoClock | ThreadClock | CtxClock | GpuClock | SerialClock

  /** Which running reference a type's time is coded against. */
  function ClockOf(t: QueueType): Clock {
    match t
    case ZoneBeginAllocSrcLoc | ZoneBeginAllocSrcLocCallstack | ZoneBegin | ZoneBeginCallstack | ZoneEnd
       | GpuZoneBegin | GpuZoneBeginCallstack | GpuZoneBeginAllocSrcLoc | GpuZoneBeginAllocSrcLocCallstack | GpuZoneEnd
       | PlotDataInt | PlotDataFloat | PlotDataDouble => ThreadClock
    case CallstackSample | CallstackSampleContextSwitch | ContextSwitch | ThreadWakeup => CtxClock
    case GpuTime => GpuClock
    case LockWait | LockSharedWait | LockObtain | LockSharedObtain | LockRelease | LockSharedRelease
       | MemAlloc | MemAllocNamed | MemAllocCallstack | MemAllocCallstackNamed
       | MemFree | MemFreeNamed | MemFreeCallstack | MemFreeCallstackNamed | MemDiscard | MemDiscardCallstack
       | GpuZoneBeginSerial | GpuZoneBeginCallstackSerial
       | GpuZoneBeginAllocSrcLocSerial | GpuZoneBeginAllocSrcLocCallstackSerial | GpuZoneEndSerial => SerialClock
    case _ => NoClock
  }

  /** The items of each clock, as both ends group them. */
  lemma ClockTable(t: QueueType)
    ensures ClockOf(t) == ThreadClock <==>
              t in {ZoneBegin, ZoneBeginCallstack, ZoneBeginAllocSrcLoc, ZoneBeginAllocSrcLocCallstack, ZoneEnd,
                    GpuZoneBegin, GpuZoneBeginCallstack, GpuZoneBeginAllocSrcLoc, GpuZoneBeginAllocSrcLocCallstack,
                    GpuZoneEnd, PlotDataInt, PlotDataFloat, PlotDataDouble}
    ensures ClockOf(t) == CtxClock <==>
              t in {CallstackSample, CallstackSampleContextSwitch, ContextSwitch, ThreadWakeup}
    ensures ClockOf(t) == GpuClock <==> t == GpuTime
    ensures ClockOf(t) == SerialClock <==>
              t in {LockWait, LockObtain, LockRelease, LockSharedWait, LockSharedObtain, LockSharedRelease,
                    MemAlloc, MemAllocNamed, MemAllocCallstack, MemAllocCallstackNamed,
                    MemFree, MemFreeNamed, MemFreeCallstack, MemFreeCallstackNamed, MemDiscard, MemDiscardCallstack,
                    GpuZoneBeginSerial, GpuZoneBeginCallstackSerial, GpuZoneBeginAllocSrcLocSerial,
                    GpuZoneBeginAllocSrcLocCallstackSerial, GpuZoneEndSerial}
  {}

  /** The types the serial queue carries; the thread queues carry the others and the three shared ones. */
  predicate SerialType(t: QueueType) {
    ClockOf(t) == SerialClock || t == CallstackSerial || t == LockName || Shared(t) || t == Untouched
  }

  predicate Shared(t: QueueType) {
    t == GpuTime || t == GpuContextName || t == GpuAnnotationName
  }

  predicate ThreadType(t: QueueType) {
    Shared(t) || t == Untouched || !SerialType(t)
  }

  /** Whether the receiver attaches the item to the thread named by the last context packet. */
  predicate OfThread(t: QueueType) {
    ThreadType(t) && !SerialType(t) && (ClockOf(t) == ThreadClock || ClockOf(t) == NoClock)
  }

  datatype Item = Item(kind: QueueType, time: int, body: int)

  datatype Packet = Context(thread: int) | Data(kind: QueueType, stamp: int, body: int)

  datatype Event = Event(thread: int, item: Item)

  /** The current thread and the last time on each clock; sender and receiver each keep one. */
  datatype Clocks = Clocks(thread: int, refThread: int, refCtx: int, refGpu: int, refSerial: int)

  function Ref(c: Clocks, k: Clock): int {
    match k
    case NoClock => 0
    case ThreadClock => c.refThread
    case CtxClock => c.refCtx
    case GpuClock => c.refGpu
    case SerialClock => c.refSerial
  }

  function Advance(c: Clocks, k: Clock, t: int): Clocks {
    match k
    case NoClock => c
    case ThreadClock => c.(refThread := t)
    case CtxClock => c.(refCtx := t)
    case GpuClock => c.(refGpu := t)
    case SerialClock => c.(refSerial := t)
  }

  // ---- Sender

  /** One group of items as a dequeue call delivers them. */
  datatype Batch =
    | FromThread(thread: int, items: seq<Item>)
    | FromSerial(items: seq<Item>)
    | FromDrain(items: seq<Item>, timeStop: int)

  function Coded(c: Clocks, it: Item): Packet {
    Data(it.kind, it.time - Ref(c, ClockOf(it.kind)), it.body)
  }

  function AfterItem(c: Clocks, it: Item): Clocks {
    Advance(c, ClockOf(it.kind), it.time)
  }

  function ItemsCoded(c: Clocks, items: seq<Item>): seq<Packet> {
    if items == [] then []
    else
      var n := |items| - 1;
      ItemsCoded(c, items[..n]) + [Coded(AfterItems(c, items[..n]), items[n])]
  }

  function AfterItems(c: Clocks, items: seq<Item>): Clocks {
    if items == [] then c else AfterItem(AfterItems(c, items[..|items| - 1]), items[|items| - 1])
  }

  predicate Kept(it: Item) {
    it.kind == ContextSwitch || it.kind == ThreadWakeup
  }

  /** The final drain keeps context switches and wake-ups up to the first one later than the stop time. */
  function DrainedFrom(items: seq<Item>, i: nat, timeStop: int): seq<Item>
    requires i <= |items|
    decreases |items| - i
  {
    if i == |items| then []
    else if !Kept(items[i]) then DrainedFrom(items, i + 1, timeStop)
    else if items[i].time > timeStop then []
    else [items[i]] + DrainedFrom(items, i + 1, timeStop)
  }

  /**
   What the drain keeps: there is a first late switch or wake-up, or none; the switches and wake-ups before it are kept,
   all of them and in order, and nothing else is.
   */
  lemma {:induction false} DrainKeepsInOrder(items: seq<Item>, i: nat, stop: int) returns (at: seq<nat>, n: nat)
    requires i <= |items|
    ensures i <= n <= |items|
    ensures n < |items| ==> Kept(items[n]) && items[n].time > stop
    ensures forall k :: i <= k < n && Kept(items[k]) ==> items[k].time <= stop
    ensures |at| == |DrainedFrom(items, i, stop)|
    ensures forall k :: 0 <= k < |at| ==> i <= at[k] < n && DrainedFrom(items, i, stop)[k] == items[at[k]]
    ensures forall j, k :: 0 <= j < k < |at| ==> at[j] < at[k]
    ensures forall k :: i <= k < n ==> (k in at <==> Kept(items[k]))
    decreases |items| - i
  {
    if i == |items| {
      at, n := [], i;
    } else if !Kept(items[i]) {
      at, n := DrainKeepsInOrder(items, i + 1, stop);
    } else if items[i].time > stop {
      at, n := [], i;
    } else {
      var later;
      later, n := DrainKeepsInOrder(items, i + 1, stop);
      at := [i] + later;
    }
  }

  /** A negative stop time says that the drain is already over. */
  function Drained(items: seq<Item>, timeStop: int): seq<Item> {
    if timeStop < 0 then [] else DrainedFrom(items, 0, timeStop)
  }

  predicate Overran(items: seq<Item>, timeStop: int) {
    exists k :: 0 <= k < |items| && Kept(items[k]) && items[k].time > timeStop
  }

  function Payload(b: Batch): seq<Item> {
    match b
    case FromThread(_, items) => items
    case FromSerial(items) => items
    case FromDrain(items, stop) => Drained(items, stop)
  }

  function Switch(c: Clocks, b: Batch): Clocks {
    if b.FromThread? && b.thread != c.thread then c.(thread := b.thread, refThread := 0) else c
  }

  function SwitchPackets(c: Clocks, b: Batch): seq<Packet> {
    if b.FromThread? && b.thread != c.thread then [Context(b.thread)] else []
  }

  function BatchCoded(c: Clocks, b: Batch): seq<Packet> {
    SwitchPackets(c, b) + ItemsCoded(Switch(c, b), Payload(b))
  }

  function AfterBatch(c: Clocks, b: Batch): Clocks {
    AfterItems(Switch(c, b), Payload(b))
  }

  function AllCoded(c: Clocks, bs: seq<Batch>): seq<Packet> {
    if bs == [] then [] else AllCoded(c, bs[..|bs| - 1]) + BatchCoded(AfterAll(c, bs[..|bs| - 1]), bs[|bs| - 1])
  }

  function AfterAll(c: Clocks, bs: seq<Batch>): Clocks {
    if bs == [] then c else AfterBatch(AfterAll(c, bs[..|bs| - 1]), bs[|bs| - 1])
  }

  // ---- Receiver

  function AfterPacket(d: Clocks, p: Packet): Clocks {
    match p
    case Context(t) => d.(thread := t, refThread := 0)
    case Data(k, s, _) => Advance(d, ClockOf(k), Ref(d, ClockOf(k)) + s)
  }

  function Decoded(d: Clocks, p: Packet): seq<Event> {
    match p
    case Context(_) => []
    case Data(k, s, body) => [Event(if OfThread(k) then d.thread else 0, Item(k, Ref(d, ClockOf(k)) + s, body))]
  }

  /** Feeds inputs to a state one by one. */
  function FeedAll<S, P>(step: (S, P) -> S, s: S, ps: seq<P>): S {
    if ps == [] then s else step(FeedAll(step, s, ps[..|ps| - 1]), ps[|ps| - 1])
  }

  /** What comes out on the way. */
  function OutputOf<S, P, E>(step: (S, P) -> S, out: (S, P) -> seq<E>, s: S, ps: seq<P>): seq<E> {
    if ps == [] then []
    else OutputOf(step, out, s, ps[..|ps| - 1]) + out(FeedAll(step, s, ps[..|ps| - 1]), ps[|ps| - 1])
  }

  function Receive(d: Clocks, ps: seq<Packet>): seq<Event> {
    OutputOf(AfterPacket, Decoded, d, ps)
  }

  function AfterPackets(d: Clocks, ps: seq<Packet>): Clocks {
    FeedAll(AfterPacket, d, ps)
  }

  const FRESH: Clocks := Clocks(0, 0, 0, 0, 0)

  /** A new connection clears the thread and three of the references; the thread reference keeps its old value. */
  function Connect(c: Clocks): Clocks {
    c.(thread := 0, refCtx := 0, refGpu := 0, refSerial := 0)
  }

  // ---- What should arrive

  function EventsOf(thread: int, items: seq<Item>): seq<Event> {
    if items == [] then []
    else
      EventsOf(thread, items[..|items| - 1]) + [Labelled(thread, items[|items| - 1])]
  }

  function BatchEvents(b: Batch): seq<Event> {
    EventsOf(Owner(b), Payload(b))
  }

  function AllEvents(bs: seq<Batch>): seq<Event> {
    if bs == [] then [] else AllEvents(bs[..|bs| - 1]) + BatchEvents(bs[|bs| - 1])
  }

  /** The queues carry only their own types. */
  predicate WellTyped(b: Batch) {
    match b
    case FromThread(_, items) => forall k :: 0 <= k < |items| ==> ThreadType(items[k].kind)
    case FromSerial(items) => forall k :: 0 <= k < |items| ==> SerialType(items[k].kind)
    case FromDrain(_, _) => true
  }

  // ---- Round trip

  /** Sender and receiver agree on everything but, perhaps, the thread reference. */
  predicate Similar(c: Clocks, d: Clocks) {
    c == d.(refThread := c.refThread)
  }

  function Owner(b: Batch): int {
    if b.FromThread? then b.thread else 0
  }

  function Labelled(thread: int, it: Item): Event {
    Event(if OfThread(it.kind) then thread else 0, it)
  }

  predicate Clocked(it: Item) {
    ClockOf(it.kind) == ThreadClock
  }

  predicate Untimed(items: seq<Item>) {
    items == [] || (Untimed(items[..|items| - 1]) && !Clocked(items[|items| - 1]))
  }

  lemma {:induction false} TimedItem(items: seq<Item>) returns (k: nat)
    requires !Untimed(items)
    ensures k < |items| && Clocked(items[k])
  {
    k := |items| - 1;
    if !Clocked(items[k]) {
      k := TimedItem(items[..k]);
    }
  }

  lemma ItemRoundTrip(c: Clocks, d: Clocks, thread: int, it: Item)
    requires Similar(c, d) && (OfThread(it.kind) ==> thread == c.thread)
    ensures Decoded(d, Coded(c, it)) == [Labelled(thread, it)] <==> (Clocked(it) ==> c == d)
    ensures var c', d' := AfterItem(c, it), AfterPacket(d, Coded(c, it));
            Similar(c', d') && c'.thread == c.thread && c'.refThread - d'.refThread == c.refThread - d.refThread
  {}

  lemma OnePacketRead(d: Clocks, p: Packet)
    ensures Receive(d, [p]) == Decoded(d, p) && AfterPackets(d, [p]) == AfterPacket(d, p)
  {
    assert [p][..0] == [];
    assert AfterPackets(d, [p][..0]) == d && Receive(d, [p][..0]) == [];
    assert [] + Decoded(d, p) == Decoded(d, p);
  }

  lemma ReceiveSnoc(d: Clocks, ps: seq<Packet>, p: Packet)
    ensures Receive(d, ps + [p]) == Receive(d, ps) + Decoded(AfterPackets(d, ps), p)
    ensures AfterPackets(d, ps + [p]) == AfterPacket(AfterPackets(d, ps), p)
  {
    assert (ps + [p])[..|ps|] == ps;
  }

  lemma {:induction false} FeedConcat<S, P, E>(step: (S, P) -> S, out: (S, P) -> seq<E>, s: S, ps: seq<P>, qs: seq<P>)
    ensures FeedAll(step, s, ps + qs) == FeedAll(step, FeedAll(step, s, ps), qs)
    ensures OutputOf(step, out, s, ps + qs) ==
              OutputOf(step, out, s, ps) + OutputOf(step, out, FeedAll(step, s, ps), qs)
    decreases |qs|
  {
    if qs == [] {
      assert ps + qs == ps;
    } else {
      FeedConcat(step, out, s, ps, qs[..|qs| - 1]);
      assert (ps + qs)[..|ps + qs| - 1] == ps + qs[..|qs| - 1];
    }
  }

  lemma ReceiveConcat(d: Clocks, ps: seq<Packet>, qs: seq<Packet>)
    ensures AfterPackets(d, ps + qs) == AfterPackets(AfterPackets(d, ps), qs)
    ensures Receive(d, ps + qs) == Receive(d, ps) + Receive(AfterPackets(d, ps), qs)
  {
    FeedConcat(AfterPacket, Decoded, d, ps, qs);
  }

  lemma ConcatDiffers<T>(a: seq<T>, b: seq<T>, x: seq<T>, y: seq<T>)
    requires |a| == |b|
    ensures a + x == b + y <==> a == b && x == y
  {
    if a + x == b + y {
      assert (a + x)[..|a|] == a && (b + y)[..|b|] == b;
      assert (a + x)[|a|..] == x && (b + y)[|b|..] == y;
    }
  }

  /**
   Items sent from one set of clocks and read with another come out right exactly when the two agree or no item uses the
   thread clock; a difference in the thread reference stays what it was.
   */
  ghost predicate Faithful(c: Clocks, d: Clocks, thread: int, items: seq<Item>) {
    var got, sent := Receive(d, ItemsCoded(c, items)), EventsOf(thread, items);
    var c', d' := AfterItems(c, items), AfterPackets(d, ItemsCoded(c, items));
    && (got == sent <==> c == d || Untimed(items))
    && |got| == |sent|
    && Similar(c', d') && c'.thread == c.thread && c'.refThread - d'.refThread == c.refThread - d.refThread
  }

  lemma {:induction false} ItemsRoundTrip(c: Clocks, d: Clocks, thread: int, items: seq<Item>)
    requires Similar(c, d)
    requires forall k :: 0 <= k < |items| ==> (OfThread(items[k].kind) ==> thread == c.thread)
    ensures Faithful(c, d, thread, items)
    decreases |items|
  {
    if items != [] {
      var n := |items| - 1;
      ItemsRoundTrip(c, d, thread, items[..n]);
      OneMoreItem(c, d, thread, items[..n], items[n]);
      assert items == items[..n] + [items[n]];
    }
  }

  lemma OneMoreItem(c: Clocks, d: Clocks, thread: int, front: seq<Item>, it: Item)
    requires Similar(c, d) && Faithful(c, d, thread, front) && (OfThread(it.kind) ==> thread == c.thread)
    ensures Faithful(c, d, thread, front + [it])
  {
    var items := front + [it];
    assert items[..|front|] == front;
    var ps, p := ItemsCoded(c, front), Coded(AfterItems(c, front), it);
    var d' := AfterPackets(d, ps);
    assert ItemsCoded(c, items) == ps + [p];
    assert EventsOf(thread, items) == EventsOf(thread, front) + [Labelled(thread, it)];
    assert Untimed(items) <==> Untimed(front) && !Clocked(it);
    ItemRoundTrip(AfterItems(c, front), d', thread, it);
    ReceiveSnoc(d, ps, p);
    ConcatDiffers(Receive(d, ps), EventsOf(thread, front), Decoded(d', p), [Labelled(thread, it)]);
  }

  lemma {:induction false} DrainedAreSwitches(items: seq<Item>, i: nat, stop: int)
    requires i <= |items|
    ensures forall k :: 0 <= k < |DrainedFrom(items, i, stop)| ==>
              ClockOf(DrainedFrom(items, i, stop)[k].kind) == CtxClock
    decreases |items| - i
  {
    if i < |items| {
      DrainedAreSwitches(items, i + 1, stop);
    }
  }

  /** Only thread queues carry items that are read against the current thread. */
  lemma PayloadOwner(b: Batch, k: nat)
    requires WellTyped(b) && k < |Payload(b)|
    ensures OfThread(Payload(b)[k].kind) || Clocked(Payload(b)[k]) ==> b.FromThread?
  {
    if b.FromDrain? {
      DrainedAreSwitches(b.items, 0, b.timeStop);
    }
  }

  predicate ThreadTimed(b: Batch) {
    !Untimed(Payload(b))
  }

  lemma ThreadTimedIsFromThread(b: Batch)
    requires WellTyped(b) && ThreadTimed(b)
    ensures b.FromThread?
  {
    var k := TimedItem(Payload(b));
    PayloadOwner(b, k);
  }

  lemma SwitchRoundTrip(c: Clocks, d: Clocks, b: Batch)
    requires Similar(c, d)
    ensures Receive(d, SwitchPackets(c, b)) == []
    ensures var c', d' := Switch(c, b), AfterPackets(d, SwitchPackets(c, b));
            Similar(c', d') && (c' == d' <==> c == d || SwitchPackets(c, b) != [])
    ensures b.FromThread? ==> Owner(b) == Switch(c, b).thread
  {
    var ctx := SwitchPackets(c, b);
    if ctx != [] {
      OnePacketRead(d, Context(b.thread));
    }
  }

  lemma BatchRoundTrip(c: Clocks, d: Clocks, b: Batch)
    requires Similar(c, d) && WellTyped(b)
    ensures Receive(d, BatchCoded(c, b)) == BatchEvents(b) <==>
              c == d || SwitchPackets(c, b) != [] || !ThreadTimed(b)
    ensures |Receive(d, BatchCoded(c, b))| == |BatchEvents(b)|
    ensures var c', d' := AfterBatch(c, b), AfterPackets(d, BatchCoded(c, b));
            Similar(c', d') && (c' == d' <==> c == d || SwitchPackets(c, b) != [])
    ensures AfterBatch(c, b).thread == Switch(c, b).thread
  {
    var c', ctx := Switch(c, b), SwitchPackets(c, b);
    SwitchRoundTrip(c, d, b);
    forall k | 0 <= k < |Payload(b)|
      ensures OfThread(Payload(b)[k].kind) ==> Owner(b) == c'.thread
    {
      PayloadOwner(b, k);
    }
    ItemsRoundTrip(c', AfterPackets(d, ctx), Owner(b), Payload(b));
    ReceiveConcat(d, ctx, ItemsCoded(c', Payload(b)));
  }

  datatype Contact = NotYet | Named | Unnamed

  /** How the thread clock is first used on a connection: after a thread was named, or under the initial number 0. */
  function FirstContact(bs: seq<Batch>): Contact {
    if bs == [] then NotYet
    else
      var f, b := FirstContact(bs[..|bs| - 1]), bs[|bs| - 1];
      if f != NotYet then f
      else if b.FromThread? && b.thread != 0 then Named
      else if ThreadTimed(b) then Unnamed
      else NotYet
  }

  /** The sender's thread reference still differs from the receiver's exactly until a thread is named. */
  ghost predicate Track(stale: int, bs: seq<Batch>, c: Clocks, d: Clocks) {
    && Similar(c, d)
    && (stale == 0 ==> c == d)
    && (FirstContact(bs) == NotYet ==> c.thread == 0 && (c == d <==> stale == 0))
    && (FirstContact(bs) == Named ==> c == d)
  }

  /**
   Whatever the queues deliver and however their batches interleave, a receiver that adds up the deltas gets back every
   item with its own time and thread, except in one case: the previous connection left a thread reference and the thread
   clock is first used by thread number 0, for which no context is sent.
   */
  lemma {:induction false} RoundTrip(stale: Clocks, bs: seq<Batch>)
    requires forall k :: 0 <= k < |bs| ==> WellTyped(bs[k])
    ensures Receive(FRESH, AllCoded(Connect(stale), bs)) == AllEvents(bs) <==>
              stale.refThread == 0 || FirstContact(bs) != Unnamed
    ensures |Receive(FRESH, AllCoded(Connect(stale), bs))| == |AllEvents(bs)|
    ensures Track(stale.refThread, bs, AfterAll(Connect(stale), bs), AfterPackets(FRESH, AllCoded(Connect(stale), bs)))
    decreases |bs|
  {
    if bs != [] {
      var n := |bs| - 1;
      var front, b := bs[..n], bs[n];
      RoundTrip(stale, front);
      var c, ps := AfterAll(Connect(stale), front), AllCoded(Connect(stale), front);
      var d := AfterPackets(FRESH, ps);
      BatchRoundTrip(c, d, b);
      TrackStep(stale.refThread, bs, c, d);
      ReceiveConcat(FRESH, ps, BatchCoded(c, b));
      ConcatDiffers(Receive(FRESH, ps), AllEvents(front), Receive(d, BatchCoded(c, b)), BatchEvents(b));
    }
  }

  lemma TrackStep(stale: int, bs: seq<Batch>, c: Clocks, d: Clocks)
    requires bs != [] && WellTyped(bs[|bs| - 1]) && Track(stale, bs[..|bs| - 1], c, d)
    ensures var b := bs[|bs| - 1];
            && Track(stale, bs, AfterBatch(c, b), AfterPackets(d, BatchCoded(c, b)))
            && (FirstContact(bs[..|bs| - 1]) != Unnamed ==>
                 ((c == d || SwitchPackets(c, b) != [] || !ThreadTimed(b)) <==>
                   stale == 0 || FirstContact(bs) != Unnamed))
  {
    var b := bs[|bs| - 1];
    BatchRoundTrip(c, d, b);
    if ThreadTimed(b) {
      ThreadTimedIsFromThread(b);
    }
  }

  lemma OneItemSent(c: Clocks, b: Batch, it: Item)
    requires b == FromThread(c.thread, [it])
    ensures AllCoded(c, [b]) == [Coded(c, it)]
  {
    assert [b][..0] == [] && [it][..0] == [];
    assert ItemsCoded(c, [it]) == [Coded(c, it)];
    assert BatchCoded(c, b) == [] + [Coded(c, it)];
  }

  lemma OneItemDue(b: Batch, thread: int, it: Item)
    requires b == FromThread(thread, [it])
    ensures AllEvents([b]) == [Labelled(thread, it)]
  {
    assert [b][..0] == [] && [it][..0] == [];
    assert EventsOf(thread, [it]) == [Labelled(thread, it)];
  }

  /** The input that shows the exception: a stale reference of 7 turns the time 10 of thread 0 into 3. */
  lemma StaleReferenceIsRead(stale: Clocks, bs: seq<Batch>)
    requires stale.refThread == 7 && bs == [FromThread(0, [Item(ZoneBegin, 10, 0)])]
    ensures Receive(FRESH, AllCoded(Connect(stale), bs)) == [Event(0, Item(ZoneBegin, 3, 0))]
    ensures AllEvents(bs) == [Event(0, Item(ZoneBegin, 10, 0))]
  {
    var it := Item(ZoneBegin, 10, 0);
    var b := FromThread(0, [it]);
    assert bs == [b];
    OneItemSent(Connect(stale), b, it);
    OneItemDue(b, 0, it);
    assert Coded(Connect(stale), it) == Data(ZoneBegin, 3, 0);
    OnePacketRead(FRESH, Data(ZoneBegin, 3, 0));
  }

  /** With non-zero thread numbers, the only ones most platforms give out, the round trip is unconditional. */
  lemma {:induction false} NonZeroThreadsRoundTrip(stale: Clocks, bs: seq<Batch>)
    requires forall k :: 0 <= k < |bs| ==> WellTyped(bs[k]) && (bs[k].FromThread? ==> bs[k].thread != 0)
    ensures Receive(FRESH, AllCoded(Connect(stale), bs)) == AllEvents(bs)
  {
    RoundTrip(stale, bs);
    NonZeroIsNamed(bs);
  }

  lemma {:induction false} NonZeroIsNamed(bs: seq<Batch>)
    requires forall k :: 0 <= k < |bs| ==> WellTyped(bs[k]) && (bs[k].FromThread? ==> bs[k].thread != 0)
    ensures FirstContact(bs) != Unnamed
  {
    if bs != [] {
      NonZeroIsNamed(bs[..|bs| - 1]);
      var b := bs[|bs| - 1];
      if ThreadTimed(b) {
        ThreadTimedIsFromThread(b);
      }
    }
  }
}
