/**
 The logical-tick handshake between the frame loop and the remote server. Network threads push tasks at any moment; the
 frame drains them, applies a finished tick, and may ask for the next one.
 */
module TickHandshake {

  type Deltas = seq<int>

  datatype Task = Reply(target: int, success: bool, deltas: Deltas) | Other(id: int)

  /** Where the frame is: about to swap, running drained task number next, applying, or deciding on a request. */
  datatype Phase = Swapping | Draining(next: nat) | Applying | Requesting

  datatype Applied = Applied(tick: int, deltas: Deltas)

  /** The loop's variables, the two task buffers, the request on the wire, and the histories of what happened. */
  datatype World = World(
    tick: int,
    syncPending: bool,
    nextTickVal: int,
    tempDeltas: Deltas,
    syncedReady: bool,
    phase: Phase,
    writeBuffer: seq<Task>,
    readBuffer: seq<Task>,
    onWire: seq<int>,
    pushed: seq<Task>,
    ran: seq<Task>,
    replies: seq<Deltas>,
    applied: seq<Applied>,
    requests: seq<int>)

  function Init(tick: int): World {
    World(tick, false, 0, [], false, Swapping, [], [], [], [], [], [], [], [])
  }

  datatype Event =
    | Answer(success: bool, deltas: Deltas)  // the server answers; the callback pushes a task
    | Post(id: int)                          // some other thread pushes a task
    | Swap                                   // drain begins: the buffers change places
    | RunTask(posts: seq<int>)               // the next drained task runs and may push further ones
    | EndDrain
    | Apply                                  // a ready tick takes effect, otherwise nothing
    | Request(due: bool)                     // end of frame: ask for the next tick if due and none is pending

  function Others(ids: seq<int>): (ts: seq<Task>)
    ensures |ts| == |ids| && forall k :: 0 <= k < |ts| ==> ts[k] == Other(ids[k])
  {
    seq(|ids|, k requires 0 <= k < |ids| => Other(ids[k]))
  }

  predicate Enabled(w: World, e: Event) {
    match e
    case Answer(_, _) => |w.onWire| > 0
    case Post(_) => true
    case Swap => w.phase.Swapping?
    case RunTask(posts) =>
      w.phase.Draining? && w.phase.next < |w.readBuffer| && (w.readBuffer[w.phase.next].Reply? ==> posts == [])
    case EndDrain => w.phase.Draining? && w.phase.next == |w.readBuffer|
    case Apply => w.phase.Applying?
    case Request(_) => w.phase.Requesting?
  }

  function Push(w: World, ts: seq<Task>): World {
    w.(writeBuffer := w.writeBuffer + ts, pushed := w.pushed + ts)
  }

  function Step(w: World, e: Event): World
    requires Enabled(w, e)
  {
    match e
    case Answer(success, deltas) =>
      Push(w, [Reply(w.onWire[0], success, deltas)])
        .(onWire := w.onWire[1..], replies := if success then w.replies + [deltas] else w.replies)
    case Post(id) => Push(w, [Other(id)])
    case Swap => w.(writeBuffer := w.readBuffer, readBuffer := w.writeBuffer, phase := Draining(0))
    case RunTask(posts) =>
      var t := w.readBuffer[w.phase.next];
      var v := Push(w, Others(posts)).(ran := w.ran + [t], phase := Draining(w.phase.next + 1));
      (match t
       case Other(_) => v
       case Reply(target, success, deltas) =>
         if success then v.(syncPending := false, nextTickVal := target, tempDeltas := deltas, syncedReady := true)
         else v.(syncPending := false))
    case EndDrain => w.(readBuffer := [], phase := Applying)
    case Apply =>
      if w.syncedReady then
        w.(syncedReady := false, tick := w.nextTickVal, phase := Requesting,
           applied := w.applied + [Applied(w.nextTickVal, w.tempDeltas)])
      else w.(phase := Requesting)
    case Request(due) =>
      if due && !w.syncPending then
        w.(syncPending := true, phase := Swapping,
           onWire := w.onWire + [w.tick + 1], requests := w.requests + [w.tick + 1])
      else w.(phase := Swapping)
  }

  // ---- Invariant

  function Replies(ts: seq<Task>): (rs: seq<Task>)
    ensures forall k :: 0 <= k < |rs| ==> rs[k].Reply?
  {
    if ts == [] then []
    else Replies(ts[..|ts| - 1]) + (if ts[|ts| - 1].Reply? then [ts[|ts| - 1]] else [])
  }

  /** Drained but not yet run. */
  function Waiting(w: World): seq<Task> {
    if w.phase.Draining? && w.phase.next <= |w.readBuffer| then w.readBuffer[w.phase.next..] else []
  }

  function Queued(w: World): seq<Task> {
    Waiting(w) + w.writeBuffer
  }

  predicate Succeeded(t: Task) {
    t.Reply? && t.success
  }

  function Successful(ts: seq<Task>): seq<Deltas> {
    if ts == [] then []
    else Successful(ts[..|ts| - 1]) + (if Succeeded(ts[|ts| - 1]) then [ts[|ts| - 1].deltas] else [])
  }

  function AppliedDeltas(a: seq<Applied>): seq<Deltas> {
    seq(|a|, k requires 0 <= k < |a| => a[k].deltas)
  }

  ghost predicate Buffers(w: World) {
    && (w.phase.Draining? ==> w.phase.next <= |w.readBuffer|)
    && (!w.phase.Draining? ==> w.readBuffer == [])
    && w.ran + Queued(w) == w.pushed
  }

  /** At most one request is open, from being sent until its reply has run; while it is, nothing is ready. */
  ghost predicate OneOpen(w: World) {
    var queued := Replies(Queued(w));
    && |w.onWire| + |queued| == (if w.syncPending then 1 else 0)
    && (forall k :: 0 <= k < |w.onWire| ==> w.onWire[k] == w.tick + 1)
    && (forall k :: 0 <= k < |queued| ==> queued[k].target == w.tick + 1)
    && (w.syncedReady ==> !w.syncPending && w.nextTickVal == w.tick + 1 && (w.phase.Draining? || w.phase.Applying?))
  }

  /** Ticks follow each other; every successful reply has been applied, is ready, or still waits in the queue. */
  ghost predicate Progress(start: int, w: World) {
    && w.tick == start + |w.applied|
    && (forall k :: 0 <= k < |w.applied| ==> w.applied[k].tick == start + 1 + k)
    && w.replies == AppliedDeltas(w.applied) + (if w.syncedReady then [w.tempDeltas] else []) + Successful(Queued(w))
  }

  ghost predicate Inv(start: int, w: World) {
    Buffers(w) && OneOpen(w) && Progress(start, w)
  }

  lemma InitInv(start: int)
    ensures Inv(start, Init(start))
  {}

  lemma {:induction false} FiltersConcat(a: seq<Task>, b: seq<Task>)
    ensures Replies(a + b) == Replies(a) + Replies(b)
    ensures Successful(a + b) == Successful(a) + Successful(b)
    decreases |b|
  {
    if b == [] {
      assert a + b == a;
    } else {
      FiltersConcat(a, b[..|b| - 1]);
      assert (a + b)[..|a + b| - 1] == a + b[..|b| - 1];
    }
  }

  lemma {:induction false} OthersCarryNoReply(ids: seq<int>)
    ensures Replies(Others(ids)) == [] && Successful(Others(ids)) == []
    decreases |ids|
  {
    if ids != [] {
      OthersCarryNoReply(ids[..|ids| - 1]);
      assert Others(ids)[..|ids| - 1] == Others(ids[..|ids| - 1]);
    }
  }

  lemma FilterOne(t: Task)
    ensures Replies([t]) == if t.Reply? then [t] else []
    ensures Successful([t]) == if Succeeded(t) then [t.deltas] else []
  {
    assert [t][..0] == [];
  }

  // ---- Every step keeps it

  lemma PushKeeps(w: World, ts: seq<Task>)
    requires Buffers(w)
    ensures Buffers(Push(w, ts)) && Waiting(Push(w, ts)) == Waiting(w) && Queued(Push(w, ts)) == Queued(w) + ts
    ensures Replies(Queued(Push(w, ts))) == Replies(Queued(w)) + Replies(ts)
    ensures Successful(Queued(Push(w, ts))) == Successful(Queued(w)) + Successful(ts)
  {
    assert Waiting(w) + (w.writeBuffer + ts) == Queued(w) + ts;
    assert w.ran + (Queued(w) + ts) == w.ran + Queued(w) + ts;
    FiltersConcat(Queued(w), ts);
  }

  lemma PostQueued(w: World, ids: seq<int>)
    requires Buffers(w)
    ensures var v := Push(w, Others(ids));
            Buffers(v) && Replies(Queued(v)) == Replies(Queued(w)) && Successful(Queued(v)) == Successful(Queued(w))
  {
    PushKeeps(w, Others(ids));
    OthersCarryNoReply(ids);
    var rs, ss := Replies(Queued(w)), Successful(Queued(w));
    assert rs + [] == rs && ss + [] == ss;
  }

  lemma PostInv(start: int, w: World, ids: seq<int>)
    requires Inv(start, w)
    ensures Inv(start, Push(w, Others(ids)))
  {
    PostQueued(w, ids);
  }

  /** An answer joins the end of the queue. */
  lemma AnswerQueued(w: World, success: bool, deltas: Deltas)
    requires Buffers(w) && |w.onWire| > 0
    ensures var t, v := Reply(w.onWire[0], success, deltas), Step(w, Answer(success, deltas));
            && Buffers(v)
            && Replies(Queued(v)) == Replies(Queued(w)) + [t]
            && Successful(Queued(v)) == Successful(Queued(w)) + (if success then [deltas] else [])
  {
    var t, v := Reply(w.onWire[0], success, deltas), Step(w, Answer(success, deltas));
    PushKeeps(w, [t]);
    FilterOne(t);
    var p := Push(w, [t]);
    assert Waiting(v) == Waiting(p) && v.writeBuffer == p.writeBuffer;
  }

  lemma AnswerOneOpen(w: World, success: bool, deltas: Deltas)
    requires Buffers(w) && OneOpen(w) && |w.onWire| > 0
    ensures OneOpen(Step(w, Answer(success, deltas)))
  {
    AnswerQueued(w, success, deltas);
    assert Replies(Queued(w)) == [];
  }

  lemma AnswerProgress(start: int, w: World, success: bool, deltas: Deltas)
    requires Buffers(w) && Progress(start, w) && |w.onWire| > 0
    ensures Progress(start, Step(w, Answer(success, deltas)))
  {
    AnswerQueued(w, success, deltas);
    var done := AppliedDeltas(w.applied) + (if w.syncedReady then [w.tempDeltas] else []);
    var waiting := Successful(Queued(w));
    Assoc(done, waiting, if success then [deltas] else []);
    assert w.replies + [] == w.replies;
  }

  lemma AnswerInv(start: int, w: World, success: bool, deltas: Deltas)
    requires Inv(start, w) && |w.onWire| > 0
    ensures Inv(start, Step(w, Answer(success, deltas)))
  {
    AnswerQueued(w, success, deltas);
    AnswerOneOpen(w, success, deltas);
    AnswerProgress(start, w, success, deltas);
  }

  /** The swap moves the queue from one buffer to the other. */
  lemma SwapQueued(w: World)
    requires Buffers(w) && w.phase.Swapping?
    ensures Queued(w) == w.writeBuffer == Queued(Step(w, Swap))
  {
    var q := w.writeBuffer;
    assert [] + q == q && q[0..] == q && q + [] == q;
  }

  lemma SwapInv(start: int, w: World)
    requires Inv(start, w) && w.phase.Swapping?
    ensures Inv(start, Step(w, Swap))
  {
    SwapQueued(w);
  }

  function AfterRun(w: World): World
    requires w.phase.Draining? && w.phase.next < |w.readBuffer|
  {
    w.(ran := w.ran + [w.readBuffer[w.phase.next]], phase := Draining(w.phase.next + 1))
  }

  lemma TakeFront<T>(ran: seq<T>, s: seq<T>, i: nat, more: seq<T>)
    requires i < |s|
    ensures s[i..] + more == [s[i]] + (s[i + 1..] + more)
    ensures ran + (s[i..] + more) == ran + [s[i]] + (s[i + 1..] + more)
  {
    assert s[i..] == [s[i]] + s[i + 1..];
  }

  lemma RunTakesFront(w: World)
    requires Buffers(w) && w.phase.Draining? && w.phase.next < |w.readBuffer|
    ensures Buffers(AfterRun(w)) && Queued(w) == [w.readBuffer[w.phase.next]] + Queued(AfterRun(w))
  {
    TakeFront(w.ran, w.readBuffer, w.phase.next, w.writeBuffer);
  }

  lemma Assoc<T>(a: seq<T>, b: seq<T>, c: seq<T>)
    ensures a + b + c == a + (b + c)
  {}

  /** Running a task takes it off the front of the queue. */
  lemma RunUnqueues(w: World)
    requires Buffers(w) && w.phase.Draining? && w.phase.next < |w.readBuffer|
    ensures var t, v := w.readBuffer[w.phase.next], AfterRun(w);
            && Buffers(v) && Queued(w) == [t] + Queued(v)
            && Replies(Queued(w)) == (if t.Reply? then [t] else []) + Replies(Queued(v))
            && Successful(Queued(w)) == (if Succeeded(t) then [t.deltas] else []) + Successful(Queued(v))
  {
    RunTakesFront(w);
    FiltersConcat([w.readBuffer[w.phase.next]], Queued(AfterRun(w)));
    FilterOne(w.readBuffer[w.phase.next]);
  }

  lemma RunOtherInv(start: int, w: World, posts: seq<int>)
    requires Inv(start, w) && Enabled(w, RunTask(posts)) && w.readBuffer[w.phase.next].Other?
    ensures Inv(start, Step(w, RunTask(posts)))
  {
    RunUnqueues(w);
    var t := w.readBuffer[w.phase.next];
    var v := AfterRun(w);
    assert [] + Replies(Queued(v)) == Replies(Queued(v)) && [] + Successful(Queued(v)) == Successful(Queued(v));
    PostInv(start, v, posts);
  }

  /** A reply that runs was the only one, nothing else is on the wire, and no earlier one is ready. */
  lemma RunReplyIsOnly(w: World)
    requires Buffers(w) && OneOpen(w) && Enabled(w, RunTask([])) && w.readBuffer[w.phase.next].Reply?
    ensures Replies(Queued(AfterRun(w))) == [] && w.onWire == [] && w.syncPending && !w.syncedReady
    ensures w.readBuffer[w.phase.next].target == w.tick + 1
  {
    RunUnqueues(w);
    assert Replies(Queued(w))[0] == w.readBuffer[w.phase.next];
  }

  lemma RunReplyStep(w: World)
    requires Enabled(w, RunTask([])) && w.readBuffer[w.phase.next].Reply?
    ensures var t, v, r := w.readBuffer[w.phase.next], AfterRun(w), Step(w, RunTask([]));
            && Queued(r) == Queued(v)
            && r == if t.success
                    then v.(syncPending := false, nextTickVal := t.target, tempDeltas := t.deltas, syncedReady := true)
                    else v.(syncPending := false)
  {
    assert Push(AfterRun(w), Others([])) == AfterRun(w);
  }

  lemma RunReplyInv(start: int, w: World)
    requires Inv(start, w) && Enabled(w, RunTask([])) && w.readBuffer[w.phase.next].Reply?
    ensures Inv(start, Step(w, RunTask([])))
  {
    RunUnqueues(w);
    RunReplyIsOnly(w);
    RunReplyStep(w);
    var t, rest := w.readBuffer[w.phase.next], Successful(Queued(AfterRun(w)));
    Assoc(AppliedDeltas(w.applied), if t.success then [t.deltas] else [], rest);
    assert [] + rest == rest && AppliedDeltas(w.applied) + [] == AppliedDeltas(w.applied);
  }

  lemma ApplyInv(start: int, w: World)
    requires Inv(start, w) && w.phase.Applying?
    ensures Inv(start, Step(w, Apply))
  {
    var v := Step(w, Apply);
    assert Queued(v) == Queued(w);
    if w.syncedReady {
      assert AppliedDeltas(v.applied) == AppliedDeltas(w.applied) + [w.tempDeltas];
      assert AppliedDeltas(v.applied) + [] == AppliedDeltas(v.applied);
    }
  }

  lemma RequestInv(start: int, w: World, due: bool)
    requires Inv(start, w) && w.phase.Requesting?
    ensures Inv(start, Step(w, Request(due)))
  {
    assert Queued(Step(w, Request(due))) == Queued(w);
  }

  lemma StepInv(start: int, w: World, e: Event)
    requires Inv(start, w) && Enabled(w, e)
    ensures Inv(start, Step(w, e))
  {
    match e
    case Answer(success, deltas) => AnswerInv(start, w, success, deltas);
    case Post(id) =>
      assert Others([id]) == [Other(id)];
      PostInv(start, w, [id]);
    case Swap => SwapInv(start, w);
    case RunTask(posts) =>
      if w.readBuffer[w.phase.next].Reply? {
        RunReplyInv(start, w);
      } else {
        RunOtherInv(start, w, posts);
      }
    case EndDrain =>
      assert Queued(Step(w, EndDrain)) == Queued(w);
    case Apply => ApplyInv(start, w);
    case Request(due) => RequestInv(start, w, due);
  }

  // ---- Runs

  ghost predicate Schedule(start: int, events: seq<Event>)
    decreases |events|, 0
  {
    |events| > 0 ==>
      var front := events[..|events| - 1];
      Schedule(start, front) && Enabled(Run(start, front), events[|events| - 1])
  }

  ghost function Run(start: int, events: seq<Event>): World
    requires Schedule(start, events)
    decreases |events|, 1
  {
    if |events| == 0 then Init(start) else Step(Run(start, events[..|events| - 1]), events[|events| - 1])
  }

  lemma {:induction false} RunInv(start: int, events: seq<Event>)
    requires Schedule(start, events)
    ensures Inv(start, Run(start, events))
    decreases |events|
  {
    if |events| == 0 {
      InitInv(start);
    } else {
      var front := events[..|events| - 1];
      RunInv(start, front);
      StepInv(start, Run(start, front), events[|events| - 1]);
    }
  }

  /** Over every interleaving: tasks run in push order and once, one request is open at most, ticks are contiguous. */
  lemma HandshakeIsSafe(start: int, events: seq<Event>)
    requires Schedule(start, events)
    ensures var w := Run(start, events);
            && w.ran <= w.pushed
            && |w.onWire| <= 1
            && w.tick == start + |w.applied|
            && (forall k :: 0 <= k < |w.applied| ==> w.applied[k].tick == start + 1 + k)
            && AppliedDeltas(w.applied) <= w.replies
            && |w.replies| <= |w.applied| + 1
  {
    RunInv(start, events);
    var w := Run(start, events);
    FewSuccessful(Queued(w));
  }

  lemma {:induction false} FewSuccessful(ts: seq<Task>)
    ensures |Successful(ts)| <= |Replies(ts)|
    decreases |ts|
  {
    if ts != [] {
      FewSuccessful(ts[..|ts| - 1]);
    }
  }

  /** When the next tick is asked for, the deltas of every successful reply so far have been applied, once each. */
  lemma RequestAfterAllApplied(start: int, events: seq<Event>)
    requires Schedule(start, events + [Request(true)])
    ensures var w := Run(start, events);
            Schedule(start, events) && (!w.syncPending ==> w.replies == AppliedDeltas(w.applied))
  {
    var all := events + [Request(true)];
    assert all[..|all| - 1] == events;
    RunInv(start, events);
    FewSuccessful(Queued(Run(start, events)));
  }

  // ---- The queue object

  datatype Job = Job(id: int, pushes: seq<Job>)

  /** What other threads push just before the k-th push of the i-th task, or after its last one. */
  type Arrivals = (nat, nat) -> seq<Job>

  /** The first n pushes of task i, with what arrives in between. */
  function Woven(i: nat, own: seq<Job>, n: nat, arrivals: Arrivals): seq<Job>
    requires n <= |own|
  {
    if n == 0 then [] else Woven(i, own, n - 1, arrivals) + arrivals(i, n - 1) + [own[n - 1]]
  }

  /** Everything that is pushed while the first n tasks run. */
  function PushedDuring(ran: seq<Job>, n: nat, arrivals: Arrivals): seq<Job>
    requires n <= |ran|
  {
    if n == 0 then []
    else
      var own := ran[n - 1].pushes;
      PushedDuring(ran, n - 1, arrivals) + (Woven(n - 1, own, |own|, arrivals) + arrivals(n - 1, |own|))
  }

  class GrpcResultQueue {
    var writeBuffer: seq<Job>
    var readBuffer: seq<Job>

    constructor ()
      ensures writeBuffer == [] && readBuffer == []
    {
      writeBuffer, readBuffer := [], [];
    }

    method Push(t: Job)
      modifies `writeBuffer
      ensures writeBuffer == old(writeBuffer) + [t]
    {
      writeBuffer := writeBuffer + [t];
    }

    method PushAll(ts: seq<Job>)
      modifies `writeBuffer
      ensures writeBuffer == old(writeBuffer) + ts
    {
      for k := 0 to |ts|
        invariant writeBuffer == old(writeBuffer) + ts[..k]
      {
        Push(ts[k]);
      }
    }

    /**
     Runs exactly what was queued when the buffers changed places. What these tasks and other threads push meanwhile
     waits, complete and in order, for the next drain.
     */
    method Drain(arrivals: Arrivals) returns (ran: seq<Job>)
      requires readBuffer == []
      modifies this
      ensures readBuffer == [] && ran == old(writeBuffer)
      ensures writeBuffer == PushedDuring(ran, |ran|, arrivals)
    {
      writeBuffer, readBuffer := readBuffer, writeBuffer;
      ran := readBuffer;
      for i := 0 to |readBuffer|
        invariant readBuffer == ran == old(writeBuffer) && writeBuffer == PushedDuring(ran, i, arrivals)
      {
        RunJob(i, readBuffer[i], arrivals);
      }
      readBuffer := [];
    }

    method RunJob(i: nat, t: Job, arrivals: Arrivals)
      modifies `writeBuffer
      ensures writeBuffer ==
                old(writeBuffer) + (Woven(i, t.pushes, |t.pushes|, arrivals) + arrivals(i, |t.pushes|))
    {
      for k := 0 to |t.pushes|
        invariant writeBuffer == old(writeBuffer) + Woven(i, t.pushes, k, arrivals)
      {
        PushAll(arrivals(i, k));
        Push(t.pushes[k]);
      }
      PushAll(arrivals(i, |t.pushes|));
    }
  }
}
