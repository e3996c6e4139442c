/**
 What asking for a tick leads to. From any state that a run of the handshake reaches, a due request with none pending
 goes out; once it is answered, the next drain and apply either take the tick over or leave it to be asked for again.
 */
module TickProgress {
  import opened TickHandshake

  // ---- Going on from a state

  ghost predicate Follows(w: World, events: seq<Event>)
    decreases |events|
  {
    events != [] ==> Enabled(w, events[0]) && Follows(Step(w, events[0]), events[1..])
  }

  ghost function Reached(w: World, events: seq<Event>): World
    requires Follows(w, events)
    decreases |events|
  {
    if events == [] then w else Reached(Step(w, events[0]), events[1..])
  }

  lemma {:induction false} FollowsConcat(w: World, a: seq<Event>, b: seq<Event>)
    requires Follows(w, a + b)
    ensures Follows(w, a) && Follows(Reached(w, a), b) && Reached(w, a + b) == Reached(Reached(w, a), b)
    decreases |a|
  {
    if a == [] {
      assert a + b == b;
    } else {
      assert (a + b)[1..] == a[1..] + b;
      FollowsConcat(Step(w, a[0]), a[1..], b);
    }
  }

  lemma FollowsOne(w: World, e: Event, rest: seq<Event>)
    requires Follows(w, [e] + rest)
    ensures Enabled(w, e) && Follows(Step(w, e), rest) && Reached(w, [e] + rest) == Reached(Step(w, e), rest)
  {
    assert ([e] + rest)[1..] == rest;
  }

  lemma OneEvent(w: World, e: Event)
    requires Follows(w, [e])
    ensures Enabled(w, e) && Reached(w, [e]) == Step(w, e)
  {
    FollowsOne(w, e, []);
    assert [e] + [] == [e];
  }

  /** Some run of the handshake comes to this state. */
  ghost predicate Reachable(start: int, w: World) {
    exists events :: Schedule(start, events) && w == Run(start, events)
  }

  lemma ReachableInv(start: int, w: World)
    requires Reachable(start, w)
    ensures Inv(start, w)
  {
    var events :| Schedule(start, events) && w == Run(start, events);
    RunInv(start, events);
  }

  lemma StepIsReachable(start: int, w: World, e: Event)
    requires Reachable(start, w) && Enabled(w, e)
    ensures Reachable(start, Step(w, e))
  {
    var events :| Schedule(start, events) && w == Run(start, events);
    var more := events + [e];
    assert more[..|more| - 1] == events;
    assert Schedule(start, more) && Step(w, e) == Run(start, more);
  }

  lemma {:induction false} ReachedIsReachable(start: int, w: World, events: seq<Event>)
    requires Reachable(start, w) && Follows(w, events)
    ensures Reachable(start, Reached(w, events))
    decreases |events|
  {
    if events != [] {
      StepIsReachable(start, w, events[0]);
      ReachedIsReachable(start, Step(w, events[0]), events[1..]);
    }
  }

  /** What every allowed event keeps holds after any number of them. */
  lemma {:induction false} KeptAlong(keeps: World -> bool, allowed: Event -> bool, w: World, events: seq<Event>)
    requires keeps(w) && Follows(w, events) && (forall e :: e in events ==> allowed(e))
    requires forall v, e :: keeps(v) && Enabled(v, e) && allowed(e) ==> keeps(Step(v, e))
    ensures keeps(Reached(w, events))
    decreases |events|
  {
    if events != [] {
      assert events[0] in events;
      KeptAlong(keeps, allowed, Step(w, events[0]), events[1..]);
    }
  }

  // ---- When a request goes out

  /** A request for the following tick goes out exactly at the end of a frame that is due, with none pending. */
  lemma RequestGoesOutIff(w: World, e: Event)
    requires Enabled(w, e)
    ensures var v := Step(w, e);
            if e == Request(true) && !w.syncPending
            then v.requests == w.requests + [w.tick + 1] && v.onWire == w.onWire + [w.tick + 1] && v.syncPending
            else v.requests == w.requests && |v.onWire| <= |w.onWire| && (v.syncPending ==> w.syncPending)
  {
    if e.RunTask? {
      var t := w.readBuffer[w.phase.next];
      assert t.Reply? || t.Other?;
    }
  }

  // ---- From the request to the apply

  /** Nothing happened since w but the one request. */
  ghost predicate Since(w: World, v: World) {
    v.tick == w.tick && v.applied == w.applied && v.requests == w.requests + [w.tick + 1]
  }

  ghost predicate Asked(w: World, v: World) {
    Since(w, v) && v.syncPending && v.onWire == [w.tick + 1]
  }

  /** The reply waits in the write buffer. */
  ghost predicate Answered(w: World, t: Task, v: World) {
    Since(w, v) && v.syncPending && v.onWire == [] && Replies(v.writeBuffer) == [t]
  }

  /** The reply is among the tasks being drained. */
  ghost predicate Drawn(w: World, t: Task, v: World) {
    && Since(w, v) && v.syncPending && v.onWire == [] && v.phase.Draining? && Replies(Waiting(v)) == [t]
  }

  /** The reply has run; what it brought waits for the apply of this frame. */
  ghost predicate Ran(w: World, t: Task, v: World) {
    && Since(w, v) && !v.syncPending && (v.phase.Draining? || v.phase.Applying?) && v.syncedReady == Succeeded(t)
    && (Succeeded(t) ==> v.nextTickVal == t.target && v.tempDeltas == t.deltas)
  }

  /** No request is open and nothing is ready. */
  ghost predicate Quiet(v: World) {
    !v.syncPending && !v.syncedReady && v.onWire == [] && Replies(Queued(v)) == []
  }

  lemma QueueSplits(v: World)
    ensures Replies(Queued(v)) == Replies(Waiting(v)) + Replies(v.writeBuffer)
  {
    FiltersConcat(Waiting(v), v.writeBuffer);
  }

  lemma WaitingTakesFront(v: World)
    requires v.phase.Draining? && v.phase.next < |v.readBuffer|
    ensures var t := v.readBuffer[v.phase.next];
            Replies(Waiting(v)) == (if t.Reply? then [t] else []) + Replies(Waiting(AfterRun(v)))
  {
    var t := v.readBuffer[v.phase.next];
    assert Waiting(v) == [t] + Waiting(AfterRun(v));
    FiltersConcat([t], Waiting(AfterRun(v)));
    FilterOne(t);
  }

  /** What a pushed list does to the write buffer, and that it leaves the drain alone. */
  lemma PushedReplies(v: World, ts: seq<Task>)
    ensures Replies(Push(v, ts).writeBuffer) == Replies(v.writeBuffer) + Replies(ts)
    ensures Waiting(Push(v, ts)) == Waiting(v)
  {
    FiltersConcat(v.writeBuffer, ts);
  }

  lemma PostedReplies(v: World, ids: seq<int>)
    ensures Replies(Push(v, Others(ids)).writeBuffer) == Replies(v.writeBuffer)
    ensures Waiting(Push(v, Others(ids))) == Waiting(v)
  {
    PushedReplies(v, Others(ids));
    OthersCarryNoReply(ids);
  }

  /** While a request is on the wire nothing but its answer changes that. */
  lemma AskedStays(start: int, w: World, v: World, e: Event)
    requires Inv(start, v) && Asked(w, v) && Enabled(v, e) && !e.Answer?
    ensures Inv(start, Step(v, e)) && Asked(w, Step(v, e))
  {
    StepInv(start, v, e);
    if e.RunTask? && v.readBuffer[v.phase.next].Reply? {
      RunReplyIsOnly(v);
    }
  }

  lemma {:induction false} AskedIsAnswered(start: int, w: World, v: World, success: bool, deltas: Deltas)
    requires Inv(start, v) && Asked(w, v)
    ensures var x := Step(v, Answer(success, deltas));
            Inv(start, x) && Answered(w, Reply(w.tick + 1, success, deltas), x)
  {
    var t := Reply(w.tick + 1, success, deltas);
    StepInv(start, v, Answer(success, deltas));
    QueueSplits(v);
    PushedReplies(v, [t]);
    FilterOne(t);
  }

  /** Until the next swap the reply stays in the write buffer. */
  lemma AnsweredStays(start: int, w: World, t: Task, v: World, e: Event)
    requires Inv(start, v) && Answered(w, t, v) && Enabled(v, e) && !e.Swap?
    ensures Inv(start, Step(v, e)) && Answered(w, t, Step(v, e))
  {
    StepInv(start, v, e);
    QueueSplits(v);
    match e
    case Post(id) =>
      assert Others([id]) == [Other(id)];
      PostedReplies(v, [id]);
    case RunTask(posts) =>
      WaitingTakesFront(v);
      PostedReplies(v, posts);
    case _ =>
  }

  lemma AnsweredIsDrawn(start: int, w: World, t: Task, v: World)
    requires Inv(start, v) && Answered(w, t, v) && v.phase.Swapping?
    ensures Inv(start, Step(v, Swap)) && Drawn(w, t, Step(v, Swap))
  {
    StepInv(start, v, Swap);
    assert Waiting(Step(v, Swap)) == v.writeBuffer;
  }

  ghost predicate InDrain(w: World, t: Task, v: World) {
    Drawn(w, t, v) || Ran(w, t, v)
  }

  lemma DrawnRunsReply(w: World, t: Task, v: World)
    requires Buffers(v) && OneOpen(v) && Drawn(w, t, v) && Enabled(v, RunTask([]))
    requires v.readBuffer[v.phase.next].Reply?
    ensures Ran(w, t, Step(v, RunTask([])))
  {
    WaitingTakesFront(v);
    assert Replies(Waiting(v))[0] == v.readBuffer[v.phase.next];
    RunReplyIsOnly(v);
    RunReplyStep(v);
  }

  lemma DrawnRunsOther(w: World, t: Task, v: World, posts: seq<int>)
    requires Drawn(w, t, v) && Enabled(v, RunTask(posts)) && v.readBuffer[v.phase.next].Other?
    ensures Drawn(w, t, Step(v, RunTask(posts)))
  {
    WaitingTakesFront(v);
    var x := AfterRun(v);
    assert Replies(Waiting(v)) == [] + Replies(Waiting(x));
    PostedReplies(x, posts);
  }

  lemma DrawnStays(start: int, w: World, t: Task, v: World, e: Event)
    requires Inv(start, v) && Drawn(w, t, v) && Enabled(v, e)
    ensures Inv(start, Step(v, e)) && InDrain(w, t, Step(v, e))
  {
    StepInv(start, v, e);
    match e
    case Post(id) =>
      assert Others([id]) == [Other(id)];
      PostedReplies(v, [id]);
    case RunTask(posts) =>
      if v.readBuffer[v.phase.next].Reply? {
        DrawnRunsReply(w, t, v);
      } else {
        DrawnRunsOther(w, t, v, posts);
      }
    case _ =>
  }

  lemma RanStays(start: int, w: World, t: Task, v: World, e: Event)
    requires Inv(start, v) && Ran(w, t, v) && Enabled(v, e) && !e.Apply?
    ensures Inv(start, Step(v, e)) && Ran(w, t, Step(v, e))
  {
    StepInv(start, v, e);
    if e.RunTask? && v.readBuffer[v.phase.next].Reply? {
      RunReplyIsOnly(v);
    }
  }

  /** The apply takes over what the reply brought; after a failed one there is nothing to take. */
  lemma RanIsApplied(start: int, w: World, t: Task, v: World)
    requires Inv(start, v) && Ran(w, t, v) && t.Reply? && t.target == w.tick + 1 && v.phase.Applying?
    ensures Outcome(w, t, Step(v, Apply)) && Inv(start, Step(v, Apply))
  {
    StepInv(start, v, Apply);
    assert Queued(Step(v, Apply)) == Queued(v);
  }

  /** What the request of w and its reply come to: the tick taken over, with what it brought, or nothing. */
  ghost predicate Outcome(w: World, t: Task, v: World)
    requires t.Reply?
  {
    && Quiet(v) && v.phase.Requesting? && v.requests == w.requests + [w.tick + 1]
    && (if t.success then v.tick == w.tick + 1 && v.applied == w.applied + [Applied(w.tick + 1, t.deltas)]
        else v.tick == w.tick && v.applied == w.applied)
  }

  /**
   One round of the handshake: a due request, its answer at any time, the first swap after the answer, and the first
   apply after that swap. Anything else may happen in between, in any order.
   */
  ghost predicate Round(round: seq<Event>, t: Task) {
    exists pre, mid, rest ::
      && t.Reply?
      && round == [Request(true)] + (pre + ([Answer(t.success, t.deltas)] + (mid + ([Swap] + (rest + [Apply])))))
      && (forall e :: e in pre ==> !e.Answer?)
      && (forall e :: e in mid ==> !e.Swap?)
      && (forall e :: e in rest ==> !e.Apply?)
  }

  lemma {:induction false} AskedAlong(start: int, w: World, v: World, events: seq<Event>)
    requires Inv(start, v) && Asked(w, v) && Follows(v, events) && (forall e :: e in events ==> !e.Answer?)
    ensures Inv(start, Reached(v, events)) && Asked(w, Reached(v, events))
  {
    forall x, e | Inv(start, x) && Asked(w, x) && Enabled(x, e) && !e.Answer?
      ensures Inv(start, Step(x, e)) && Asked(w, Step(x, e))
    {
      AskedStays(start, w, x, e);
    }
    KeptAlong(x => Inv(start, x) && Asked(w, x), (e: Event) => !e.Answer?, v, events);
  }

  lemma {:induction false} AnsweredAlong(start: int, w: World, t: Task, v: World, events: seq<Event>)
    requires Inv(start, v) && Answered(w, t, v) && Follows(v, events) && (forall e :: e in events ==> !e.Swap?)
    ensures Inv(start, Reached(v, events)) && Answered(w, t, Reached(v, events))
  {
    forall x, e | Inv(start, x) && Answered(w, t, x) && Enabled(x, e) && !e.Swap?
      ensures Inv(start, Step(x, e)) && Answered(w, t, Step(x, e))
    {
      AnsweredStays(start, w, t, x, e);
    }
    KeptAlong(x => Inv(start, x) && Answered(w, t, x), (e: Event) => !e.Swap?, v, events);
  }

  lemma {:induction false} InDrainAlong(start: int, w: World, t: Task, v: World, events: seq<Event>)
    requires Inv(start, v) && InDrain(w, t, v) && Follows(v, events) && (forall e :: e in events ==> !e.Apply?)
    ensures Inv(start, Reached(v, events)) && InDrain(w, t, Reached(v, events))
  {
    forall x, e | Inv(start, x) && InDrain(w, t, x) && Enabled(x, e) && !e.Apply?
      ensures Inv(start, Step(x, e)) && InDrain(w, t, Step(x, e))
    {
      if Drawn(w, t, x) {
        DrawnStays(start, w, t, x, e);
      } else {
        RanStays(start, w, t, x, e);
      }
    }
    KeptAlong(x => Inv(start, x) && InDrain(w, t, x), (e: Event) => !e.Apply?, v, events);
  }

  /** From the swap after the answer to the apply. */
  lemma {:induction false} DrainedRound(start: int, w: World, t: Task, v: World, rest: seq<Event>)
    requires Inv(start, v) && Answered(w, t, v) && t.Reply? && t.target == w.tick + 1
    requires Follows(v, [Swap] + (rest + [Apply])) && (forall e :: e in rest ==> !e.Apply?)
    ensures var x := Reached(v, [Swap] + (rest + [Apply]));
            Outcome(w, t, x) && Inv(start, x)
  {
    FollowsOne(v, Swap, rest + [Apply]);
    var drawn := Step(v, Swap);
    AnsweredIsDrawn(start, w, t, v);
    FollowsConcat(drawn, rest, [Apply]);
    InDrainAlong(start, w, t, drawn, rest);
    var ran := Reached(drawn, rest);
    OneEvent(ran, Apply);
    RanIsApplied(start, w, t, ran);
  }

  lemma {:induction false} RoundFrom(start: int, w: World, round: seq<Event>, t: Task)
    requires Inv(start, w) && !w.syncPending && Follows(w, round) && Round(round, t)
    requires t.target == w.tick + 1
    ensures Outcome(w, t, Reached(w, round)) && Inv(start, Reached(w, round))
  {
    var pre, mid, rest :|
      && t.Reply?
      && round == [Request(true)] + (pre + ([Answer(t.success, t.deltas)] + (mid + ([Swap] + (rest + [Apply])))))
      && (forall e :: e in pre ==> !e.Answer?)
      && (forall e :: e in mid ==> !e.Swap?)
      && (forall e :: e in rest ==> !e.Apply?);
    var end := [Swap] + (rest + [Apply]);
    var answer := Answer(t.success, t.deltas);
    FollowsOne(w, Request(true), pre + ([answer] + (mid + end)));
    var asked := Step(w, Request(true));
    StepInv(start, w, Request(true));
    FollowsConcat(asked, pre, [answer] + (mid + end));
    AskedAlong(start, w, asked, pre);
    var waiting := Reached(asked, pre);
    FollowsOne(waiting, answer, mid + end);
    AskedIsAnswered(start, w, waiting, t.success, t.deltas);
    var answered := Step(waiting, answer);
    FollowsConcat(answered, mid, end);
    AnsweredAlong(start, w, t, answered, mid);
    DrainedRound(start, w, t, Reached(answered, mid), rest);
  }

  /**
   From every reachable state: a round that begins with none pending raises the tick by exactly one and applies the
   deltas of its own answer, once, if the answer was a success; if not, nothing but the list of requests has changed.
   */
  lemma {:induction false} RoundRaisesTick(start: int, w: World, round: seq<Event>, success: bool, deltas: Deltas)
    requires Reachable(start, w) && !w.syncPending && Follows(w, round)
    requires Round(round, Reply(w.tick + 1, success, deltas))
    ensures var v := Reached(w, round);
            && Reachable(start, v)
            && v.tick == (if success then w.tick + 1 else w.tick)
            && v.applied == w.applied + (if success then [Applied(w.tick + 1, deltas)] else [])
            && v.requests == w.requests + [w.tick + 1] && !v.syncPending
  {
    ReachableInv(start, w);
    ReachedIsReachable(start, w, round);
    RoundFrom(start, w, round, Reply(w.tick + 1, success, deltas));
  }

  // ---- The request after the round

  ghost predicate StillQuiet(w: World, v: World) {
    Quiet(v) && v.tick == w.tick && v.applied == w.applied && v.requests == w.requests
  }

  lemma QuietStays(start: int, w: World, v: World, e: Event)
    requires Inv(start, v) && StillQuiet(w, v) && Enabled(v, e) && e != Request(true)
    ensures Inv(start, Step(v, e)) && StillQuiet(w, Step(v, e))
  {
    StepInv(start, v, e);
    if e.RunTask? && v.readBuffer[v.phase.next].Reply? {
      RunReplyIsOnly(v);
    }
  }

  /** With no request open, only a due request changes the tick, what was applied or what was asked for. */
  lemma {:induction false} QuietAlong(start: int, w: World, events: seq<Event>)
    requires Inv(start, w) && Quiet(w) && Follows(w, events) && Request(true) !in events
    ensures Inv(start, Reached(w, events)) && StillQuiet(w, Reached(w, events))
  {
    forall x, e | Inv(start, x) && StillQuiet(w, x) && Enabled(x, e) && e != Request(true)
      ensures Inv(start, Step(x, e)) && StillQuiet(w, Step(x, e))
    {
      QuietStays(start, w, x, e);
    }
    KeptAlong(x => Inv(start, x) && StillQuiet(w, x), e => e != Request(true), w, events);
  }

  /**
   From every reachable state: however long nothing is due after a round, the tick to ask for is the one after the tick
   taken over, or the same again if the answer was a failure. By RequestGoesOutIff the next due request asks for it.
   */
  lemma {:induction false} NextTickToAsk(start: int, w: World, round: seq<Event>, success: bool, deltas: Deltas,
                                         idle: seq<Event>)
    requires Reachable(start, w) && !w.syncPending && Follows(w, round)
    requires Round(round, Reply(w.tick + 1, success, deltas))
    requires Follows(Reached(w, round), idle) && Request(true) !in idle
    ensures var v := Reached(Reached(w, round), idle);
            && v.tick + 1 == (if success then w.tick + 2 else w.tick + 1)
            && !v.syncPending && v.onWire == [] && v.requests == w.requests + [w.tick + 1]
  {
    ReachableInv(start, w);
    RoundFrom(start, w, round, Reply(w.tick + 1, success, deltas));
    QuietAlong(start, Reached(w, round), idle);
  }

  // ---- Such a round is always possible

  /** The frame that drains what is queued, pushes nothing and applies. */
  function Frame(queued: nat): (events: seq<Event>) {
    [Swap] + (seq(queued, _ => RunTask([])) + [EndDrain] + [Apply])
  }

  /** The least eventful round: asked, answered at once, and what was queued drained. */
  function PlainRound(w: World, success: bool, deltas: Deltas): (round: seq<Event>) {
    [Request(true)] + ([] + ([Answer(success, deltas)] + ([] + Frame(|w.writeBuffer| + 1))))
  }

  lemma {:induction false} DrainsOut(w: World, left: nat)
    requires w.phase.Draining? && w.phase.next + left == |w.readBuffer|
    ensures Follows(w, seq(left, _ => RunTask([])) + [EndDrain] + [Apply])
    decreases left
  {
    var events := seq(left, _ => RunTask([])) + [EndDrain] + [Apply];
    if left == 0 {
      assert events == [EndDrain, Apply];
      assert Follows(Step(w, EndDrain), [Apply]);
    } else {
      assert events[1..] == seq(left - 1, _ => RunTask([])) + [EndDrain] + [Apply];
      DrainsOut(Step(w, RunTask([])), left - 1);
    }
  }

  lemma FrameFollows(w: World, queued: nat)
    requires w.phase.Swapping? && queued == |w.writeBuffer|
    ensures Follows(w, Frame(queued))
  {
    DrainsOut(Step(w, Swap), queued);
    assert Frame(queued)[1..] == seq(queued, _ => RunTask([])) + [EndDrain] + [Apply];
  }

  lemma FollowsCons(w: World, e: Event, rest: seq<Event>)
    requires Enabled(w, e) && Follows(Step(w, e), rest)
    ensures Follows(w, [e] + rest)
  {
    assert ([e] + rest)[1..] == rest;
  }

  lemma PlainRoundIsRound(w: World, success: bool, deltas: Deltas)
    ensures Round(PlainRound(w, success, deltas), Reply(w.tick + 1, success, deltas))
  {
    var t := Reply(w.tick + 1, success, deltas);
    var runs := seq(|w.writeBuffer| + 1, _ => RunTask([])) + [EndDrain];
    assert PlainRound(w, success, deltas) ==
           [Request(true)] + ([] + ([Answer(t.success, t.deltas)] + ([] + ([Swap] + (runs + [Apply])))));
  }

  /** From every state that is about to decide with none pending, there is a round, whatever the server answers. */
  lemma RoundIsPossible(w: World, success: bool, deltas: Deltas)
    requires w.phase.Requesting? && !w.syncPending
    ensures Follows(w, PlainRound(w, success, deltas))
    ensures Round(PlainRound(w, success, deltas), Reply(w.tick + 1, success, deltas))
  {
    PlainRoundIsRound(w, success, deltas);
    var asked := Step(w, Request(true));
    var answered := Step(asked, Answer(success, deltas));
    var frame := Frame(|w.writeBuffer| + 1);
    FrameFollows(answered, |w.writeBuffer| + 1);
    assert [] + frame == frame;
    FollowsCons(asked, Answer(success, deltas), frame);
    var rest := [Answer(success, deltas)] + frame;
    assert [] + rest == rest;
    FollowsCons(w, Request(true), rest);
  }

  /** Every frame comes to its decision: from the swap on, the drain ends and the apply follows. */
  lemma FrameReachesDecision(w: World)
    requires w.phase.Swapping?
    ensures Follows(w, Frame(|w.writeBuffer|)) && Reached(w, Frame(|w.writeBuffer|)).phase.Requesting?
  {
    var queued := |w.writeBuffer|;
    FrameFollows(w, queued);
    var front := [Swap] + (seq(queued, _ => RunTask([])) + [EndDrain]);
    assert Frame(queued) == front + [Apply];
    FollowsConcat(w, front, [Apply]);
    OneEvent(Reached(w, front), Apply);
  }
}
