/** The k-way merge of trace rings: earliest sample first, exhausted rings squeezed out of the active list in place. */
module SampleMerge {

  const TIME_MAX: int := 0x7fff_ffff_ffff_ffff

  datatype Record = Sample(time: int, size: nat, data: int) | Other(size: nat)

  datatype Event = Event(ring: int, rec: Record)

  predicate WellFormed(ring: seq<Record>) {
    forall k :: 0 <= k < |ring| ==> ring[k].size > 0 && (ring[k].Sample? ==> ring[k].time <= TIME_MAX)
  }

  /** A sample with the time that stands for "nothing found yet": no scan ever picks it. */
  predicate Blocking(r: Record) {
    r.Sample? && r.time == TIME_MAX
  }

  /** How many records come before the first blocking one. */
  function Passable(ring: seq<Record>): (n: nat)
    ensures n <= |ring|
  {
    if ring == [] || Blocking(ring[0]) then 0 else 1 + Passable(ring[1..])
  }

  lemma {:induction false} PassableIs(ring: seq<Record>, n: nat)
    requires n <= |ring| && (n == |ring| || Blocking(ring[n])) && forall k :: 0 <= k < n ==> !Blocking(ring[k])
    ensures Passable(ring) == n
    decreases n
  {
    if n > 0 {
      PassableIs(ring[1..], n - 1);
    }
  }

  // ---- Byte positions

  /** Where record k starts, counted in bytes from the tail. */
  function Offset(ring: seq<Record>, k: nat): nat
    requires k <= |ring|
  {
    if k == 0 then 0 else Offset(ring, k - 1) + ring[k - 1].size
  }

  predicate StartsRecord(ring: seq<Record>, pos: nat) {
    ring != [] && (pos == 0 || (ring[0].size <= pos && StartsRecord(ring[1..], pos - ring[0].size)))
  }

  /** The header and time found at a byte position. */
  function ReadAt(ring: seq<Record>, pos: nat): Record
    requires StartsRecord(ring, pos)
  {
    if pos == 0 then ring[0] else ReadAt(ring[1..], pos - ring[0].size)
  }

  lemma {:induction false} OffsetShift(ring: seq<Record>, k: nat)
    requires 0 < k <= |ring|
    ensures Offset(ring, k) == ring[0].size + Offset(ring[1..], k - 1)
  {
    if k > 1 {
      OffsetShift(ring, k - 1);
    }
  }

  lemma {:induction false} ReadAtOffset(ring: seq<Record>, k: nat)
    requires WellFormed(ring) && k < |ring|
    ensures StartsRecord(ring, Offset(ring, k)) && ReadAt(ring, Offset(ring, k)) == ring[k]
    decreases k
  {
    if k > 0 {
      OffsetShift(ring, k);
      ReadAtOffset(ring[1..], k - 1);
    }
  }

  lemma {:induction false} OffsetGrows(ring: seq<Record>, j: nat, k: nat)
    requires WellFormed(ring) && j <= k <= |ring|
    ensures Offset(ring, j) <= Offset(ring, k)
    ensures j < k ==> Offset(ring, j) < Offset(ring, k)
    decreases k
  {
    if j < k {
      OffsetGrows(ring, j, k - 1);
    }
  }

  // ---- What a merge must be

  function Samples(ring: seq<Record>): seq<Record> {
    if ring == [] then []
    else
      var r := ring[|ring| - 1];
      Samples(ring[..|ring| - 1]) + (if r.Sample? then [r] else [])
  }

  /** The records that one ring contributed, in output order. */
  function OfRing(out: seq<Event>, i: int): seq<Record> {
    if out == [] then []
    else
      var e := out[|out| - 1];
      OfRing(out[..|out| - 1], i) + (if e.ring == i then [e.rec] else [])
  }

  predicate AllSamples(rings: seq<seq<Record>>) {
    forall i, k :: 0 <= i < |rings| && 0 <= k < |rings[i]| ==> rings[i][k].Sample?
  }

  predicate TimeSorted(ring: seq<Record>) {
    forall j, k :: 0 <= j < k < |ring| && ring[j].Sample? && ring[k].Sample? ==> ring[j].time <= ring[k].time
  }

  predicate Before(a: Event, b: Event) {
    a.rec.Sample? && b.rec.Sample? &&
    (a.rec.time < b.rec.time || (a.rec.time == b.rec.time && a.ring <= b.ring))
  }

  /** Sorted by time, equal times by ring. */
  predicate Ordered(out: seq<Event>) {
    forall j, k :: 0 <= j < k < |out| ==> Before(out[j], out[k])
  }

  // ---- Progress

  function Left(rings: seq<seq<Record>>, at: seq<nat>): int
    requires |at| == |rings|
  {
    if rings == [] then 0 else Left(rings[..|rings| - 1], at[..|rings| - 1]) + |rings[|rings| - 1]| - at[|rings| - 1]
  }

  lemma {:induction false} LeftStep(rings: seq<seq<Record>>, at: seq<nat>, i: nat)
    requires |at| == |rings| && i < |at|
    ensures Left(rings, at[i := at[i] + 1]) == Left(rings, at) - 1
  {
    var n := |rings| - 1;
    if i < n {
      assert at[i := at[i] + 1][..n] == at[..n][i := at[i] + 1];
      LeftStep(rings[..n], at[..n], i);
    } else {
      assert at[i := at[i] + 1][..n] == at[..n];
    }
  }

  lemma {:induction false} LeftIsNat(rings: seq<seq<Record>>, at: seq<nat>)
    requires |at| == |rings| && forall i :: 0 <= i < |at| ==> at[i] <= |rings[i]|
    ensures Left(rings, at) >= 0
  {
    if rings != [] {
      LeftIsNat(rings[..|rings| - 1], at[..|rings| - 1]);
    }
  }

  // ---- The merge in place

  ghost predicate Cursors(rings: seq<seq<Record>>, at: seq<nat>) {
    |at| == |rings| && forall i :: 0 <= i < |at| ==> at[i] <= |rings[i]|
  }

  predicate Increasing(s: seq<int>) {
    forall j, k :: 0 <= j < k < |s| ==> s[j] < s[k]
  }

  /** The active list names, in increasing order, exactly the rings with records left. */
  ghost predicate Active(rings: seq<seq<Record>>, at: seq<nat>, act: seq<int>)
    requires Cursors(rings, at)
  {
    && (forall x :: x in act ==> 0 <= x < |rings| && at[x] < |rings[x]|)
    && Increasing(act)
    && (forall i :: 0 <= i < |rings| && at[i] < |rings[i]| ==> i in act)
  }

  ghost predicate Emitted(rings: seq<seq<Record>>, at: seq<nat>, out: seq<Event>)
    requires Cursors(rings, at)
  {
    forall i :: 0 <= i < |rings| ==> OfRing(out, i) == Samples(rings[i][..at[i]])
  }

  function Remove(s: seq<int>, i: nat): seq<int>
    requires i < |s|
  {
    s[..i] + s[i + 1..]
  }

  lemma IncreasingSnoc(s: seq<int>, x: int)
    requires Increasing(s) && forall y :: y in s ==> y < x
    ensures Increasing(s + [x])
  {
    forall j | 0 <= j < |s|
      ensures s[j] < x
    {
      assert s[j] in s;
    }
  }

  lemma RemoveKeeps(s: seq<int>, i: nat)
    requires Increasing(s) && i < |s|
    ensures Increasing(Remove(s, i))
    ensures forall x :: x in Remove(s, i) <==> x in s && x != s[i]
  {
    var r := Remove(s, i);
    forall x | x in s && x != s[i]
      ensures x in r
    {
      var j :| 0 <= j < |s| && s[j] == x;
      assert r[if j < i then j else j - 1] == s[j];
    }
    forall x | x in r
      ensures x in s && x != s[i]
    {
      var j :| 0 <= j < |r| && r[j] == x;
      assert s[if j < i then j else j + 1] == x;
    }
  }

  /** The byte position reaches the end exactly after the last record. */
  lemma EndReached(ring: seq<Record>, k: nat)
    requires WellFormed(ring) && k < |ring|
    ensures Offset(ring, k) + ring[k].size == Offset(ring, k + 1)
    ensures Offset(ring, k + 1) == Offset(ring, |ring|) <==> k + 1 == |ring|
  {
    OffsetGrows(ring, k + 1, |ring|);
  }

  /** The merge's variables as values: next record of every ring, active list, byte positions and byte ends. */
  datatype State = State(rings: seq<seq<Record>>, at: seq<nat>, act: seq<int>, pos: seq<nat>, end: seq<nat>)

  ghost predicate Ok(v: State) {
    && (forall k :: 0 <= k < |v.rings| ==> WellFormed(v.rings[k]))
    && Cursors(v.rings, v.at) && Active(v.rings, v.at, v.act)
    && |v.pos| == |v.end| == |v.rings|
    && (forall i :: 0 <= i < |v.rings| ==> v.end[i] == Offset(v.rings[i], |v.rings[i]|))
    && (forall x :: x in v.act ==> v.pos[x] == Offset(v.rings[x], v.at[x]))
  }

  /** The ring that the i-th active entry names. */
  ghost function RingAt(v: State, i: nat): (x: nat)
    requires Ok(v) && i < |v.act|
    ensures x == v.act[i] && x in v.act && x < |v.rings| && v.at[x] < |v.rings[x]|
    ensures v.pos[x] == Offset(v.rings[x], v.at[x]) && v.end[x] == Offset(v.rings[x], |v.rings[x]|)
  {
    assert v.act[i] in v.act;
    v.act[i]
  }

  /** Its next record, as an event. */
  ghost function Head(v: State, i: nat): (e: Event)
    requires Ok(v) && i < |v.act|
    ensures e.ring == RingAt(v, i) && (e.rec.Sample? ==> e.rec.time <= TIME_MAX)
  {
    var x := RingAt(v, i);
    Event(x, v.rings[x][v.at[x]])
  }

  /** The state after the i-th active ring's record was stepped over; a ring read to its end leaves the list. */
  ghost function Stepped(v: State, i: nat): State
    requires Ok(v) && i < |v.act|
  {
    var x := RingAt(v, i);
    var at' := v.at[x := v.at[x] + 1];
    if v.at[x] + 1 == |v.rings[x]| then v.(at := at', act := Remove(v.act, i))
    else v.(at := at', pos := v.pos[x := Offset(v.rings[x], v.at[x] + 1)])
  }

  /** w is v after ring x moved on by one record, the active list read as a set. */
  ghost predicate MovedOn(v: State, x: nat, w: State)
    requires Ok(v) && x < |v.rings| && v.at[x] < |v.rings[x]|
  {
    && w.rings == v.rings && w.end == v.end && w.at == v.at[x := v.at[x] + 1] && |w.pos| == |v.pos|
    && Increasing(w.act)
    && (forall y :: y in w.act <==> y in v.act && (y == x ==> v.at[x] + 1 < |v.rings[x]|))
    && (forall y :: y in w.act ==> w.pos[y] == if y == x then Offset(v.rings[x], v.at[x] + 1) else v.pos[y])
  }

  lemma MovedOnOk(v: State, x: nat, w: State)
    requires Ok(v) && x < |v.rings| && v.at[x] < |v.rings[x]| && MovedOn(v, x, w)
    ensures Ok(w) && Left(w.rings, w.at) == Left(v.rings, v.at) - 1
  {
    LeftStep(v.rings, v.at, x);
  }

  lemma SteppedMovesOn(v: State, i: nat)
    requires Ok(v) && i < |v.act|
    ensures MovedOn(v, RingAt(v, i), Stepped(v, i))
  {
    if v.at[RingAt(v, i)] + 1 == |v.rings[RingAt(v, i)]| {
      RemoveKeeps(v.act, i);
    }
  }

  lemma SteppedOk(v: State, i: nat)
    requires Ok(v) && i < |v.act|
    ensures Ok(Stepped(v, i)) && Left(v.rings, Stepped(v, i).at) == Left(v.rings, v.at) - 1
  {
    SteppedMovesOn(v, i);
    MovedOnOk(v, RingAt(v, i), Stepped(v, i));
  }

  /** The step in terms of byte positions, as the code takes it. */
  lemma SteppedByBytes(v: State, i: nat)
    requires Ok(v) && i < |v.act|
    ensures var x := RingAt(v, i);
            var rbPos := v.pos[x] + Head(v, i).rec.size;
            var moved := v.(at := v.at[x := v.at[x] + 1]);
            Stepped(v, i) == if rbPos == v.end[x] then moved.(act := Remove(v.act, i))
                             else moved.(pos := v.pos[x := rbPos])
    ensures Ok(Stepped(v, i))
  {
    EndReached(v.rings[RingAt(v, i)], v.at[RingAt(v, i)]);
    SteppedOk(v, i);
  }

  /** Stepping over an entry leaves the ones before it as they were. */
  lemma SteppedKeepsEarlier(v: State, i: nat, j: nat)
    requires Ok(v) && j < i < |v.act|
    ensures Ok(Stepped(v, i)) && j < |Stepped(v, i).act| && Head(Stepped(v, i), j) == Head(v, j)
  {
    SteppedOk(v, i);
    assert v.act[j] < v.act[i];
  }

  lemma {:induction false} OfRingSnoc(out: seq<Event>, e: Event, i: int)
    ensures OfRing(out + [e], i) == OfRing(out, i) + (if e.ring == i then [e.rec] else [])
  {
    assert (out + [e])[..|out|] == out;
  }

  lemma SamplesSnoc(ring: seq<Record>, k: nat)
    requires k < |ring|
    ensures Samples(ring[..k + 1]) == Samples(ring[..k]) + (if ring[k].Sample? then [ring[k]] else [])
  {
    assert ring[..k + 1][..k] == ring[..k];
  }

  /** Skipping a record that is no sample, or emitting one that is, keeps every ring's samples complete and in order. */
  lemma EmittedStep(rings: seq<seq<Record>>, at: seq<nat>, out: seq<Event>, idx: nat, out': seq<Event>)
    requires Cursors(rings, at) && Emitted(rings, at, out) && idx < |rings| && at[idx] < |rings[idx]|
    requires out' == if rings[idx][at[idx]].Sample? then out + [Event(idx, rings[idx][at[idx]])] else out
    ensures Emitted(rings, at[idx := at[idx] + 1], out')
  {
    var r := rings[idx][at[idx]];
    SamplesSnoc(rings[idx], at[idx]);
    forall i | 0 <= i < |rings|
      ensures OfRing(out', i) == Samples(rings[i][..at[idx := at[idx] + 1][i]])
    {
      if r.Sample? {
        OfRingSnoc(out, Event(idx, r), i);
      }
    }
  }

  /** Sorted so far, and nothing still waiting belongs before the last event. */
  ghost predicate OrderedSoFar(rings: seq<seq<Record>>, at: seq<nat>, out: seq<Event>)
    requires Cursors(rings, at)
  {
    && Ordered(out)
    && forall x :: 0 <= x < |rings| && at[x] < |rings[x]| && out != [] ==>
         Before(out[|out| - 1], Event(x, rings[x][at[x]]))
  }

  /** No waiting head belongs before that of ring sel. */
  ghost predicate LeastHead(rings: seq<seq<Record>>, at: seq<nat>, sel: nat)
    requires Cursors(rings, at) && sel < |rings| && at[sel] < |rings[sel]|
  {
    forall x :: 0 <= x < |rings| && at[x] < |rings[x]| ==>
      Before(Event(sel, rings[sel][at[sel]]), Event(x, rings[x][at[x]]))
  }

  lemma OrderedStep(rings: seq<seq<Record>>, at: seq<nat>, out: seq<Event>, sel: nat)
    requires Cursors(rings, at) && OrderedSoFar(rings, at, out) && AllSamples(rings)
    requires sel < |rings| && at[sel] < |rings[sel]| && TimeSorted(rings[sel]) && LeastHead(rings, at, sel)
    ensures OrderedSoFar(rings, at[sel := at[sel] + 1], out + [Event(sel, rings[sel][at[sel]])])
  {
    var e := Event(sel, rings[sel][at[sel]]);
    forall j | 0 <= j < |out|
      ensures Before(out[j], e)
    {
      assert j < |out| - 1 ==> Before(out[j], out[|out| - 1]);
      assert Before(out[|out| - 1], e);
    }
  }

  ghost predicate AllSorted(rings: seq<seq<Record>>) {
    AllSamples(rings) && forall i :: 0 <= i < |rings| ==> TimeSorted(rings[i])
  }

  /** No blocking record was passed. */
  ghost predicate Unblocked(rings: seq<seq<Record>>, at: seq<nat>)
    requires Cursors(rings, at)
  {
    forall i, k :: 0 <= i < |rings| && 0 <= k < at[i] ==> !Blocking(rings[i][k])
  }

  lemma UnblockedStep(rings: seq<seq<Record>>, at: seq<nat>, sel: nat)
    requires Cursors(rings, at) && Unblocked(rings, at)
    requires sel < |rings| && at[sel] < |rings[sel]| && !Blocking(rings[sel][at[sel]])
    ensures Unblocked(rings, at[sel := at[sel] + 1])
  {}

  /** What the output must satisfy at every moment of the merge. */
  ghost predicate Faithful(rings: seq<seq<Record>>, at: seq<nat>, out: seq<Event>)
    requires Cursors(rings, at)
  {
    && Emitted(rings, at, out)
    && (forall k :: 0 <= k < |out| ==> 0 <= out[k].ring < |rings|)
    && Unblocked(rings, at)
    && (AllSorted(rings) ==> OrderedSoFar(rings, at, out))
  }

  lemma EmitStep(rings: seq<seq<Record>>, at: seq<nat>, out: seq<Event>, sel: nat, e: Event)
    requires Cursors(rings, at) && Faithful(rings, at, out)
    requires sel < |rings| && at[sel] < |rings[sel]| && e == Event(sel, rings[sel][at[sel]])
    requires e.rec.Sample? && !Blocking(e.rec)
    requires AllSorted(rings) ==> LeastHead(rings, at, sel)
    ensures Faithful(rings, at[sel := at[sel] + 1], out + [e])
  {
    EmittedStep(rings, at, out, sel, out + [e]);
    UnblockedStep(rings, at, sel);
    if AllSorted(rings) {
      OrderedStep(rings, at, out, sel);
    }
  }

  lemma SkipStep(rings: seq<seq<Record>>, at: seq<nat>, out: seq<Event>, sel: nat)
    requires Cursors(rings, at) && Faithful(rings, at, out)
    requires sel < |rings| && at[sel] < |rings[sel]| && rings[sel][at[sel]].Other?
    ensures !AllSamples(rings) && Faithful(rings, at[sel := at[sel] + 1], out)
  {
    EmittedStep(rings, at, out, sel, out);
    UnblockedStep(rings, at, sel);
    assert !AllSamples(rings);
  }

  /** The times the active heads carry, a record that is no sample counting as never. */
  ghost function Times(v: State): (t: seq<int>)
    requires Ok(v)
    ensures |t| == |v.act|
    ensures forall j :: 0 <= j < |v.act| ==> t[j] == if Head(v, j).rec.Sample? then Head(v, j).rec.time else TIME_MAX
  {
    seq(|v.act|, j requires 0 <= j < |v.act| => if Head(v, j).rec.Sample? then Head(v, j).rec.time else TIME_MAX)
  }

  /** Among the first n times, the one at selPos is the earliest, and the first such; there is none if all are never. */
  ghost predicate Pick(t: seq<int>, selPos: int, t0: int, n: nat) {
    && -1 <= selPos < n <= |t| && t0 <= TIME_MAX
    && (if selPos < 0 then t0 == TIME_MAX else t[selPos] == t0 < TIME_MAX)
    && (forall j :: 0 <= j < n ==> t0 <= t[j])
    && (forall j :: 0 <= j < selPos ==> t0 < t[j])
  }

  lemma PickStep(t: seq<int>, selPos: int, t0: int, n: nat)
    requires n < |t| && Pick(t, selPos, t0, n)
    ensures Pick(t, if t[n] < t0 then n else selPos, if t[n] < t0 then t[n] else t0, n + 1)
  {}

  lemma EarliestComesFirst(v: State, selPos: nat, t0: int)
    requires Ok(v) && AllSamples(v.rings) && Pick(Times(v), selPos, t0, |v.act|)
    ensures LeastHead(v.rings, v.at, RingAt(v, selPos))
  {
    forall x | 0 <= x < |v.rings| && v.at[x] < |v.rings[x]|
      ensures Before(Head(v, selPos), Event(x, v.rings[x][v.at[x]]))
    {
      assert x in v.act;
      var j :| 0 <= j < |v.act| && v.act[j] == x;
      assert RingAt(v, j) == x && Times(v)[j] == v.rings[x][v.at[x]].time;
      assert j > selPos ==> v.act[selPos] < v.act[j];
    }
  }

  /** Every ring that has anything left waits with a blocking record. */
  ghost predicate Stuck(v: State)
    requires Ok(v)
  {
    v.act != [] && forall j :: 0 <= j < |v.act| ==> Blocking(Head(v, j).rec)
  }

  ghost predicate FaithfulAt(v: State, out: seq<Event>)
    requires Ok(v)
  {
    Faithful(v.rings, v.at, out)
  }

  lemma SteppedAt(v: State, i: nat)
    requires Ok(v) && i < |v.act|
    ensures var x := RingAt(v, i);
            && Stepped(v, i).rings == v.rings && Stepped(v, i).at == v.at[x := v.at[x] + 1]
            && Head(v, i) == Event(x, v.rings[x][v.at[x]])
  {}

  lemma EmitAtHead(v: State, i: nat, out: seq<Event>, x: nat)
    requires Ok(v) && i < |v.act| && x == RingAt(v, i) && FaithfulAt(v, out)
    requires Head(v, i).rec.Sample? && !Blocking(Head(v, i).rec)
    requires AllSorted(v.rings) ==> LeastHead(v.rings, v.at, x)
    ensures Faithful(v.rings, v.at[x := v.at[x] + 1], out + [Head(v, i)])
  {
    EmitStep(v.rings, v.at, out, x, Head(v, i));
  }

  /** What holds of rings and counts holds of every consistent state that has them. */
  lemma FaithfulThere(w: State, rings: seq<seq<Record>>, at: seq<nat>, out: seq<Event>)
    requires Ok(w) && w.rings == rings && w.at == at && Cursors(rings, at) && Faithful(rings, at, out)
    ensures FaithfulAt(w, out)
  {}

  lemma EmitHead(v: State, i: nat, out: seq<Event>)
    requires Ok(v) && i < |v.act| && FaithfulAt(v, out) && Head(v, i).rec.Sample? && !Blocking(Head(v, i).rec)
    requires AllSorted(v.rings) ==> LeastHead(v.rings, v.at, RingAt(v, i))
    ensures Ok(Stepped(v, i)) && FaithfulAt(Stepped(v, i), out + [Head(v, i)])
  {
    var x, w, out' := RingAt(v, i), Stepped(v, i), out + [Head(v, i)];
    SteppedOk(v, i);
    SteppedAt(v, i);
    EmitAtHead(v, i, out, x);
    FaithfulThere(w, v.rings, v.at[x := v.at[x] + 1], out');
  }

  lemma SkipHead(v: State, i: nat, out: seq<Event>)
    requires Ok(v) && i < |v.act| && FaithfulAt(v, out) && Head(v, i).rec.Other?
    ensures !AllSamples(v.rings) && Ok(Stepped(v, i)) && FaithfulAt(Stepped(v, i), out)
  {
    SteppedOk(v, i);
    SteppedAt(v, i);
    SkipStep(v.rings, v.at, out, RingAt(v, i));
  }

  /** A head that the scan can have picked. */
  ghost predicate Pickable(v: State, selPos: int)
    requires Ok(v)
  {
    -1 <= selPos < |v.act| && (0 <= selPos ==> Head(v, selPos).rec.Sample? && !Blocking(Head(v, selPos).rec))
  }

  /** Before the look at head number i: the pick so far, and whether anything was skipped. */
  ghost predicate Looking(v0: State, v: State, selPos: int, t0: int, i: int, skipped: bool)
    requires Ok(v0) && Ok(v)
  {
    && v.rings == v0.rings && selPos < i <= |v.act| && 0 <= i && t0 <= TIME_MAX && Pickable(v, selPos)
    && (if skipped then !AllSamples(v.rings) && Left(v.rings, v.at) < Left(v0.rings, v0.at)
        else v == v0 && Pick(Times(v), selPos, t0, i) && forall j :: 0 <= j < i ==> Head(v, j).rec.Sample?)
  }

  lemma LookAtSample(v0: State, v: State, selPos: int, t0: int, i: int, skipped: bool)
    requires Ok(v0) && Ok(v) && Looking(v0, v, selPos, t0, i, skipped) && i < |v.act| && Head(v, i).rec.Sample?
    ensures var t := Head(v, i).rec.time;
            Looking(v0, v, if t < t0 then i else selPos, if t < t0 then t else t0, i + 1, skipped)
  {
    if !skipped {
      PickStep(Times(v), selPos, t0, i);
    }
  }

  lemma LookAtOther(v0: State, v: State, selPos: int, t0: int, i: int, skipped: bool)
    requires Ok(v0) && Ok(v) && Looking(v0, v, selPos, t0, i, skipped) && i < |v.act| && Head(v, i).rec.Other?
    ensures var w := Stepped(v, i);
            Ok(w) && Looking(v0, w, selPos, t0, if |w.act| < |v.act| then i else i + 1, true)
  {
    SteppedOk(v, i);
    assert v.rings[RingAt(v, i)][v.at[RingAt(v, i)]].Other?;
    if 0 <= selPos {
      SteppedKeepsEarlier(v, i, selPos);
    }
  }

  /** What a finished look promises: a pick, or some progress, or nothing ever again. */
  ghost predicate Looked(v0: State, v: State, selPos: int, skipped: bool)
    requires Ok(v0) && Ok(v)
  {
    && v.rings == v0.rings && Pickable(v, selPos)
    && (if skipped then Left(v.rings, v.at) < Left(v0.rings, v0.at) else v == v0)
    && (!skipped && selPos < 0 && v.act != [] ==> Stuck(v))
    && (AllSamples(v.rings) && 0 <= selPos ==> LeastHead(v.rings, v.at, RingAt(v, selPos)))
  }

  lemma LookingDone(v0: State, v: State, selPos: int, t0: int, skipped: bool)
    requires Ok(v0) && Ok(v) && Looking(v0, v, selPos, t0, |v.act|, skipped)
    ensures Looked(v0, v, selPos, skipped)
  {
    if AllSamples(v.rings) && 0 <= selPos {
      EarliestComesFirst(v, selPos, t0);
    }
    if !skipped && selPos < 0 {
      forall j | 0 <= j < |v.act|
        ensures Blocking(Head(v, j).rec)
      {
        assert Times(v)[j] >= TIME_MAX;
      }
    }
  }

  /** memmove of the tail of the active list over entry i. */
  method RemoveAt(active: array<int>, i: nat, activeNum: nat)
    requires i < activeNum <= active.Length
    modifies active
    ensures active[..activeNum - 1] == Remove(old(active[..activeNum]), i)
  {
    ghost var before := active[..activeNum];
    forall k | i <= k < activeNum - 1 {
      active[k] := active[k + 1];
    }
    assert forall k :: 0 <= k < activeNum - 1 ==> active[k] == Remove(before, i)[k];
  }

  /** Takes in the rings whose head is not their tail. */
  method Snapshot(rings: seq<seq<Record>>, active: array<int>, end: array<nat>, pos: array<nat>)
    returns (activeNum: nat)
    requires forall k :: 0 <= k < |rings| ==> WellFormed(rings[k])
    requires active.Length == end.Length == pos.Length == |rings| && pos != end
    modifies active, end, pos
    ensures activeNum <= |rings| && Increasing(active[..activeNum])
    ensures forall x :: x in active[..activeNum] <==> 0 <= x < |rings| && 0 < |rings[x]|
    ensures forall k :: 0 <= k < |rings| ==> end[..][k] == Offset(rings[k], |rings[k]|)
    ensures forall x :: x in active[..activeNum] ==> pos[..][x] == 0
  {
    activeNum := 0;
    for i := 0 to |rings|
      invariant activeNum <= i && Increasing(active[..activeNum])
      invariant forall x :: x in active[..activeNum] <==> 0 <= x < i && 0 < |rings[x]|
      invariant forall k :: 0 <= k < i ==> end[..][k] == Offset(rings[k], |rings[k]|)
      invariant forall x :: x in active[..activeNum] ==> pos[..][x] == 0
    {
      end[i] := Offset(rings[i], |rings[i]|);
      OffsetGrows(rings[i], 0, |rings[i]|);
      if end[i] != 0 {
        ghost var before := active[..activeNum];
        active[activeNum] := i;
        activeNum := activeNum + 1;
        pos[i] := 0;
        assert active[..activeNum] == before + [i];
        IncreasingSnoc(before, i);
      }
    }
  }

  class Cursor {
    const rings: seq<seq<Record>>
    const active: array<int>
    const end: array<nat>
    const pos: array<nat>
    var activeNum: nat
    ghost var at: seq<nat>

    ghost function View(): State
      requires activeNum <= active.Length
      reads this, active, pos, end
    {
      State(rings, at, active[..activeNum], pos[..], end[..])
    }

    ghost predicate Valid()
      reads this, active, pos, end
    {
      activeNum <= active.Length && pos != end && Ok(View())
    }

    /** Snapshot: a ring takes part when its head is not its tail. */
    constructor (rings: seq<seq<Record>>)
      requires forall k :: 0 <= k < |rings| ==> WellFormed(rings[k])
      ensures Valid() && this.rings == rings && fresh(active) && fresh(pos) && fresh(end)
      ensures at == seq(|rings|, _ => 0)
    {
      this.rings := rings;
      active, end, pos := new int[|rings|], new nat[|rings|](_ => 0), new nat[|rings|](_ => 0);
      at := seq(|rings|, _ => 0);
      new;
      activeNum := Snapshot(rings, active, end, pos);
    }

    /** The record at the position of the i-th active ring. */
    method ReadHead(i: nat) returns (r: Record)
      requires Valid() && i < activeNum
      ensures r == Head(View(), i).rec
    {
      ghost var x := RingAt(View(), i);
      ReadAtOffset(rings[x], at[x]);
      var idx := active[i];
      assert idx == x && pos[idx] == pos[..][idx];
      r := ReadAt(rings[idx], pos[idx]);
    }

    method StepPast(i: nat, size: nat) returns (removed: bool)
      requires Valid() && i < activeNum && size == Head(View(), i).rec.size
      modifies `activeNum, `at, active, pos
      ensures Valid() && View() == Stepped(old(View()), i)
      ensures activeNum == old(activeNum) - (if removed then 1 else 0)
    {
      ghost var v := View();
      SteppedByBytes(v, i);
      var idx := active[i];
      assert idx == RingAt(v, i) && pos[idx] == v.pos[idx] && end[idx] == v.end[idx];
      var rbPos := pos[idx] + size;
      removed := rbPos == end[idx];
      at := at[idx := at[idx] + 1];
      if removed {
        Leave(i);
      } else {
        MoveTo(idx, rbPos);
      }
    }

    method Leave(i: nat)
      requires i < activeNum <= active.Length
      modifies `activeNum, active
      ensures activeNum == old(activeNum) - 1
      ensures View() == old(View()).(act := Remove(old(View()).act, i))
    {
      RemoveAt(active, i, activeNum);
      activeNum := activeNum - 1;
    }

    method MoveTo(idx: nat, rbPos: nat)
      requires activeNum <= active.Length && idx < pos.Length && pos != end
      modifies pos
      ensures View() == old(View()).(pos := old(pos[..])[idx := rbPos])
    {
      pos[idx] := rbPos;
    }

    /** One look over the active heads: the earliest sample is picked, records that are no samples are skipped. */
    method FindEarliest(ghost out: seq<Event>) returns (selPos: int, skipped: bool)
      requires Valid() && FaithfulAt(View(), out)
      modifies `activeNum, `at, active, pos
      ensures Valid() && FaithfulAt(View(), out) && Looked(old(View()), View(), selPos, skipped)
    {
      ghost var v0 := View();
      var t0, i := TIME_MAX, 0;
      selPos, skipped := -1, false;
      while i < activeNum
        invariant Valid() && FaithfulAt(View(), out) && Looking(v0, View(), selPos, t0, i, skipped)
        decreases activeNum - i
      {
        selPos, t0, i, skipped := LookAt(v0, out, selPos, t0, i, skipped);
      }
      LookingDone(v0, View(), selPos, t0, skipped);
    }

    /** Looks at one head; after a removal the same index names the next one. */
    method LookAt(ghost v0: State, ghost out: seq<Event>, selPos: int, t0: int, i: nat, skipped: bool)
      returns (selPos': int, t0': int, i': nat, skipped': bool)
      requires Valid() && i < activeNum && FaithfulAt(View(), out)
      requires Ok(v0) && Looking(v0, View(), selPos, t0, i, skipped)
      modifies `activeNum, `at, active, pos
      ensures Valid() && FaithfulAt(View(), out) && Looking(v0, View(), selPos', t0', i', skipped')
      ensures activeNum - i' == old(activeNum) - i - 1
    {
      var r := ReadHead(i);
      if r.Sample? {
        LookAtSample(v0, View(), selPos, t0, i, skipped);
        i', skipped' := i + 1, skipped;
        t0', selPos' := if r.time < t0 then r.time else t0, if r.time < t0 then i else selPos;
      } else {
        selPos', t0', skipped' := selPos, t0, true;
        i' := Skip(v0, out, selPos, t0, i, skipped, r.size);
      }
    }

    method Skip(ghost v0: State, ghost out: seq<Event>, ghost selPos: int, ghost t0: int, i: nat, ghost skipped: bool,
                size: nat)
      returns (i': nat)
      requires Valid() && i < activeNum && Head(View(), i).rec == Other(size) && FaithfulAt(View(), out)
      requires Ok(v0) && Looking(v0, View(), selPos, t0, i, skipped)
      modifies `activeNum, `at, active, pos
      ensures Valid() && FaithfulAt(View(), out) && Looking(v0, View(), selPos, t0, i', true)
      ensures activeNum - i' == old(activeNum) - i - 1
    {
      LookAtOther(v0, View(), selPos, t0, i, skipped);
      SkipHead(View(), i, out);
      var removed := StepPast(i, size);
      i' := if removed then i else i + 1;
    }

    /** Emits the head of an active ring. */
    method Emit(selPos: nat, out: seq<Event>) returns (out': seq<Event>)
      requires Valid() && selPos < activeNum && FaithfulAt(View(), out) && Pickable(View(), selPos)
      requires AllSorted(rings) ==> LeastHead(rings, at, RingAt(View(), selPos))
      modifies `activeNum, `at, active, pos
      ensures Valid() && FaithfulAt(View(), out')
      ensures out' == out + [old(Head(View(), selPos))]
      ensures Left(rings, at) == old(Left(rings, at)) - 1
    {
      EmitHead(View(), selPos, out);
      SteppedOk(View(), selPos);
      var sel := active[selPos];
      var r := ReadHead(selPos);
      out' := out + [Event(sel, r)];
      var _ := StepPast(selPos, r.size);
    }

    /**
     One look, and the emission of what it picked. A round without progress changes nothing, so every later one is like
     it.
     */
    method Round(out: seq<Event>) returns (out': seq<Event>, stuck: bool)
      requires Valid() && activeNum > 0 && FaithfulAt(View(), out)
      modifies `activeNum, `at, active, pos
      ensures Valid() && FaithfulAt(View(), out') && 0 <= Left(rings, at)
      ensures if stuck then out' == out && View() == old(View()) && Stuck(View())
              else Left(rings, at) < old(Left(rings, at))
    {
      var selPos, skipped := FindEarliest(out);
      out', stuck := out, selPos < 0 && !skipped;
      if selPos >= 0 {
        out' := Emit(selPos, out);
      }
      LeftIsNat(rings, at);
    }
  }

  // ---- The whole merge

  /** Every ring's samples up to its first blocking record, each once and in that ring's order, and nothing else. */
  ghost predicate MergeOf(rings: seq<seq<Record>>, out: seq<Event>) {
    && (forall i :: 0 <= i < |rings| ==> OfRing(out, i) == Samples(rings[i][..Passable(rings[i])]))
    && (forall k :: 0 <= k < |out| ==> 0 <= out[k].ring < |rings|)
    && (AllSorted(rings) ==> Ordered(out))
  }

  ghost predicate AllPassable(rings: seq<seq<Record>>) {
    forall i :: 0 <= i < |rings| ==> Passable(rings[i]) == |rings[i]|
  }

  /**
   Emits every sample of every ring exactly once and in that ring's order; if all records are samples and every ring is
   sorted, the whole output is sorted. The loop ends unless some ring holds a sample with the largest time. Then it
   comes to a round that changes nothing; the original repeats that round for ever, here it is reported.
   */
  method Merge(rings: seq<seq<Record>>) returns (out: seq<Event>, stuck: bool)
    requires forall k :: 0 <= k < |rings| ==> WellFormed(rings[k])
    ensures MergeOf(rings, out)
    ensures stuck <==> exists i, k :: 0 <= i < |rings| && 0 <= k < |rings[i]| && Blocking(rings[i][k])
  {
    var c := new Cursor(rings);
    NothingEmitted(c.View());
    out, stuck := [], false;
    while c.activeNum > 0 && !stuck
      invariant c.Valid() && c.rings == rings && fresh(c) && fresh(c.active) && fresh(c.pos)
      invariant FaithfulAt(c.View(), out) && (stuck ==> Stuck(c.View()))
      decreases !stuck, Left(rings, c.at)
    {
      out, stuck := c.Round(out);
    }
    MergeEnds(c.View(), out);
    AllPassableIff(rings);
  }

  /** The smallest input on which the loop stands still: one sample of the largest time. */
  lemma LargestTimeBlocks(ring: seq<Record>)
    requires ring == [Sample(TIME_MAX, 16, 0)]
    ensures WellFormed(ring) && Passable(ring) == 0
    ensures var v := State([ring], [0], [0], [0], [16]); Ok(v) && Stuck(v)
  {
    var v := State([ring], [0], [0], [0], [16]);
    assert Offset(ring, 1) == Offset(ring, 0) + 16;
    assert Head(v, 0).rec == ring[0];
  }

  lemma NothingEmitted(v: State)
    requires Ok(v) && v.at == seq(|v.rings|, _ => 0)
    ensures FaithfulAt(v, [])
  {
  }

  /** Where the loop ends or comes to a standstill, each ring was read exactly up to its first blocking record. */
  lemma ReadUpToBlocking(v: State, out: seq<Event>, i: nat)
    requires Ok(v) && FaithfulAt(v, out) && (v.act == [] || Stuck(v)) && i < |v.rings|
    ensures Passable(v.rings[i]) == v.at[i]
  {
    if v.at[i] < |v.rings[i]| {
      assert i in v.act;
      var j :| 0 <= j < |v.act| && v.act[j] == i;
      assert Blocking(Head(v, j).rec);
    }
    PassableIs(v.rings[i], v.at[i]);
  }

  lemma MergeEnds(v: State, out: seq<Event>)
    requires Ok(v) && FaithfulAt(v, out) && (v.act == [] || Stuck(v))
    ensures MergeOf(v.rings, out)
    ensures v.act == [] <==> AllPassable(v.rings)
  {
    forall i | 0 <= i < |v.rings|
      ensures Passable(v.rings[i]) == v.at[i] && OfRing(out, i) == Samples(v.rings[i][..Passable(v.rings[i])])
    {
      ReadUpToBlocking(v, out, i);
    }
    if v.act != [] {
      assert v.act[0] in v.act;
    }
  }

  lemma AllPassableIff(rings: seq<seq<Record>>)
    ensures AllPassable(rings) <==> !exists i, k :: 0 <= i < |rings| && 0 <= k < |rings[i]| && Blocking(rings[i][k])
  {
    forall i | 0 <= i < |rings|
      ensures Passable(rings[i]) == |rings[i]| <==> forall k :: 0 <= k < |rings[i]| ==> !Blocking(rings[i][k])
    {
      PassableIff(rings[i]);
    }
  }

  lemma {:induction false} PassableIff(ring: seq<Record>)
    ensures Passable(ring) == |ring| <==> forall k :: 0 <= k < |ring| ==> !Blocking(ring[k])
  {
    if ring != [] {
      PassableIff(ring[1..]);
      assert forall k :: 0 < k < |ring| ==> ring[k] == ring[1..][k - 1];
    }
  }

  // ---- The sorted merge is the only one

  lemma Assoc<T>(a: seq<T>, b: seq<T>, c: seq<T>)
    ensures a + b + c == a + (b + c)
  {}

  lemma FirstAndLast<T>(s: seq<T>)
    requires |s| > 1
    ensures var front, mid, last := s[..|s| - 1], s[1..|s| - 1], s[|s| - 1];
            s == front + [last] && s[1..] == mid + [last] && front[1..] == mid && front[0] == s[0]
  {}

  lemma OfRingOne(e: Event, i: int)
    ensures OfRing([e], i) == (if e.ring == i then [e.rec] else []) + OfRing([], i)
  {
    assert [e][..0] == [];
  }

  lemma {:induction false} OfRingCons(out: seq<Event>, i: int)
    requires out != []
    ensures OfRing(out, i) == (if out[0].ring == i then [out[0].rec] else []) + OfRing(out[1..], i)
    decreases |out|
  {
    if |out| == 1 {
      assert out == [out[0]];
      OfRingOne(out[0], i);
    } else {
      var front, mid, e := out[..|out| - 1], out[1..|out| - 1], out[|out| - 1];
      FirstAndLast(out);
      OfRingCons(front, i);
      OfRingSnoc(front, e, i);
      OfRingSnoc(mid, e, i);
      Assoc(if out[0].ring == i then [out[0].rec] else [], OfRing(mid, i), if e.ring == i then [e.rec] else []);
    }
  }

  /** A ring's first record stands somewhere in the output. */
  lemma {:induction false} FirstOfRingOccurs(out: seq<Event>, i: int)
    requires OfRing(out, i) != []
    ensures exists k :: 0 <= k < |out| && out[k] == Event(i, OfRing(out, i)[0])
  {
    OfRingCons(out, i);
    if out[0].ring == i {
      assert out[0] == Event(i, OfRing(out, i)[0]);
    } else {
      FirstOfRingOccurs(out[1..], i);
      var k :| 0 <= k < |out[1..]| && out[1..][k] == Event(i, OfRing(out[1..], i)[0]);
      assert out[k + 1] == Event(i, OfRing(out, i)[0]);
    }
  }

  lemma SameFirst(a: seq<Event>, b: seq<Event>)
    requires Ordered(a) && Ordered(b) && a != [] && b != []
    requires forall i :: OfRing(a, i) == OfRing(b, i)
    ensures a[0] == b[0]
  {
    var p, q := a[0], b[0];
    OfRingCons(a, p.ring);
    OfRingCons(b, q.ring);
    FirstOfRingOccurs(b, p.ring);
    FirstOfRingOccurs(a, q.ring);
    var k :| 0 <= k < |b| && b[k] == Event(p.ring, OfRing(b, p.ring)[0]);
    var j :| 0 <= j < |a| && a[j] == Event(q.ring, OfRing(a, q.ring)[0]);
    assert b[k] == p && a[j] == q;
    assert k > 0 ==> Before(q, p);
    assert j > 0 ==> Before(p, q);
  }

  /** Contributions and order determine the output: ties are always broken by ring number. */
  lemma {:induction false} SortedMergeIsUnique(a: seq<Event>, b: seq<Event>)
    requires Ordered(a) && Ordered(b)
    requires forall i :: OfRing(a, i) == OfRing(b, i)
    ensures a == b
  {
    if a == [] {
      if b != [] {
        OfRingCons(b, b[0].ring);
      }
    } else if b == [] {
      OfRingCons(a, a[0].ring);
    } else {
      SameFirst(a, b);
      forall i
        ensures OfRing(a[1..], i) == OfRing(b[1..], i)
      {
        OfRingCons(a, i);
        OfRingCons(b, i);
        var n := if a[0].ring == i then 1 else 0;
        assert OfRing(a[1..], i) == OfRing(a, i)[n..];
        assert OfRing(b[1..], i) == OfRing(b, i)[n..];
      }
      SortedMergeIsUnique(a[1..], b[1..]);
    }
  }
}
