/** The trace worker over many rounds: merge what is unread, then move every ring's tail past it. */
module TraceWorker {
  import opened SampleMerge
  import opened TraceRing

  lemma {:induction false} OfRingConcat(a: seq<Event>, b: seq<Event>, i: int)
    ensures OfRing(a + b, i) == OfRing(a, i) + OfRing(b, i)
    decreases |b|
  {
    if b == [] {
      assert a + b == a && OfRing(a, i) + [] == OfRing(a, i);
    } else {
      var front, e := b[..|b| - 1], b[|b| - 1];
      assert b == front + [e] && a + b == (a + front) + [e];
      OfRingConcat(a, front, i);
      OfRingSnoc(a + front, e, i);
      OfRingSnoc(front, e, i);
      Assoc(OfRing(a, i), OfRing(front, i), if e.ring == i then [e.rec] else []);
    }
  }

  lemma {:induction false} SamplesConcat(a: seq<Record>, b: seq<Record>)
    ensures Samples(a + b) == Samples(a) + Samples(b)
    decreases |b|
  {
    if b == [] {
      assert a + b == a && Samples(a) + [] == Samples(a);
    } else {
      var front, r := b[..|b| - 1], b[|b| - 1];
      assert b == front + [r] && a + b == (a + front) + [r];
      SamplesConcat(a, front);
      SamplesOneMore(a + front, r);
      SamplesOneMore(front, r);
      Assoc(Samples(a), Samples(front), if r.Sample? then [r] else []);
    }
  }

  lemma SamplesOneMore(a: seq<Record>, r: Record)
    ensures Samples(a + [r]) == Samples(a) + (if r.Sample? then [r] else [])
  {
    assert (a + [r])[..|a|] == a;
  }

  lemma {:induction false} OffsetConcat(a: seq<Record>, b: seq<Record>, k: nat)
    requires k <= |b|
    ensures Offset(a + b, |a| + k) == Offset(a, |a|) + Offset(b, k)
    decreases k
  {
    if k == 0 {
      OffsetOfPrefix(a, b, |a|);
    } else {
      OffsetConcat(a, b, k - 1);
      assert (a + b)[|a| + k - 1] == b[k - 1];
    }
  }

  lemma {:induction false} OffsetOfPrefix(a: seq<Record>, b: seq<Record>, k: nat)
    requires k <= |a|
    ensures Offset(a + b, k) == Offset(a, k)
    decreases k
  {
    if k > 0 {
      OffsetOfPrefix(a, b, k - 1);
    }
  }

  function Bytes(records: seq<Record>): nat {
    Offset(records, |records|)
  }

  lemma BytesConcat(a: seq<Record>, b: seq<Record>)
    ensures Bytes(a + b) == Bytes(a) + Bytes(b)
  {
    OffsetConcat(a, b, |b|);
  }

  lemma WellFormedParts(a: seq<Record>, b: seq<Record>)
    ensures WellFormed(a + b) <==> WellFormed(a) && WellFormed(b)
  {
    assert forall k :: 0 <= k < |a| ==> (a + b)[k] == a[k];
    assert forall k :: 0 <= k < |b| ==> (a + b)[|a| + k] == b[k];
  }

  /** One ring's records, read and unread, and the position in bytes at which they began. */
  datatype Track = Track(start: nat, read: seq<Record>, unread: seq<Record>)

  /** The tail stands right behind what was read, and the rest fits into the ring. */
  ghost predicate TrackOk(t: Track, position: nat, size: nat) {
    WellFormed(t.read) && WellFormed(t.unread) && position == t.start + Bytes(t.read) && Bytes(t.unread) <= size
  }

  function Moved(t: Track, seen: seq<Record>): Track
    requires seen <= t.unread
  {
    Track(t.start, t.read + seen, t.unread[|seen|..])
  }

  /** A snapshot may see a front part only, when more arrives meanwhile. */
  lemma TrackAdvances(t: Track, position: nat, size: nat, seen: seq<Record>)
    requires TrackOk(t, position, size) && seen <= t.unread
    ensures WellFormed(seen) && TrackOk(Moved(t, seen), position + Bytes(seen), size)
    ensures Samples(Moved(t, seen).read) == Samples(t.read) + Samples(seen)
  {
    var rest := t.unread[|seen|..];
    assert t.unread == seen + rest;
    WellFormedParts(seen, rest);
    WellFormedParts(t.read, seen);
    BytesConcat(seen, rest);
    BytesConcat(t.read, seen);
    SamplesConcat(t.read, seen);
  }

  lemma TrackGrows(t: Track, position: nat, size: nat, more: seq<Record>)
    requires TrackOk(t, position, size) && WellFormed(more) && Bytes(t.unread) + Bytes(more) <= size
    ensures TrackOk(t.(unread := t.unread + more), position, size)
  {
    WellFormedParts(t.unread, more);
    BytesConcat(t.unread, more);
  }

  class Worker {
    const rings: seq<RingBuffer>
    var emitted: seq<Event>
    var halted: bool
    ghost var tracks: seq<Track>

    ghost predicate Footing()
      reads this, rings
    {
      && |tracks| == |rings| && (forall i, j :: 0 <= i < j < |rings| ==> rings[i] != rings[j])
      && forall i :: 0 <= i < |rings| ==> rings[i].Valid() && TrackOk(tracks[i], rings[i].position, rings[i].size)
    }

    /** Up to every tail, each sample was emitted exactly once and in its ring's order, and nothing else was. */
    ghost predicate Valid()
      reads this, rings
    {
      Footing() && (!halted ==> forall i :: 0 <= i < |rings| ==> OfRing(emitted, i) == Samples(tracks[i].read))
    }

    constructor (rings: seq<RingBuffer>)
      requires forall i, j :: 0 <= i < j < |rings| ==> rings[i] != rings[j]
      requires forall i :: 0 <= i < |rings| ==> rings[i].Valid()
      ensures Valid() && this.rings == rings && !halted && emitted == []
      ensures |tracks| == |rings| && forall i :: 0 <= i < |rings| ==> tracks[i] == Track(rings[i].position, [], [])
    {
      this.rings, emitted, halted := rings, [], false;
      tracks := seq(|rings|, i requires 0 <= i < |rings| reads rings => Track(rings[i].position, [], []));
    }

    /** The kernel appends records to one ring, never more than fit beside what is unread. */
    ghost method Write(i: nat, more: seq<Record>)
      requires Valid() && i < |rings| && WellFormed(more)
      requires Bytes(tracks[i].unread) + Bytes(more) <= rings[i].size
      modifies `tracks
      ensures Valid() && tracks == old(tracks)[i := old(tracks[i]).(unread := old(tracks[i]).unread + more)]
    {
      TrackGrows(tracks[i], rings[i].position, rings[i].size, more);
      tracks := tracks[i := tracks[i].(unread := tracks[i].unread + more)];
    }

    /** The tails move on, except that of a ring in which there was nothing. */
    method AdvanceAll(ends: seq<nat>)
      requires |ends| == |rings| && forall i, j :: 0 <= i < j < |rings| ==> rings[i] != rings[j]
      requires forall i :: 0 <= i < |rings| ==> rings[i].Valid()
      modifies rings
      ensures forall i :: 0 <= i < |rings| ==> rings[i].Valid() && rings[i].position == old(rings[i].position) + ends[i]
    {
      for k := 0 to |rings|
        invariant forall i :: 0 <= i < |rings| ==> rings[i].Valid()
        invariant forall i :: 0 <= i < k ==> rings[i].position == old(rings[i].position) + ends[i]
        invariant forall i :: k <= i < |rings| ==> rings[i].position == old(rings[i].position)
      {
        if ends[k] != 0 {
          rings[k].Advance(ends[k]);
        }
      }
    }

    /** Each ring shows the snapshot a front part of its unread records. */
    ghost predicate Shows(seen: seq<seq<Record>>)
      reads this
    {
      |seen| == |tracks| && forall i :: 0 <= i < |seen| ==> seen[i] <= tracks[i].unread
    }

    /** What a merged snapshot adds to the output, ring by ring. */
    lemma MergedSnapshot(seen: seq<seq<Record>>, out: seq<Event>, i: nat)
      requires Valid() && !halted && Shows(seen) && MergeOf(seen, out) && i < |rings|
      ensures OfRing(emitted + out, i) == Samples(tracks[i].read) + Samples(seen[i][..Passable(seen[i])])
      ensures AllPassable(seen) ==> OfRing(emitted + out, i) == Samples(Moved(tracks[i], seen[i]).read)
    {
      OfRingConcat(emitted, out, i);
      TrackAdvances(tracks[i], rings[i].position, rings[i].size, seen[i]);
      if AllPassable(seen) {
        assert seen[i][..|seen[i]|] == seen[i];
      }
    }

    /** The tails follow a snapshot that was merged to its end. */
    method Follow(seen: seq<seq<Record>>)
      requires Footing() && Shows(seen)
      modifies rings, `tracks
      ensures Footing()
      ensures forall i :: 0 <= i < |rings| ==>
                && tracks[i] == Moved(old(tracks)[i], seen[i])
                && rings[i].position == old(rings[i].position) + Bytes(seen[i])
    {
      forall i | 0 <= i < |rings|
        ensures TrackOk(Moved(tracks[i], seen[i]), rings[i].position + Bytes(seen[i]), rings[i].size)
      {
        TrackAdvances(tracks[i], rings[i].position, rings[i].size, seen[i]);
      }
      AdvanceAll(seq(|seen|, i requires 0 <= i < |seen| => Bytes(seen[i])));
      ghost var before := tracks;
      tracks := seq(|seen|, i requires 0 <= i < |seen| && |before| == |seen| && seen[i] <= before[i].unread =>
                              Moved(before[i], seen[i]));
    }

    /** The output that the snapshot adds. */
    method Collect(seen: seq<seq<Record>>) returns (out: seq<Event>, stuck: bool)
      requires Valid() && !halted && Shows(seen)
      ensures stuck <==> exists i, k :: 0 <= i < |seen| && 0 <= k < |seen[i]| && Blocking(seen[i][k])
      ensures forall i :: 0 <= i < |rings| ==>
                OfRing(emitted + out, i) ==
                  if stuck then Samples(tracks[i].read) + Samples(seen[i][..Passable(seen[i])])
                  else Samples(Moved(tracks[i], seen[i]).read)
    {
      forall i | 0 <= i < |seen|
        ensures WellFormed(seen[i])
      {
        TrackAdvances(tracks[i], rings[i].position, rings[i].size, seen[i]);
      }
      out, stuck := Merge(seen);
      AllPassableIff(seen);
      forall i | 0 <= i < |seen|
        ensures OfRing(emitted + out, i) ==
                  if stuck then Samples(tracks[i].read) + Samples(seen[i][..Passable(seen[i])])
                  else Samples(Moved(tracks[i], seen[i]).read)
      {
        MergedSnapshot(seen, out, i);
      }
    }

    /**
     One round: the snapshot is merged and the tails follow. Over any number of rounds, with any records arriving in
     between, every sample behind a tail has been emitted once. A snapshot with a sample of the largest time halts the
     worker inside the merge, after the records before it and before any tail has moved.
     */
    method Round(seen: seq<seq<Record>>)
      requires Valid() && !halted && Shows(seen)
      modifies this, rings
      ensures Valid()
      ensures halted <==> exists i, k :: 0 <= i < |seen| && 0 <= k < |seen[i]| && Blocking(seen[i][k])
      ensures forall i :: 0 <= i < |rings| ==>
                if halted then
                  && tracks[i] == old(tracks)[i] && rings[i].position == old(rings[i].position)
                  && OfRing(emitted, i) == Samples(tracks[i].read) + Samples(seen[i][..Passable(seen[i])])
                else
                  && tracks[i] == Moved(old(tracks)[i], seen[i])
                  && rings[i].position == old(rings[i].position) + Bytes(seen[i])
    {
      var out, stuck := Collect(seen);
      emitted, halted := emitted + out, stuck;
      if !stuck {
        Follow(seen);
      }
    }
  }
}
