/**
 The profiler's outgoing buffer: three frames long, cut into blocks of at most one frame, rewound in its last third.
 */
module OutputBuffer {
  import opened Arith

  const FRAME: int := 256 * 1024
  /** How far back the stream compressor may refer. */
  const WINDOW: int := 64 * 1024

  type Byte = bv8

  function Flatten(blocks: seq<seq<Byte>>): seq<Byte> {
    if blocks == [] then [] else Flatten(blocks[..|blocks| - 1]) + blocks[|blocks| - 1]
  }

  function Suffix(s: seq<Byte>, n: nat): seq<Byte>
    requires n <= |s|
  {
    s[|s| - n..]
  }

  /** Where the bytes sent last still lie: up to the block start, and before that in front of the last rewind. */
  ghost predicate History(buf: seq<Byte>, start: nat, wrapEnd: nat, sent: seq<Byte>) {
    && |buf| == 3 * FRAME && start <= 2 * FRAME && start <= |sent|
    && buf[..start] == Suffix(sent, start)
    && (wrapEnd == 0 ==> start == |sent|)
    && (wrapEnd != 0 ==>
         && 2 * FRAME < wrapEnd <= 3 * FRAME && WINDOW <= |sent|
         && (start < WINDOW ==>
              buf[wrapEnd - (WINDOW - start)..wrapEnd] == sent[|sent| - WINDOW..|sent| - start]))
  }

  /** What the compressor finds when it looks back from the block about to be sent. */
  ghost function Dictionary(buf: seq<Byte>, start: nat, wrapEnd: nat, sent: seq<Byte>): seq<Byte>
    requires History(buf, start, wrapEnd, sent)
  {
    if start >= WINDOW then buf[start - WINDOW..start]
    else if wrapEnd == 0 then buf[..start]
    else buf[wrapEnd - (WINDOW - start)..wrapEnd] + buf[..start]
  }

  /** The last 64 KiB of what was sent, or all of it, are intact whenever the next block is compressed. */
  lemma DictionaryIsIntact(buf: seq<Byte>, start: nat, wrapEnd: nat, sent: seq<Byte>)
    requires History(buf, start, wrapEnd, sent)
    ensures Dictionary(buf, start, wrapEnd, sent) == Suffix(sent, Min(WINDOW, |sent|))
  {
    if start >= WINDOW {
      assert buf[start - WINDOW..start] == buf[..start][start - WINDOW..];
    } else if wrapEnd != 0 {
      assert sent[|sent| - WINDOW..|sent| - start] + sent[|sent| - start..] == sent[|sent| - WINDOW..];
    }
  }

  lemma SliceOfRest(s: seq<Byte>, e: nat, lo: nat, hi: nat)
    requires e <= lo <= hi <= |s|
    ensures s[lo..hi] == s[e..][lo - e..hi - e]
  {}

  /** Writing within one frame of the block start touches none of it. */
  lemma HistoryIsNotOverwritten(buf: seq<Byte>, buf': seq<Byte>, start: nat, off: nat, len: nat, wrapEnd: nat,
                                sent: seq<Byte>)
    requires History(buf, start, wrapEnd, sent) && start <= off && off + len <= start + FRAME
    requires |buf'| == |buf| && buf'[..off] == buf[..off] && buf'[off + len..] == buf[off + len..]
    ensures History(buf', start, wrapEnd, sent)
  {
    assert buf'[..start] == buf'[..off][..start] == buf[..start];
    if wrapEnd != 0 && start < WINDOW {
      var low, e := wrapEnd - (WINDOW - start), off + len;
      SliceOfRest(buf, e, low, wrapEnd);
      SliceOfRest(buf', e, low, wrapEnd);
    }
  }

  /** Sending the block moves the start on, or rewinds it; either way the window moves with it. */
  lemma HistoryMovesOn(buf: seq<Byte>, start: nat, off: nat, wrapEnd: nat, sent: seq<Byte>)
    requires History(buf, start, wrapEnd, sent) && start <= off <= start + FRAME
    ensures var now := sent + buf[start..off];
            if off > 2 * FRAME then History(buf, 0, off, now) else History(buf, off, wrapEnd, now)
  {
    var block := buf[start..off];
    var now := sent + block;
    assert buf[..off] == buf[..start] + block == Suffix(now, off);
    if off > 2 * FRAME {
      assert buf[off - WINDOW..off] == buf[..off][off - WINDOW..] == Suffix(now, WINDOW);
    } else if wrapEnd != 0 && off < WINDOW {
      var kept := buf[wrapEnd - (WINDOW - start)..wrapEnd];
      assert buf[wrapEnd - (WINDOW - off)..wrapEnd] == kept[|block|..] == now[|now| - WINDOW..|now| - off];
    }
  }

  /** Start and end of the pending bytes, blocks of at most a frame, their window intact, and nothing lost. */
  ghost predicate SenderOk(buf: seq<Byte>, start: nat, off: nat, wrapEnd: nat, blocks: seq<seq<Byte>>,
                           appended: seq<Byte>) {
    && start <= off <= start + FRAME
    && (forall k :: 0 <= k < |blocks| ==> |blocks[k]| <= FRAME)
    && History(buf, start, wrapEnd, Flatten(blocks))
    && appended == Flatten(blocks) + buf[start..off]
  }

  lemma CommitKeeps(buf: seq<Byte>, start: nat, off: nat, wrapEnd: nat, blocks: seq<seq<Byte>>, appended: seq<Byte>)
    requires SenderOk(buf, start, off, wrapEnd, blocks, appended)
    ensures var rewinds := off > 2 * FRAME;
            SenderOk(buf, if rewinds then 0 else off, if rewinds then 0 else off, if rewinds then off else wrapEnd,
                     blocks + [buf[start..off]], appended)
  {
    HistoryMovesOn(buf, start, off, wrapEnd, Flatten(blocks));
    FlattenSnoc(blocks, buf[start..off]);
    var now := Flatten(blocks) + buf[start..off];
    assert now + [] == now;
  }

  class Sender {
    const buffer: array<Byte>
    var bufferOffset: nat
    var bufferStart: nat

    /** The blocks handed to the compressor so far, and everything appended so far. */
    ghost var blocks: seq<seq<Byte>>
    ghost var appended: seq<Byte>
    /** The buffer position at which the last rewind happened, 0 before the first. */
    ghost var wrapEnd: nat

    ghost predicate Valid()
      reads this, buffer
    {
      SenderOk(buffer[..], bufferStart, bufferOffset, wrapEnd, blocks, appended)
    }

    ghost function Pending(): seq<Byte>
      requires bufferStart <= bufferOffset <= bufferStart + FRAME && bufferStart <= 2 * FRAME
      requires buffer.Length == 3 * FRAME
      reads this, buffer
    {
      buffer[..][bufferStart..bufferOffset]
    }

    constructor ()
      ensures Valid() && blocks == [] && appended == [] && fresh(buffer)
    {
      buffer := new Byte[3 * FRAME];
      bufferOffset, bufferStart, wrapEnd := 0, 0, 0;
      blocks, appended := [], [];
    }

    method CommitData()
      requires Valid()
      modifies `bufferOffset, `bufferStart, `blocks, `wrapEnd
      ensures Valid() && Pending() == []
      ensures blocks == old(blocks) + [old(Pending())]
    {
      CommitKeeps(buffer[..], bufferStart, bufferOffset, wrapEnd, blocks, appended);
      blocks := blocks + [Pending()];
      if bufferOffset > 2 * FRAME {
        wrapEnd := bufferOffset;
        bufferOffset := 0;
      }
      bufferStart := bufferOffset;
      assert Pending() == [];
    }

    method NeedDataSize(len: nat)
      requires Valid() && len <= FRAME
      modifies `bufferOffset, `bufferStart, `blocks, `wrapEnd
      ensures Valid() && bufferOffset - bufferStart + len <= FRAME
      ensures if old(bufferOffset) - old(bufferStart) + len > FRAME
              then bufferOffset == bufferStart && blocks == old(blocks) + [old(Pending())]
              else bufferOffset == old(bufferOffset) && bufferStart == old(bufferStart) && blocks == old(blocks)
    {
      if bufferOffset - bufferStart + len > FRAME {
        CommitData();
      }
    }

    method AppendDataUnsafe(data: seq<Byte>)
      requires Valid() && bufferOffset - bufferStart + |data| <= FRAME
      modifies `bufferOffset, `appended, buffer
      ensures Valid() && appended == old(appended) + data && Pending() == old(Pending()) + data
    {
      ghost var before := buffer[..];
      CopyIn(data);
      ghost var after, end := buffer[..], bufferOffset + |data|;
      assert after[..bufferOffset] == before[..bufferOffset] && after[bufferOffset..end] == data;
      assert after[end..] == before[end..];
      HistoryIsNotOverwritten(before, after, bufferStart, bufferOffset, |data|, wrapEnd, Flatten(blocks));
      PendingGrows(before, after, bufferStart, bufferOffset, data, Flatten(blocks));
      bufferOffset := bufferOffset + |data|;
      appended := appended + data;
    }

    method CopyIn(data: seq<Byte>)
      requires bufferOffset + |data| <= buffer.Length
      modifies buffer
      ensures buffer[..bufferOffset] == old(buffer[..bufferOffset])
      ensures buffer[bufferOffset..bufferOffset + |data|] == data
      ensures buffer[bufferOffset + |data|..] == old(buffer[bufferOffset + |data|..])
    {
      forall k | 0 <= k < |data| {
        buffer[bufferOffset + k] := data[k];
      }
      assert forall k :: bufferOffset + |data| <= k < buffer.Length ==> buffer[k] == old(buffer[k]);
    }

    /** Either the pending tail grows by the data, or it is sent as one block first. */
    method AppendData(data: seq<Byte>)
      requires Valid() && |data| <= FRAME
      modifies `bufferOffset, `bufferStart, `blocks, `wrapEnd, `appended, buffer
      ensures Valid() && appended == old(appended) + data
      ensures if old(bufferOffset) - old(bufferStart) + |data| > FRAME
              then blocks == old(blocks) + [old(Pending())] && Pending() == data
              else blocks == old(blocks) && Pending() == old(Pending()) + data
    {
      NeedDataSize(|data|);
      AppendDataUnsafe(data);
    }

    /** Any series of appends followed by a commit sends exactly those bytes, in blocks of at most one frame. */
    method AppendAll(pieces: seq<seq<Byte>>)
      requires Valid() && forall k :: 0 <= k < |pieces| ==> |pieces[k]| <= FRAME
      modifies `bufferOffset, `bufferStart, `blocks, `wrapEnd, `appended, buffer
      ensures Valid() && appended == old(appended) + Flatten(pieces)
      ensures Flatten(blocks) == appended
    {
      for i := 0 to |pieces|
        invariant Valid() && appended == old(appended) + Flatten(pieces[..i])
      {
        AppendData(pieces[i]);
        FlattenStep(pieces, i, old(appended));
      }
      assert pieces[..|pieces|] == pieces;
      if bufferOffset != bufferStart {
        CommitData();
      }
      assert appended == Flatten(blocks) + [];
    }
  }

  lemma FlattenStep(pieces: seq<seq<Byte>>, i: nat, before: seq<Byte>)
    requires i < |pieces|
    ensures before + Flatten(pieces[..i + 1]) == before + Flatten(pieces[..i]) + pieces[i]
  {
    assert pieces[..i + 1][..i] == pieces[..i];
  }

  lemma PendingGrows(buf: seq<Byte>, buf': seq<Byte>, start: nat, off: nat, data: seq<Byte>, sent: seq<Byte>)
    requires start <= off && off + |data| <= |buf| == |buf'|
    requires buf'[..off] == buf[..off] && buf'[off..off + |data|] == data
    ensures buf'[start..off + |data|] == buf[start..off] + data
    ensures sent + buf'[start..off + |data|] == sent + buf[start..off] + data
  {
    assert buf'[start..off] == buf'[..off][start..] == buf[start..off];
    assert buf'[start..off + |data|] == buf'[start..off] + buf'[off..off + |data|];
  }

  lemma FlattenSnoc(blocks: seq<seq<Byte>>, b: seq<Byte>)
    ensures Flatten(blocks + [b]) == Flatten(blocks) + b
  {
    assert (blocks + [b])[..|blocks|] == blocks;
  }
}
