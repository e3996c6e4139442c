/** Reading from a trace ring: a wrapped copy in two pieces, and a 64-bit tail that may overflow. */
module TraceRing {
  import opened Arith

  const WORD: int := 0x1_0000_0000_0000_0000

  type Byte = bv8

  lemma {:induction false} ModOfMultiple(a: int, n: int, q: int)
    requires n > 0
    ensures (a + q * n) % n == a % n
  {
    assert a + q * n == (a / n + q) * n + a % n by {
      assert (a / n + q) * n == a / n * n + q * n;
    }
    DivModUnique(a + q * n, n, a / n + q, a % n);
  }

  /** A ring size that divides the word makes the overflow of the position invisible. */
  lemma OverflowIsHarmless(p: int, size: int)
    requires size > 0 && WORD % size == 0
    ensures p % WORD % size == p % size
  {
    var q := p / WORD;
    var m := WORD / size;
    assert WORD == m * size;
    assert q * WORD == (q * m) * size by {
      assert q * (m * size) == (q * m) * size;
    }
    assert p == p % WORD + (q * m) * size;
    ModOfMultiple(p % WORD, size, q * m);
  }

  class RingBuffer {
    const size: nat
    const buffer: array<Byte>
    var tail: nat
    /** The tail as it would be without overflow. */
    ghost var position: nat

    ghost predicate Valid()
      reads this
    {
      size > 0 && WORD % size == 0 && buffer.Length == size && tail == position % WORD
    }

    /** The byte at a distance from the tail, in the endless stream that the ring is a window of. */
    ghost function At(offset: nat): Byte
      requires Valid()
      reads this, buffer
    {
      buffer[(position + offset) % size]
    }

    constructor (size: nat, buffer: array<Byte>, tail: nat)
      requires size > 0 && WORD % size == 0 && buffer.Length == size && tail < WORD
      ensures Valid() && this.size == size && this.buffer == buffer && position == tail
    {
      this.size, this.buffer, this.tail, position := size, buffer, tail, tail;
    }

    /** Copies cnt bytes of the stream, in one piece or in two. */
    method Read(dst: array<Byte>, offset: nat, cnt: nat)
      requires Valid() && cnt <= size && cnt <= dst.Length && dst != buffer
      modifies dst
      ensures forall k :: 0 <= k < cnt ==> dst[k] == At(offset + k)
      ensures forall k :: cnt <= k < dst.Length ==> dst[k] == old(dst[k])
    {
      var src := (tail + offset) % WORD % size;
      SourceIndex(offset);
      if src + cnt <= size {
        forall k | 0 <= k < cnt {
          dst[k] := buffer[src + k];
        }
      } else {
        var s0 := size - src;
        forall k | 0 <= k < s0 {
          dst[k] := buffer[src + k];
        }
        forall k | 0 <= k < cnt - s0 {
          dst[s0 + k] := buffer[k];
        }
      }
      forall k | 0 <= k < cnt
        ensures dst[k] == At(offset + k)
      {
        WrappedIndex(position + offset, k, size);
      }
    }

    lemma SourceIndex(offset: nat)
      requires Valid()
      ensures (tail + offset) % WORD % size == (position + offset) % size
    {
      ModOfMultiple(tail + offset, WORD, position / WORD);
      assert position + offset == tail + offset + position / WORD * WORD;
      OverflowIsHarmless(position + offset, size);
    }

    method Advance(cnt: nat)
      requires Valid()
      modifies this
      ensures Valid() && position == old(position) + cnt
    {
      ModOfMultiple(tail + cnt, WORD, position / WORD);
      assert position + cnt == tail + cnt + position / WORD * WORD;
      tail := (tail + cnt) % WORD;
      position := position + cnt;
    }
  }

  lemma WrappedIndex(p: nat, k: nat, size: nat)
    requires size > 0 && k < size
    ensures (p + k) % size == if p % size + k < size then p % size + k else p % size + k - size
  {
    if p % size + k < size {
      DivModUnique(p + k, size, p / size, p % size + k);
    } else {
      assert (p / size + 1) * size == p / size * size + size;
      DivModUnique(p + k, size, p / size + 1, p % size + k - size);
    }
  }
}
