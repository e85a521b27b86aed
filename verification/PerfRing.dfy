/**
 The ring buffer that the kernel fills with trace records.
 */
module PerfRing {

  import opened Bytes
  import opened Int64
  import BlockArith

  /** Index in the buffer of the byte at a logical offset from the tail. The tail is a 64-bit counter. */
  function Position(tail: nat, offset: nat, size: nat): (r: nat)
    requires size > 0
    ensures r < size
  {
    (tail + offset) % WORD64 % size
  }

  /** As the size divides the word, the counter's wrap-around is not seen. */
  lemma PositionUnwrapped(tail: nat, offset: nat, size: nat)
    requires size > 0 && WORD64 % size == 0
    ensures Position(tail, offset, size) == (tail + offset) % size
  {
    var x := tail + offset;
    var q, k := x / WORD64, WORD64 / size;
    Exact(size, k);
    var y := x % WORD64;
    assert x == q * WORD64 + y;
    assert q * WORD64 == (q * k) * size by { assert WORD64 == k * size; Regroup(q, k, size); }
    assert x == (q * k + y / size) * size + y % size by { Collect(q * k, y / size, size); }
    BlockArith.ModUnique(x, q * k + y / size, y % size, size);
  }

  lemma Exact(size: nat, k: nat)
    requires size > 0 && WORD64 % size == 0 && k == WORD64 / size
    ensures k * size == WORD64
  {
  }

  lemma Regroup(q: nat, k: nat, size: nat)
    ensures q * (k * size) == (q * k) * size
  {
  }

  lemma Collect(a: nat, b: nat, size: nat)
    requires size > 0
    ensures (a + b) * size == a * size + b * size
  {
  }

  /** Advancing the tail shifts all offsets. */
  lemma AdvanceShifts(tail: nat, n: nat, offset: nat, size: nat)
    requires size > 0 && WORD64 % size == 0
    ensures Position((tail + n) % WORD64, offset, size) == Position(tail, n + offset, size)
  {
    PositionUnwrapped((tail + n) % WORD64, offset, size);
    PositionUnwrapped(tail, n + offset, size);
    PositionUnwrapped(tail, n, size);
    BlockArith.ModShift((tail + n) % WORD64, offset, size);
    BlockArith.ModShift(tail + n, offset, size);
  }

  function After(p: nat, k: nat, size: nat): int { if p + k < size then p + k else p + k - size }

  /** Bytes that follow each other are at successive positions, with one wrap to 0. */
  lemma PositionNext(tail: nat, offset: nat, k: nat, size: nat)
    requires size > 0 && WORD64 % size == 0 && k < size
    ensures Position(tail, offset + k, size) == After(Position(tail, offset, size), k, size)
  {
    hide Position;
    PositionUnwrapped(tail, offset, size);
    PositionUnwrapped(tail, offset + k, size);
    RemainderNext(tail + offset, k, size);
  }

  lemma RemainderNext(x: nat, k: nat, size: nat)
    requires k < size
    ensures (x + k) % size == After(x % size, k, size)
  {
    var q, p := x / size, x % size;
    BlockArith.BaseNext(q, size);
    assert x == BlockArith.Base(q, size) + p;
    hide BlockArith.Base;
    if p + k < size { BlockArith.BaseUnique(x + k, q, size); } else { BlockArith.BaseUnique(x + k, q + 1, size); }
  }

  class RingBuffer {
    const m_size: nat
    const m_buffer: array<byte>
    var m_tail: nat

    ghost predicate Valid()
      reads this
    {
      m_size > 0 && WORD64 % m_size == 0 && m_buffer.Length == m_size && m_tail < WORD64
    }

    /** The byte at a logical offset from the tail. */
    ghost function ByteAt(offset: nat): byte
      reads this, m_buffer
      requires Valid()
    {
      m_buffer[Position(m_tail, offset, m_size)]
    }

    /** Copies cnt bytes from a logical offset, in one piece or in two. */
    method Read(dst: array<byte>, offset: nat, cnt: nat)
      requires Valid() && cnt <= m_size && cnt <= dst.Length && dst != m_buffer
      modifies dst
      ensures forall k | 0 <= k < cnt :: dst[k] == ByteAt(offset + k)
      ensures forall k | cnt <= k < dst.Length :: dst[k] == old(dst[k])
    {
      hide Position;
      var src := Position(m_tail, offset, m_size);
      if src + cnt <= m_size {
        forall k | 0 <= k < cnt { dst[k] := m_buffer[src + k]; }
      } else {
        var s0 := m_size - src;
        forall k | 0 <= k < s0 { dst[k] := m_buffer[src + k]; }
        forall k | 0 <= k < cnt - s0 { dst[s0 + k] := m_buffer[k]; }
        assert forall k | s0 <= k < cnt :: dst[k] == m_buffer[k - s0];
      }
      forall k | 0 <= k < cnt ensures dst[k] == ByteAt(offset + k) { PositionNext(m_tail, offset, k, m_size); }
    }

    method Advance(cnt: nat)
      requires Valid()
      modifies this
      ensures Valid() && forall k: nat :: ByteAt(k) == old(ByteAt(cnt + k))
    {
      var tail := (m_tail + cnt) % WORD64;
      forall k: nat ensures Position(tail, k, m_size) == Position(m_tail, cnt + k, m_size) {
        AdvanceShifts(m_tail, cnt, k, m_size);
      }
      m_tail := tail;
    }
  }
}
