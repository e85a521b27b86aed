/**
 The queue's index arithmetic on machine words.

 The state machines count indices without bound. A word of width W keeps such an index modulo 2^W; these
 lemmas say when the word operations of the queue give the same answers as the unbounded ones.
 */
module QueueWords {
  import opened BlockArith
  import opened Powers
  import B = BlockRing
  import C = QueueClaims

  /** The word that keeps index x. */
  function Wrap(x: int, w: nat): (r: nat)
    ensures r < Pow2(w)
  {
    x % Pow2(w)
  }

  /** circular_less_than on two words. */
  predicate CircularLess(a: nat, b: nat, w: nat)
    requires w > 0
  {
    Wrap(a - b, w) > Pow2(w - 1)
  }

  /** A word difference is the difference of the indices, reduced. */
  lemma WrapDifference(a: int, b: int, w: nat)
    ensures Wrap(Wrap(a, w) - Wrap(b, w), w) == Wrap(a - b, w)
  {
    hide Pow2;
    var m := Pow2(w);
    var qa, qb := a / m, b / m;
    ModPeriodic(Wrap(a, w) - Wrap(b, w), qa - qb, m);
    assert (qa - qb) * m == qa * m - qb * m;
  }

  lemma ModPeriodic(a: int, k: int, m: nat)
    requires m > 0
    ensures (a + k * m) % m == a % m
  {
    var q, r := a / m, a % m;
    assert a + k * m == (q + k) * m + r;
    ModUnique(a + k * m, q + k, r, m);
  }

  /** Reducing a number at most half the range away from zero. */
  lemma WrapNear(d: int, w: nat)
    requires w > 0 && 0 - Pow2(w - 1) <= d <= Pow2(w - 1)
    ensures Wrap(d, w) == if d >= 0 then d else d + 2 * Pow2(w - 1)
  {
    var half := Pow2(w - 1);
    assert Pow2(w) == 2 * half;
    hide Pow2;
    if d >= 0 {
      ModUnique(d, 0, d, 2 * half);
    } else {
      ModUnique(d, -1, d + 2 * half, 2 * half);
    }
  }

  /** For indices at most half the word range apart, the circular order is the real one, save at exactly half. */
  lemma CircularLessIsLess(a: nat, b: nat, w: nat)
    requires w > 0 && 0 - Pow2(w - 1) <= a - b <= Pow2(w - 1)
    ensures CircularLess(Wrap(a, w), Wrap(b, w), w) == (a < b) <==> a - b != 0 - Pow2(w - 1)
  {
    WrapDifference(a, b, w);
    WrapNear(a - b, w);
    hide Pow2, Wrap;
  }

  /** The number of elements a consumer finds, computed from the word counters, decides and counts as the unbounded one. */
  lemma WordCount(tail: nat, count: nat, overcommit: nat, w: nat)
    requires w > 0 && 0 - Pow2(w - 1) < tail - (count - overcommit) < Pow2(w - 1)
    ensures var available: int := tail - (count - overcommit);
            var word := Wrap(Wrap(tail, w) - Wrap(Wrap(count, w) - Wrap(overcommit, w), w), w);
            && CircularLess(0, word, w) == (available > 0)
            && (available > 0 ==> word == available)
  {
    hide Pow2, Wrap;
    var available: int := tail - (count - overcommit);
    WrapDifference(count, overcommit, w);
    WrapDifference(tail, count - overcommit, w);
    WrapNear(available, w);
    WrapDifference(0, available, w);
    WrapNear(-available, w);
    WrapNear(0, w);
  }

  /**
   The mixed signed and unsigned division: for a head entry k blocks away, the word difference divided by the block
   size is not k, but because the index size divides 2^W / BLOCK_SIZE it still selects the slot k entries away.
   */
  lemma WordFirstSlot(header: B.Header, front: nat, first: nat, bs: nat, w: nat, blocks: nat, laps: nat, headStretch: nat)
    requires header.size > 0 && front < |header.entries| && bs > 0
    requires Pow2(w) == blocks * bs && blocks == laps * header.size
    requires header.entries[front].base == Base(headStretch, bs)
    ensures var distance := Wrap(Wrap(first - Offset(first, bs), w) - Wrap(header.entries[front].base, w), w);
            Wrap(front + distance / bs, w) % header.size == B.FirstSlot(header, front, first, bs)
  {
    var headBase := header.entries[front].base;
    var firstBase := first - Offset(first, bs);
    var k := StretchOf(first, bs) - headStretch;
    BaseSplit(first, bs);
    assert firstBase - headBase == k * bs;
    ExactQuotient(k, bs);
    WrapDifference(firstBase, headBase, w);
    ScaledMod(k, bs, blocks);
    assert Wrap(firstBase - headBase, w) == (k * bs) % (blocks * bs);
    LapMod(front, k, header.size, laps);
    PowerMod(front + k % blocks, w, header.size, laps, bs);
    hide Pow2, Wrap, Offset, StretchOf, Base;
  }

  /** Moving by k modulo a multiple of the index size moves by k modulo the index size. */
  lemma LapMod(front: nat, k: int, size: nat, laps: nat)
    requires size > 0 && laps * size > 0
    ensures (front + k % (laps * size)) % size == (front + k) % size
  {
    var m := laps * size;
    var q, j := k / m, k % m;
    assert k == q * m + j;
    assert q * m == (q * laps) * size;
    ModPeriodic(front + j, q * laps, size);
    assert front + k == (front + j) + (q * laps) * size;
  }

  lemma PowerMod(x: nat, w: nat, size: nat, laps: nat, bs: nat)
    requires size > 0 && Pow2(w) == (laps * size) * bs
    ensures Wrap(x, w) % size == x % size
  {
    hide Pow2;
    var m := Pow2(w);
    var q, r := x / m, x % m;
    assert x == q * m + r;
    assert q * m == (q * laps * bs) * size by {
      assert (laps * size) * bs == (laps * bs) * size;
      assert q * ((laps * bs) * size) == (q * laps * bs) * size;
    }
    ModPeriodic(r, q * laps * bs, size);
  }

  /** Reducing a multiple of the block size modulo a multiple of it. */
  lemma ScaledMod(k: int, bs: nat, blocks: nat)
    requires bs > 0 && blocks > 0
    ensures blocks * bs > 0 && (k * bs) % (blocks * bs) == (k % blocks) * bs
    ensures (k % blocks) * bs / bs == k % blocks
  {
    var q, j := k / blocks, k % blocks;
    ExactQuotient(j, bs);
    MulAtLeast(blocks, bs);
    assert k == q * blocks + j;
    assert k * bs == q * (blocks * bs) + j * bs by {
      assert (q * blocks + j) * bs == (q * blocks) * bs + j * bs;
      assert (q * blocks) * bs == q * (blocks * bs);
    }
    assert 0 <= j * bs < blocks * bs by {
      MulAtLeast(blocks - j, bs);
      assert (blocks - j) * bs == blocks * bs - j * bs;
    }
    ModUnique(k * bs, q, j * bs, blocks * bs);
  }

  // ----- masks -----

  /** Bitwise and. */
  function And(x: nat, y: nat): nat {
    if x == 0 || y == 0 then 0 else 2 * And(x / 2, y / 2) + (x % 2) * (y % 2)
  }

  /** Doubling: the remainder modulo 2m from the remainder of the half modulo m. */
  lemma DoubleMod(x: nat, m: nat)
    requires m > 0
    ensures x % (2 * m) == 2 * ((x / 2) % m) + x % 2
  {
    var h, b := x / 2, x % 2;
    var q, r := h / m, h % m;
    assert h == q * m + r;
    assert q * (2 * m) == 2 * (q * m);
    ModUnique(x, q, 2 * r + b, 2 * m);
  }

  /** idx & (2^k - 1) is the remainder modulo 2^k. */
  lemma {:induction false} MaskIsRemainder(x: nat, k: nat)
    ensures And(x, Pow2(k) - 1) == x % Pow2(k)
  {
    if k == 0 {
    } else if x == 0 {
    } else {
      var m := Pow2(k - 1);
      MaskIsRemainder(x / 2, k - 1);
      DoubleMod(x, m);
      assert Pow2(k) == 2 * m;
      hide Pow2;
      assert (2 * m - 1) / 2 == m - 1 && (2 * m - 1) % 2 == 1;
      assert And(x, 2 * m - 1) == 2 * And(x / 2, m - 1) + x % 2;
    }
  }

  /** idx & ~(2^k - 1), on words of width w, clears the remainder. */
  lemma {:induction false} HighMaskClears(x: nat, k: nat, w: nat)
    requires k <= w && x < Pow2(w)
    ensures Pow2(k) <= Pow2(w) && And(x, Pow2(w) - Pow2(k)) == x - x % Pow2(k)
  {
    if w == 0 {
    } else if k == 0 {
      HighMaskClears(x / 2, 0, w - 1);
      AllOnesStep(x, Pow2(w - 1));
    } else {
      HighMaskClears(x / 2, k - 1, w - 1);
      HighStep(x, Pow2(k - 1), Pow2(w - 1));
    }
  }

  lemma AllOnesStep(x: nat, m: nat)
    requires m > 0 && And(x / 2, m - 1) == x / 2
    ensures And(x, 2 * m - 1) == x
  {
    hide And;
    AndOdd(x, m - 1);
    assert 2 * (m - 1) + 1 == 2 * m - 1;
  }

  lemma HighStep(x: nat, m: nat, n: nat)
    requires 0 < m <= n && And(x / 2, n - m) == x / 2 - (x / 2) % m
    ensures And(x, 2 * n - 2 * m) == x - x % (2 * m)
  {
    hide And;
    AndEven(x, n - m);
    DoubleMod(x, m);
  }

  lemma AndOdd(x: nat, y: nat)
    ensures And(x, 2 * y + 1) == 2 * And(x / 2, y) + x % 2
  {
    assert (2 * y + 1) / 2 == y && (2 * y + 1) % 2 == 1;
  }

  lemma AndEven(x: nat, y: nat)
    ensures And(x, 2 * y) == 2 * And(x / 2, y)
  {
    assert (2 * y) / 2 == y && (2 * y) % 2 == 0;
  }
}
