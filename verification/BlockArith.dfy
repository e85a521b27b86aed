/** Arithmetic of block-sized stretches of indices, of circular index slots, and of counting finished elements. */
module BlockArith {

  /** Position of element i inside its block: idx & (BLOCK_SIZE - 1). */
  function Offset(i: nat, bs: nat): nat
    requires bs > 0
  {
    i % bs
  }

  /** The stretch element i belongs to. */
  function StretchOf(i: nat, bs: nat): nat
    requires bs > 0
  {
    i / bs
  }

  /** First index of stretch v. */
  function Base(v: int, bs: nat): int { v * bs }

  /** Slot of stretch v in a circular index. */
  function Slot(v: int, off: int, size: nat): nat
    requires size > 0
    ensures Slot(v, off, size) < size
  {
    (v + off) % size
  }

  lemma BaseNext(v: int, bs: nat)
    ensures Base(v + 1, bs) == Base(v, bs) + bs
  {
  }

  lemma BaseMono(v: int, w: int, bs: nat)
    requires v <= w
    ensures Base(v, bs) <= Base(w, bs)
    ensures v < w ==> Base(v, bs) + bs <= Base(w, bs)
  {
    assert Base(w, bs) - Base(v, bs) == (w - v) * bs;
    if v < w { MulAtLeast(w - v, bs); }
  }

  lemma MulAtLeast(a: int, size: nat)
    requires a >= 1
    ensures a * size >= size
  {
  }

  /** Division and masking by the block size, in terms of stretches. */
  lemma BaseSplit(i: nat, bs: nat)
    requires bs > 0
    ensures Base(StretchOf(i, bs), bs) <= i < Base(StretchOf(i, bs), bs) + bs
    ensures Offset(i, bs) == i - Base(StretchOf(i, bs), bs)
  {
  }

  lemma BaseUnique(i: nat, v: int, bs: nat)
    requires bs > 0 && Base(v, bs) <= i < Base(v, bs) + bs
    ensures StretchOf(i, bs) == v && Offset(i, bs) == i - Base(v, bs)
  {
    BaseSplit(i, bs);
    if i / bs < v { BaseMono(i / bs, v, bs); }
    if i / bs > v { BaseMono(v, i / bs, bs); }
  }

  /** An index between two stretch starts lies in a stretch between them. */
  lemma BaseBetween(i: nat, v: int, lo: int, hi: int, bs: nat)
    requires bs > 0 && Base(v, bs) <= i < Base(v, bs) + bs && Base(lo, bs) <= i < Base(hi, bs)
    ensures lo <= v < hi
  {
    if v < lo { BaseMono(v, lo, bs); }
    if v >= hi { BaseMono(hi, v, bs); }
  }

  lemma ModUnique(a: int, q: int, r: nat, size: nat)
    requires size > 0 && r < size && a == q * size + r
    ensures a % size == r
  {
    var q1, r1 := a / size, a % size;
    assert (q1 - q) * size == r - r1;
    if q1 > q { MulAtLeast(q1 - q, size); }
    if q1 < q { MulAtLeast(q - q1, size); }
  }

  lemma ModShift(a: int, b: int, size: nat)
    requires size > 0
    ensures ((a % size) + b) % size == (a + b) % size
  {
    var q := a / size;
    assert a == q * size + a % size;
    var c := (a % size) + b;
    var q2, r := c / size, c % size;
    assert c == q2 * size + r;
    assert a + b == (q + q2) * size + r;
    ModUnique(a + b, q + q2, r, size);
  }

  /** Moving by the distance between two stretches moves between their slots. */
  lemma SlotMove(v: int, w: int, off: int, size: nat)
    requires size > 0
    ensures (Slot(v, off, size) + (w - v)) % size == Slot(w, off, size)
  {
    ModShift(v + off, w - v, size);
  }

  lemma SlotDistinct(v: int, w: int, off: int, size: nat)
    requires size > 0 && v < w < v + size
    ensures Slot(v, off, size) != Slot(w, off, size)
  {
    var q, r := (v + off) / size, (v + off) % size;
    if r + (w - v) < size {
      ModUnique(w + off, q, r + (w - v), size);
    } else {
      ModUnique(w + off, q + 1, r + (w - v) - size, size);
    }
  }

  lemma ExactQuotient(k: int, bs: nat)
    requires bs > 0
    ensures (k * bs) / bs == k
  {
    ModUnique(k * bs, k, 0, bs);
    var q := (k * bs) / bs;
    assert (q - k) * bs == 0;
    if q < k { MulAtLeast(k - q, bs); }
    if q > k { MulAtLeast(q - k, bs); }
  }

  // ----- counting finished elements -----

  function CountDone(done: set<nat>, lo: nat, hi: nat): nat
    requires lo <= hi
    decreases hi - lo
  {
    if lo == hi then 0 else CountDone(done, lo, hi - 1) + (if hi - 1 in done then 1 else 0)
  }

  lemma {:induction false} CountBound(done: set<nat>, lo: nat, hi: nat)
    requires lo <= hi
    ensures CountDone(done, lo, hi) <= hi - lo
    ensures CountDone(done, lo, hi) == hi - lo ==> forall i | lo <= i < hi :: i in done
    decreases hi - lo
  {
    if lo < hi { CountBound(done, lo, hi - 1); }
  }

  /** Finishing a range a..b inside lo..hi adds its length; finishing one outside adds nothing. */
  lemma {:induction false} CountAdd(done: set<nat>, done': set<nat>, lo: nat, hi: nat, a: nat, b: nat)
    requires lo <= hi && a <= b && (forall i | a <= i < b :: i !in done)
    requires forall i :: i in done' <==> i in done || a <= i < b
    requires (lo <= a && b <= hi) || b <= lo || hi <= a
    ensures CountDone(done', lo, hi) == CountDone(done, lo, hi) + (if lo <= a && b <= hi then b - a else 0)
    decreases hi - lo
  {
    if lo < hi {
      if a < b == hi && lo <= a {
        CountAdd(done, done' - {b - 1}, lo, hi - 1, a, b - 1);
        CountSame(done', done' - {b - 1}, lo, hi - 1);
      } else {
        CountAdd(done, done', lo, hi - 1, a, b);
      }
    }
  }

  lemma {:induction false} CountSame(d1: set<nat>, d2: set<nat>, lo: nat, hi: nat)
    requires lo <= hi && forall i | lo <= i < hi :: i in d1 <==> i in d2
    ensures CountDone(d1, lo, hi) == CountDone(d2, lo, hi)
    decreases hi - lo
  {
    if lo < hi { CountSame(d1, d2, lo, hi - 1); }
  }

  lemma {:induction false} CountNone(done: set<nat>, lo: nat, hi: nat)
    requires lo <= hi && forall i | lo <= i < hi :: i !in done
    ensures CountDone(done, lo, hi) == 0
    decreases hi - lo
  {
    if lo < hi { CountNone(done, lo, hi - 1); }
  }
}
