/**
 Rounding up to a power of two by smearing the top bit downwards, on words of 8 * 2^doublings bits.
 */
module PowerOfTwo {

  import opened Powers
  import opened QueueWords
  import BlockArith

  /** Bitwise or of two words. */
  function Or(x: nat, y: nat): nat {
    if x == 0 then y else if y == 0 then x else 2 * Or(x / 2, y / 2) + (if x % 2 == 1 || y % 2 == 1 then 1 else 0)
  }

  /** x >> s. */
  function Shift(x: nat, s: nat): nat { if s == 0 then x else Shift(x / 2, s - 1) }

  /** x |= x >> s. */
  function Smear(x: nat, s: nat): nat { Or(x, Shift(x, s)) }

  /** The loop x |= x >> (i << 3), for i = 1, 2, 4, ... below the word's number of bytes. */
  function SmearBytes(x: nat, i: nat, bytes: nat): nat
    requires i > 0
    decreases if i < bytes then bytes - i else 0
  {
    if i < bytes then SmearBytes(Smear(x, 8 * i), 2 * i, bytes) else x
  }

  /** Every step of the program, in arithmetic on words of the given number of bytes. */
  function CeilToPow2(x: nat, bytes: nat): nat {
    var y := Wrap(x - 1, 8 * bytes);
    Wrap(SmearBytes(Smear(Smear(Smear(y, 1), 2), 4), 1, bytes) + 1, 8 * bytes)
  }

  /** x has len bits, of which the m highest are ones. */
  predicate TopOnes(x: nat, len: nat, m: nat) {
    m <= len && Pow2(len) - Pow2(len - m) <= x < Pow2(len)
  }

  lemma {:induction false} OrBounds(x: nat, y: nat, k: nat)
    requires x < Pow2(k) && y < Pow2(k)
    ensures x <= Or(x, y) < Pow2(k) && y <= Or(x, y)
  {
    if x != 0 && y != 0 && k > 0 { OrBounds(x / 2, y / 2, k - 1); }
  }

  /** Bits above those of the second operand stay as they are. */
  lemma {:induction false} OrHigh(a: nat, r: nat, z: nat, k: nat)
    requires r < Pow2(k) && z < Pow2(k)
    ensures Or(a * Pow2(k) + r, z) == a * Pow2(k) + Or(r, z)
  {
    if k > 0 {
      OrHigh(a, r / 2, z / 2, k - 1);
      OrHighStep(a, r, z, Pow2(k - 1));
    }
  }

  lemma OrHighStep(a: nat, r: nat, z: nat, p: nat)
    requires Or(a * p + r / 2, z / 2) == a * p + Or(r / 2, z / 2)
    ensures Or(a * (2 * p) + r, z) == a * (2 * p) + Or(r, z)
  {
    hide Or;
    Halves(a, r, p);
    OrUnfold(a * (2 * p) + r, z);
    OrUnfold(r, z);
    assert a * (2 * p) == 2 * (a * p);
  }

  lemma Halves(a: nat, r: nat, p: nat)
    ensures (a * (2 * p) + r) / 2 == a * p + r / 2 && (a * (2 * p) + r) % 2 == r % 2
  {
    assert a * (2 * p) == 2 * (a * p);
  }

  lemma OrUnfold(x: nat, y: nat)
    ensures Or(x, y) == 2 * Or(x / 2, y / 2) + (if x % 2 == 1 || y % 2 == 1 then 1 else 0)
  {
    OrZero(x / 2);
    OrZero(y / 2);
  }

  lemma OrZero(x: nat)
    ensures Or(x, 0) == x && Or(0, x) == x
  {
  }

  lemma {:induction false} ShiftBounds(x: nat, s: nat)
    ensures Shift(x, s) * Pow2(s) <= x < Shift(x, s) * Pow2(s) + Pow2(s)
  {
    if s > 0 {
      ShiftBounds(x / 2, s - 1);
      Doubled(Shift(x / 2, s - 1), Pow2(s - 1), x);
    } else {
      PowerOne();
    }
  }

  lemma Doubled(a: nat, p: nat, x: nat)
    requires a * p <= x / 2 < a * p + p
    ensures a * (2 * p) <= x < a * (2 * p) + 2 * p
  {
    assert a * (2 * p) == 2 * (a * p);
  }

  lemma Less(a: int, b: int, p: nat)
    requires p > 0 && a * p < b * p
    ensures a < b
  {
  }

  /** The shifted word starts with the ones that the word lacks. */
  lemma ShiftedOnes(x: nat, len: nat, m: nat)
    requires 1 <= m && TopOnes(x, len, m)
    ensures var h := len - m; Shift(x, m) < Pow2(h) && Shift(x, m) >= Pow2(h) - Pow2(if h >= m then h - m else 0)
  {
    hide Shift, Pow2;
    var h, z := len - m, Shift(x, m);
    var p, q := Pow2(m), Pow2(h);
    ShiftBounds(x, m);
    Pow2Sum(h, m);
    Less(z, q, p);
    var e := Pow2(if h >= m then h - m else 0);
    if h >= m { Pow2Sum(h - m, m); } else { PowerOne(); Pow2Grows(h, m); }
    assert q <= e * p;
    Distribute(z, q, e, p);
  }

  lemma PowerOne()
    ensures Pow2(0) == 1
  {
  }

  lemma Distribute(z: nat, q: nat, e: nat, p: nat)
    requires p > 0 && q <= e * p && z * p + p > q * p - q
    ensures z >= q - e
  {
    Less(q - e, z + 1, p);
  }

  /** One smear doubles the run of ones at the top, until it fills the word's length. */
  lemma SmearDoubles(x: nat, len: nat, m: nat)
    requires 1 <= m && TopOnes(x, len, m)
    ensures TopOnes(Smear(x, m), len, if 2 * m <= len then 2 * m else len)
  {
    hide Or, Shift, Pow2;
    var h, z := len - m, Shift(x, m);
    var q := Pow2(h);
    ShiftedOnes(x, len, m);
    Pow2Sum(m, h);
    var a, r := Pow2(m) - 1, x - (Pow2(len) - q);
    assert a * q + q == Pow2(len);
    OrHigh(a, r, z, h);
    OrBounds(r, z, h);
  }

  /** A word of ones stays as it is. */
  lemma SmearFull(x: nat, len: nat, s: nat)
    requires s >= len && TopOnes(x, len, len) && s >= 1
    ensures TopOnes(Smear(x, s), len, len)
  {
    hide Or, Shift, Pow2;
    if s == len && len >= 1 {
      SmearDoubles(x, len, len);
    } else {
      Pow2Grows(len, s);
      ShiftBounds(x, s);
      if Shift(x, s) > 0 { AtLeast(Shift(x, s), Pow2(s)); }
      OrZero(x);
    }
  }

  lemma AtLeast(a: nat, p: nat)
    requires a > 0
    ensures a * p >= p
  {
  }

  lemma SmearNext(x: nat, len: nat, s: nat)
    requires s >= 1 && TopOnes(x, len, if s <= len then s else len)
    ensures TopOnes(Smear(x, s), len, if 2 * s <= len then 2 * s else len)
  {
    hide Or, Shift, Pow2, TopOnes;
    if s <= len { SmearDoubles(x, len, s); } else { SmearFull(x, len, s); }
  }

  lemma {:induction false} SmearBytesFills(x: nat, len: nat, i: nat, bytes: nat)
    requires i > 0 && len <= 8 * bytes && TopOnes(x, len, if 8 * i <= len then 8 * i else len)
    ensures SmearBytes(x, i, bytes) == Pow2(len) - 1
    decreases if i < bytes then bytes - i else 0
  {
    hide Smear;
    if i < bytes {
      SmearNext(x, len, 8 * i);
      SmearBytesFills(Smear(x, 8 * i), len, 2 * i, bytes);
    }
  }

  lemma AllSmears(y: nat, len: nat, bytes: nat)
    requires len <= 8 * bytes && y < Pow2(len) && (len > 0 ==> Pow2(len - 1) <= y)
    ensures SmearBytes(Smear(Smear(Smear(y, 1), 2), 4), 1, bytes) == Pow2(len) - 1
  {
    hide Smear, SmearBytes;
    SmearNext(y, len, 1);
    SmearNext(Smear(y, 1), len, 2);
    SmearNext(Smear(Smear(y, 1), 2), len, 4);
    SmearBytesFills(Smear(Smear(Smear(y, 1), 2), 4), len, 1, bytes);
  }

  /** The number of bits of a word. */
  lemma {:induction false} Length(y: nat, w: nat) returns (len: nat)
    requires y < Pow2(w)
    ensures len <= w && y < Pow2(len) && (len > 0 ==> Pow2(len - 1) <= y)
  {
    if w == 0 || y >= Pow2(w - 1) { len := w; } else { len := Length(y, w - 1); }
  }

  /** Up to half the word's range the result is the smallest power of two that is not below x. */
  lemma RoundsUp(x: nat, bytes: nat) returns (k: nat)
    requires bytes > 0 && 1 <= x <= Pow2(8 * bytes - 1)
    ensures CeilToPow2(x, bytes) == Pow2(k) >= x && (k > 0 ==> Pow2(k - 1) < x)
  {
    hide Smear, SmearBytes, Wrap;
    var w := 8 * bytes;
    DoubleTop(w);
    k := Length(x - 1, w - 1);
    AllSmears(x - 1, k, bytes);
    Pow2Grows(k, w - 1);
    hide Pow2;
    WrapSmall(x - 1, w);
    WrapSmall(Pow2(k), w);
  }

  /** Beyond that, and for zero, nothing fits and the result is zero. */
  lemma RoundsToZero(x: nat, bytes: nat)
    requires bytes > 0 && x < Pow2(8 * bytes) && (x == 0 || x > Pow2(8 * bytes - 1))
    ensures CeilToPow2(x, bytes) == 0
  {
    hide Pow2, Smear, SmearBytes, Wrap;
    var w := 8 * bytes;
    DoubleTop(w);
    WrapSmall(x - 1, w);
    AllSmears(Wrap(x - 1, w), w, bytes);
    WrapSmall(Pow2(w), w);
  }

  lemma DoubleTop(w: nat)
    requires w > 0
    ensures Pow2(w) == 2 * Pow2(w - 1)
  {
  }

  lemma WrapSmall(x: int, w: nat)
    requires -1 <= x <= Pow2(w)
    ensures Wrap(x, w) == if x == -1 then Pow2(w) - 1 else if x == Pow2(w) then 0 else x
  {
    hide Pow2;
    var p := Pow2(w);
    if x == -1 { BlockArith.ModUnique(-1, -1, p - 1, p); }
    else if x == p { BlockArith.ModUnique(p, 1, 0, p); }
    else { BlockArith.ModUnique(x, 0, x, p); }
  }
}
