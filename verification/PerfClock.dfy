/**
 Kernel timestamps to processor ticks, in 64-bit fixed point: time * 2^shift / mult computed from quotient and
 remainder so that the product never has to be formed.
 */
module PerfClock {

  import opened Int64
  import opened Powers

  const WORD32: nat := 0x1_0000_0000

  /** The clock parameters that the kernel publishes in a ring's metadata page. */
  datatype Clock = Clock(capUserTimeZero: bool, timeZero: nat, timeMult: nat, timeShift: nat)

  predicate ValidClock(c: Clock) { c.timeZero < WORD64 && 0 < c.timeMult < WORD32 && c.timeShift < 64 }

  function Floor(a: nat, b: nat): nat
    requires b > 0
  {
    a / b
  }

  function Low64(x: int): (r: nat)
    ensures r < WORD64
  {
    x % WORD64
  }

  /** The signed reading of a 64-bit word. */
  function Signed(x: nat): (r: int64)
    requires x < WORD64
  {
    if x < HALF64 then x else x - WORD64
  }

  function Elapsed(c: Clock, timestamp: int): nat { Low64(timestamp - c.timeZero) }

  /** Every shift, product and sum wraps to 64 bits. */
  function ConvertTimeToTsc(c: Clock, timestamp: int64): int64
    requires ValidClock(c)
  {
    if !c.capUserTimeZero then 0 else
      var time := Elapsed(c, timestamp);
      var quot := Floor(time, c.timeMult);
      var rem := time % c.timeMult;
      Signed(Low64(Low64(quot * Pow2(c.timeShift)) + Floor(Low64(rem * Pow2(c.timeShift)), c.timeMult)))
  }

  /** What the conversion is meant to be. */
  function Ticks(c: Clock, timestamp: int): nat
    requires ValidClock(c)
  {
    Floor(Elapsed(c, timestamp) * Pow2(c.timeShift), c.timeMult)
  }

  /** The shifted remainder, the only intermediate result that can lose bits. */
  function ShiftedRemainder(c: Clock, timestamp: int): nat
    requires ValidClock(c)
  {
    (Elapsed(c, timestamp) % c.timeMult) * Pow2(c.timeShift)
  }

  lemma FloorUnique(a: nat, b: nat, q: nat)
    requires b > 0 && q * b <= a < q * b + b
    ensures Floor(a, b) == q
  {
    var d := a / b;
    assert d * b + a % b == a;
    if d < q { MulGap(d, q, b); }
    if d > q { MulGap(q, d, b); }
  }

  lemma MulGap(d: nat, q: nat, b: nat)
    requires d < q
    ensures d * b + b <= q * b
  {
    var e := q - d - 1;
    assert q * b == d * b + b + e * b;
  }

  lemma FloorBounds(a: nat, b: nat)
    requires b > 0
    ensures Floor(a, b) * b <= a < Floor(a, b) * b + b
  {
  }

  /** Splitting the product by quotient and remainder loses nothing. */
  lemma SplitExact(time: nat, mult: nat, scale: nat)
    requires mult > 0
    ensures Floor(time * scale, mult) == Floor(time, mult) * scale + Floor((time % mult) * scale, mult)
  {
    var quot, rem := Floor(time, mult), time % mult;
    var f := Floor(rem * scale, mult);
    FloorBounds(rem * scale, mult);
    Distribute(time, quot, rem, mult, scale);
    Collect(quot * scale, f, mult);
    FloorUnique(time * scale, mult, quot * scale + f);
  }

  lemma Distribute(time: nat, quot: nat, rem: nat, mult: nat, scale: nat)
    requires time == quot * mult + rem
    ensures time * scale == (quot * scale) * mult + rem * scale
  {
    assert (quot * mult) * scale == (quot * scale) * mult;
  }

  lemma Collect(a: nat, f: nat, mult: nat)
    ensures (a + f) * mult == a * mult + f * mult
  {
  }

  lemma Low64Sum(a: int, b: int)
    ensures Low64(Low64(a) + b) == Low64(a + b)
  {
  }

  lemma Low64Equal(a: nat, b: nat)
    requires a < b < a + WORD64
    ensures Low64(a) != Low64(b)
  {
  }

  /** A remainder that loses bits when shifted gives a quotient that is off by less than a full word. */
  lemma LostBits(x: nat, mult: nat)
    requires 0 < mult < WORD32 && x >= WORD64 && Floor(x, mult) < WORD64
    ensures Floor(Low64(x), mult) < Floor(x, mult) < Floor(Low64(x), mult) + WORD64
  {
    var y := Low64(x);
    assert x - y >= WORD64;
    FloorBounds(x, mult);
    FloorBounds(y, mult);
    if Floor(x, mult) <= Floor(y, mult) {
      FloorMono(Floor(x, mult), Floor(y, mult), mult);
    }
  }

  lemma FloorMono(a: nat, b: nat, mult: nat)
    requires a <= b
    ensures a * mult <= b * mult
  {
  }

  /** The quotient/remainder form is floor(time * 2^shift / mult) modulo 2^64 exactly when the shifted remainder fits. */
  lemma ConvertExact(c: Clock, timestamp: int64)
    requires ValidClock(c) && c.capUserTimeZero
    ensures ConvertTimeToTsc(c, timestamp) == Signed(Low64(Ticks(c, timestamp))) <==> ShiftedRemainder(c, timestamp) < WORD64
  {
    hide Floor, Low64, Pow2, Signed;
    var time, mult, scale := Elapsed(c, timestamp), c.timeMult, Pow2(c.timeShift);
    var quot, x := Floor(time, mult), ShiftedRemainder(c, timestamp);
    SplitExact(time, mult, scale);
    Low64Sum(quot * scale, Floor(x, mult));
    Low64Sum(quot * scale, Floor(Low64(x), mult));
    if x < WORD64 {
      LowOfSmall(x);
    } else {
      RemainderSmall(time % mult, mult, scale, c.timeShift);
      LostBits(x, mult);
      Low64Equal(quot * scale + Floor(Low64(x), mult), quot * scale + Floor(x, mult));
      SignedInjective(Low64(quot * scale + Floor(Low64(x), mult)), Low64(quot * scale + Floor(x, mult)));
    }
  }

  lemma LowOfSmall(x: nat)
    requires x < WORD64
    ensures Low64(x) == x
  {
  }

  lemma SignedInjective(a: nat, b: nat)
    requires a < WORD64 && b < WORD64 && a != b
    ensures Signed(a) != Signed(b)
  {
  }

  lemma Pow2Of63()
    ensures Pow2(32) == WORD32 && Pow2(63) < WORD64
  {
    assert Pow2(8) == 0x100;
    Pow2Sum(8, 8);
    Pow2Sum(16, 16);
    Pow2Sum(32, 32);
    assert Pow2(64) == 2 * Pow2(63);
  }

  lemma RemainderSmall(rem: nat, mult: nat, scale: nat, shift: nat)
    requires rem < mult && scale == Pow2(shift) && shift < 64
    ensures Floor(rem * scale, mult) < WORD64
  {
    Pow2Of63();
    Pow2Grows(shift, 63);
    FloorBounds(rem * scale, mult);
    if Floor(rem * scale, mult) >= scale {
      FloorMono(scale, Floor(rem * scale, mult), mult);
      MulGap(rem, mult, scale);
    }
  }

  /** With the kernel's shifts of at most 32 the remainder always fits. */
  lemma KernelShiftFits(c: Clock, timestamp: int64)
    requires ValidClock(c) && c.timeShift <= 32
    ensures ShiftedRemainder(c, timestamp) < WORD64
  {
    hide Pow2;
    Pow2Of63();
    Pow2Grows(c.timeShift, 32);
    var rem, scale := Elapsed(c, timestamp) % c.timeMult, Pow2(c.timeShift);
    FloorMono(rem, WORD32 - 1, scale);
    assert (WORD32 - 1) * scale <= (WORD32 - 1) * WORD32 by { FloorMono(scale, WORD32, WORD32 - 1); }
  }

  /** Timestamps from timeZero on whose ticks fit a signed word are converted exactly. */
  predicate Convertible(c: Clock, timestamp: int64)
    requires ValidClock(c)
  {
    && c.capUserTimeZero && timestamp >= c.timeZero
    && ShiftedRemainder(c, timestamp) < WORD64 && Ticks(c, timestamp) < HALF64
  }

  lemma ConvertsToTicks(c: Clock, timestamp: int64)
    requires ValidClock(c) && Convertible(c, timestamp)
    ensures ConvertTimeToTsc(c, timestamp) == Ticks(c, timestamp)
    ensures Ticks(c, timestamp) == Floor((timestamp - c.timeZero) * Pow2(c.timeShift), c.timeMult)
  {
    hide Pow2, Floor;
    ConvertExact(c, timestamp);
    LowOfSmall(Ticks(c, timestamp));
    LowOfSmall(timestamp - c.timeZero);
  }

  /** Hence conversion keeps the order of time. */
  lemma ConvertMonotone(c: Clock, a: int64, b: int64)
    requires ValidClock(c) && Convertible(c, a) && Convertible(c, b) && a <= b
    ensures ConvertTimeToTsc(c, a) <= ConvertTimeToTsc(c, b)
  {
    hide Pow2, Floor, Convertible, Ticks, ConvertTimeToTsc;
    ConvertsToTicks(c, a);
    ConvertsToTicks(c, b);
    FromZero(c, a);
    FromZero(c, b);
    var scale, x, y := Pow2(c.timeShift), a - c.timeZero, b - c.timeZero;
    FloorMono(x, y, scale);
    FloorOrder(x * scale, y * scale, c.timeMult);
  }

  lemma FromZero(c: Clock, a: int64)
    requires ValidClock(c) && Convertible(c, a)
    ensures a >= c.timeZero
  {
  }

  lemma FloorOrder(a: nat, b: nat, mult: nat)
    requires a <= b && mult > 0
    ensures Floor(a, mult) <= Floor(b, mult)
  {
    FloorBounds(a, mult);
    FloorBounds(b, mult);
    if Floor(b, mult) < Floor(a, mult) { MulGap(Floor(b, mult), Floor(a, mult), mult); }
  }
}
