/**
 The scalar texture encoder: a 4x4 block of pixels becomes two 5-6-5 endpoints and sixteen 2-bit indices.

 Indices count from the darker endpoint (the second one) to the brighter one (the first).
 */
module Dxt1 {

  import opened Bytes

  /** A block: sixteen pixels of four bytes. */
  type Block = s: seq<byte> | |s| == 64 witness seq(64, _ => 0)

  function Channel(s: Block, i: nat, j: nat): byte
    requires i < 16 && j < 4
  {
    s[4 * i + j]
  }

  /** 5-6-5 packing, the shifts and masks of the program written as arithmetic. */
  function Pack565(r: byte, g: byte, b: byte): (c: nat)
    ensures c < 0x1_0000
  {
    r / 8 * 2048 + g / 4 * 32 + b / 8
  }

  function Colour(s: Block, i: nat): (c: nat)
    requires i < 16
    ensures c < 0x1_0000
  {
    Pack565(Channel(s, i, 0), Channel(s, i, 1), Channel(s, i, 2))
  }

  /** Pixels i and k agree under the mask 0xF8FCF8. */
  predicate SameMasked(s: Block, i: nat, k: nat)
    requires i < 16 && k < 16
  {
    && Channel(s, i, 0) / 8 == Channel(s, k, 0) / 8 && Channel(s, i, 1) / 4 == Channel(s, k, 1) / 4
    && Channel(s, i, 2) / 8 == Channel(s, k, 2) / 8
  }

  predicate Uniform(s: Block) { forall i | 0 <= i < 16 :: SameMasked(s, i, 0) }

  function MinOf(s: Block, j: nat, n: nat): byte
    requires 1 <= n <= 16 && j < 3
  {
    if n == 1 then Channel(s, 0, j)
    else if Channel(s, n - 1, j) < MinOf(s, j, n - 1) then Channel(s, n - 1, j) else MinOf(s, j, n - 1)
  }

  function MaxOf(s: Block, j: nat, n: nat): byte
    requires 1 <= n <= 16 && j < 3
  {
    if n == 1 then Channel(s, 0, j)
    else if Channel(s, n - 1, j) > MaxOf(s, j, n - 1) then Channel(s, n - 1, j) else MaxOf(s, j, n - 1)
  }

  lemma {:induction false} MinMaxBound(s: Block, j: nat, n: nat, i: nat)
    requires 1 <= n <= 16 && j < 3 && i < n
    ensures MinOf(s, j, n) <= Channel(s, i, j) <= MaxOf(s, j, n)
  {
    if n > 1 {
      if i < n - 1 { MinMaxBound(s, j, n - 1, i); } else { MinMaxBound(s, j, n - 1, 0); }
    }
  }

  /** And both bounds are values of some pixel. */
  lemma {:induction false} MinMaxReached(s: Block, j: nat, n: nat)
    requires 1 <= n <= 16 && j < 3
    ensures exists i | 0 <= i < n :: Channel(s, i, j) == MinOf(s, j, n)
    ensures exists i | 0 <= i < n :: Channel(s, i, j) == MaxOf(s, j, n)
  {
    hide Channel;
    if n == 1 {
      assert Channel(s, 0, j) == MinOf(s, j, n) == MaxOf(s, j, n);
    } else {
      MinMaxReached(s, j, n - 1);
      assert MinOf(s, j, n) == Channel(s, n - 1, j) || MinOf(s, j, n) == MinOf(s, j, n - 1);
      assert MaxOf(s, j, n) == Channel(s, n - 1, j) || MaxOf(s, j, n) == MaxOf(s, j, n - 1);
    }
  }

  /** The reciprocals of the table: 0x40000 / (range + 1), capped to 16 bits. */
  function DivTable(range: nat): (r: nat)
    requires range <= 765
    ensures r <= 0xffff
  {
    var q := 0x40000 / (range + 1);
    if q > 0xffff then 0xffff else q
  }

  function Range(s: Block): (r: nat)
    ensures r <= 765
  {
    MinMaxBound(s, 0, 16, 0);
    MinMaxBound(s, 1, 16, 0);
    MinMaxBound(s, 2, 16, 0);
    MaxOf(s, 0, 16) - MinOf(s, 0, 16) + MaxOf(s, 1, 16) - MinOf(s, 1, 16) + MaxOf(s, 2, 16) - MinOf(s, 2, 16)
  }

  /** How much brighter a pixel is than the darkest corner of the block's colours. */
  function Brightness(s: Block, i: nat): (c: nat)
    requires i < 16
    ensures c <= Range(s)
  {
    MinMaxBound(s, 0, 16, i);
    MinMaxBound(s, 1, 16, i);
    MinMaxBound(s, 2, 16, i);
    Channel(s, i, 0) + Channel(s, i, 1) + Channel(s, i, 2) - (MinOf(s, 0, 16) + MinOf(s, 1, 16) + MinOf(s, 2, 16))
  }

  function Quantize(c: nat, range: nat): nat
    requires range <= 765
  {
    c * DivTable(range) / 0x1_0000
  }

  function Inset(lo: byte, hi: byte): (r: nat)
    requires lo <= hi
    ensures lo + r <= hi - r && 16 * r <= hi - lo < 16 * (r + 1)
  {
    (hi - lo) / 16
  }

  function DarkEnd(s: Block, j: nat): byte
    requires j < 3
  {
    MinMaxBound(s, j, 16, 0);
    MinOf(s, j, 16) + Inset(MinOf(s, j, 16), MaxOf(s, j, 16))
  }

  function BrightEnd(s: Block, j: nat): byte
    requires j < 3
  {
    MinMaxBound(s, j, 16, 0);
    MaxOf(s, j, 16) - Inset(MinOf(s, j, 16), MaxOf(s, j, 16))
  }

  // ----- properties of the quantizer -----

  lemma MulMono(a: nat, b: nat, q: nat)
    requires a <= b
    ensures a * q <= b * q && (b + 1) * q == b * q + q
  {
  }

  /** A table entry is the reciprocal of range + 1, rounded down, except where it is capped. */
  lemma TableTimes(range: nat)
    requires range <= 765
    ensures 1 <= DivTable(range) && DivTable(range) * (range + 1) <= 0x40000
    ensures range >= 4 ==> DivTable(range) <= 52428 && DivTable(range) * (range + 1) > 0x40000 - (range + 1)
  {
    var n := range + 1;
    var q := 0x40000 / n;
    assert q * n + 0x40000 % n == 0x40000;
    if q == 0 { assert 0x40000 % n < n; }
    if range >= 4 && q > 52428 { MulMono(5, n, q); }
    MulMono(DivTable(range), q, n);
  }

  /** Every index fits two bits. */
  lemma IndexFits(c: nat, range: nat)
    requires c <= range <= 765
    ensures Quantize(c, range) <= 3
  {
    hide DivTable;
    TableTimes(range);
    MulMono(c, range, DivTable(range));
  }

  /** Brighter pixels never get smaller indices. */
  lemma IndexMonotone(c: nat, d: nat, range: nat)
    requires c <= d <= range <= 765
    ensures Quantize(c, range) <= Quantize(d, range) && Quantize(0, range) == 0
  {
    hide DivTable;
    MulMono(c, d, DivTable(range));
  }

  /** The brightest possible pixel reaches the bright endpoint exactly when the block's range is above 3. */
  lemma BrightestIndex(range: nat)
    requires range <= 765
    ensures Quantize(range, range) == 3 <==> range >= 4
  {
    hide DivTable;
    var q := DivTable(range);
    TableTimes(range);
    MulMono(range, range, q);
    if range >= 4 {
      IndexFits(range, range);
    } else {
      MulMono(range, 3, q);
    }
  }

  /**
   The index is 4c / (range + 1) rounded down, up to the rounding of the table: never above it, and below it by less than
   the table's error. In the narrowest ranges, where the table is capped, it is c - 1.
   */
  lemma IndexValue(c: nat, range: nat)
    requires c <= range <= 765
    ensures IndexIs(Quantize(c, range), c, range)
  {
    if range < 4 {
      assert DivTable(range) == 0xffff;
    } else {
      TableTimes(range);
      hide DivTable;
      Rounded(c, range + 1, DivTable(range), Quantize(c, range));
    }
  }

  predicate IndexIs(idx: nat, c: nat, range: nat) {
    && idx * (range + 1) <= 4 * c
    && (range >= 4 ==> c * (0x40000 - (range + 1)) < (idx + 1) * 0x1_0000 * (range + 1))
    && (range < 4 ==> idx == if c == 0 then 0 else c - 1)
  }

  lemma Rounded(c: nat, n: nat, q: nat, idx: nat)
    requires 0 < n <= 0x40000 && idx == c * q / 0x1_0000 && 0x40000 - n < q * n <= 0x40000
    ensures idx * n <= 4 * c && c * (0x40000 - n) < (idx + 1) * 0x1_0000 * n
  {
    assert idx * 0x1_0000 <= c * q < (idx + 1) * 0x1_0000;
    var cq, qn, up := c * q, q * n, (idx + 1) * 0x1_0000;
    assert cq * n == c * qn == qn * c;
    MulMono(idx * 0x1_0000, cq, n);
    MulMono(qn, 0x40000, c);
    assert (idx * 0x1_0000) * n == (idx * n) * 0x1_0000;
    MulMono(cq + 1, up, n);
    MulMono(0x40000 - n, qn, c);
    assert (cq + 1) * n == cq * n + n;
  }

  // ----- the encoded block -----

  /** Sixteen 2-bit digits, the first one lowest. */
  function Digits(d: seq<nat>): nat { if d == [] then 0 else d[0] + 4 * Digits(d[1..]) }

  function Digit(data: nat, i: nat): nat { if i == 0 then data % 4 else Digit(data / 4, i - 1) }

  function Power4(i: nat): nat { if i == 0 then 1 else 4 * Power4(i - 1) }

  lemma {:induction false} DigitsAppend(d: seq<nat>, x: nat)
    ensures Digits(d + [x]) == Digits(d) + x * Power4(|d|)
  {
    if d == [] {
      assert d + [x] == [x];
      assert [x][1..] == [];
    } else {
      assert (d + [x])[1..] == d[1..] + [x];
      DigitsAppend(d[1..], x);
    }
  }

  lemma {:induction false} DigitOfDigits(d: seq<nat>, i: nat)
    requires i < |d| && forall k | 0 <= k < |d| :: d[k] < 4
    ensures Digit(Digits(d), i) == d[i]
  {
    if i > 0 { DigitOfDigits(d[1..], i - 1); }
  }

  lemma {:induction false} DigitsBound(d: seq<nat>)
    requires forall k | 0 <= k < |d| :: d[k] < 4
    ensures Digits(d) < Power4(|d|)
  {
    if d != [] { DigitsBound(d[1..]); }
  }

  function Indices(s: Block): (r: seq<nat>)
    ensures |r| == 16 && forall i | 0 <= i < 16 :: r[i] == Quantize(Brightness(s, i), Range(s))
  {
    seq(16, i requires 0 <= i < 16 => Quantize(Brightness(s, i), Range(s)))
  }

  /** The 64-bit word for a block: bright endpoint, dark endpoint, indices. */
  function Encoded(s: Block): nat {
    if Uniform(s) then Colour(s, 0) * 0x1_0000 else
      Pack565(BrightEnd(s, 0), BrightEnd(s, 1), BrightEnd(s, 2))
      + Pack565(DarkEnd(s, 0), DarkEnd(s, 1), DarkEnd(s, 2)) * 0x1_0000
      + Digits(Indices(s)) * 0x1_0000_0000
  }

  function FirstEndpoint(e: nat): nat { e % 0x1_0000 }

  function SecondEndpoint(e: nat): nat { e / 0x1_0000 % 0x1_0000 }

  function Index(e: nat, i: nat): nat { Digit(e / 0x1_0000_0000, i) }

  lemma {:induction false} ZeroDigits(i: nat)
    ensures Digit(0, i) == 0
  {
    if i > 0 { ZeroDigits(i - 1); }
  }

  /** What a reader finds in the word. */
  lemma EncodedFields(s: Block, i: nat)
    requires i < 16
    ensures var e := Encoded(s);
      if Uniform(s) then FirstEndpoint(e) == 0 && SecondEndpoint(e) == Colour(s, 0) && Index(e, i) == 0
      else
        && FirstEndpoint(e) == Pack565(BrightEnd(s, 0), BrightEnd(s, 1), BrightEnd(s, 2))
        && SecondEndpoint(e) == Pack565(DarkEnd(s, 0), DarkEnd(s, 1), DarkEnd(s, 2))
        && Index(e, i) == Quantize(Brightness(s, i), Range(s))
  {
    hide BrightEnd, DarkEnd, Quantize, Uniform, Pack565, Digit, Digits, Colour, FirstEndpoint, SecondEndpoint, Range, Brightness, Indices;
    if Uniform(s) {
      WordFields(0, Colour(s, 0), 0);
      ZeroDigits(i);
    } else {
      IndicesFit(s);
      DigitOfDigits(Indices(s), i);
      WordFields(Pack565(BrightEnd(s, 0), BrightEnd(s, 1), BrightEnd(s, 2)),
        Pack565(DarkEnd(s, 0), DarkEnd(s, 1), DarkEnd(s, 2)), Digits(Indices(s)));
    }
  }

  lemma WordFields(a: nat, b: nat, d: nat)
    requires a < 0x1_0000 && b < 0x1_0000
    ensures var e := a + b * 0x1_0000 + d * 0x1_0000_0000;
      FirstEndpoint(e) == a && SecondEndpoint(e) == b && e / 0x1_0000_0000 == d
  {
  }

  lemma IndicesFit(s: Block)
    ensures forall k | 0 <= k < 16 :: Indices(s)[k] < 4
  {
    forall k | 0 <= k < 16 ensures Indices(s)[k] < 4 { IndexFits(Brightness(s, k), Range(s)); }
  }

  /** The word fits 64 bits. */
  lemma EncodedFits(s: Block)
    ensures Encoded(s) < 0x1_0000_0000_0000_0000
  {
    hide BrightEnd, DarkEnd, Quantize, Uniform, Digits, Indices;
    IndicesFit(s);
    DigitsBound(Indices(s));
    Power4Sixteen();
  }

  lemma Power4Sixteen()
    ensures Power4(16) == 0x1_0000_0000
  {
    assert Power4(8) == 0x1_0000;
  }

  // ----- the endpoints -----

  /** Despite the inset, a channel that varies above its dropped bits keeps its ends apart. */
  lemma InsetKeepsOrder(lo: byte, hi: byte, unit: nat)
    requires lo <= hi && (unit == 4 || unit == 8)
    ensures (lo + Inset(lo, hi)) / unit <= (hi - Inset(lo, hi)) / unit
    ensures lo / unit < hi / unit ==> (lo + Inset(lo, hi)) / unit < (hi - Inset(lo, hi)) / unit
  {
  }

  lemma ChannelVaries(s: Block, i: nat, j: nat, unit: nat)
    requires i < 16 && j < 3 && (unit == 4 || unit == 8) && Channel(s, i, j) / unit != Channel(s, 0, j) / unit
    ensures MinOf(s, j, 16) / unit < MaxOf(s, j, 16) / unit
  {
    hide MinOf, MaxOf, Channel;
    MinMaxBound(s, j, 16, i);
    MinMaxBound(s, j, 16, 0);
    Straddles(MinOf(s, j, 16), Channel(s, i, j), Channel(s, 0, j), MaxOf(s, j, 16), unit);
  }

  lemma Straddles(lo: byte, a: byte, b: byte, hi: byte, unit: nat)
    requires (unit == 4 || unit == 8) && a / unit != b / unit && lo <= a <= hi && lo <= b <= hi
    ensures lo / unit < hi / unit
  {
    if unit == 4 { assert lo / 4 < hi / 4; } else { assert lo / 8 < hi / 8; }
  }

  lemma PackOrder(r: byte, g: byte, b: byte, r': byte, g': byte, b': byte)
    requires r / 8 <= r' / 8 && g / 4 <= g' / 4 && b / 8 <= b' / 8
    ensures Pack565(r, g, b) <= Pack565(r', g', b')
    ensures r / 8 < r' / 8 || g / 4 < g' / 4 || b / 8 < b' / 8 ==> Pack565(r, g, b) < Pack565(r', g', b')
  {
  }

  /** The first endpoint is above the second exactly for the blocks that are not uniform. */
  lemma EndpointOrder(s: Block)
    ensures FirstEndpoint(Encoded(s)) > SecondEndpoint(Encoded(s)) <==> !Uniform(s)
  {
    hide Encoded, FirstEndpoint, SecondEndpoint, Index, Quantize, MinOf, MaxOf, Inset, Pack565;
    EncodedFields(s, 0);
    if !Uniform(s) {
      var i :| 0 <= i < 16 && !SameMasked(s, i, 0);
      if Channel(s, i, 0) / 8 != Channel(s, 0, 0) / 8 { ChannelVaries(s, i, 0, 8); }
      if Channel(s, i, 1) / 4 != Channel(s, 0, 1) / 4 { ChannelVaries(s, i, 1, 4); }
      if Channel(s, i, 2) / 8 != Channel(s, 0, 2) / 8 { ChannelVaries(s, i, 2, 8); }
      EndsApart(s, 0, 8);
      EndsApart(s, 1, 4);
      EndsApart(s, 2, 8);
      PackOrder(DarkEnd(s, 0), DarkEnd(s, 1), DarkEnd(s, 2), BrightEnd(s, 0), BrightEnd(s, 1), BrightEnd(s, 2));
    }
  }

  lemma EndsApart(s: Block, j: nat, unit: nat)
    requires j < 3 && (unit == 4 || unit == 8)
    ensures DarkEnd(s, j) / unit <= BrightEnd(s, j) / unit
    ensures MinOf(s, j, 16) / unit < MaxOf(s, j, 16) / unit ==> DarkEnd(s, j) / unit < BrightEnd(s, j) / unit
  {
    hide MinOf, MaxOf, Inset;
    MinMaxBound(s, j, 16, 0);
    InsetKeepsOrder(MinOf(s, j, 16), MaxOf(s, j, 16), unit);
  }

  /** A uniform block is exact: every pixel has index 0, and the endpoint it names is that pixel's packed colour. */
  lemma UniformExact(s: Block, i: nat)
    requires Uniform(s) && i < 16
    ensures Index(Encoded(s), i) == 0 && SecondEndpoint(Encoded(s)) == Colour(s, i)
  {
    EncodedFields(s, i);
    assert SameMasked(s, i, 0);
  }

  /** Both ends of a channel move in by a sixteenth of its range, rounded down. */
  lemma EndsMoveIn(s: Block, j: nat)
    requires j < 3
    ensures var lo, hi, dark, bright := MinOf(s, j, 16), MaxOf(s, j, 16), DarkEnd(s, j), BrightEnd(s, j);
      && dark - lo == hi - bright >= 0 && 16 * (dark - lo) <= hi - lo < 16 * (dark - lo + 1)
  {
    hide MinOf, MaxOf, Inset;
    MinMaxBound(s, j, 16, 0);
  }

  /** The index of every pixel in the word of a block that varies. */
  lemma IndexOfPixel(s: Block, i: nat)
    requires !Uniform(s) && i < 16
    ensures IndexIs(Index(Encoded(s), i), Brightness(s, i), Range(s))
  {
    hide Encoded, Index, Quantize, Range, Brightness, IndexIs;
    EncodedFields(s, i);
    IndexValue(Brightness(s, i), Range(s));
  }

  /** For a block that varies, the darkest corner of its colours gets index 0, and indices follow brightness. */
  lemma IndicesFollowBrightness(s: Block, i: nat, k: nat)
    requires !Uniform(s) && i < 16 && k < 16 && Brightness(s, i) <= Brightness(s, k)
    ensures Index(Encoded(s), i) <= Index(Encoded(s), k) <= 3
    ensures Brightness(s, i) == 0 ==> Index(Encoded(s), i) == 0
    ensures Brightness(s, k) == Range(s) ==> (Index(Encoded(s), k) == 3 <==> Range(s) >= 4)
  {
    hide Encoded, Index, Quantize, Range, Brightness;
    EncodedFields(s, i);
    EncodedFields(s, k);
    IndexMonotone(Brightness(s, i), Brightness(s, k), Range(s));
    IndexFits(Brightness(s, k), Range(s));
    BrightestIndex(Range(s));
  }
}
