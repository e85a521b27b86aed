/**
 Encoding a whole image: the walk over its blocks and the loops over one block.
 */
module Dxt1Image {

  import opened Bytes
  import opened Dxt1
  import BlockArith

  /** One block, step by step. */
  method ProcessRgb(src: array<byte>) returns (r: nat)
    requires src.Length == 64
    ensures r == Encoded(src[..])
  {
    ghost var s: Block := src[..];
    var i := 1;
    while i < 16
      invariant 1 <= i <= 16
      invariant forall k | 0 <= k < i :: SameMasked(s, k, 0)
    {
      if src[4 * i] / 8 != src[0] / 8 || src[4 * i + 1] / 4 != src[1] / 4 || src[4 * i + 2] / 8 != src[2] / 8 {
        assert !SameMasked(s, i, 0);
        break;
      }
      i := i + 1;
    }
    if i == 16 {
      return Pack565(src[0], src[1], src[2]) * 0x1_0000;
    }
    var min, max := MinMax(src);
    r := EncodeVaried(src, min, max);
  }

  /** The channel-wise bounds of the block's colours. */
  method MinMax(src: array<byte>) returns (min: array<byte>, max: array<byte>)
    requires src.Length == 64
    ensures fresh(min) && fresh(max) && min != max && min.Length == max.Length == 3
    ensures var s: Block := src[..]; forall j | 0 <= j < 3 :: min[j] == MinOf(s, j, 16) && max[j] == MaxOf(s, j, 16)
  {
    ghost var s: Block := src[..];
    min, max := new byte[3], new byte[3];
    for j := 0 to 3
      invariant forall k | 0 <= k < j :: min[k] == max[k] == src[k]
    {
      min[j], max[j] := src[j], src[j];
    }
    for i := 1 to 16
      invariant forall k | 0 <= k < 3 :: min[k] == MinOf(s, k, i) && max[k] == MaxOf(s, k, i)
    {
      Widen(src, s, i, min, max);
    }
  }

  /** Takes one more pixel into the bounds. */
  method Widen(src: array<byte>, ghost s: Block, i: nat, min: array<byte>, max: array<byte>)
    requires src[..] == s && 1 <= i < 16 && min.Length == max.Length == 3 && min != max && min != src && max != src
    requires forall k | 0 <= k < 3 :: min[k] == MinOf(s, k, i) && max[k] == MaxOf(s, k, i)
    modifies min, max
    ensures forall k | 0 <= k < 3 :: min[k] == MinOf(s, k, i + 1) && max[k] == MaxOf(s, k, i + 1)
  {
    hide MinOf, MaxOf;
    for j := 0 to 3
      invariant forall k | 0 <= k < j :: min[k] == MinOf(s, k, i + 1) && max[k] == MaxOf(s, k, i + 1)
      invariant forall k | j <= k < 3 :: min[k] == MinOf(s, k, i) && max[k] == MaxOf(s, k, i)
    {
      BoundsNext(s, j, i);
      assert src[4 * i + j] == Channel(s, i, j);
      if src[4 * i + j] < min[j] { min[j] := src[4 * i + j]; }
      else if src[4 * i + j] > max[j] { max[j] := src[4 * i + j]; }
    }
  }

  lemma BoundsNext(s: Block, j: nat, i: nat)
    requires 1 <= i < 16 && j < 3
    ensures var v, lo, hi := Channel(s, i, j), MinOf(s, j, i), MaxOf(s, j, i);
      MinOf(s, j, i + 1) == (if v < lo then v else lo) && MaxOf(s, j, i + 1) == (if v > hi then v else hi) && lo <= hi
  {
    MinMaxBound(s, j, i, 0);
  }

  /** Range, inset and indices of a block that varies. */
  method EncodeVaried(src: array<byte>, min: array<byte>, max: array<byte>) returns (r: nat)
    requires src.Length == 64 && min.Length == max.Length == 3 && min != max && min != src && max != src
    requires var s: Block := src[..]; !Uniform(s) && forall j | 0 <= j < 3 :: min[j] == MinOf(s, j, 16) && max[j] == MaxOf(s, j, 16)
    modifies min, max
    ensures r == Encoded(src[..])
  {
    hide MinOf, MaxOf, Uniform, Digits, Inset, Pack565, Power4;
    ghost var s: Block := src[..];
    MinMaxBound(s, 0, 16, 0);
    MinMaxBound(s, 1, 16, 0);
    MinMaxBound(s, 2, 16, 0);
    var lo0: int, lo1: int, lo2: int := min[0], min[1], min[2];
    var range := DivTable(max[0] - lo0 + max[1] - lo1 + max[2] - lo2);
    var rmin := lo0 + lo1 + lo2;
    InsetEnds(s, min, max);
    var data := Pick(src, rmin, range);
    r := Pack565(min[0], min[1], min[2]) * 0x1_0000 + Pack565(max[0], max[1], max[2]) + data * 0x1_0000_0000;
  }

  method InsetEnds(ghost s: Block, min: array<byte>, max: array<byte>)
    requires min.Length == max.Length == 3 && min != max
    requires forall j | 0 <= j < 3 :: min[j] == MinOf(s, j, 16) && max[j] == MaxOf(s, j, 16)
    modifies min, max
    ensures forall j | 0 <= j < 3 :: min[j] == DarkEnd(s, j) && max[j] == BrightEnd(s, j)
  {
    hide MinOf, MaxOf;
    for i := 0 to 3
      invariant forall j | 0 <= j < i :: min[j] == DarkEnd(s, j) && max[j] == BrightEnd(s, j)
      invariant forall j | i <= j < 3 :: min[j] == MinOf(s, j, 16) && max[j] == MaxOf(s, j, 16)
    {
      MinMaxBound(s, i, 16, 0);
      var inset := (max[i] - min[i]) / 16;
      min[i] := min[i] + inset;
      max[i] := max[i] - inset;
    }
  }

  /** The loop over the pixels that collects their indices. */
  method Pick(src: array<byte>, rmin: nat, range: nat) returns (data: nat)
    requires src.Length == 64
    requires var s: Block := src[..]; rmin == MinOf(s, 0, 16) + MinOf(s, 1, 16) + MinOf(s, 2, 16) && range == DivTable(Range(s))
    ensures data == Digits(Indices(src[..]))
  {
    hide MinOf, MaxOf, Digits, Range, DivTable;
    ghost var s: Block := src[..];
    ghost var d := Indices(s);
    data := 0;
    DigitsNone();
    var place := 1;
    for i := 0 to 16
      invariant place == Power4(i) && data == Digits(d[..i])
    {
      assert src[4 * i] == Channel(s, i, 0) && src[4 * i + 1] == Channel(s, i, 1) && src[4 * i + 2] == Channel(s, i, 2);
      ghost var b := Brightness(s, i);
      var c := src[4 * i] + src[4 * i + 1] + src[4 * i + 2] - rmin;
      var idx := c * range / 0x1_0000;
      DigitsAppend(d[..i], idx);
      assert d[..i + 1] == d[..i] + [idx];
      data := data + idx * place;
      place := 4 * place;
    }
    assert d[..16] == d;
  }

  lemma DigitsNone()
    ensures Digits([]) == 0
  {
  }

  // ----- the walk over the image -----

  /** Where row j of the block at (row, col) starts, in an image bw blocks wide. */
  function RowStart(bw: nat, row: nat, col: nat, j: nat): nat { BlockArith.Base(row, 64 * bw) + j * (16 * bw) + 16 * col }

  lemma RowStarts(bw: nat, bh: nat, row: nat, col: nat)
    requires row < bh && col < bw
    ensures RowStart(bw, row, col, 3) + 16 <= 64 * (bw * bh)
    ensures BlockArith.Base(row + 1, 64 * bw) == BlockArith.Base(row, 64 * bw) + 64 * bw
  {
    BlockArith.BaseNext(row, 64 * bw);
    BlockArith.BaseMono(row + 1, bh, 64 * bw);
    Area(bw, bh);
  }

  lemma Area(bw: nat, bh: nat)
    ensures BlockArith.Base(bh, 64 * bw) == 64 * (bw * bh)
  {
  }

  /** The four rows of a block, gathered. */
  function Gather(image: seq<byte>, bw: nat, bh: nat, row: nat, col: nat): Block
    requires |image| == 64 * (bw * bh) && row < bh && col < bw
  {
    RowStarts(bw, bh, row, col);
    image[RowStart(bw, row, col, 0)..RowStart(bw, row, col, 0) + 16]
    + image[RowStart(bw, row, col, 1)..RowStart(bw, row, col, 1) + 16]
    + image[RowStart(bw, row, col, 2)..RowStart(bw, row, col, 2) + 16]
    + image[RowStart(bw, row, col, 3)..RowStart(bw, row, col, 3) + 16]
  }

  /** Block number k in raster order. */
  function BlockAt(image: seq<byte>, bw: nat, bh: nat, k: nat): Block
    requires |image| == 64 * (bw * bh) && k < bw * bh
  {
    RasterPosition(bw, bh, k);
    Gather(image, bw, bh, k / bw, k % bw)
  }

  lemma RasterPosition(bw: nat, bh: nat, k: nat)
    requires k < bw * bh
    ensures bw > 0 && k / bw < bh && k % bw < bw && k == BlockArith.Base(k / bw, bw) + k % bw
  {
    BlockArith.BaseSplit(k, bw);
    if k / bw >= bh { BlockArith.BaseMono(bh, k / bw, bw); }
  }

  lemma RasterIndex(bw: nat, bh: nat, row: nat, col: nat)
    requires row < bh && col < bw
    ensures var k := BlockArith.Base(row, bw) + col; 0 <= k < bw * bh && k / bw == row && k % bw == col
  {
    BlockArith.BaseMono(row + 1, bh, bw);
    BlockArith.BaseMono(0, row, bw);
    BlockArith.BaseNext(row, bw);
    BlockArith.BaseUnique(BlockArith.Base(row, bw) + col, row, bw);
  }

  /** The encoded words in raster order, eight bytes each. */
  predicate EncodedUpTo(image: seq<byte>, bw: nat, bh: nat, out: seq<byte>, n: nat)
    requires |image| == 64 * (bw * bh) && |out| >= 8 * n && n <= bw * bh
  {
    forall k | 0 <= k < n :: out[8 * k..8 * k + 8] == LittleEndian(Encoded(BlockAt(image, bw, bh, k)), 8)
  }

  /** Copies the block whose first row starts at p; stride is the width of a row of pixels in bytes. */
  method LoadBlock(src: array<byte>, p: nat, stride: nat, buf: array<byte>)
    requires buf.Length == 64 && src != buf && p + 3 * stride + 16 <= src.Length
    modifies buf
    ensures buf[..] == src[p..p + 16] + src[p + stride..p + stride + 16]
      + src[p + 2 * stride..p + 2 * stride + 16] + src[p + 3 * stride..p + 3 * stride + 16]
  {
    forall b | 0 <= b < 16 { buf[b] := src[p + b]; }
    forall b | 0 <= b < 16 { buf[16 + b] := src[p + stride + b]; }
    forall b | 0 <= b < 16 { buf[32 + b] := src[p + 2 * stride + b]; }
    forall b | 0 <= b < 16 { buf[48 + b] := src[p + 3 * stride + b]; }
    assert buf[..] == buf[0..16] + buf[16..32] + buf[32..48] + buf[48..64];
    assert buf[0..16] == src[p..p + 16];
    assert buf[16..32] == src[p + stride..p + stride + 16];
    assert buf[32..48] == src[p + 2 * stride..p + 2 * stride + 16];
    assert buf[48..64] == src[p + 3 * stride..p + 3 * stride + 16];
  }

  /** The parts of out that hold earlier words stay as they are when the next word is stored. */
  lemma NextWord(image: seq<byte>, bw: nat, bh: nat, out: seq<byte>, out': seq<byte>, k: nat)
    requires |image| == 64 * (bw * bh) && k < bw * bh && |out| == |out'| >= 8 * k + 8
    requires EncodedUpTo(image, bw, bh, out, k) && out'[..8 * k] == out[..8 * k]
    requires out'[8 * k..8 * k + 8] == LittleEndian(Encoded(BlockAt(image, bw, bh, k)), 8)
    ensures EncodedUpTo(image, bw, bh, out', k + 1)
  {
    forall m | 0 <= m < k ensures out'[8 * m..8 * m + 8] == out[8 * m..8 * m + 8] {
      assert out'[8 * m..8 * m + 8] == out'[..8 * k][8 * m..8 * m + 8];
      assert out[8 * m..8 * m + 8] == out[..8 * k][8 * m..8 * m + 8];
    }
  }

  lemma Sizes(w: nat, h: nat)
    requires w > 0 && h > 0 && w % 4 == 0 && h % 4 == 0
    ensures w == 4 * (w / 4) && h == 4 * (h / 4) && w / 4 > 0 && h / 4 > 0
    ensures w * h * 4 == 64 * (w / 4 * (h / 4)) && w * h / 2 == 8 * (w / 4 * (h / 4)) && w * h / 16 == w / 4 * (h / 4) > 0
  {
    var bw, bh := w / 4, h / 4;
    assert w * h == 16 * (bw * bh) by { assert w * h == (4 * bw) * (4 * bh); }
    assert bw * bh > 0;
  }

  /** Steps of the walk: the next block of the row, or the first of the next row. */
  lemma Walk(bw: nat, bh: nat, row: nat, col: nat)
    requires row < bh && col < bw
    ensures RowStart(bw, row, col, 0) + 16 == RowStart(bw, row, col + 1, 0)
    ensures RowStart(bw, row, bw, 0) + 48 * bw == RowStart(bw, row + 1, 0, 0)
    ensures BlockArith.Base(row + 1, bw) == BlockArith.Base(row, bw) + bw
    ensures BlockArith.Base(row, bw) + col + 1 < bw * bh && col + 1 == bw ==> row + 1 < bh
    ensures BlockArith.Base(0, bw) == 0 && BlockArith.Base(0, 64 * bw) == 0
  {
    BlockArith.BaseNext(row, bw);
    RowStarts(bw, bh, row, col);
    if row + 1 >= bh { BlockArith.BaseMono(bh, row + 1, bw); }
  }

  /** The whole image: w*h/2 bytes, one word for every block, in raster order. */
  method CompressImageDxt1(src: array<byte>, dst: array<byte>, w: nat, h: nat)
    requires w > 0 && h > 0 && w % 4 == 0 && h % 4 == 0
    requires src.Length == w * h * 4 && dst.Length == w * h / 2 && src != dst
    modifies dst
    ensures src.Length == 64 * (w / 4 * (h / 4)) && dst.Length == 8 * (w / 4 * (h / 4))
    ensures EncodedUpTo(src[..], w / 4, h / 4, dst[..], w / 4 * (h / 4))
  {
    hide RowStart, Encoded, BlockArith.Base, BlockAt, Gather, EncodedUpTo;
    Sizes(w, h);
    ghost var bw, bh, image := w / 4, h / 4, src[..];
    ghost var row, k := 0, 0;
    var p, q, i := 0, 0, 0;
    var blocks := w * h / 16;
    StartOfWalk(image, bw, bh, dst[..]);
    while true
      invariant blocks >= 1 && k == bw * bh - blocks
      invariant row < bh && i < bw && k == BlockArith.Base(row, bw) + i
      invariant p == RowStart(bw, row, i, 0) && q == 8 * k
      invariant EncodedUpTo(image, bw, bh, dst[..], k)
      decreases blocks
    {
      var word, p1, i1 := EncodeAt(src, w, p, i, bw, bh, row);
      BlockOfWalk(image, bw, bh, row, i);
      ghost var before := dst[..];
      StoreWord(dst, q, word);
      NextWord(image, bw, bh, before, dst[..], k);
      Walk(bw, bh, row, i);
      q := q + 8;
      blocks := blocks - 1;
      k := k + 1;
      if blocks == 0 { break; }
      row := if i + 1 == bw then row + 1 else row;
      p, i := p1, i1;
    }
  }

  lemma StartOfWalk(image: seq<byte>, bw: nat, bh: nat, out: seq<byte>)
    requires |image| == 64 * (bw * bh)
    ensures RowStart(bw, 0, 0, 0) == 0 && BlockArith.Base(0, bw) == 0 && EncodedUpTo(image, bw, bh, out, 0)
  {
  }

  lemma BlockOfWalk(image: seq<byte>, bw: nat, bh: nat, row: nat, col: nat)
    requires |image| == 64 * (bw * bh) && row < bh && col < bw
    ensures 0 <= BlockArith.Base(row, bw) + col < bw * bh
    ensures BlockAt(image, bw, bh, BlockArith.Base(row, bw) + col) == Gather(image, bw, bh, row, col)
  {
    RasterIndex(bw, bh, row, col);
  }

  method StoreWord(dst: array<byte>, q: nat, word: nat)
    requires q + 8 <= dst.Length
    modifies dst
    ensures dst[q..q + 8] == LittleEndian(word, 8) && dst[..q] == old(dst[..q]) && dst[q + 8..] == old(dst[q + 8..])
  {
    var bytes := LittleEndian(word, 8);
    forall b | 0 <= b < 8 { dst[q + b] := bytes[b]; }
  }

  /** One turn of the loop: gathers a block, moves the source pointer and the column counter, encodes. */
  method EncodeAt(src: array<byte>, w: nat, p: nat, i: nat, ghost bw: nat, ghost bh: nat, ghost row: nat)
    returns (word: nat, p': nat, i': nat)
    requires w == 4 * bw && src.Length == 64 * (bw * bh) && row < bh && i < bw && p == RowStart(bw, row, i, 0)
    ensures word == Encoded(Gather(src[..], bw, bh, row, i))
    ensures i' == if i + 1 == bw then 0 else i + 1
    ensures p' == if i + 1 == bw then RowStart(bw, row + 1, 0, 0) else RowStart(bw, row, i + 1, 0)
  {
    hide Encoded, RowStart, Gather;
    var buf := new byte[64];
    RowsOfBlock(src[..], bw, bh, row, i);
    Walk(bw, bh, row, i);
    LoadBlock(src, p, w * 4, buf);
    p', i' := p + 16, i + 1;
    if i' == w / 4 {
      p', i' := p' + w * 3 * 4, 0;
    }
    word := ProcessRgb(buf);
  }

  lemma RowsOfBlock(image: seq<byte>, bw: nat, bh: nat, row: nat, col: nat)
    requires |image| == 64 * (bw * bh) && row < bh && col < bw
    ensures var p := RowStart(bw, row, col, 0);
      && p + 48 * bw + 16 <= |image|
      && Gather(image, bw, bh, row, col) == image[p..p + 16] + image[p + 16 * bw..p + 16 * bw + 16]
           + image[p + 32 * bw..p + 32 * bw + 16] + image[p + 48 * bw..p + 48 * bw + 16]
  {
    hide BlockArith.Base;
    RowStarts(bw, bh, row, col);
  }

  /** Every pixel lands in exactly one place: pixel (x, y) is pixel number (y%4)*4 + x%4 of block (y/4, x/4). */
  lemma PixelEncodedOnce(image: seq<byte>, bw: nat, bh: nat, x: nat, y: nat, j: nat)
    requires |image| == 64 * (bw * bh) && x < 4 * bw && y < 4 * bh && j < 4
    ensures var k, i := BlockArith.Base(y / 4, bw) + x / 4, y % 4 * 4 + x % 4;
      && 0 <= k < bw * bh && i < 16 && k / bw * 4 + i / 4 == y && k % bw * 4 + i % 4 == x
      && 0 <= (BlockArith.Base(y, 4 * bw) + x) * 4 + j < |image|
      && Channel(BlockAt(image, bw, bh, k), i, j) == image[(BlockArith.Base(y, 4 * bw) + x) * 4 + j]
  {
    hide BlockArith.Base, RowStart, Gather, BlockAt, RowOffset;
    var row, col, r, c := y / 4, x / 4, y % 4, x % 4;
    RasterIndex(bw, bh, row, col);
    BlockOfWalk(image, bw, bh, row, col);
    PixelAddress(bw, x, y);
    GatheredPixel(image, bw, bh, row, col, r, c, j);
  }

  function RowOffset(bw: nat, r: nat): nat { BlockArith.Base(r, 16 * bw) }

  lemma PixelAddress(bw: nat, x: nat, y: nat)
    ensures (BlockArith.Base(y, 4 * bw) + x) * 4 == RowStart(bw, y / 4, x / 4, 0) + RowOffset(bw, y % 4) + 4 * (x % 4)
  {
    var row, r := y / 4, y % 4;
    assert y * (4 * bw) * 4 == (4 * row + r) * (16 * bw) == row * (64 * bw) + r * (16 * bw);
  }

  lemma GatheredPixel(image: seq<byte>, bw: nat, bh: nat, row: nat, col: nat, r: nat, c: nat, j: nat)
    requires |image| == 64 * (bw * bh) && row < bh && col < bw && r < 4 && c < 4 && j < 4
    ensures var a := RowStart(bw, row, col, 0) + RowOffset(bw, r) + 4 * c + j;
      a < |image| && Channel(Gather(image, bw, bh, row, col), r * 4 + c, j) == image[a]
  {
    hide RowStart, Gather, RowOffset;
    RowsOfBlock(image, bw, bh, row, col);
    RowOffsets(bw);
    if r == 0 {} else if r == 1 {} else if r == 2 {} else {}
  }

  lemma RowOffsets(bw: nat)
    ensures RowOffset(bw, 0) == 0 && RowOffset(bw, 1) == 16 * bw && RowOffset(bw, 2) == 32 * bw && RowOffset(bw, 3) == 48 * bw
  {
  }
}
