/**
 The two ways the texture encoder packs a colour into 5-6-5 bits, on bit vectors as the program writes them.
 */
module Dxt1Colour {

  import opened Dxt1

  /** From separate channels. */
  function To565(r: bv32, g: bv32, b: bv32): bv32 { ((r & 0xF8) << 8) | ((g & 0xFC) << 3) | (b >> 3) }

  /** From a pixel loaded as a little-endian word. */
  function To565Word(c: bv32): bv32 { ((c & 0xF80000) >> 19) | ((c & 0x00FC00) >> 5) | ((c & 0x0000F8) << 8) }

  function Word(r: bv32, g: bv32, b: bv32, a: bv32): bv32 { r | (g << 8) | (b << 16) | (a << 24) }

  /** Both forms give the same sixteen bits, whatever the fourth byte holds. */
  lemma FormsAgree(r: bv32, g: bv32, b: bv32, a: bv32)
    requires r < 256 && g < 256 && b < 256 && a < 256
    ensures To565Word(Word(r, g, b, a)) == To565(r, g, b) < 0x10000
  {
  }

  /** The fields of a packed colour. */
  lemma Fields(r: bv32, g: bv32, b: bv32)
    requires r < 256 && g < 256 && b < 256
    ensures To565(r, g, b) < 0x10000 && To565(r, g, b) & 31 == b >> 3
    ensures (To565(r, g, b) >> 5) & 63 == g >> 2 && (To565(r, g, b) >> 5) >> 6 == r >> 3
  {
  }

  /** A word's number. */
  function Value(c: bv32): nat { c as nat }

  lemma LowFive(c: bv32)
    requires c < 0x10000
    ensures Value(c) == Value(c >> 5) * 32 + Value(c & 31) && c >> 5 < 0x800
  {
  }

  lemma LowSix(c: bv32)
    requires c < 0x800
    ensures Value(c) == Value(c >> 6) * 64 + Value(c & 63)
  {
  }

  lemma ShiftDivides(c: bv32)
    requires c < 256
    ensures Value(c) < 256 && Value(c >> 3) == Value(c) / 8 && Value(c >> 2) == Value(c) / 4
  {
    ByEight(c);
    hide Value;
    ByFour(c);
  }

  lemma ByEight(c: bv32)
    requires c < 256
    ensures Value(c) < 256 && Value(c >> 3) == Value(c) / 8
  {
  }

  lemma ByFour(c: bv32)
    requires c < 256
    ensures Value(c >> 2) == Value(c) / 4
  {
  }

  /** The shifts, masks and ors compute the arithmetic form. */
  lemma BitsAreSum(r: bv32, g: bv32, b: bv32)
    requires r < 256 && g < 256 && b < 256
    ensures Value(r) < 256 && Value(g) < 256 && Value(b) < 256
    ensures Value(To565(r, g, b)) == Pack565(Value(r), Value(g), Value(b))
  {
    hide To565, Value;
    Fields(r, g, b);
    var c := To565(r, g, b);
    LowFive(c);
    LowSix(c >> 5);
    ShiftDivides(r);
    ShiftDivides(g);
    ShiftDivides(b);
  }

  /** The uniformity test's mask keeps the three masked channels side by side, each in its own byte. */
  lemma MaskSeesColour(r: bv32, g: bv32, b: bv32, a: bv32)
    requires r < 256 && g < 256 && b < 256 && a < 256
    ensures (Word(r, g, b, a) & 0xF8FCF8) & 0xFF == r & 0xF8
    ensures ((Word(r, g, b, a) & 0xF8FCF8) >> 8) & 0xFF == g & 0xFC
    ensures (Word(r, g, b, a) & 0xF8FCF8) >> 16 == b & 0xF8
    ensures Word(r, g, b, a) & 0xF8FCF8 == Word(r & 0xF8, g & 0xFC, b & 0xF8, 0)
  {
  }

  /** Each masked channel can be read back from the packed colour, so equal colours mean equal masked channels. */
  lemma ChannelsOfColour(r: bv32, g: bv32, b: bv32)
    requires r < 256 && g < 256 && b < 256
    ensures (To565(r, g, b) >> 8) & 0xF8 == r & 0xF8
    ensures (To565(r, g, b) >> 3) & 0xFC == g & 0xFC
    ensures (To565(r, g, b) << 3) & 0xF8 == b & 0xF8
  {
  }

  /** Masked channels are equal exactly when the shifted channels are. */
  lemma MaskIsShift(r: bv32, r': bv32)
    requires r < 256 && r' < 256
    ensures r & 0xF8 == r' & 0xF8 <==> r >> 3 == r' >> 3
    ensures r & 0xFC == r' & 0xFC <==> r >> 2 == r' >> 2
  {
  }

  lemma MaskSeparates(r: bv32, g: bv32, b: bv32, a: bv32, r': bv32, g': bv32, b': bv32, a': bv32)
    requires r < 256 && g < 256 && b < 256 && a < 256 && r' < 256 && g' < 256 && b' < 256 && a' < 256
    ensures Word(r, g, b, a) & 0xF8FCF8 == Word(r', g', b', a') & 0xF8FCF8
      <==> r >> 3 == r' >> 3 && g >> 2 == g' >> 2 && b >> 3 == b' >> 3
  {
    MaskSeesColour(r, g, b, a);
    MaskSeesColour(r', g', b', a');
    MaskIsShift(r, r');
    MaskIsShift(g, g');
    MaskIsShift(b, b');
    hide Word;
  }

  /** The four bytes of a pixel of a block. */
  predicate IsPixel(s: Block, i: nat, r: bv32, g: bv32, b: bv32, a: bv32)
    requires i < 16
  {
    && r < 256 && g < 256 && b < 256 && a < 256
    && Value(r) == Channel(s, i, 0) && Value(g) == Channel(s, i, 1) && Value(b) == Channel(s, i, 2) && Value(a) == Channel(s, i, 3)
  }

  /** The colour of a pixel is what the program's bit operations make of its word. */
  lemma ColourOfWord(s: Block, i: nat, r: bv32, g: bv32, b: bv32, a: bv32)
    requires i < 16 && IsPixel(s, i, r, g, b, a)
    ensures Value(To565Word(Word(r, g, b, a))) == Value(To565(r, g, b)) == Colour(s, i)
  {
    FormsAgree(r, g, b, a);
    hide To565, To565Word, Word, Value;
    BitsAreSum(r, g, b);
  }

  /** The uniformity test on the masked words of two pixels decides whether they agree in the bits of a colour. */
  lemma MaskedWordsAgree(s: Block, i: nat, k: nat, r: bv32, g: bv32, b: bv32, a: bv32, r': bv32, g': bv32, b': bv32, a': bv32)
    requires i < 16 && k < 16 && IsPixel(s, i, r, g, b, a) && IsPixel(s, k, r', g', b', a')
    ensures Word(r, g, b, a) & 0xF8FCF8 == Word(r', g', b', a') & 0xF8FCF8 <==> SameMasked(s, i, k)
  {
    hide Word, Value;
    MaskSeparates(r, g, b, a, r', g', b', a');
    ShiftsSame(r, r');
    ShiftsSame(g, g');
    ShiftsSame(b, b');
  }

  lemma ShiftsSame(c: bv32, c': bv32)
    requires c < 256 && c' < 256
    ensures c >> 3 == c' >> 3 <==> Value(c) / 8 == Value(c') / 8
    ensures c >> 2 == c' >> 2 <==> Value(c) / 4 == Value(c') / 4
  {
    ShiftDivides(c);
    ShiftDivides(c');
    SameValue(c >> 3, c' >> 3);
    SameValue(c >> 2, c' >> 2);
    hide Value;
  }

  lemma SameValue(c: bv32, c': bv32)
    requires c < 64 && c' < 64
    ensures Value(c) == Value(c') <==> c == c'
  {
  }
}
