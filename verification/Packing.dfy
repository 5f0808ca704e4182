/** How 24 and 48 bits sit in UFC-crypt's words: twelve bits to a 16-bit lane,
    at offsets 3 to 14, so that a lane read as a byte offset is eight times a
    table index.  The key schedule also sets the top bit of every second lane;
    that bit (0x8000) is the distance from one lookup table to the next. */
module Packing {
  import opened Bits
  import opened Des

  type W12 = w: Word | |w| == 12 witness Zeros(12)

  function Lane(tag: bool, t: W12): (r: Word)
    ensures |r| == 16
  {
    [tag] + t + Zeros(3)
  }

  function Pack24(x: W24): W32 {
    Lane(false, x[..12]) + Lane(false, x[12..])
  }

  /** The first (0) or second (1) half of an expanded value. */
  function HalfOf(x: W48, half: nat): (r: W24)
    requires half < 2
    ensures forall i :: 0 <= i < 24 ==> r[i] == x[24 * half + i]
  {
    x[24 * half..24 * half + 24]
  }

  function Pack48(x: W48): W64 {
    Pack24(HalfOf(x, 0)) + Pack24(HalfOf(x, 1))
  }

  /** A key half with its tag: v | 0x00008000. */
  function Tagged24(k: W24): W32 {
    Lane(false, k[..12]) + Lane(true, k[12..])
  }

  /** Both key halves with their tags: v | 0x0000800000008000. */
  function Tagged48(k: W48): W64 {
    Tagged24(HalfOf(k, 0)) + Tagged24(HalfOf(k, 1))
  }

  /** Where BITMASK[i] has its only bit: 0x40000000 >> i for the first twelve,
      0x00004000 >> (i - 12) for the others. */
  function BitPos(i: nat): (p: nat)
    requires i < 24
    ensures p < 32
  {
    if i < 12 then 1 + i else 5 + i
  }

  function BitMask(i: nat): W32
    requires i < 24
  {
    OneHot(32, BitPos(i))
  }

  const TAG: W32 := OneHot(32, 16)

  // ----- Bits of packed words -----

  lemma PackBit(x: W24, i: nat)
    requires i < 24
    ensures Pack24(x)[BitPos(i)] == x[i]
  {
  }

  lemma PackOr(x: W24, i: nat)
    requires i < 24
    ensures Or(Pack24(x), BitMask(i)) == Pack24(x[i := true])
  {
  }

  lemma PackZero()
    ensures Pack24(Zeros(24)) == Zeros(32)
  {
  }

  lemma PackXor24(x: W24, y: W24)
    ensures Xor(Pack24(x), Pack24(y)) == Pack24(Xor(x, y))
  {
  }

  lemma PackAnd24(x: W24, y: W24)
    ensures And(Pack24(x), Pack24(y)) == Pack24(And(x, y))
  {
  }

  lemma TagPacked(k: W24)
    ensures Or(Pack24(k), TAG) == Tagged24(k)
  {
  }

  lemma XorConcat(a: Word, b: Word, c: Word, d: Word)
    requires |a| == |c| && |b| == |d|
    ensures Xor(a + b, c + d) == Xor(a, c) + Xor(b, d)
  {
  }

  lemma XorHalves(x: W48, y: W48, half: nat)
    requires half < 2
    ensures HalfOf(Xor(x, y), half) == Xor(HalfOf(x, half), HalfOf(y, half))
  {
  }

  lemma PackXor(x: W48, y: W48)
    ensures Xor(Pack48(x), Pack48(y)) == Pack48(Xor(x, y))
  {
    hide Pack24, HalfOf;
    var x0, x1, y0, y1 := HalfOf(x, 0), HalfOf(x, 1), HalfOf(y, 0), HalfOf(y, 1);
    XorConcat(Pack24(x0), Pack24(x1), Pack24(y0), Pack24(y1));
    PackXor24(x0, y0);
    PackXor24(x1, y1);
    XorHalves(x, y, 0);
    XorHalves(x, y, 1);
  }

  lemma TaggedXor24(k: W24, x: W24)
    ensures Xor(Tagged24(k), Pack24(x)) == Tagged24(Xor(k, x))
  {
  }

  lemma TaggedXor(k: W48, x: W48)
    ensures Xor(Tagged48(k), Pack48(x)) == Tagged48(Xor(k, x))
  {
    hide Pack24, Tagged24, HalfOf;
    var k0, k1, x0, x1 := HalfOf(k, 0), HalfOf(k, 1), HalfOf(x, 0), HalfOf(x, 1);
    XorConcat(Tagged24(k0), Tagged24(k1), Pack24(x0), Pack24(x1));
    TaggedXor24(k0, x0);
    TaggedXor24(k1, x1);
    XorHalves(k, x, 0);
    XorHalves(k, x, 1);
  }

  // ----- Lanes as byte offsets -----

  /** A lane is eight times its twelve bits, plus 0x8000 if it carries the tag. */
  lemma LaneValue(tag: bool, t: W12)
    ensures ToNat(Lane(tag, t)) == 32768 * BitValue(tag) + 8 * ToNat(t)
    ensures ToNat(t) < 4096
  {
    Pow2Values();
    ToNatConcat([tag], t);
    ToNatConcat([tag] + t, Zeros(3));
    ToNatZeros(3);
    assert [tag][..0] == [];
    assert ToNat([tag]) == BitValue(tag);
  }
}
