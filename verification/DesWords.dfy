/** DES on machine words: the permutations and one round as operations on bit-vectors,
    which are those of the standard for every input.  Known answers are worked out with
    them. */
module DesWords {
  import opened Bits
  import opened DesTables
  import opened Des
  import opened Expanded
  import opened SBoxes

  // ----- Words as bits -----

  /** Bit i from the high end. */
  function Mask(i: nat): bv32
    requires i < 32
  {
    match i case 0 => 0x80000000 case 1 => 0x40000000 case 2 => 0x20000000 case 3 => 0x10000000 case 4 => 0x8000000
    case 5 => 0x4000000 case 6 => 0x2000000 case 7 => 0x1000000 case 8 => 0x800000 case 9 => 0x400000
    case 10 => 0x200000 case 11 => 0x100000 case 12 => 0x80000 case 13 => 0x40000 case 14 => 0x20000
    case 15 => 0x10000 case 16 => 0x8000 case 17 => 0x4000 case 18 => 0x2000 case 19 => 0x1000 case 20 => 0x800
    case 21 => 0x400 case 22 => 0x200 case 23 => 0x100 case 24 => 0x80 case 25 => 0x40 case 26 => 0x20 case 27 => 0x10
    case 28 => 0x8 case 29 => 0x4 case 30 => 0x2 case _ => 0x1
  }

  predicate Bit(x: bv32, i: nat)
    requires i < 32
  {
    x & Mask(i) != 0
  }

  /** The low n bits. */
  function Low(x: bv32, n: nat): (w: Word)
    requires n <= 32
    ensures |w| == n
  {
    seq(n, i requires 0 <= i < n => Bit(x, 32 - n + i))
  }

  function Low48(hi: bv32, lo: bv32): W48 {
    Low(hi, 24) + Low(lo, 24)
  }

  function Word64(hi: bv32, lo: bv32): W64 {
    Low(hi, 32) + Low(lo, 32)
  }

  predicate Bit64(hi: bv32, lo: bv32, i: nat)
    requires i < 64
  {
    if i < 32 then Bit(hi, i) else Bit(lo, i - 32)
  }

  lemma MaskValues0()
    ensures Mask(0) == 0x80000000 && Mask(1) == 0x40000000 && Mask(2) == 0x20000000 && Mask(3) == 0x10000000
    ensures Mask(4) == 0x8000000 && Mask(5) == 0x4000000 && Mask(6) == 0x2000000 && Mask(7) == 0x1000000
  {
  }

  lemma MaskValues1()
    ensures Mask(8) == 0x800000 && Mask(9) == 0x400000 && Mask(10) == 0x200000 && Mask(11) == 0x100000
    ensures Mask(12) == 0x80000 && Mask(13) == 0x40000 && Mask(14) == 0x20000 && Mask(15) == 0x10000
  {
  }

  lemma MaskValues2()
    ensures Mask(16) == 0x8000 && Mask(17) == 0x4000 && Mask(18) == 0x2000 && Mask(19) == 0x1000
    ensures Mask(20) == 0x800 && Mask(21) == 0x400 && Mask(22) == 0x200 && Mask(23) == 0x100
  {
  }

  lemma MaskValues3()
    ensures Mask(24) == 0x80 && Mask(25) == 0x40 && Mask(26) == 0x20 && Mask(27) == 0x10
    ensures Mask(28) == 0x8 && Mask(29) == 0x4 && Mask(30) == 0x2 && Mask(31) == 0x1
  {
  }

  lemma MaskValues()
    ensures Mask(0) == 0x80000000 && Mask(1) == 0x40000000 && Mask(2) == 0x20000000 && Mask(3) == 0x10000000
    ensures Mask(4) == 0x8000000 && Mask(5) == 0x4000000 && Mask(6) == 0x2000000 && Mask(7) == 0x1000000
    ensures Mask(8) == 0x800000 && Mask(9) == 0x400000 && Mask(10) == 0x200000 && Mask(11) == 0x100000
    ensures Mask(12) == 0x80000 && Mask(13) == 0x40000 && Mask(14) == 0x20000 && Mask(15) == 0x10000
    ensures Mask(16) == 0x8000 && Mask(17) == 0x4000 && Mask(18) == 0x2000 && Mask(19) == 0x1000 && Mask(20) == 0x800
    ensures Mask(21) == 0x400 && Mask(22) == 0x200 && Mask(23) == 0x100 && Mask(24) == 0x80 && Mask(25) == 0x40
    ensures Mask(26) == 0x20 && Mask(27) == 0x10 && Mask(28) == 0x8 && Mask(29) == 0x4 && Mask(30) == 0x2
    ensures Mask(31) == 0x1
  {
    hide Mask;
    MaskValues0();
    MaskValues1();
    MaskValues2();
    MaskValues3();
  }

  lemma BitIs(x: bv32, i: nat, k: bv32)
    requires i < 32 && Mask(i) == k
    ensures Bit(x, i) == (x & k != 0)
  {
    hide Mask;
    assert Bit(x, i) == (x & Mask(i) != 0);
  }

  lemma BitMasks(x: bv32)
    ensures Bit(x, 0) == (x & 0x80000000 != 0) && Bit(x, 1) == (x & 0x40000000 != 0)
    ensures Bit(x, 2) == (x & 0x20000000 != 0) && Bit(x, 3) == (x & 0x10000000 != 0)
    ensures Bit(x, 4) == (x & 0x8000000 != 0) && Bit(x, 5) == (x & 0x4000000 != 0)
    ensures Bit(x, 6) == (x & 0x2000000 != 0) && Bit(x, 7) == (x & 0x1000000 != 0) && Bit(x, 8) == (x & 0x800000 != 0)
    ensures Bit(x, 9) == (x & 0x400000 != 0) && Bit(x, 10) == (x & 0x200000 != 0) && Bit(x, 11) == (x & 0x100000 != 0)
    ensures Bit(x, 12) == (x & 0x80000 != 0) && Bit(x, 13) == (x & 0x40000 != 0) && Bit(x, 14) == (x & 0x20000 != 0)
    ensures Bit(x, 15) == (x & 0x10000 != 0) && Bit(x, 16) == (x & 0x8000 != 0) && Bit(x, 17) == (x & 0x4000 != 0)
    ensures Bit(x, 18) == (x & 0x2000 != 0) && Bit(x, 19) == (x & 0x1000 != 0) && Bit(x, 20) == (x & 0x800 != 0)
    ensures Bit(x, 21) == (x & 0x400 != 0) && Bit(x, 22) == (x & 0x200 != 0) && Bit(x, 23) == (x & 0x100 != 0)
    ensures Bit(x, 24) == (x & 0x80 != 0) && Bit(x, 25) == (x & 0x40 != 0) && Bit(x, 26) == (x & 0x20 != 0)
    ensures Bit(x, 27) == (x & 0x10 != 0) && Bit(x, 28) == (x & 0x8 != 0) && Bit(x, 29) == (x & 0x4 != 0)
    ensures Bit(x, 30) == (x & 0x2 != 0) && Bit(x, 31) == (x & 0x1 != 0)
  {
    MaskValues();
    hide Mask, Bit;
    BitIs(x, 0, 0x80000000); BitIs(x, 1, 0x40000000); BitIs(x, 2, 0x20000000); BitIs(x, 3, 0x10000000);
    BitIs(x, 4, 0x8000000); BitIs(x, 5, 0x4000000); BitIs(x, 6, 0x2000000); BitIs(x, 7, 0x1000000);
    BitIs(x, 8, 0x800000); BitIs(x, 9, 0x400000); BitIs(x, 10, 0x200000); BitIs(x, 11, 0x100000);
    BitIs(x, 12, 0x80000); BitIs(x, 13, 0x40000); BitIs(x, 14, 0x20000); BitIs(x, 15, 0x10000); BitIs(x, 16, 0x8000);
    BitIs(x, 17, 0x4000); BitIs(x, 18, 0x2000); BitIs(x, 19, 0x1000); BitIs(x, 20, 0x800); BitIs(x, 21, 0x400);
    BitIs(x, 22, 0x200); BitIs(x, 23, 0x100); BitIs(x, 24, 0x80); BitIs(x, 25, 0x40); BitIs(x, 26, 0x20);
    BitIs(x, 27, 0x10); BitIs(x, 28, 0x8); BitIs(x, 29, 0x4); BitIs(x, 30, 0x2); BitIs(x, 31, 0x1);
  }

  lemma MaskOneBit(i: nat)
    requires i < 32
    ensures Mask(i) != 0 && Mask(i) & (Mask(i) - 1) == 0
  {
    MaskValues();
    hide Mask;
  }

  function Xor32(x: bv32, y: bv32): bv32 {
    x ^ y
  }

  function And32(x: bv32, y: bv32): bv32 {
    x & y
  }

  lemma BitXor(x: bv32, y: bv32, i: nat)
    requires i < 32
    ensures Bit(Xor32(x, y), i) == (Bit(x, i) != Bit(y, i)) && Bit(And32(x, y), i) == (Bit(x, i) && Bit(y, i))
  {
    MaskOneBit(i);
    hide Mask;
  }

  lemma LowXor(x: bv32, y: bv32, n: nat)
    requires n <= 32
    ensures Low(Xor32(x, y), n) == Xor(Low(x, n), Low(y, n))
  {
    hide Bit, Xor32;
    forall i | 0 <= i < n
      ensures Low(Xor32(x, y), n)[i] == (Low(x, n)[i] != Low(y, n)[i])
    {
      BitXor(x, y, 32 - n + i);
    }
  }

  // ----- The permutations -----

  lemma Perm32Values()
    ensures Perm32(0) == 16 && Perm32(1) == 7 && Perm32(2) == 20 && Perm32(3) == 21 && Perm32(4) == 29
    ensures Perm32(5) == 12 && Perm32(6) == 28 && Perm32(7) == 17 && Perm32(8) == 1 && Perm32(9) == 15
    ensures Perm32(10) == 23 && Perm32(11) == 26 && Perm32(12) == 5 && Perm32(13) == 18 && Perm32(14) == 31
    ensures Perm32(15) == 10 && Perm32(16) == 2 && Perm32(17) == 8 && Perm32(18) == 24 && Perm32(19) == 14
    ensures Perm32(20) == 32 && Perm32(21) == 27 && Perm32(22) == 3 && Perm32(23) == 9 && Perm32(24) == 19
    ensures Perm32(25) == 13 && Perm32(26) == 30 && Perm32(27) == 6 && Perm32(28) == 22 && Perm32(29) == 11
    ensures Perm32(30) == 4 && Perm32(31) == 25
  {
  }

  function PermuteWord(x: bv32): bv32 {
    ((x & 0x10000) << 15) | ((x & 0x2020120) << 5) | ((x & 0x1800) << 17) | ((x & 0x8) << 24) |
    ((x & 0x100000) << 6) | ((x & 0x10) << 21) | ((x & 0x8000) << 9) | ((x & 0x88000000) >> 8) | ((x & 0x200) << 12) |
    ((x & 0x40) << 14) | ((x & 0x4000) << 4) | ((x & 0x2) << 16) | ((x & 0x442000) >> 6) | ((x & 0x40800000) >> 15) |
    ((x & 0x1000000) >> 10) | ((x & 0x1) << 11) | ((x & 0x20000000) >> 20) | ((x & 0x80000) >> 13) |
    ((x & 0x4) << 3) | ((x & 0x4000000) >> 22) | ((x & 0x480) >> 7) | ((x & 0x200000) >> 19) |
    ((x & 0x10000000) >> 27)
  }

  lemma PermuteWordBits(x: bv32)
    ensures Bit(PermuteWord(x), 0) == Bit(x, 15) && Bit(PermuteWord(x), 1) == Bit(x, 6)
    ensures Bit(PermuteWord(x), 2) == Bit(x, 19) && Bit(PermuteWord(x), 3) == Bit(x, 20)
    ensures Bit(PermuteWord(x), 4) == Bit(x, 28) && Bit(PermuteWord(x), 5) == Bit(x, 11)
    ensures Bit(PermuteWord(x), 6) == Bit(x, 27) && Bit(PermuteWord(x), 7) == Bit(x, 16)
    ensures Bit(PermuteWord(x), 8) == Bit(x, 0) && Bit(PermuteWord(x), 9) == Bit(x, 14)
    ensures Bit(PermuteWord(x), 10) == Bit(x, 22) && Bit(PermuteWord(x), 11) == Bit(x, 25)
    ensures Bit(PermuteWord(x), 12) == Bit(x, 4) && Bit(PermuteWord(x), 13) == Bit(x, 17)
    ensures Bit(PermuteWord(x), 14) == Bit(x, 30) && Bit(PermuteWord(x), 15) == Bit(x, 9)
    ensures Bit(PermuteWord(x), 16) == Bit(x, 1) && Bit(PermuteWord(x), 17) == Bit(x, 7)
    ensures Bit(PermuteWord(x), 18) == Bit(x, 23) && Bit(PermuteWord(x), 19) == Bit(x, 13)
    ensures Bit(PermuteWord(x), 20) == Bit(x, 31) && Bit(PermuteWord(x), 21) == Bit(x, 26)
    ensures Bit(PermuteWord(x), 22) == Bit(x, 2) && Bit(PermuteWord(x), 23) == Bit(x, 8)
    ensures Bit(PermuteWord(x), 24) == Bit(x, 18) && Bit(PermuteWord(x), 25) == Bit(x, 12)
    ensures Bit(PermuteWord(x), 26) == Bit(x, 29) && Bit(PermuteWord(x), 27) == Bit(x, 5)
    ensures Bit(PermuteWord(x), 28) == Bit(x, 21) && Bit(PermuteWord(x), 29) == Bit(x, 10)
    ensures Bit(PermuteWord(x), 30) == Bit(x, 3) && Bit(PermuteWord(x), 31) == Bit(x, 24)
  {
    BitMasks(x);
    BitMasks(PermuteWord(x));
    hide Bit, Mask;
  }

  lemma PermuteWordBit(x: bv32, i: nat)
    requires i < 32
    ensures Bit(PermuteWord(x), i) == Bit(x, Perm32(i) - 1)
  {
    Perm32Values();
    PermuteWordBits(x);
    hide Perm32, Bit, Mask, PermuteWord;
    match i
    case 0 => case 1 => case 2 => case 3 => case 4 => case 5 => case 6 => case 7 => case 8 => case 9 => case 10 =>
    case 11 => case 12 => case 13 => case 14 => case 15 => case 16 => case 17 => case 18 => case 19 => case 20 =>
    case 21 => case 22 => case 23 => case 24 => case 25 => case 26 => case 27 => case 28 => case 29 => case 30 =>
    case _ => assert i == 31;
  }

  lemma PermuteWordIs(x: bv32)
    ensures Low(PermuteWord(x), 32) == Permute(Low(x, 32))
  {
    hide Bit, Perm32, PermuteWord;
    forall i | 0 <= i < 32
      ensures Low(PermuteWord(x), 32)[i] == Permute(Low(x, 32))[i]
    {
      PermuteWordBit(x, i);
    }
  }

  lemma InitialPermValues()
    ensures InitialPerm(0) == 58 && InitialPerm(1) == 50 && InitialPerm(2) == 42 && InitialPerm(3) == 34
    ensures InitialPerm(4) == 26 && InitialPerm(5) == 18 && InitialPerm(6) == 10 && InitialPerm(7) == 2
    ensures InitialPerm(8) == 60 && InitialPerm(9) == 52 && InitialPerm(10) == 44 && InitialPerm(11) == 36
    ensures InitialPerm(12) == 28 && InitialPerm(13) == 20 && InitialPerm(14) == 12 && InitialPerm(15) == 4
    ensures InitialPerm(16) == 62 && InitialPerm(17) == 54 && InitialPerm(18) == 46 && InitialPerm(19) == 38
    ensures InitialPerm(20) == 30 && InitialPerm(21) == 22 && InitialPerm(22) == 14 && InitialPerm(23) == 6
    ensures InitialPerm(24) == 64 && InitialPerm(25) == 56 && InitialPerm(26) == 48 && InitialPerm(27) == 40
    ensures InitialPerm(28) == 32 && InitialPerm(29) == 24 && InitialPerm(30) == 16 && InitialPerm(31) == 8
  {
  }

  lemma InitialPermValues32()
    ensures InitialPerm(32) == 57 && InitialPerm(33) == 49 && InitialPerm(34) == 41 && InitialPerm(35) == 33
    ensures InitialPerm(36) == 25 && InitialPerm(37) == 17 && InitialPerm(38) == 9 && InitialPerm(39) == 1
    ensures InitialPerm(40) == 59 && InitialPerm(41) == 51 && InitialPerm(42) == 43 && InitialPerm(43) == 35
    ensures InitialPerm(44) == 27 && InitialPerm(45) == 19 && InitialPerm(46) == 11 && InitialPerm(47) == 3
    ensures InitialPerm(48) == 61 && InitialPerm(49) == 53 && InitialPerm(50) == 45 && InitialPerm(51) == 37
    ensures InitialPerm(52) == 29 && InitialPerm(53) == 21 && InitialPerm(54) == 13 && InitialPerm(55) == 5
    ensures InitialPerm(56) == 63 && InitialPerm(57) == 55 && InitialPerm(58) == 47 && InitialPerm(59) == 39
    ensures InitialPerm(60) == 31 && InitialPerm(61) == 23 && InitialPerm(62) == 15 && InitialPerm(63) == 7
  {
  }

  lemma FinalPermValues()
    ensures FinalPerm(0) == 40 && FinalPerm(1) == 8 && FinalPerm(2) == 48 && FinalPerm(3) == 16 && FinalPerm(4) == 56
    ensures FinalPerm(5) == 24 && FinalPerm(6) == 64 && FinalPerm(7) == 32 && FinalPerm(8) == 39 && FinalPerm(9) == 7
    ensures FinalPerm(10) == 47 && FinalPerm(11) == 15 && FinalPerm(12) == 55 && FinalPerm(13) == 23
    ensures FinalPerm(14) == 63 && FinalPerm(15) == 31 && FinalPerm(16) == 38 && FinalPerm(17) == 6
    ensures FinalPerm(18) == 46 && FinalPerm(19) == 14 && FinalPerm(20) == 54 && FinalPerm(21) == 22
    ensures FinalPerm(22) == 62 && FinalPerm(23) == 30 && FinalPerm(24) == 37 && FinalPerm(25) == 5
    ensures FinalPerm(26) == 45 && FinalPerm(27) == 13 && FinalPerm(28) == 53 && FinalPerm(29) == 21
    ensures FinalPerm(30) == 61 && FinalPerm(31) == 29
  {
  }

  lemma FinalPermValues32()
    ensures FinalPerm(32) == 36 && FinalPerm(33) == 4 && FinalPerm(34) == 44 && FinalPerm(35) == 12
    ensures FinalPerm(36) == 52 && FinalPerm(37) == 20 && FinalPerm(38) == 60 && FinalPerm(39) == 28
    ensures FinalPerm(40) == 35 && FinalPerm(41) == 3 && FinalPerm(42) == 43 && FinalPerm(43) == 11
    ensures FinalPerm(44) == 51 && FinalPerm(45) == 19 && FinalPerm(46) == 59 && FinalPerm(47) == 27
    ensures FinalPerm(48) == 34 && FinalPerm(49) == 2 && FinalPerm(50) == 42 && FinalPerm(51) == 10
    ensures FinalPerm(52) == 50 && FinalPerm(53) == 18 && FinalPerm(54) == 58 && FinalPerm(55) == 26
    ensures FinalPerm(56) == 33 && FinalPerm(57) == 1 && FinalPerm(58) == 41 && FinalPerm(59) == 9
    ensures FinalPerm(60) == 49 && FinalPerm(61) == 17 && FinalPerm(62) == 57 && FinalPerm(63) == 25
  {
  }

  lemma Pc1Values()
    ensures Pc1(0) == 57 && Pc1(1) == 49 && Pc1(2) == 41 && Pc1(3) == 33 && Pc1(4) == 25 && Pc1(5) == 17
    ensures Pc1(6) == 9 && Pc1(7) == 1 && Pc1(8) == 58 && Pc1(9) == 50 && Pc1(10) == 42 && Pc1(11) == 34
    ensures Pc1(12) == 26 && Pc1(13) == 18 && Pc1(14) == 10 && Pc1(15) == 2 && Pc1(16) == 59 && Pc1(17) == 51
    ensures Pc1(18) == 43 && Pc1(19) == 35 && Pc1(20) == 27 && Pc1(21) == 19 && Pc1(22) == 11 && Pc1(23) == 3
    ensures Pc1(24) == 60 && Pc1(25) == 52 && Pc1(26) == 44 && Pc1(27) == 36
  {
  }

  lemma Pc1Values28()
    ensures Pc1(28) == 63 && Pc1(29) == 55 && Pc1(30) == 47 && Pc1(31) == 39 && Pc1(32) == 31 && Pc1(33) == 23
    ensures Pc1(34) == 15 && Pc1(35) == 7 && Pc1(36) == 62 && Pc1(37) == 54 && Pc1(38) == 46 && Pc1(39) == 38
    ensures Pc1(40) == 30 && Pc1(41) == 22 && Pc1(42) == 14 && Pc1(43) == 6 && Pc1(44) == 61 && Pc1(45) == 53
    ensures Pc1(46) == 45 && Pc1(47) == 37 && Pc1(48) == 29 && Pc1(49) == 21 && Pc1(50) == 13 && Pc1(51) == 5
    ensures Pc1(52) == 28 && Pc1(53) == 20 && Pc1(54) == 12 && Pc1(55) == 4
  {
  }

  lemma ESelValues()
    ensures ESel(0) == 32 && ESel(1) == 1 && ESel(2) == 2 && ESel(3) == 3 && ESel(4) == 4 && ESel(5) == 5
    ensures ESel(6) == 4 && ESel(7) == 5 && ESel(8) == 6 && ESel(9) == 7 && ESel(10) == 8 && ESel(11) == 9
    ensures ESel(12) == 8 && ESel(13) == 9 && ESel(14) == 10 && ESel(15) == 11 && ESel(16) == 12 && ESel(17) == 13
    ensures ESel(18) == 12 && ESel(19) == 13 && ESel(20) == 14 && ESel(21) == 15 && ESel(22) == 16 && ESel(23) == 17
  {
  }

  function ExpandHigh(x: bv32): bv32 {
    ((x & 0x1) << 23) | ((x & 0xF8000000) >> 9) | ((x & 0x1F800000) >> 11) | ((x & 0x1F80000) >> 13) |
    ((x & 0x1F8000) >> 15)
  }

  lemma ExpandHighBits(x: bv32)
    ensures Bit(ExpandHigh(x), 8) == Bit(x, 31) && Bit(ExpandHigh(x), 9) == Bit(x, 0)
    ensures Bit(ExpandHigh(x), 10) == Bit(x, 1) && Bit(ExpandHigh(x), 11) == Bit(x, 2)
    ensures Bit(ExpandHigh(x), 12) == Bit(x, 3) && Bit(ExpandHigh(x), 13) == Bit(x, 4)
    ensures Bit(ExpandHigh(x), 14) == Bit(x, 3) && Bit(ExpandHigh(x), 15) == Bit(x, 4)
    ensures Bit(ExpandHigh(x), 16) == Bit(x, 5) && Bit(ExpandHigh(x), 17) == Bit(x, 6)
    ensures Bit(ExpandHigh(x), 18) == Bit(x, 7) && Bit(ExpandHigh(x), 19) == Bit(x, 8)
    ensures Bit(ExpandHigh(x), 20) == Bit(x, 7) && Bit(ExpandHigh(x), 21) == Bit(x, 8)
    ensures Bit(ExpandHigh(x), 22) == Bit(x, 9) && Bit(ExpandHigh(x), 23) == Bit(x, 10)
    ensures Bit(ExpandHigh(x), 24) == Bit(x, 11) && Bit(ExpandHigh(x), 25) == Bit(x, 12)
    ensures Bit(ExpandHigh(x), 26) == Bit(x, 11) && Bit(ExpandHigh(x), 27) == Bit(x, 12)
    ensures Bit(ExpandHigh(x), 28) == Bit(x, 13) && Bit(ExpandHigh(x), 29) == Bit(x, 14)
    ensures Bit(ExpandHigh(x), 30) == Bit(x, 15) && Bit(ExpandHigh(x), 31) == Bit(x, 16)
  {
    BitMasks(x);
    BitMasks(ExpandHigh(x));
    hide Bit, Mask;
  }

  lemma ExpandHighBit(x: bv32, i: nat)
    requires i < 24
    ensures Bit(ExpandHigh(x), 8 + i) == Bit(x, ESel(i) - 1)
  {
    ESelValues();
    ExpandHighBits(x);
    hide ESel, Bit, Mask, ExpandHigh;
    match i
    case 0 => case 1 => case 2 => case 3 => case 4 => case 5 => case 6 => case 7 => case 8 => case 9 => case 10 =>
    case 11 => case 12 => case 13 => case 14 => case 15 => case 16 => case 17 => case 18 => case 19 => case 20 =>
    case 21 => case 22 => case _ => assert i == 23;
  }

  lemma ExpandHighIs(x: bv32)
    ensures Low(ExpandHigh(x), 24) == Expand(Low(x, 32))[..24]
  {
    hide Bit, ESel, ExpandHigh;
    forall i | 0 <= i < 24
      ensures Low(ExpandHigh(x), 24)[i] == Expand(Low(x, 32))[..24][i]
    {
      ExpandHighBit(x, i);
    }
  }

  lemma ESelValues24()
    ensures ESel(24) == 16 && ESel(25) == 17 && ESel(26) == 18 && ESel(27) == 19 && ESel(28) == 20 && ESel(29) == 21
    ensures ESel(30) == 20 && ESel(31) == 21 && ESel(32) == 22 && ESel(33) == 23 && ESel(34) == 24 && ESel(35) == 25
    ensures ESel(36) == 24 && ESel(37) == 25 && ESel(38) == 26 && ESel(39) == 27 && ESel(40) == 28 && ESel(41) == 29
    ensures ESel(42) == 28 && ESel(43) == 29 && ESel(44) == 30 && ESel(45) == 31 && ESel(46) == 32 && ESel(47) == 1
  {
  }

  function ExpandLow(x: bv32): bv32 {
    ((x & 0x1F800) << 7) | ((x & 0x1F80) << 5) | ((x & 0x1F8) << 3) | ((x & 0x1F) << 1) | ((x & 0x80000000) >> 31)
  }

  lemma ExpandLowBits(x: bv32)
    ensures Bit(ExpandLow(x), 8) == Bit(x, 15) && Bit(ExpandLow(x), 9) == Bit(x, 16)
    ensures Bit(ExpandLow(x), 10) == Bit(x, 17) && Bit(ExpandLow(x), 11) == Bit(x, 18)
    ensures Bit(ExpandLow(x), 12) == Bit(x, 19) && Bit(ExpandLow(x), 13) == Bit(x, 20)
    ensures Bit(ExpandLow(x), 14) == Bit(x, 19) && Bit(ExpandLow(x), 15) == Bit(x, 20)
    ensures Bit(ExpandLow(x), 16) == Bit(x, 21) && Bit(ExpandLow(x), 17) == Bit(x, 22)
    ensures Bit(ExpandLow(x), 18) == Bit(x, 23) && Bit(ExpandLow(x), 19) == Bit(x, 24)
    ensures Bit(ExpandLow(x), 20) == Bit(x, 23) && Bit(ExpandLow(x), 21) == Bit(x, 24)
    ensures Bit(ExpandLow(x), 22) == Bit(x, 25) && Bit(ExpandLow(x), 23) == Bit(x, 26)
    ensures Bit(ExpandLow(x), 24) == Bit(x, 27) && Bit(ExpandLow(x), 25) == Bit(x, 28)
    ensures Bit(ExpandLow(x), 26) == Bit(x, 27) && Bit(ExpandLow(x), 27) == Bit(x, 28)
    ensures Bit(ExpandLow(x), 28) == Bit(x, 29) && Bit(ExpandLow(x), 29) == Bit(x, 30)
    ensures Bit(ExpandLow(x), 30) == Bit(x, 31) && Bit(ExpandLow(x), 31) == Bit(x, 0)
  {
    BitMasks(x);
    BitMasks(ExpandLow(x));
    hide Bit, Mask;
  }

  lemma ExpandLowBit(x: bv32, i: nat)
    requires i < 24
    ensures Bit(ExpandLow(x), 8 + i) == Bit(x, ESel(24 + i) - 1)
  {
    ESelValues24();
    ExpandLowBits(x);
    hide ESel, Bit, Mask, ExpandLow;
    match i
    case 0 => case 1 => case 2 => case 3 => case 4 => case 5 => case 6 => case 7 => case 8 => case 9 => case 10 =>
    case 11 => case 12 => case 13 => case 14 => case 15 => case 16 => case 17 => case 18 => case 19 => case 20 =>
    case 21 => case 22 => case _ => assert i == 23;
  }

  lemma ExpandLowIs(x: bv32)
    ensures Low(ExpandLow(x), 24) == Expand(Low(x, 32))[24..]
  {
    hide Bit, ESel, ExpandLow;
    forall i | 0 <= i < 24
      ensures Low(ExpandLow(x), 24)[i] == Expand(Low(x, 32))[24..][i]
    {
      ExpandLowBit(x, i);
    }
  }

  lemma Pc2CValues()
    ensures Pc2C(0) == 14 && Pc2C(1) == 17 && Pc2C(2) == 11 && Pc2C(3) == 24 && Pc2C(4) == 1 && Pc2C(5) == 5
    ensures Pc2C(6) == 3 && Pc2C(7) == 28 && Pc2C(8) == 15 && Pc2C(9) == 6 && Pc2C(10) == 21 && Pc2C(11) == 10
    ensures Pc2C(12) == 23 && Pc2C(13) == 19 && Pc2C(14) == 12 && Pc2C(15) == 4 && Pc2C(16) == 26 && Pc2C(17) == 8
    ensures Pc2C(18) == 16 && Pc2C(19) == 7 && Pc2C(20) == 27 && Pc2C(21) == 20 && Pc2C(22) == 13 && Pc2C(23) == 2
  {
  }

  function ChoiceC(x: bv32): bv32 {
    ((x & 0x4000) << 9) | ((x & 0x800) << 11) | ((x & 0x20000) << 4) | ((x & 0x11) << 16) | ((x & 0xA400000) >> 8) |
    ((x & 0x800000) >> 5) | ((x & 0x2002) << 2) | ((x & 0xA0) << 6) | ((x & 0x40100) >> 6) | ((x & 0x200) << 1) |
    ((x & 0x11000) >> 7) | ((x & 0x1000000) >> 16) | ((x & 0x4) << 5) | ((x & 0x108000) >> 14) |
    ((x & 0x200000) >> 17) | ((x & 0x4000000) >> 26)
  }

  lemma ChoiceCBits(x: bv32)
    ensures Bit(ChoiceC(x), 8) == Bit(x, 17) && Bit(ChoiceC(x), 9) == Bit(x, 20) && Bit(ChoiceC(x), 10) == Bit(x, 14)
    ensures Bit(ChoiceC(x), 11) == Bit(x, 27) && Bit(ChoiceC(x), 12) == Bit(x, 4) && Bit(ChoiceC(x), 13) == Bit(x, 8)
    ensures Bit(ChoiceC(x), 14) == Bit(x, 6) && Bit(ChoiceC(x), 15) == Bit(x, 31) && Bit(ChoiceC(x), 16) == Bit(x, 18)
    ensures Bit(ChoiceC(x), 17) == Bit(x, 9) && Bit(ChoiceC(x), 18) == Bit(x, 24) && Bit(ChoiceC(x), 19) == Bit(x, 13)
    ensures Bit(ChoiceC(x), 20) == Bit(x, 26) && Bit(ChoiceC(x), 21) == Bit(x, 22)
    ensures Bit(ChoiceC(x), 22) == Bit(x, 15) && Bit(ChoiceC(x), 23) == Bit(x, 7) && Bit(ChoiceC(x), 24) == Bit(x, 29)
    ensures Bit(ChoiceC(x), 25) == Bit(x, 11) && Bit(ChoiceC(x), 26) == Bit(x, 19)
    ensures Bit(ChoiceC(x), 27) == Bit(x, 10) && Bit(ChoiceC(x), 28) == Bit(x, 30)
    ensures Bit(ChoiceC(x), 29) == Bit(x, 23) && Bit(ChoiceC(x), 30) == Bit(x, 16) && Bit(ChoiceC(x), 31) == Bit(x, 5)
  {
    BitMasks(x);
    BitMasks(ChoiceC(x));
    hide Bit, Mask;
  }

  lemma ChoiceCBit(x: bv32, i: nat)
    requires i < 24
    ensures Bit(ChoiceC(x), 8 + i) == Bit(x, 4 + Pc2C(i) - 1)
  {
    Pc2CValues();
    ChoiceCBits(x);
    hide Pc2C, Bit, Mask, ChoiceC;
    match i
    case 0 => case 1 => case 2 => case 3 => case 4 => case 5 => case 6 => case 7 => case 8 => case 9 => case 10 =>
    case 11 => case 12 => case 13 => case 14 => case 15 => case 16 => case 17 => case 18 => case 19 => case 20 =>
    case 21 => case 22 => case _ => assert i == 23;
  }

  lemma ChoiceCIs(x: bv32)
    ensures Low(ChoiceC(x), 24) == Choice2(Low(x, 28), 0)
  {
    hide Bit, Pc2C, ChoiceC;
    forall i | 0 <= i < 24
      ensures Low(ChoiceC(x), 24)[i] == Choice2(Low(x, 28), 0)[i]
    {
      ChoiceCBit(x, i);
    }
  }

  lemma Pc2DValues()
    ensures Pc2D(0) == 41 && Pc2D(1) == 52 && Pc2D(2) == 31 && Pc2D(3) == 37 && Pc2D(4) == 47 && Pc2D(5) == 55
    ensures Pc2D(6) == 30 && Pc2D(7) == 40 && Pc2D(8) == 51 && Pc2D(9) == 45 && Pc2D(10) == 33 && Pc2D(11) == 48
    ensures Pc2D(12) == 44 && Pc2D(13) == 49 && Pc2D(14) == 39 && Pc2D(15) == 56 && Pc2D(16) == 34 && Pc2D(17) == 53
    ensures Pc2D(18) == 46 && Pc2D(19) == 42 && Pc2D(20) == 50 && Pc2D(21) == 36 && Pc2D(22) == 29 && Pc2D(23) == 32
  {
  }

  function ChoiceD(x: bv32): bv32 {
    ((x & 0x8001) << 8) | ((x & 0x10) << 18) | ((x & 0x2000000) >> 4) | ((x & 0x80000) << 1) | ((x & 0x220) << 10) |
    ((x & 0x2) << 17) | ((x & 0x4000000) >> 9) | (x & 0x10000) | ((x & 0x888) << 3) | ((x & 0x804000) >> 10) |
    ((x & 0x100) << 4) | ((x & 0x1000) >> 1) | ((x & 0x20000) >> 8) | ((x & 0x400000) >> 15) | ((x & 0x400) >> 5) |
    ((x & 0x40) >> 3) | ((x & 0x100000) >> 18) | ((x & 0x8000000) >> 26) | ((x & 0x1000000) >> 24)
  }

  lemma ChoiceDBits(x: bv32)
    ensures Bit(ChoiceD(x), 8) == Bit(x, 16) && Bit(ChoiceD(x), 9) == Bit(x, 27) && Bit(ChoiceD(x), 10) == Bit(x, 6)
    ensures Bit(ChoiceD(x), 11) == Bit(x, 12) && Bit(ChoiceD(x), 12) == Bit(x, 22)
    ensures Bit(ChoiceD(x), 13) == Bit(x, 30) && Bit(ChoiceD(x), 14) == Bit(x, 5) && Bit(ChoiceD(x), 15) == Bit(x, 15)
    ensures Bit(ChoiceD(x), 16) == Bit(x, 26) && Bit(ChoiceD(x), 17) == Bit(x, 20) && Bit(ChoiceD(x), 18) == Bit(x, 8)
    ensures Bit(ChoiceD(x), 19) == Bit(x, 23) && Bit(ChoiceD(x), 20) == Bit(x, 19)
    ensures Bit(ChoiceD(x), 21) == Bit(x, 24) && Bit(ChoiceD(x), 22) == Bit(x, 14)
    ensures Bit(ChoiceD(x), 23) == Bit(x, 31) && Bit(ChoiceD(x), 24) == Bit(x, 9) && Bit(ChoiceD(x), 25) == Bit(x, 28)
    ensures Bit(ChoiceD(x), 26) == Bit(x, 21) && Bit(ChoiceD(x), 27) == Bit(x, 17)
    ensures Bit(ChoiceD(x), 28) == Bit(x, 25) && Bit(ChoiceD(x), 29) == Bit(x, 11) && Bit(ChoiceD(x), 30) == Bit(x, 4)
    ensures Bit(ChoiceD(x), 31) == Bit(x, 7)
  {
    BitMasks(x);
    BitMasks(ChoiceD(x));
    hide Bit, Mask;
  }

  lemma ChoiceDBit(x: bv32, i: nat)
    requires i < 24
    ensures Bit(ChoiceD(x), 8 + i) == Bit(x, 4 + Pc2D(i) - 29)
  {
    Pc2DValues();
    ChoiceDBits(x);
    hide Pc2D, Bit, Mask, ChoiceD;
    match i
    case 0 => case 1 => case 2 => case 3 => case 4 => case 5 => case 6 => case 7 => case 8 => case 9 => case 10 =>
    case 11 => case 12 => case 13 => case 14 => case 15 => case 16 => case 17 => case 18 => case 19 => case 20 =>
    case 21 => case 22 => case _ => assert i == 23;
  }

  lemma ChoiceDIs(x: bv32)
    ensures Low(ChoiceD(x), 24) == Choice2(Low(x, 28), 1)
  {
    hide Bit, Pc2D, ChoiceD;
    forall i | 0 <= i < 24
      ensures Low(ChoiceD(x), 24)[i] == Choice2(Low(x, 28), 1)[i]
    {
      ChoiceDBit(x, i);
    }
  }

  function Turn1(x: bv32): bv32 {
    ((x << 1) & 0xFFFFFFF) | ((x >> 27) & 1)
  }

  lemma Turn1Bits(x: bv32)
    ensures Bit(Turn1(x), 4) == Bit(x, 5) && Bit(Turn1(x), 5) == Bit(x, 6) && Bit(Turn1(x), 6) == Bit(x, 7)
    ensures Bit(Turn1(x), 7) == Bit(x, 8) && Bit(Turn1(x), 8) == Bit(x, 9) && Bit(Turn1(x), 9) == Bit(x, 10)
    ensures Bit(Turn1(x), 10) == Bit(x, 11) && Bit(Turn1(x), 11) == Bit(x, 12) && Bit(Turn1(x), 12) == Bit(x, 13)
    ensures Bit(Turn1(x), 13) == Bit(x, 14) && Bit(Turn1(x), 14) == Bit(x, 15) && Bit(Turn1(x), 15) == Bit(x, 16)
    ensures Bit(Turn1(x), 16) == Bit(x, 17) && Bit(Turn1(x), 17) == Bit(x, 18) && Bit(Turn1(x), 18) == Bit(x, 19)
    ensures Bit(Turn1(x), 19) == Bit(x, 20) && Bit(Turn1(x), 20) == Bit(x, 21) && Bit(Turn1(x), 21) == Bit(x, 22)
    ensures Bit(Turn1(x), 22) == Bit(x, 23) && Bit(Turn1(x), 23) == Bit(x, 24) && Bit(Turn1(x), 24) == Bit(x, 25)
    ensures Bit(Turn1(x), 25) == Bit(x, 26) && Bit(Turn1(x), 26) == Bit(x, 27) && Bit(Turn1(x), 27) == Bit(x, 28)
    ensures Bit(Turn1(x), 28) == Bit(x, 29) && Bit(Turn1(x), 29) == Bit(x, 30) && Bit(Turn1(x), 30) == Bit(x, 31)
    ensures Bit(Turn1(x), 31) == Bit(x, 4)
  {
    BitMasks(x);
    BitMasks(Turn1(x));
    hide Bit, Mask;
  }

  lemma Turn1Bit(x: bv32, i: nat)
    requires i < 28
    ensures Bit(Turn1(x), 4 + i) == Bit(x, if i < 27 then 5 + i else 4)
  {
    Turn1Bits(x);
    hide Bit, Mask, Turn1;
    match i
    case 0 => case 1 => case 2 => case 3 => case 4 => case 5 => case 6 => case 7 => case 8 => case 9 => case 10 =>
    case 11 => case 12 => case 13 => case 14 => case 15 => case 16 => case 17 => case 18 => case 19 => case 20 =>
    case 21 => case 22 => case 23 => case 24 => case 25 => case 26 => case _ => assert i == 27;
  }

  lemma Turn1Is(x: bv32)
    ensures Low(Turn1(x), 28) == Turn(Low(x, 28), 1)
  {
    hide Bit, Turn1;
    forall i | 0 <= i < 28
      ensures Low(Turn1(x), 28)[i] == Turn(Low(x, 28), 1)[i]
    {
      Turn1Bit(x, i);
    }
  }

  function Turn2(x: bv32): bv32 {
    ((x << 2) & 0xFFFFFFF) | ((x >> 26) & 3)
  }

  lemma Turn2Bits(x: bv32)
    ensures Bit(Turn2(x), 4) == Bit(x, 6) && Bit(Turn2(x), 5) == Bit(x, 7) && Bit(Turn2(x), 6) == Bit(x, 8)
    ensures Bit(Turn2(x), 7) == Bit(x, 9) && Bit(Turn2(x), 8) == Bit(x, 10) && Bit(Turn2(x), 9) == Bit(x, 11)
    ensures Bit(Turn2(x), 10) == Bit(x, 12) && Bit(Turn2(x), 11) == Bit(x, 13) && Bit(Turn2(x), 12) == Bit(x, 14)
    ensures Bit(Turn2(x), 13) == Bit(x, 15) && Bit(Turn2(x), 14) == Bit(x, 16) && Bit(Turn2(x), 15) == Bit(x, 17)
    ensures Bit(Turn2(x), 16) == Bit(x, 18) && Bit(Turn2(x), 17) == Bit(x, 19) && Bit(Turn2(x), 18) == Bit(x, 20)
    ensures Bit(Turn2(x), 19) == Bit(x, 21) && Bit(Turn2(x), 20) == Bit(x, 22) && Bit(Turn2(x), 21) == Bit(x, 23)
    ensures Bit(Turn2(x), 22) == Bit(x, 24) && Bit(Turn2(x), 23) == Bit(x, 25) && Bit(Turn2(x), 24) == Bit(x, 26)
    ensures Bit(Turn2(x), 25) == Bit(x, 27) && Bit(Turn2(x), 26) == Bit(x, 28) && Bit(Turn2(x), 27) == Bit(x, 29)
    ensures Bit(Turn2(x), 28) == Bit(x, 30) && Bit(Turn2(x), 29) == Bit(x, 31) && Bit(Turn2(x), 30) == Bit(x, 4)
    ensures Bit(Turn2(x), 31) == Bit(x, 5)
  {
    BitMasks(x);
    BitMasks(Turn2(x));
    hide Bit, Mask;
  }

  lemma Turn2Bit(x: bv32, i: nat)
    requires i < 28
    ensures Bit(Turn2(x), 4 + i) == Bit(x, if i < 26 then 6 + i else i - 22)
  {
    Turn2Bits(x);
    hide Bit, Mask, Turn2;
    match i
    case 0 => case 1 => case 2 => case 3 => case 4 => case 5 => case 6 => case 7 => case 8 => case 9 => case 10 =>
    case 11 => case 12 => case 13 => case 14 => case 15 => case 16 => case 17 => case 18 => case 19 => case 20 =>
    case 21 => case 22 => case 23 => case 24 => case 25 => case 26 => case _ => assert i == 27;
  }

  lemma Turn2Is(x: bv32)
    ensures Low(Turn2(x), 28) == Turn(Low(x, 28), 2)
  {
    hide Bit, Turn2;
    forall i | 0 <= i < 28
      ensures Low(Turn2(x), 28)[i] == Turn(Low(x, 28), 2)[i]
    {
      Turn2Bit(x, i);
    }
  }

  // ----- One round -----

  /** The bits of one half in which an expanded value changes under a salt. */
  function Exchanged(hi: bv32, lo: bv32, salt: bv32): bv32 {
    And32(Xor32(hi, lo), salt)
  }

  function SwapHigh(hi: bv32, lo: bv32, salt: bv32): bv32 {
    Xor32(hi, Exchanged(hi, lo, salt))
  }

  function SwapLow(hi: bv32, lo: bv32, salt: bv32): bv32 {
    Xor32(lo, Exchanged(hi, lo, salt))
  }

  lemma ExchangedBit(salt: bv32, hi: bv32, lo: bv32, j: nat)
    requires j < 32
    ensures SwapsAt(salt, hi, lo, SwapHigh(hi, lo, salt), SwapLow(hi, lo, salt), j)
  {
    hide Bit, Mask, Xor32, And32;
    BitXor(hi, lo, j);
    BitXor(Xor32(hi, lo), salt, j);
    BitXor(hi, Exchanged(hi, lo, salt), j);
    BitXor(lo, Exchanged(hi, lo, salt), j);
  }

  predicate SwapsAt(salt: bv32, hi: bv32, lo: bv32, hi': bv32, lo': bv32, j: nat)
    requires j < 32
  {
    && Bit(hi', j) == (if Bit(salt, j) then Bit(lo, j) else Bit(hi, j))
    && Bit(lo', j) == (if Bit(salt, j) then Bit(hi, j) else Bit(lo, j))
  }

  lemma SaltSwapIs(salt: bv32, hi: bv32, lo: bv32)
    ensures SaltSwap(Low(salt, 24), Low48(hi, lo)) == Low48(SwapHigh(hi, lo, salt), SwapLow(hi, lo, salt))
  {
    hide Bit, Mask, SaltSwap, SwapHigh, SwapLow, SwapsAt;
    var hi', lo' := SwapHigh(hi, lo, salt), SwapLow(hi, lo, salt);
    var a, b := SaltSwap(Low(salt, 24), Low48(hi, lo)), Low48(hi', lo');
    forall i | 0 <= i < 48
      ensures a[i] == b[i]
    {
      var k := if i < 24 then i else i - 24;
      ExchangedBit(salt, hi, lo, 8 + k);
      SwapHere(salt, hi, lo, hi', lo', k);
    }
  }

  lemma SwapHere(salt: bv32, hi: bv32, lo: bv32, hi': bv32, lo': bv32, k: nat)
    requires k < 24 && SwapsAt(salt, hi, lo, hi', lo', 8 + k)
    ensures SaltSwap(Low(salt, 24), Low48(hi, lo))[k] == Low48(hi', lo')[k]
    ensures SaltSwap(Low(salt, 24), Low48(hi, lo))[24 + k] == Low48(hi', lo')[24 + k]
  {
    hide Bit, Mask, SaltSwap;
    SwapAt(Low(salt, 24), Low48(hi, lo), k);
  }

  function Group(half: bv32, k: nat): (x: bv64)
    requires k < 4
    ensures x < 64
  {
    match k
    case 0 => ((half >> 18) & 63) as bv64
    case 1 => ((half >> 12) & 63) as bv64
    case 2 => ((half >> 6) & 63) as bv64
    case _ => (half & 63) as bv64
  }

  lemma GroupBits0(half: bv32, six: Word)
    requires |six| == 6 && six[0] == Bit(half, 8) && six[1] == Bit(half, 9)
    requires six[2] == Bit(half, 10) && six[3] == Bit(half, 11)
    requires six[4] == Bit(half, 12) && six[5] == Bit(half, 13)
    ensures Six(six) == Group(half, 0)
  {
    BitMasks(half);
    hide Bit, Mask;
  }

  lemma GroupBits1(half: bv32, six: Word)
    requires |six| == 6 && six[0] == Bit(half, 14) && six[1] == Bit(half, 15)
    requires six[2] == Bit(half, 16) && six[3] == Bit(half, 17)
    requires six[4] == Bit(half, 18) && six[5] == Bit(half, 19)
    ensures Six(six) == Group(half, 1)
  {
    BitMasks(half);
    hide Bit, Mask;
  }

  lemma GroupBits2(half: bv32, six: Word)
    requires |six| == 6 && six[0] == Bit(half, 20) && six[1] == Bit(half, 21)
    requires six[2] == Bit(half, 22) && six[3] == Bit(half, 23)
    requires six[4] == Bit(half, 24) && six[5] == Bit(half, 25)
    ensures Six(six) == Group(half, 2)
  {
    BitMasks(half);
    hide Bit, Mask;
  }

  lemma GroupBits3(half: bv32, six: Word)
    requires |six| == 6 && six[0] == Bit(half, 26) && six[1] == Bit(half, 27)
    requires six[2] == Bit(half, 28) && six[3] == Bit(half, 29)
    requires six[4] == Bit(half, 30) && six[5] == Bit(half, 31)
    ensures Six(six) == Group(half, 3)
  {
    BitMasks(half);
    hide Bit, Mask;
  }

  lemma GroupBits(half: bv32, k: nat, six: Word)
    requires k < 4 && |six| == 6
    requires six[0] == Bit(half, 8 + 6 * k) && six[1] == Bit(half, 9 + 6 * k) && six[2] == Bit(half, 10 + 6 * k)
    requires six[3] == Bit(half, 11 + 6 * k) && six[4] == Bit(half, 12 + 6 * k) && six[5] == Bit(half, 13 + 6 * k)
    ensures Six(six) == Group(half, k)
  {
    hide Bit, Mask, Six, Group;
    match k
    case 0 => GroupBits0(half, six);
    case 1 => GroupBits1(half, six);
    case 2 => GroupBits2(half, six);
    case _ => GroupBits3(half, six);
  }

  lemma GroupIs(half: bv32, k: nat)
    requires k < 4
    ensures Six(Low(half, 24)[6 * k..6 * k + 6]) == Group(half, k)
  {
    hide Bit, Mask, Six, Group;
    GroupBits(half, k, Low(half, 24)[6 * k..6 * k + 6]);
  }

  function SelectHalf(half: bv32, first: nat): (v: bv32)
    requires first == 0 || first == 4
    ensures v < 0x10000
  {
    Nibbles4(Box(first, Group(half, 0)), Box(first + 1, Group(half, 1)), Box(first + 2, Group(half, 2)),
             Box(first + 3, Group(half, 3)))
  }

  function SelectWord(hi: bv32, lo: bv32): bv32 {
    Joined(SelectHalf(hi, 0), SelectHalf(lo, 4))
  }

  /** The expanded and salted value, and with the key what the selection functions get. */
  function SaltedHigh(salt: bv32, r: bv32): bv32 {
    SwapHigh(ExpandHigh(r), ExpandLow(r), salt)
  }

  function SaltedLow(salt: bv32, r: bv32): bv32 {
    SwapLow(ExpandHigh(r), ExpandLow(r), salt)
  }

  function KeyedHigh(salt: bv32, r: bv32, key: bv32): bv32 {
    Xor32(SaltedHigh(salt, r), key)
  }

  function KeyedLow(salt: bv32, r: bv32, key: bv32): bv32 {
    Xor32(SaltedLow(salt, r), key)
  }

  function CipherWord(salt: bv32, r: bv32, keyHi: bv32, keyLo: bv32): bv32 {
    PermuteWord(SelectWord(KeyedHigh(salt, r, keyHi), KeyedLow(salt, r, keyLo)))
  }

  lemma SelectHalfIs(half: bv32, first: nat, x: Word)
    requires (first == 0 || first == 4) && |x| == 24 && x == Low(half, 24)
    ensures SelectPair(first / 2, x[..12]) + SelectPair(first / 2 + 1, x[12..]) == Low(SelectHalf(half, first), 16)
  {
    hide Select, Box, Low, Bit, Six, Group, Four;
    var x0, x1, x2, x3 := x[0..6], x[6..12], x[12..18], x[18..24];
    assert x[..12][..6] == x0 && x[..12][6..] == x1 && x[12..][..6] == x2 && x[12..][6..] == x3;
    GroupIs(half, 0);
    GroupIs(half, 1);
    GroupIs(half, 2);
    GroupIs(half, 3);
    SelectIsBox(first, x0);
    SelectIsBox(first + 1, x1);
    SelectIsBox(first + 2, x2);
    SelectIsBox(first + 3, x3);
    FourNibbles(Box(first, Group(half, 0)), Box(first + 1, Group(half, 1)), Box(first + 2, Group(half, 2)),
                Box(first + 3, Group(half, 3)));
  }

  function Nibbles4(a: bv64, b: bv64, c: bv64, d: bv64): (v: bv32)
    requires a < 16 && b < 16 && c < 16 && d < 16
    ensures v < 0x10000
  {
    ((a as bv32) << 12) | ((b as bv32) << 8) | ((c as bv32) << 4) | (d as bv32)
  }

  lemma NibbleMasks(a: bv64, b: bv64, c: bv64, d: bv64)
    requires a < 16 && b < 16 && c < 16 && d < 16
    ensures var v := Nibbles4(a, b, c, d);
            && (v & 0x8000 != 0) == (a & 8 != 0) && (v & 0x4000 != 0) == (a & 4 != 0)
            && (v & 0x2000 != 0) == (a & 2 != 0) && (v & 0x1000 != 0) == (a & 1 != 0)
            && (v & 0x800 != 0) == (b & 8 != 0) && (v & 0x400 != 0) == (b & 4 != 0)
            && (v & 0x200 != 0) == (b & 2 != 0) && (v & 0x100 != 0) == (b & 1 != 0)
            && (v & 0x80 != 0) == (c & 8 != 0) && (v & 0x40 != 0) == (c & 4 != 0)
            && (v & 0x20 != 0) == (c & 2 != 0) && (v & 0x10 != 0) == (c & 1 != 0)
            && (v & 8 != 0) == (d & 8 != 0) && (v & 4 != 0) == (d & 4 != 0)
            && (v & 2 != 0) == (d & 2 != 0) && (v & 1 != 0) == (d & 1 != 0)
  {
  }

  lemma FourNibbles(a: bv64, b: bv64, c: bv64, d: bv64)
    requires a < 16 && b < 16 && c < 16 && d < 16
    ensures Four(a) + Four(b) + (Four(c) + Four(d)) == Low(Nibbles4(a, b, c, d), 16)
  {
    NibbleMasks(a, b, c, d);
    BitMasks(Nibbles4(a, b, c, d));
    FourAre(a);
    FourAre(b);
    FourAre(c);
    FourAre(d);
    LowSixteen(Nibbles4(a, b, c, d));
    hide Bit, Mask, Nibbles4, Four, Low;
    Sixteen(Four(a), Four(b), Four(c), Four(d), Low(Nibbles4(a, b, c, d), 16));
  }

  lemma LowSixteen(x: bv32)
    ensures Low(x, 16)[0] == Bit(x, 16) && Low(x, 16)[1] == Bit(x, 17) && Low(x, 16)[2] == Bit(x, 18)
    ensures Low(x, 16)[3] == Bit(x, 19) && Low(x, 16)[4] == Bit(x, 20) && Low(x, 16)[5] == Bit(x, 21)
    ensures Low(x, 16)[6] == Bit(x, 22) && Low(x, 16)[7] == Bit(x, 23) && Low(x, 16)[8] == Bit(x, 24)
    ensures Low(x, 16)[9] == Bit(x, 25) && Low(x, 16)[10] == Bit(x, 26) && Low(x, 16)[11] == Bit(x, 27)
    ensures Low(x, 16)[12] == Bit(x, 28) && Low(x, 16)[13] == Bit(x, 29) && Low(x, 16)[14] == Bit(x, 30)
    ensures Low(x, 16)[15] == Bit(x, 31)
  {
    hide Bit;
  }

  lemma FourAre(v: bv64)
    ensures Four(v)[0] == (v & 8 != 0) && Four(v)[1] == (v & 4 != 0)
    ensures Four(v)[2] == (v & 2 != 0) && Four(v)[3] == (v & 1 != 0)
  {
  }

  lemma Sixteen(a: Word, b: Word, c: Word, d: Word, w: Word)
    requires |a| == |b| == |c| == |d| == 4 && |w| == 16
    requires w[0] == a[0] && w[1] == a[1] && w[2] == a[2] && w[3] == a[3]
    requires w[4] == b[0] && w[5] == b[1] && w[6] == b[2] && w[7] == b[3]
    requires w[8] == c[0] && w[9] == c[1] && w[10] == c[2] && w[11] == c[3]
    requires w[12] == d[0] && w[13] == d[1] && w[14] == d[2] && w[15] == d[3]
    ensures a + b + (c + d) == w
  {
  }

  function Joined(hi: bv32, lo: bv32): bv32 {
    (hi << 16) | lo
  }

  lemma LowJoin(hi: bv32, lo: bv32)
    requires hi < 0x10000 && lo < 0x10000
    ensures Low(Joined(hi, lo), 32) == Low(hi, 16) + Low(lo, 16)
  {
    hide Bit, Joined;
    var a, b := Low(Joined(hi, lo), 32), Low(hi, 16) + Low(lo, 16);
    forall i | 0 <= i < 32
      ensures a[i] == b[i]
    {
      JoinBit(hi, lo, i % 16);
    }
  }

  lemma MaskShift(i: nat)
    requires i < 16
    ensures Mask(i) == Mask(16 + i) << 16 && Mask(16 + i) < 0x10000
  {
    MaskValues();
    hide Mask;
  }

  lemma JoinBit(hi: bv32, lo: bv32, i: nat)
    requires hi < 0x10000 && lo < 0x10000 && i < 16
    ensures Bit(Joined(hi, lo), i) == Bit(hi, 16 + i) && Bit(Joined(hi, lo), 16 + i) == Bit(lo, 16 + i)
  {
    hide Mask;
    MaskShift(i);
  }

  lemma SelectWordIs(hi: bv32, lo: bv32)
    ensures SelectAll(Low48(hi, lo)) == Low(SelectWord(hi, lo), 32)
  {
    hide SelectPair, SelectHalf, Low, Joined;
    var x, a, b := Low48(hi, lo), Low(hi, 24), Low(lo, 24);
    SelectHalfIs(hi, 0, a);
    SelectHalfIs(lo, 4, b);
    LowJoin(SelectHalf(hi, 0), SelectHalf(lo, 4));
    assert x[0..12] == a[..12] && x[12..24] == a[12..] && x[24..36] == b[..12] && x[36..48] == b[12..];
  }

  lemma SaltedIs(salt: bv32, r: bv32)
    ensures SaltSwap(Low(salt, 24), Expand(Low(r, 32))) == Low48(SaltedHigh(salt, r), SaltedLow(salt, r))
  {
    hide Low, SaltSwap, Expand, ExpandHigh, ExpandLow, SwapHigh, SwapLow;
    ExpandHighIs(r);
    ExpandLowIs(r);
    assert Expand(Low(r, 32)) == Low48(ExpandHigh(r), ExpandLow(r));
    SaltSwapIs(salt, ExpandHigh(r), ExpandLow(r));
  }

  lemma KeyedIs(salt: bv32, r: bv32, keyHi: bv32, keyLo: bv32)
    ensures Xor(SaltSwap(Low(salt, 24), Expand(Low(r, 32))), Low48(keyHi, keyLo))
         == Low48(KeyedHigh(salt, r, keyHi), KeyedLow(salt, r, keyLo))
  {
    hide Low, SaltSwap, Expand, SaltedHigh, SaltedLow, Xor32;
    SaltedIs(salt, r);
    XorKey(SaltedHigh(salt, r), SaltedLow(salt, r), keyHi, keyLo);
  }

  lemma XorKey(hi: bv32, lo: bv32, keyHi: bv32, keyLo: bv32)
    ensures Xor(Low48(hi, lo), Low48(keyHi, keyLo)) == Low48(Xor32(hi, keyHi), Xor32(lo, keyLo))
  {
    hide Low, Xor32;
    LowXor(hi, keyHi, 24);
    LowXor(lo, keyLo, 24);
    XorJoin(Low(hi, 24), Low(lo, 24), Low(keyHi, 24), Low(keyLo, 24));
  }

  /** The cipher function f with the salted expansion, for every input. */
  lemma CipherIs(salt: bv32, r: bv32, keyHi: bv32, keyLo: bv32)
    ensures Cipher(Low(salt, 24), Low(r, 32), Low48(keyHi, keyLo)) == Low(CipherWord(salt, r, keyHi, keyLo), 32)
  {
    hide Low, Permute, SelectAll, SaltSwap, Expand, PermuteWord, SelectWord, KeyedHigh, KeyedLow;
    KeyedIs(salt, r, keyHi, keyLo);
    SelectWordIs(KeyedHigh(salt, r, keyHi), KeyedLow(salt, r, keyLo));
    PermuteWordIs(SelectWord(KeyedHigh(salt, r, keyHi), KeyedLow(salt, r, keyLo)));
  }

  lemma XorJoin(a: Word, b: Word, c: Word, d: Word)
    requires |a| == |b| == |c| == |d|
    ensures Xor(a + b, c + d) == Xor(a, c) + Xor(b, d)
  {
  }

  /** A round, for every input. */
  lemma RoundIs(salt: bv32, l: bv32, r: bv32, keyHi: bv32, keyLo: bv32)
    ensures Round(Low(salt, 24), Halves(Low(l, 32), Low(r, 32)), Low48(keyHi, keyLo))
         == Halves(Low(r, 32), Low(Xor32(l, CipherWord(salt, r, keyHi, keyLo)), 32))
  {
    hide Low, Cipher, CipherWord, Xor32;
    CipherIs(salt, r, keyHi, keyLo);
    LowXor(l, CipherWord(salt, r, keyHi, keyLo), 32);
  }

  // ----- The key schedule and several rounds -----

  /** A 28-bit register when the key of round i is read. */
  function Register(c: bv32, i: nat): bv32
    requires i < 16
  {
    if i == 0 then Turn1(c)
    else if i == 1 || i == 8 || i == 15 then Turn1(Register(c, i - 1))
    else Turn2(Register(c, i - 1))
  }

  lemma TurnTwice(w: Word, a: nat, b: nat)
    requires |w| == 28
    ensures Turn(Turn(w, a), b) == Turn(w, a + b)
  {
    forall i | 0 <= i < 28
      ensures Turn(Turn(w, a), b)[i] == Turn(w, a + b)[i]
    {
      AddedTurns(i, a, b);
    }
  }

  lemma AddedTurns(i: nat, a: nat, b: nat)
    ensures ((i + b) % 28 + a) % 28 == (i + (a + b)) % 28
  {
    var q, r := (i + b) / 28, (i + b) % 28;
    assert i + (a + b) == (r + a) + 28 * q;
  }

  lemma {:induction false} RegisterIs(c: bv32, i: nat)
    requires i < 16
    ensures Low(Register(c, i), 28) == Turn(Low(c, 28), Turns(i))
  {
    hide Low, Turn, Turn1, Turn2;
    if i == 0 {
      Turn1Is(c);
    } else {
      var before := Register(c, i - 1);
      RegisterIs(c, i - 1);
      Turn1Is(before);
      Turn2Is(before);
      TurnTwice(Low(c, 28), Turns(i - 1), Rots(i));
    }
  }

  lemma RoundKeyIs(key: W64, c: bv32, d: bv32, i: nat, hi: bv32, lo: bv32)
    requires i < 16 && KeyRegister(key, 0) == Low(c, 28) && KeyRegister(key, 1) == Low(d, 28)
    requires hi == ChoiceC(Register(c, i)) && lo == ChoiceD(Register(d, i))
    ensures RoundKey(key, i) == Low48(hi, lo)
  {
    hide Low, Turn, Choice2, ChoiceC, ChoiceD, Register, KeyRegister, Turns;
    RegisterIs(c, i);
    RegisterIs(d, i);
    ChoiceCIs(Register(c, i));
    ChoiceDIs(Register(d, i));
  }

  /** The first i rounds lead from one pair of words to another. */
  predicate Reached(salt: bv32, ks: seq<W48>, l0: bv32, r0: bv32, i: nat, l: bv32, r: bv32)
    requires i <= |ks|
  {
    Rounds(Low(salt, 24), ks[..i], Halves(Low(l0, 32), Low(r0, 32))) == Halves(Low(l, 32), Low(r, 32))
  }

  lemma ReachedStart(salt: bv32, ks: seq<W48>, l0: bv32, r0: bv32)
    ensures Reached(salt, ks, l0, r0, 0, l0, r0)
  {
  }

  lemma Next(salt: bv32, ks: seq<W48>, l0: bv32, r0: bv32, i: nat, l: bv32, r: bv32, keyHi: bv32, keyLo: bv32, r': bv32)
    requires i < |ks| && Reached(salt, ks, l0, r0, i, l, r) && ks[i] == Low48(keyHi, keyLo)
    requires Xor32(l, CipherWord(salt, r, keyHi, keyLo)) == r'
    ensures Reached(salt, ks, l0, r0, i + 1, r, r')
  {
    hide Low, Low48, Xor32, CipherWord, Round;
    var upTo := ks[..i + 1];
    assert upTo[..i] == ks[..i] && upTo[i] == ks[i];
    RoundIs(salt, l, r, keyHi, keyLo);
  }

}
