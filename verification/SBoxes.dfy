/** The design laws of the eight selection functions.  Each row is packed into a word of
    sixteen hexadecimal digits, so that a law about all inputs is one about bits. */
module SBoxes {
  import opened Bits
  import opened DesTables
  import opened Des

  /** The row of box i that the outer bits choose, first entry in the highest digit. */
  function RowDigits(i: nat, first: bool, last: bool): bv64
    requires i < 8
  {
    match i
    case 0 => if first then (if last then 0xFC8249175B3EA06D else 0x41E8D62BFC973A50)
              else if last then 0x0F74E2D1A6CB9538 else 0xE4D12FB83A6C5907
    case 1 => if first then (if last then 0xD8A13F42B67C05E9 else 0x0E7BA4D158C6932F)
              else if last then 0x3D47F28EC01A69B5 else 0xF18E6B34972DC05A
    case 2 => if first then (if last then 0x1AD069874FE3B52C else 0xD6498F30B12C5AE7)
              else if last then 0xD709346A285ECBF1 else 0xA09E63F51DC7B428
    case 3 => if first then (if last then 0x3F06A1D8945BC72E else 0xA690CB7DF13E5284)
              else if last then 0xD8B56F03472C1AE9 else 0x7DE3069A1285BC4F
    case 4 => if first then (if last then 0xB8C71E2D6F09A453 else 0x421BAD78F9C5630E)
              else if last then 0xEB2C47D150FA3986 else 0x2C417AB6853FD0E9
    case 5 => if first then (if last then 0x432C95FABE17608D else 0x9EF528C3704A1DB6)
              else if last then 0xAF427C9561DE0B38 else 0xC1AF92680D34E75B
    case 6 => if first then (if last then 0x6BD814A7950FE23C else 0x14BDC37EAF680592)
              else if last then 0xD0B7491AE35C2F86 else 0x4B2EF08D3C975A61
    case _ => if first then (if last then 0x21E74A8DFC90356B else 0x7B419CE206ADF358)
              else if last then 0x1FD8A374C56B0E92 else 0xD2846FB1A93E50C7
  }

  function Nibbles(d: bv64): (s: seq<nat>)
    ensures |s| == 16
  {
    [(d >> 60) as nat, ((d >> 56) & 15) as nat, ((d >> 52) & 15) as nat, ((d >> 48) & 15) as nat,
     ((d >> 44) & 15) as nat, ((d >> 40) & 15) as nat, ((d >> 36) & 15) as nat, ((d >> 32) & 15) as nat,
     ((d >> 28) & 15) as nat, ((d >> 24) & 15) as nat, ((d >> 20) & 15) as nat, ((d >> 16) & 15) as nat,
     ((d >> 12) & 15) as nat, ((d >> 8) & 15) as nat, ((d >> 4) & 15) as nat, (d & 15) as nat]
  }

  /** The listed rows. */
  lemma RowsListed(i: nat, first: bool, last: bool)
    requires i < 8
    ensures SBox(i).Row(2 * BitValue(first) + BitValue(last)) == Nibbles(RowDigits(i, first, last))
  {
    match i
    case 0 => Listed1(first, last);
    case 1 => Listed2(first, last);
    case 2 => Listed3(first, last);
    case 3 => Listed4(first, last);
    case 4 => Listed5(first, last);
    case 5 => Listed6(first, last);
    case 6 => Listed7(first, last);
    case _ => Listed8(first, last);
  }

  lemma Listed1(first: bool, last: bool)
    ensures S1.Row(2 * BitValue(first) + BitValue(last)) == Nibbles(RowDigits(0, first, last))
  {
  }

  lemma Listed2(first: bool, last: bool)
    ensures S2.Row(2 * BitValue(first) + BitValue(last)) == Nibbles(RowDigits(1, first, last))
  {
  }

  lemma Listed3(first: bool, last: bool)
    ensures S3.Row(2 * BitValue(first) + BitValue(last)) == Nibbles(RowDigits(2, first, last))
  {
  }

  lemma Listed4(first: bool, last: bool)
    ensures S4.Row(2 * BitValue(first) + BitValue(last)) == Nibbles(RowDigits(3, first, last))
  {
  }

  lemma Listed5(first: bool, last: bool)
    ensures S5.Row(2 * BitValue(first) + BitValue(last)) == Nibbles(RowDigits(4, first, last))
  {
  }

  lemma Listed6(first: bool, last: bool)
    ensures S6.Row(2 * BitValue(first) + BitValue(last)) == Nibbles(RowDigits(5, first, last))
  {
  }

  lemma Listed7(first: bool, last: bool)
    ensures S7.Row(2 * BitValue(first) + BitValue(last)) == Nibbles(RowDigits(6, first, last))
  {
  }

  lemma Listed8(first: bool, last: bool)
    ensures S8.Row(2 * BitValue(first) + BitValue(last)) == Nibbles(RowDigits(7, first, last))
  {
  }

  /** Six bits as a number below 64, and the low four bits of a number. */
  function Six(s: Word): (x: bv64)
    requires |s| == 6
    ensures x < 64
  {
    (if s[0] then 32 else 0) | (if s[1] then 16 else 0) | (if s[2] then 8 else 0)
    | (if s[3] then 4 else 0) | (if s[4] then 2 else 0) | (if s[5] then 1 else 0)
  }

  function Four(v: bv64): (r: Word)
    ensures |r| == 4
  {
    [v & 8 != 0, v & 4 != 0, v & 2 != 0, v & 1 != 0]
  }

  function Inner(x: bv64): (m: bv64)
    ensures m < 16
  {
    (x >> 1) & 15
  }

  function Digit(d: bv64, m: bv64): (v: bv64)
    requires m < 16
    ensures v < 16
  {
    (d >> (60 - 4 * m)) & 15
  }

  function Box(i: nat, x: bv64): (v: bv64)
    requires i < 8
    ensures v < 16
  {
    (RowDigits(i, x & 32 != 0, x & 1 != 0) >> (60 - 4 * ((x >> 1) & 15))) & 15
  }

  lemma BoxIs(i: nat, x: bv64)
    requires i < 8
    ensures Box(i, x) == Digit(RowDigits(i, x & 32 != 0, x & 1 != 0), Inner(x))
  {
    hide RowDigits;
  }

  function Value4(a: bool, b: bool, c: bool, d: bool): nat {
    8 * BitValue(a) + 4 * BitValue(b) + 2 * BitValue(c) + BitValue(d)
  }

  lemma FourBits(a: bool, b: bool, c: bool, d: bool)
    ensures OfNat(Value4(a, b, c, d), 4) == [a, b, c, d] && ToNat([a, b, c, d]) == Value4(a, b, c, d)
  {
    hide ToNat, OfNat;
    EmptyWord();
    ToNatNext([], a);
    ToNatNext([a], b);
    ToNatNext([a, b], c);
    ToNatNext([a, b, c], d);
    assert [] + [a] == [a] && [a] + [b] == [a, b] && [a, b] + [c] == [a, b, c] && [a, b, c] + [d] == [a, b, c, d];
    OfToNat([a, b, c, d]);
  }

  lemma EmptyWord()
    ensures ToNat([]) == 0
  {
  }

  lemma NibbleBits(v: bv64)
    requires v < 16
    ensures OfNat(v as nat, 4) == Four(v)
  {
    hide OfNat;
    FourBits(v & 8 != 0, v & 4 != 0, v & 2 != 0, v & 1 != 0);
    assert v as nat == Value4(v & 8 != 0, v & 4 != 0, v & 2 != 0, v & 1 != 0);
  }

  lemma SixBits(six: Word)
    requires |six| == 6
    ensures (Six(six) & 32 != 0) == six[0] && (Six(six) & 16 != 0) == six[1] && (Six(six) & 8 != 0) == six[2]
    ensures (Six(six) & 4 != 0) == six[3] && (Six(six) & 2 != 0) == six[4] && (Six(six) & 1 != 0) == six[5]
  {
  }

  lemma InnerBits(six: Word)
    requires |six| == 6
    ensures SelectColumn(six) == Inner(Six(six)) as nat
  {
    hide ToNat;
    assert six[1..5] == [six[1], six[2], six[3], six[4]];
    FourBits(six[1], six[2], six[3], six[4]);
    assert Inner(Six(six)) as nat == Value4(six[1], six[2], six[3], six[4]);
  }

  lemma NibbleAt(d: bv64, m: bv64)
    requires m < 16
    ensures Nibbles(d)[m as nat] == Digit(d, m) as nat
  {
    if m == 0 {
    } else if m == 1 {
    } else if m == 2 {
    } else if m == 3 {
    } else if m == 4 {
    } else if m == 5 {
    } else if m == 6 {
    } else if m == 7 {
    } else if m == 8 {
    } else if m == 9 {
    } else if m == 10 {
    } else if m == 11 {
    } else if m == 12 {
    } else if m == 13 {
    } else if m == 14 {
    } else {
      assert m == 15;
    }
  }

  /** A selection function is a lookup in such a row. */
  lemma SelectIsBox(i: nat, six: Word)
    requires i < 8 && |six| == 6
    ensures Select(i, six) == Four(Box(i, Six(six)))
  {
    hide RowDigits, SBox, OfNat, Nibbles, Four, SelectColumn, Six, Digit, Inner, Box;
    var d, m := RowDigits(i, six[0], six[5]), Inner(Six(six));
    SixBits(six);
    RowsListed(i, six[0], six[5]);
    InnerBits(six);
    NibbleAt(d, m);
    NibbleBits(Digit(d, m));
    BoxIs(i, Six(six));
  }

  // ----- The laws -----

  predicate TwoBits(d: bv64) {
    d & 15 != 0 && (d & 15) & ((d & 15) - 1) != 0
  }

  /** Changing the input bits of a mask changes at least two output bits. */
  predicate ChangesTwo(i: nat, x: bv64, m: bv64)
    requires i < 8
  {
    TwoBits(Box(i, x) ^ Box(i, x ^ m))
  }

  /** Each of the six input bits. */
  predicate FlipsTwo(i: nat, x: bv64)
    requires i < 8 && x < 64
  {
    && ChangesTwo(i, x, 1) && ChangesTwo(i, x, 2) && ChangesTwo(i, x, 4)
    && ChangesTwo(i, x, 8) && ChangesTwo(i, x, 16) && ChangesTwo(i, x, 32)
  }

  lemma FlipWord(i: nat, x: bv64)
    requires i < 8 && x < 64
    ensures FlipsTwo(i, x)
  {
    hide FlipsTwo;
    match i
    case 0 => Flip1(x);
    case 1 => Flip2(x);
    case 2 => Flip3(x);
    case 3 => Flip4(x);
    case 4 => Flip5(x);
    case 5 => Flip6(x);
    case 6 => Flip7(x);
    case _ => Flip8(x);
  }

  lemma Flip1(x: bv64)
    requires x < 64
    ensures FlipsTwo(0, x)
  {
    assert TwoBits(Box(0, x) ^ Box(0, x ^ 2));
    assert TwoBits(Box(0, x) ^ Box(0, x ^ 4));
    assert TwoBits(Box(0, x) ^ Box(0, x ^ 8));
    assert TwoBits(Box(0, x) ^ Box(0, x ^ 16));
    assert TwoBits(Box(0, x) ^ Box(0, x ^ 1));
    assert TwoBits(Box(0, x) ^ Box(0, x ^ 32));
  }

  lemma Flip2(x: bv64)
    requires x < 64
    ensures FlipsTwo(1, x)
  {
    assert TwoBits(Box(1, x) ^ Box(1, x ^ 2));
    assert TwoBits(Box(1, x) ^ Box(1, x ^ 4));
    assert TwoBits(Box(1, x) ^ Box(1, x ^ 8));
    assert TwoBits(Box(1, x) ^ Box(1, x ^ 16));
    assert TwoBits(Box(1, x) ^ Box(1, x ^ 1));
    assert TwoBits(Box(1, x) ^ Box(1, x ^ 32));
  }

  lemma Flip3(x: bv64)
    requires x < 64
    ensures FlipsTwo(2, x)
  {
    assert TwoBits(Box(2, x) ^ Box(2, x ^ 2));
    assert TwoBits(Box(2, x) ^ Box(2, x ^ 4));
    assert TwoBits(Box(2, x) ^ Box(2, x ^ 8));
    assert TwoBits(Box(2, x) ^ Box(2, x ^ 16));
    assert TwoBits(Box(2, x) ^ Box(2, x ^ 1));
    assert TwoBits(Box(2, x) ^ Box(2, x ^ 32));
  }

  lemma Flip4(x: bv64)
    requires x < 64
    ensures FlipsTwo(3, x)
  {
    assert TwoBits(Box(3, x) ^ Box(3, x ^ 2));
    assert TwoBits(Box(3, x) ^ Box(3, x ^ 4));
    assert TwoBits(Box(3, x) ^ Box(3, x ^ 8));
    assert TwoBits(Box(3, x) ^ Box(3, x ^ 16));
    assert TwoBits(Box(3, x) ^ Box(3, x ^ 1));
    assert TwoBits(Box(3, x) ^ Box(3, x ^ 32));
  }

  lemma Flip5(x: bv64)
    requires x < 64
    ensures FlipsTwo(4, x)
  {
    assert TwoBits(Box(4, x) ^ Box(4, x ^ 2));
    assert TwoBits(Box(4, x) ^ Box(4, x ^ 4));
    assert TwoBits(Box(4, x) ^ Box(4, x ^ 8));
    assert TwoBits(Box(4, x) ^ Box(4, x ^ 16));
    assert TwoBits(Box(4, x) ^ Box(4, x ^ 1));
    assert TwoBits(Box(4, x) ^ Box(4, x ^ 32));
  }

  lemma Flip6(x: bv64)
    requires x < 64
    ensures FlipsTwo(5, x)
  {
    assert TwoBits(Box(5, x) ^ Box(5, x ^ 2));
    assert TwoBits(Box(5, x) ^ Box(5, x ^ 4));
    assert TwoBits(Box(5, x) ^ Box(5, x ^ 8));
    assert TwoBits(Box(5, x) ^ Box(5, x ^ 16));
    assert TwoBits(Box(5, x) ^ Box(5, x ^ 1));
    assert TwoBits(Box(5, x) ^ Box(5, x ^ 32));
  }

  lemma Flip7(x: bv64)
    requires x < 64
    ensures FlipsTwo(6, x)
  {
    assert TwoBits(Box(6, x) ^ Box(6, x ^ 2));
    assert TwoBits(Box(6, x) ^ Box(6, x ^ 4));
    assert TwoBits(Box(6, x) ^ Box(6, x ^ 8));
    assert TwoBits(Box(6, x) ^ Box(6, x ^ 16));
    assert TwoBits(Box(6, x) ^ Box(6, x ^ 1));
    assert TwoBits(Box(6, x) ^ Box(6, x ^ 32));
  }

  lemma Flip8(x: bv64)
    requires x < 64
    ensures FlipsTwo(7, x)
  {
    assert TwoBits(Box(7, x) ^ Box(7, x ^ 2));
    assert TwoBits(Box(7, x) ^ Box(7, x ^ 4));
    assert TwoBits(Box(7, x) ^ Box(7, x ^ 8));
    assert TwoBits(Box(7, x) ^ Box(7, x ^ 16));
    assert TwoBits(Box(7, x) ^ Box(7, x ^ 1));
    assert TwoBits(Box(7, x) ^ Box(7, x ^ 32));
  }

  lemma RowWord(i: nat, x: bv64, y: bv64)
    requires i < 8 && x < 64 && y < 64 && x & 33 == y & 33 && x != y
    ensures Box(i, x) != Box(i, y)
  {
    match i
    case 0 => Row1(x, y);
    case 1 => Row2(x, y);
    case 2 => Row3(x, y);
    case 3 => Row4(x, y);
    case 4 => Row5(x, y);
    case 5 => Row6(x, y);
    case 6 => Row7(x, y);
    case _ => Row8(x, y);
  }

  lemma Row1(x: bv64, y: bv64)
    requires x < 64 && y < 64 && x & 33 == y & 33 && x != y
    ensures Box(0, x) != Box(0, y)
  {
  }

  lemma Row2(x: bv64, y: bv64)
    requires x < 64 && y < 64 && x & 33 == y & 33 && x != y
    ensures Box(1, x) != Box(1, y)
  {
  }

  lemma Row3(x: bv64, y: bv64)
    requires x < 64 && y < 64 && x & 33 == y & 33 && x != y
    ensures Box(2, x) != Box(2, y)
  {
  }

  lemma Row4(x: bv64, y: bv64)
    requires x < 64 && y < 64 && x & 33 == y & 33 && x != y
    ensures Box(3, x) != Box(3, y)
  {
  }

  lemma Row5(x: bv64, y: bv64)
    requires x < 64 && y < 64 && x & 33 == y & 33 && x != y
    ensures Box(4, x) != Box(4, y)
  {
  }

  lemma Row6(x: bv64, y: bv64)
    requires x < 64 && y < 64 && x & 33 == y & 33 && x != y
    ensures Box(5, x) != Box(5, y)
  {
  }

  lemma Row7(x: bv64, y: bv64)
    requires x < 64 && y < 64 && x & 33 == y & 33 && x != y
    ensures Box(6, x) != Box(6, y)
  {
  }

  lemma Row8(x: bv64, y: bv64)
    requires x < 64 && y < 64 && x & 33 == y & 33 && x != y
    ensures Box(7, x) != Box(7, y)
  {
  }

  /** How many bits differ. */
  function Distance(a: Word, b: Word): nat
    requires |a| == |b|
  {
    if a == [] then 0 else Distance(a[1..], b[1..]) + if a[0] != b[0] then 1 else 0
  }

  lemma FourDistance(v: bv64, w: bv64)
    requires TwoBits(v ^ w)
    ensures Distance(Four(v), Four(w)) >= 2
  {
    var a, b := Four(v), Four(w);
    DistanceOfFour(a[0], a[1], a[2], a[3], b[0], b[1], b[2], b[3]);
  }

  lemma NoDistance(v: Word, w: Word)
    requires v == w == []
    ensures Distance(v, w) == 0
  {
  }

  lemma DistanceNext(v: Word, w: Word, v': Word, w': Word)
    requires |v| == |w| > 0 && v' == v[1..] && w' == w[1..]
    ensures Distance(v, w) == Distance(v', w') + BitValue(v[0] != w[0])
  {
  }

  lemma DistanceOfFour(a: bool, b: bool, c: bool, d: bool, a': bool, b': bool, c': bool, d': bool)
    ensures Distance([a, b, c, d], [a', b', c', d'])
         == BitValue(a != a') + BitValue(b != b') + BitValue(c != c') + BitValue(d != d')
  {
    hide Distance;
    NoDistance([], []);
    DistanceNext([a, b, c, d], [a', b', c', d'], [b, c, d], [b', c', d']);
    DistanceNext([b, c, d], [b', c', d'], [c, d], [c', d']);
    DistanceNext([c, d], [c', d'], [d], [d']);
    DistanceNext([d], [d'], [], []);
  }

  function Flip(k: nat): (m: bv64)
    requires k < 6
    ensures m == 1 || m == 2 || m == 4 || m == 8 || m == 16 || m == 32
  {
    match k case 0 => 32 case 1 => 16 case 2 => 8 case 3 => 4 case 4 => 2 case _ => 1
  }

  lemma FlipAt(i: nat, x: bv64, k: nat)
    requires i < 8 && x < 64 && k < 6 && FlipsTwo(i, x)
    ensures ChangesTwo(i, x, Flip(k))
  {
    hide ChangesTwo;
    match k case 0 => case 1 => case 2 => case 3 => case 4 => case _ => assert k == 5;
  }

  lemma SixFlipped(six: Word, k: nat)
    requires |six| == 6 && k < 6
    ensures Six(six[k := !six[k]]) == Six(six) ^ Flip(k)
  {
  }

  lemma OuterBits(x: bv64, y: bv64)
    requires (x & 32 != 0) == (y & 32 != 0) && (x & 1 != 0) == (y & 1 != 0)
    ensures x & 33 == y & 33
  {
  }

  lemma SixApart(six: Word, other: Word)
    requires |six| == |other| == 6 && six != other && six[0] == other[0] && six[5] == other[5]
    ensures Six(six) != Six(other) && Six(six) & 33 == Six(other) & 33
  {
    hide Six;
    SixBits(six);
    SixBits(other);
    OuterBits(Six(six), Six(other));
    assert six[1] != other[1] || six[2] != other[2] || six[3] != other[3] || six[4] != other[4];
  }

  /** Changing one input bit of a selection function changes at least two output bits. */
  lemma OneBitChangesTwo(i: nat, six: Word, k: nat)
    requires i < 8 && |six| == 6 && k < 6
    ensures Distance(Select(i, six), Select(i, six[k := !six[k]])) >= 2
  {
    hide Select, Box, TwoBits, Four, Distance, Six, FlipsTwo, Flip;
    var other := six[k := !six[k]];
    var flip := Flip(k);
    SelectIsBox(i, six);
    SelectIsBox(i, other);
    SixFlipped(six, k);
    FlipWord(i, Six(six));
    FlipAt(i, Six(six), k);
    FourDistance(Box(i, Six(six)), Box(i, Six(other)));
  }

  lemma FourApart(v: bv64, w: bv64)
    requires v < 16 && w < 16
    ensures Four(v) == Four(w) ==> v == w
  {
    var a, b := Four(v), Four(w);
    assert a == b ==> a[0] == b[0] && a[1] == b[1] && a[2] == b[2] && a[3] == b[3];
  }

  /** Each row of each box is a permutation: with the outer bits fixed, different inner
      bits select different outputs. */
  lemma RowsPermute(i: nat, six: Word, other: Word)
    requires i < 8 && |six| == |other| == 6 && six != other && six[0] == other[0] && six[5] == other[5]
    ensures Select(i, six) != Select(i, other)
  {
    hide Select, Box, Six, Four;
    SelectIsBox(i, six);
    SelectIsBox(i, other);
    SixApart(six, other);
    FourApart(Box(i, Six(six)), Box(i, Six(other)));
    RowWord(i, Six(six), Six(other));
  }
}