/** Facts behind the loop in __init_des_r that fills sb0..sb3. */
module BuildTables {
  import opened Bits
  import opened DesTables
  import opened Des
  import opened Expanded
  import opened Packing
  import opened SbTables

  /** s_lookup(i, s) in C's arithmetic: row from bits 5 and 0, column from 4..1. */
  function SLookup(i: nat, s: nat): Nibble
    requires i < 8 && s < 64
  {
    SBox(i).Row(2 * (s / 32 % 2) + s % 2)[s / 2 % 16]
  }

  lemma SixBits(s: nat)
    requires s < 64
    ensures OfNat(s, 6)[0] == (s / 32 % 2 == 1) && OfNat(s, 6)[5] == (s % 2 == 1)
    ensures OfNat(s, 6)[1..5] == OfNat(s / 2 % 16, 4)
  {
    var w := OfNat(s, 6);
    assert w == OfNat(s / 2, 5) + [s % 2 == 1];
    OfNatSplit(s / 2, 1, 4);
    Pow2Values();
    assert s / 2 / 16 == s / 32;
    assert OfNat(s / 32, 1) == OfNat(s / 32 / 2, 0) + [s / 32 % 2 == 1];
  }

  function Quotient(n: nat, m: nat): nat
    requires m >= 1
  {
    n / m
  }

  function Remainder(n: nat, m: nat): nat
    requires m >= 1
  {
    n % m
  }

  /** High and low parts of a number's bits. */
  lemma {:induction false} OfNatSplit(n: nat, a: nat, b: nat)
    ensures OfNat(n, a + b) == OfNat(Quotient(n, Pow2(b)), a) + OfNat(Remainder(n, Pow2(b)), b)
  {
    if b == 0 {
      assert n / Pow2(0) == n;
    } else {
      OfNatSplit(n / 2, a, b - 1);
      DivTwice(n, Pow2(b - 1));
      assert OfNat(n, a + b) == OfNat(n / 2, a + b - 1) + [n % 2 == 1];
    }
  }

  lemma DivTwice(n: nat, m: nat)
    requires m >= 1
    ensures n / (2 * m) == n / 2 / m
    ensures n % (2 * m) / 2 == n / 2 % m
    ensures n % (2 * m) % 2 == n % 2
  {
    var q, r := n / 2 / m, n / 2 % m;
    var h := n / 2;
    assert h == m * q + r;
    assert n == 2 * h + n % 2;
    var rem := 2 * r + n % 2;
    assert n == (2 * m) * q + rem by {
      assert 2 * (m * q) == (2 * m) * q;
    }
    QuotientUnique(n, 2 * m, q, rem);
  }

  lemma NextMultiple(d: nat, a: nat, b: nat)
    requires a < b
    ensures d * a + d <= d * b
  {
    var c := b - a - 1;
    assert b == a + 1 + c;
    assert d * (a + 1 + c) == d * a + d + d * c;
  }

  lemma QuotientUnique(n: nat, d: nat, q: nat, r: nat)
    requires n == d * q + r && r < d
    ensures n / d == q && n % d == r
  {
    var q', r' := n / d, n % d;
    assert n == d * q' + r' && 0 <= r' < d;
    if q < q' {
      NextMultiple(d, q, q');
    } else if q' < q {
      NextMultiple(d, q', q);
    }
  }

  lemma SLookupIsSelect(i: nat, s: nat)
    requires i < 8 && s < 64
    ensures OfNat(SLookup(i, s), 4) == Select(i, OfNat(s, 6))
  {
    hide SBox;
    SixBits(s);
    Pow2Values();
    ToOfNat(s / 2 % 16, 4);
  }

  lemma {:induction false} OfNatPadded(n: nat, m: nat, k: nat)
    requires n < Pow2(k)
    ensures OfNat(n, m + k) == Zeros(m) + OfNat(n, k)
  {
    OfNatSplit(n, m, k);
    QuotientUnique(n, Pow2(k), 0, n);
    OfNatZero(m);
  }

  lemma {:induction false} OfNatZero(m: nat)
    ensures OfNat(0, m) == Zeros(m)
  {
    if m != 0 {
      OfNatZero(m - 1);
    }
  }

  /** ((s1 << 4) | s2) << (24 - 8 * sg) puts both nibbles into byte sg. */
  function ToPermute(sg: nat, s1: Nibble, s2: Nibble): W32
    requires sg < 4
  {
    Shl(Or(Shl(OfNat(s1, 32), 4), OfNat(s2, 32)), 24 - 8 * sg)
  }

  lemma ToPermuteIsInByte(sg: nat, s1: Nibble, s2: Nibble)
    requires sg < 4
    ensures ToPermute(sg, s1, s2) == InByte(sg, OfNat(s1, 4) + OfNat(s2, 4))
  {
    hide OfNat, Or, Shl, InByte;
    Pow2Values();
    OfNatPadded(s1, 28, 4);
    OfNatPadded(s2, 28, 4);
    TwoNibbles(OfNat(s1, 4), OfNat(s2, 4));
    ByteShifted(sg, OfNat(s1, 4) + OfNat(s2, 4));
  }

  lemma TwoNibbles(a: Word, b: Word)
    requires |a| == |b| == 4
    ensures Or(Shl(Zeros(28) + a, 4), Zeros(28) + b) == Zeros(24) + (a + b)
  {
  }

  lemma ByteShifted(sg: nat, b: W8)
    requires sg < 4
    ensures Shl(Zeros(24) + b, 24 - 8 * sg) == InByte(sg, b)
  {
  }

  lemma PairSelected(sg: nat, j1: nat, j2: nat)
    requires sg < 4 && j1 < 64 && j2 < 64
    ensures ToPermute(sg, SLookup(2 * sg, j1), SLookup(2 * sg + 1, j2))
         == InByte(sg, SelectPair(sg, OfNat(64 * j1 + j2, 12)))
  {
    hide SLookup, Select, OfNat, ToPermute;
    Pow2Values();
    OfNatSplit(64 * j1 + j2, 6, 6);
    QuotientUnique(64 * j1 + j2, 64, j1, j2);
    assert OfNat(64 * j1 + j2, 12) == OfNat(j1, 6) + OfNat(j2, 6);
    assert OfNat(64 * j1 + j2, 12)[..6] == OfNat(j1, 6);
    assert OfNat(64 * j1 + j2, 12)[6..] == OfNat(j2, 6);
    SLookupIsSelect(2 * sg, j1);
    SLookupIsSelect(2 * sg + 1, j2);
    ToPermuteIsInByte(sg, SLookup(2 * sg, j1), SLookup(2 * sg + 1, j2));
  }

  lemma UnsaltedWord(w: W32)
    ensures Pack48(Image(Zeros(24), Permute(w)))
         == Pack24(HalfOf(Expand(Permute(w)), 0)) + Pack24(HalfOf(Expand(Permute(w)), 1))
  {
    hide Permute, Expand;
    SwapNone(Expand(Permute(w)));
  }
}
