/** Word-level steps of UFC-crypt and what they mean on packed values. */
module UfcWords {
  import opened Bits
  import opened Des
  import opened Expanded
  import opened Packing
  import opened SbTables

  // ----- shuffle_sb -----

  /** One iteration of the 64-bit shuffle_sb. */
  function ShuffleWord(k: W64, saltbits: W32): W64 {
    var x := And(Xor(Shr(k, 32), k), Zeros(32) + saltbits);
    Xor(k, Or(Shl(x, 32), x))
  }

  /** One iteration of the 32-bit shuffle_sb, on a pair of words. */
  function ShufflePair(k0: W32, k1: W32, saltbits: W32): (W32, W32) {
    var x := And(Xor(k0, k1), saltbits);
    (Xor(k0, x), Xor(k1, x))
  }

  lemma ShuffleAgrees(k0: W32, k1: W32, saltbits: W32)
    ensures ShuffleWord(k0 + k1, saltbits) == ShufflePair(k0, k1, saltbits).0 + ShufflePair(k0, k1, saltbits).1
  {
  }

  lemma SwapHalves(d: W24, e: W48)
    ensures Xor(HalfOf(e, 0), And(Xor(HalfOf(e, 0), HalfOf(e, 1)), d)) == HalfOf(SaltSwap(d, e), 0)
    ensures Xor(HalfOf(e, 1), And(Xor(HalfOf(e, 0), HalfOf(e, 1)), d)) == HalfOf(SaltSwap(d, e), 1)
  {
    forall i | 0 <= i < 24
      ensures HalfOf(SaltSwap(d, e), 0)[i] == (if d[i] then e[i + 24] else e[i])
      ensures HalfOf(SaltSwap(d, e), 1)[i] == (if d[i] then e[i] else e[i + 24])
    {
      hide SaltSwap;
      SwapAt(d, e, i);
    }
  }

  /** Masked exchange of the two words of a packed value is a salt swap. */
  lemma ShufflePacked(d: W24, e: W48)
    ensures ShuffleWord(Pack48(e), Pack24(d)) == Pack48(SaltSwap(d, e))
  {
    hide Pack24, HalfOf, SaltSwap, ShuffleWord;
    var e0, e1 := HalfOf(e, 0), HalfOf(e, 1);
    ShuffleAgrees(Pack24(e0), Pack24(e1), Pack24(d));
    PackXor24(e0, e1);
    PackAnd24(Xor(e0, e1), d);
    PackXor24(e0, And(Xor(e0, e1), d));
    PackXor24(e1, And(Xor(e0, e1), d));
    SwapHalves(d, e);
  }

  lemma ShuffleEntry(d: W24, salt: W24, i: nat)
    requires i < 16384
    ensures ShuffleWord(SbWord(salt, i), Pack24(d)) == SbWord(Xor(d, salt), i)
  {
    hide Pack24, Pack48, ShuffleWord, SaltSwap, Expand, Permute, SelectPair;
    var h := Permute(InByte(i / 4096, SelectPair(i / 4096, OfNat(i % 4096, 12))));
    ShufflePacked(d, Image(salt, h));
    SwapTwice(d, salt, Expand(h));
  }

  // ----- One half-round of _ufc_doit_r -----

  lemma XorSwap(a: Word, b: Word)
    requires |a| == |b|
    ensures Xor(a, b) == Xor(b, a)
  {
  }

  lemma XorChain(l: Word, a: Word, b: Word, c: Word, d: Word)
    requires |l| == |a| == |b| == |c| == |d|
    ensures Xor(Xor(Xor(Xor(l, d), c), b), a) == Xor(l, XorAll(a, b, c, d))
  {
  }

  lemma LowLane(front: Word, lane: Word)
    requires |lane| == 16
    ensures Field(front + lane, 0, 16) == lane
    ensures |front| >= 16 ==> Shr(front + lane, 16) == Zeros(16) + front
  {
  }

  lemma Assoc(a: Word, b: Word, c: Word)
    ensures a + (b + c) == a + b + c
  {
  }

  lemma PadTwice(m: nat, n: nat, w: Word)
    ensures Zeros(m) + (Zeros(n) + w) == Zeros(m + n) + w
  {
  }

  /** Reading a 64-bit word's lanes from the low end, as repeated s >>= 16 does. */
  lemma LanesFromLow(a: Word, b: Word, c: Word, d: Word)
    requires |a| == |b| == |c| == |d| == 16
    ensures Field(a + b + c + d, 0, 16) == d
    ensures Shr(a + b + c + d, 16) == Zeros(16) + (a + b + c)
    ensures Field(Zeros(16) + (a + b + c), 0, 16) == c
    ensures Shr(Zeros(16) + (a + b + c), 16) == Zeros(32) + (a + b)
    ensures Field(Zeros(32) + (a + b), 0, 16) == b
    ensures Shr(Zeros(32) + (a + b), 16) == Zeros(48) + a
    ensures ToNat(Zeros(48) + a) == ToNat(a)
  {
    hide Field, Shr, ToNat, Zeros;
    LowLane(a + b + c, d);
    LowLane(Zeros(16) + (a + b), c);
    Assoc(Zeros(16), a + b, c);
    PadTwice(16, 16, a + b);
    LowLane(Zeros(32) + a, b);
    Assoc(Zeros(32), a, b);
    PadTwice(16, 32, a);
    ToNatLeadingZeros(48, a);
  }

  /** The same for the two 32-bit words of the 32-bit version. */
  lemma LanesOfHalf(a: Word, b: Word)
    requires |a| == |b| == 16
    ensures Field(a + b, 0, 16) == b
    ensures Shr(a + b, 16) == Zeros(16) + a
    ensures ToNat(Zeros(16) + a) == ToNat(a)
  {
    assert Field(a + b, 0, 16) == b;
    assert Shr(a + b, 16) == Zeros(16) + a;
    ToNatLeadingZeros(16, a);
  }

  // ----- Narrow values in wide words -----

  lemma OrPadded(n: nat, a: Word, b: Word)
    requires |a| == |b|
    ensures Or(Zeros(n) + a, Zeros(n) + b) == Zeros(n) + Or(a, b)
  {
  }

  lemma OrNothing(a: Word)
    ensures Or(Zeros(|a|), a) == a
  {
  }

  lemma JoinWords(a: Word, b: Word)
    requires |a| == |b| == 32
    ensures Or(Shl(Zeros(32) + a, 32), Zeros(32) + b) == a + b
  {
  }

  lemma OrConcat(a: Word, b: Word, c: Word, d: Word)
    requires |a| == |c| && |b| == |d|
    ensures Or(a + b, c + d) == Or(a, c) + Or(b, d)
  {
  }

  /** (v << 32) | w, with both halves tagged, is a 64-bit round key. */
  lemma TaggedKey(c: W24, d: W24)
    ensures Or(Or(Shl(Zeros(32) + Pack24(c), 32), Zeros(32) + Pack24(d)), TAG + TAG) == Tagged48(c + d)
  {
    hide Pack24, Tagged24, Or, Shl;
    TagPacked(c);
    TagPacked(d);
    assert HalfOf(c + d, 0) == c && HalfOf(c + d, 1) == d;
    JoinWords(Pack24(c), Pack24(d));
    OrConcat(Pack24(c), Pack24(d), TAG, TAG);
  }

  // ----- The six-bit groups that _ufc_dofinalperm_r reads -----

  /** After >>= 3, the groups of a packed word lie at shifts 0, 6, 16 and 22. */
  lemma SixFields(a: W24)
    ensures Field(Shr(Pack24(a), 3), 0, 6) == a[18..24]
    ensures Field(Shr(Shr(Pack24(a), 3), 6), 0, 6) == a[12..18]
    ensures Field(Shr(Shr(Shr(Pack24(a), 3), 6), 10), 0, 6) == a[6..12]
    ensures Field(Shr(Shr(Shr(Shr(Pack24(a), 3), 6), 10), 6), 0, 6) == a[0..6]
  {
    var w := Pack24(a);
    var w1 := Shr(w, 3);
    var w2 := Shr(w1, 6);
    var w3 := Shr(w2, 10);
    var w4 := Shr(w3, 6);
    forall i | 0 <= i < 6
      ensures Field(w1, 0, 6)[i] == a[18 + i] && Field(w2, 0, 6)[i] == a[12 + i]
      ensures Field(w3, 0, 6)[i] == a[6 + i] && Field(w4, 0, 6)[i] == a[i]
    {
      hide Shr, Pack24;
      assert w1[26 + i] == w[23 + i] && w2[26 + i] == w[17 + i] && w3[26 + i] == w[7 + i] && w4[26 + i] == w[1 + i];
      PackBit(a, 18 + i);
      PackBit(a, 12 + i);
      PackBit(a, 6 + i);
      PackBit(a, i);
    }
  }

  /** The two-word exchange undoes the salt swap. */
  lemma Unsalt(salt: W24, e: W48, w1: W32, w2: W32)
    requires Join(w1, w2) == Pack48(SaltSwap(salt, e))
    ensures ShufflePair(w1, w2, Pack24(salt)) == (Pack24(HalfOf(e, 0)), Pack24(HalfOf(e, 1)))
  {
    hide Pack24, HalfOf, SaltSwap, ShufflePair;
    ShuffleAgrees(w1, w2, Pack24(salt));
    ShufflePacked(salt, SaltSwap(salt, e));
    SwapUndone(salt, e);
    var p := ShufflePair(w1, w2, Pack24(salt));
    var q0: Word, q1: Word := Pack24(HalfOf(e, 0)), Pack24(HalfOf(e, 1));
    var p0: Word, p1: Word := p.0, p.1;
    assert p0 == (p0 + p1)[..32] && p1 == (p0 + p1)[32..];
    assert q0 == (q0 + q1)[..32] && q1 == (q0 + q1)[32..];
  }
}
