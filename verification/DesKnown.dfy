/** Known answers of DES and of crypt(3), worked out round by round.  They depend on every
    table, on the order of bits in keys, blocks and salts, and on which of the two
    operations is encryption. */
module DesKnown {
  import opened Bits
  import opened DesTables
  import opened Des
  import opened DesWords
  import opened SBoxes
  import opened TableMeaning
  import opened CryptSpec
  import opened BlockSpec

  lemma StandardCBit(i: nat)
    requires i < 28
    ensures Bit64(0x13345779, 0x9BBCDFF1, Pc1(i) - 1) == Bit(0xF0CCAAF, 4 + i)
  {
    Pc1Values();
    BitMasks(0x13345779);
    BitMasks(0x9BBCDFF1);
    BitMasks(0xF0CCAAF);
    hide Pc1, Bit, Mask;
  }

  lemma StandardDBit(i: nat)
    requires i < 28
    ensures Bit64(0x13345779, 0x9BBCDFF1, Pc1(28 + i) - 1) == Bit(0x556678F, 4 + i)
  {
    Pc1Values28();
    BitMasks(0x13345779);
    BitMasks(0x9BBCDFF1);
    BitMasks(0x556678F);
    hide Pc1, Bit, Mask;
  }

  lemma StandardRegisters()
    ensures KeyRegister(Word64(0x13345779, 0x9BBCDFF1), 0) == Low(0xF0CCAAF, 28)
    ensures KeyRegister(Word64(0x13345779, 0x9BBCDFF1), 1) == Low(0x556678F, 28)
  {
    hide Bit, Pc1;
    var c, d := KeyRegister(Word64(0x13345779, 0x9BBCDFF1), 0), KeyRegister(Word64(0x13345779, 0x9BBCDFF1), 1);
    forall i | 0 <= i < 28
      ensures c[i] == Low(0xF0CCAAF, 28)[i] && d[i] == Low(0x556678F, 28)[i]
    {
      StandardCBit(i);
      StandardDBit(i);
    }
  }

  predicate StandardKey(i: nat, hi: bv32, lo: bv32)
    requires i < 16
  {
    RoundKey(Word64(0x13345779, 0x9BBCDFF1), i) == Low48(hi, lo)
  }

  /** The sixteen round keys. */
  lemma StandardKeys()
    ensures StandardKey(0, 0x1B02EF, 0xFC7072) && StandardKey(1, 0x79AED9, 0xDBC9E5)
    ensures StandardKey(2, 0x55FC8A, 0x42CF99) && StandardKey(3, 0x72ADD6, 0xDB351D)
    ensures StandardKey(4, 0x7CEC07, 0xEB53A8) && StandardKey(5, 0x63A53E, 0x507B2F)
    ensures StandardKey(6, 0xEC84B7, 0xF618BC) && StandardKey(7, 0xF78A3A, 0xC13BFB)
    ensures StandardKey(8, 0xE0DBEB, 0xEDE781) && StandardKey(9, 0xB1F347, 0xBA464F)
    ensures StandardKey(10, 0x215FD3, 0xDED386) && StandardKey(11, 0x7571F5, 0x9467E9)
    ensures StandardKey(12, 0x97C5D1, 0xFABA41) && StandardKey(13, 0x5F43B7, 0xF2E73A)
    ensures StandardKey(14, 0xBF918D, 0x3D3F0A) && StandardKey(15, 0xCB3D8B, 0xE17F5)
  {
    hide Low, Low48, RoundKey, KeyRegister, Turn1, Turn2;
    StandardRegisters();
    StandardTurned();
    RoundKeyIs(Word64(0x13345779, 0x9BBCDFF1), 0xF0CCAAF, 0x556678F, 0, 0x1B02EF, 0xFC7072);
    RoundKeyIs(Word64(0x13345779, 0x9BBCDFF1), 0xF0CCAAF, 0x556678F, 1, 0x79AED9, 0xDBC9E5);
    RoundKeyIs(Word64(0x13345779, 0x9BBCDFF1), 0xF0CCAAF, 0x556678F, 2, 0x55FC8A, 0x42CF99);
    RoundKeyIs(Word64(0x13345779, 0x9BBCDFF1), 0xF0CCAAF, 0x556678F, 3, 0x72ADD6, 0xDB351D);
    RoundKeyIs(Word64(0x13345779, 0x9BBCDFF1), 0xF0CCAAF, 0x556678F, 4, 0x7CEC07, 0xEB53A8);
    RoundKeyIs(Word64(0x13345779, 0x9BBCDFF1), 0xF0CCAAF, 0x556678F, 5, 0x63A53E, 0x507B2F);
    RoundKeyIs(Word64(0x13345779, 0x9BBCDFF1), 0xF0CCAAF, 0x556678F, 6, 0xEC84B7, 0xF618BC);
    RoundKeyIs(Word64(0x13345779, 0x9BBCDFF1), 0xF0CCAAF, 0x556678F, 7, 0xF78A3A, 0xC13BFB);
    RoundKeyIs(Word64(0x13345779, 0x9BBCDFF1), 0xF0CCAAF, 0x556678F, 8, 0xE0DBEB, 0xEDE781);
    RoundKeyIs(Word64(0x13345779, 0x9BBCDFF1), 0xF0CCAAF, 0x556678F, 9, 0xB1F347, 0xBA464F);
    RoundKeyIs(Word64(0x13345779, 0x9BBCDFF1), 0xF0CCAAF, 0x556678F, 10, 0x215FD3, 0xDED386);
    RoundKeyIs(Word64(0x13345779, 0x9BBCDFF1), 0xF0CCAAF, 0x556678F, 11, 0x7571F5, 0x9467E9);
    RoundKeyIs(Word64(0x13345779, 0x9BBCDFF1), 0xF0CCAAF, 0x556678F, 12, 0x97C5D1, 0xFABA41);
    RoundKeyIs(Word64(0x13345779, 0x9BBCDFF1), 0xF0CCAAF, 0x556678F, 13, 0x5F43B7, 0xF2E73A);
    RoundKeyIs(Word64(0x13345779, 0x9BBCDFF1), 0xF0CCAAF, 0x556678F, 14, 0xBF918D, 0x3D3F0A);
    RoundKeyIs(Word64(0x13345779, 0x9BBCDFF1), 0xF0CCAAF, 0x556678F, 15, 0xCB3D8B, 0xE17F5);
  }

  lemma StandardTurnedEarly()
    ensures Register(0xF0CCAAF, 0) == 0xE19955F && Register(0x556678F, 0) == 0xAACCF1E
    ensures Register(0xF0CCAAF, 1) == 0xC332ABF && Register(0x556678F, 1) == 0x5599E3D
    ensures Register(0xF0CCAAF, 2) == 0xCCAAFF && Register(0x556678F, 2) == 0x56678F5
    ensures Register(0xF0CCAAF, 3) == 0x332ABFC && Register(0x556678F, 3) == 0x599E3D5
    ensures Register(0xF0CCAAF, 4) == 0xCCAAFF0 && Register(0x556678F, 4) == 0x6678F55
    ensures Register(0xF0CCAAF, 5) == 0x32ABFC3 && Register(0x556678F, 5) == 0x99E3D55
    ensures Register(0xF0CCAAF, 6) == 0xCAAFF0C && Register(0x556678F, 6) == 0x678F556
    ensures Register(0xF0CCAAF, 7) == 0x2ABFC33 && Register(0x556678F, 7) == 0x9E3D559
  {
  }

  lemma StandardTurnedLate()
    ensures Register(0xF0CCAAF, 8) == 0x557F866 && Register(0x556678F, 8) == 0x3C7AAB3
    ensures Register(0xF0CCAAF, 9) == 0x55FE199 && Register(0x556678F, 9) == 0xF1EAACC
    ensures Register(0xF0CCAAF, 10) == 0x57F8665 && Register(0x556678F, 10) == 0xC7AAB33
    ensures Register(0xF0CCAAF, 11) == 0x5FE1995 && Register(0x556678F, 11) == 0x1EAACCF
    ensures Register(0xF0CCAAF, 12) == 0x7F86655 && Register(0x556678F, 12) == 0x7AAB33C
    ensures Register(0xF0CCAAF, 13) == 0xFE19955 && Register(0x556678F, 13) == 0xEAACCF1
    ensures Register(0xF0CCAAF, 14) == 0xF866557 && Register(0x556678F, 14) == 0xAAB33C7
    ensures Register(0xF0CCAAF, 15) == 0xF0CCAAF && Register(0x556678F, 15) == 0x556678F
  {
    StandardTurnedEarly();
  }

  lemma StandardTurned()
    ensures Register(0xF0CCAAF, 0) == 0xE19955F && Register(0x556678F, 0) == 0xAACCF1E
    ensures Register(0xF0CCAAF, 1) == 0xC332ABF && Register(0x556678F, 1) == 0x5599E3D
    ensures Register(0xF0CCAAF, 2) == 0xCCAAFF && Register(0x556678F, 2) == 0x56678F5
    ensures Register(0xF0CCAAF, 3) == 0x332ABFC && Register(0x556678F, 3) == 0x599E3D5
    ensures Register(0xF0CCAAF, 4) == 0xCCAAFF0 && Register(0x556678F, 4) == 0x6678F55
    ensures Register(0xF0CCAAF, 5) == 0x32ABFC3 && Register(0x556678F, 5) == 0x99E3D55
    ensures Register(0xF0CCAAF, 6) == 0xCAAFF0C && Register(0x556678F, 6) == 0x678F556
    ensures Register(0xF0CCAAF, 7) == 0x2ABFC33 && Register(0x556678F, 7) == 0x9E3D559
    ensures Register(0xF0CCAAF, 8) == 0x557F866 && Register(0x556678F, 8) == 0x3C7AAB3
    ensures Register(0xF0CCAAF, 9) == 0x55FE199 && Register(0x556678F, 9) == 0xF1EAACC
    ensures Register(0xF0CCAAF, 10) == 0x57F8665 && Register(0x556678F, 10) == 0xC7AAB33
    ensures Register(0xF0CCAAF, 11) == 0x5FE1995 && Register(0x556678F, 11) == 0x1EAACCF
    ensures Register(0xF0CCAAF, 12) == 0x7F86655 && Register(0x556678F, 12) == 0x7AAB33C
    ensures Register(0xF0CCAAF, 13) == 0xFE19955 && Register(0x556678F, 13) == 0xEAACCF1
    ensures Register(0xF0CCAAF, 14) == 0xF866557 && Register(0x556678F, 14) == 0xAAB33C7
    ensures Register(0xF0CCAAF, 15) == 0xF0CCAAF && Register(0x556678F, 15) == 0x556678F
  {
    hide Register;
    StandardTurnedEarly();
    StandardTurnedLate();
  }

  lemma StandardRounds1(ks: seq<W48>)
    requires ks == KeySchedule(Word64(0x13345779, 0x9BBCDFF1))
             && Reached(0x0, ks, 0xCC00CCFF, 0xF0AAF0AA, 0, 0xCC00CCFF, 0xF0AAF0AA)
    ensures Reached(0x0, ks, 0xCC00CCFF, 0xF0AAF0AA, 4, 0xA25C0BF4, 0x77220045)
  {
    StandardKeys();
    hide Low48, RoundKey, Reached;
    Next(0x0, ks, 0xCC00CCFF, 0xF0AAF0AA, 0, 0xCC00CCFF, 0xF0AAF0AA, 0x1B02EF, 0xFC7072,
         0xEF4A6544);
    Next(0x0, ks, 0xCC00CCFF, 0xF0AAF0AA, 1, 0xF0AAF0AA, 0xEF4A6544, 0x79AED9, 0xDBC9E5,
         0xCC017709);
    Next(0x0, ks, 0xCC00CCFF, 0xF0AAF0AA, 2, 0xEF4A6544, 0xCC017709, 0x55FC8A, 0x42CF99,
         0xA25C0BF4);
    Next(0x0, ks, 0xCC00CCFF, 0xF0AAF0AA, 3, 0xCC017709, 0xA25C0BF4, 0x72ADD6, 0xDB351D,
         0x77220045);
  }

  lemma StandardRounds2(ks: seq<W48>)
    requires ks == KeySchedule(Word64(0x13345779, 0x9BBCDFF1))
             && Reached(0x0, ks, 0xCC00CCFF, 0xF0AAF0AA, 4, 0xA25C0BF4, 0x77220045)
    ensures Reached(0x0, ks, 0xCC00CCFF, 0xF0AAF0AA, 8, 0x64ABA10, 0xD5694B90)
  {
    StandardKeys();
    hide Low48, RoundKey, Reached;
    Next(0x0, ks, 0xCC00CCFF, 0xF0AAF0AA, 4, 0xA25C0BF4, 0x77220045, 0x7CEC07, 0xEB53A8,
         0x8A4FA637);
    Next(0x0, ks, 0xCC00CCFF, 0xF0AAF0AA, 5, 0x77220045, 0x8A4FA637, 0x63A53E, 0x507B2F,
         0xE967CD69);
    Next(0x0, ks, 0xCC00CCFF, 0xF0AAF0AA, 6, 0x8A4FA637, 0xE967CD69, 0xEC84B7, 0xF618BC,
         0x64ABA10);
    Next(0x0, ks, 0xCC00CCFF, 0xF0AAF0AA, 7, 0xE967CD69, 0x64ABA10, 0xF78A3A, 0xC13BFB,
         0xD5694B90);
  }

  lemma StandardRounds3(ks: seq<W48>)
    requires ks == KeySchedule(Word64(0x13345779, 0x9BBCDFF1))
             && Reached(0x0, ks, 0xCC00CCFF, 0xF0AAF0AA, 8, 0x64ABA10, 0xD5694B90)
    ensures Reached(0x0, ks, 0xCC00CCFF, 0xF0AAF0AA, 12, 0xC5783C78, 0x75BD1858)
  {
    StandardKeys();
    hide Low48, RoundKey, Reached;
    Next(0x0, ks, 0xCC00CCFF, 0xF0AAF0AA, 8, 0x64ABA10, 0xD5694B90, 0xE0DBEB, 0xEDE781,
         0x247CC67A);
    Next(0x0, ks, 0xCC00CCFF, 0xF0AAF0AA, 9, 0xD5694B90, 0x247CC67A, 0xB1F347, 0xBA464F,
         0xB7D5D7B2);
    Next(0x0, ks, 0xCC00CCFF, 0xF0AAF0AA, 10, 0x247CC67A, 0xB7D5D7B2, 0x215FD3, 0xDED386,
         0xC5783C78);
    Next(0x0, ks, 0xCC00CCFF, 0xF0AAF0AA, 11, 0xB7D5D7B2, 0xC5783C78, 0x7571F5, 0x9467E9,
         0x75BD1858);
  }

  lemma StandardRounds4(ks: seq<W48>)
    requires ks == KeySchedule(Word64(0x13345779, 0x9BBCDFF1))
             && Reached(0x0, ks, 0xCC00CCFF, 0xF0AAF0AA, 12, 0xC5783C78, 0x75BD1858)
    ensures Reached(0x0, ks, 0xCC00CCFF, 0xF0AAF0AA, 16, 0x43423234, 0xA4CD995)
  {
    StandardKeys();
    hide Low48, RoundKey, Reached;
    Next(0x0, ks, 0xCC00CCFF, 0xF0AAF0AA, 12, 0xC5783C78, 0x75BD1858, 0x97C5D1, 0xFABA41,
         0x18C3155A);
    Next(0x0, ks, 0xCC00CCFF, 0xF0AAF0AA, 13, 0x75BD1858, 0x18C3155A, 0x5F43B7, 0xF2E73A,
         0xC28C960D);
    Next(0x0, ks, 0xCC00CCFF, 0xF0AAF0AA, 14, 0x18C3155A, 0xC28C960D, 0xBF918D, 0x3D3F0A,
         0x43423234);
    Next(0x0, ks, 0xCC00CCFF, 0xF0AAF0AA, 15, 0xC28C960D, 0x43423234, 0xCB3D8B, 0xE17F5,
         0xA4CD995);
  }

  lemma StandardLeftBit(i: nat)
    requires i < 32
    ensures Bit64(0x1234567, 0x89ABCDEF, InitialPerm(i) - 1) == Bit(0xCC00CCFF, i)
  {
    InitialPermValues();
    BitMasks(0x1234567);
    BitMasks(0x89ABCDEF);
    BitMasks(0xCC00CCFF);
    hide InitialPerm, Bit, Mask;
  }

  lemma StandardRightBit(i: nat)
    requires i < 32
    ensures Bit64(0x1234567, 0x89ABCDEF, InitialPerm(32 + i) - 1) == Bit(0xF0AAF0AA, i)
  {
    InitialPermValues32();
    BitMasks(0x1234567);
    BitMasks(0x89ABCDEF);
    BitMasks(0xF0AAF0AA);
    hide InitialPerm, Bit, Mask;
  }

  lemma StandardHighBit(i: nat)
    requires i < 32
    ensures Bit64(0xA4CD995, 0x43423234, FinalPerm(i) - 1) == Bit(0x85E81354, i)
  {
    FinalPermValues();
    BitMasks(0xA4CD995);
    BitMasks(0x43423234);
    BitMasks(0x85E81354);
    hide FinalPerm, Bit, Mask;
  }

  lemma StandardLowBit(i: nat)
    requires i < 32
    ensures Bit64(0xA4CD995, 0x43423234, FinalPerm(32 + i) - 1) == Bit(0xF0AB405, i)
  {
    FinalPermValues32();
    BitMasks(0xA4CD995);
    BitMasks(0x43423234);
    BitMasks(0xF0AB405);
    hide FinalPerm, Bit, Mask;
  }

  lemma StandardInitial()
    ensures InitialPermutation(Word64(0x1234567, 0x89ABCDEF)) == Word64(0xCC00CCFF, 0xF0AAF0AA)
  {
    hide Bit, InitialPerm;
    var a, b := InitialPermutation(Word64(0x1234567, 0x89ABCDEF)), Word64(0xCC00CCFF, 0xF0AAF0AA);
    forall i | 0 <= i < 64
      ensures a[i] == b[i]
    {
      if i < 32 {
        StandardLeftBit(i);
      } else {
        StandardRightBit(i - 32);
      }
    }
  }

  lemma StandardFinal()
    ensures FinalPermutation(Word64(0xA4CD995, 0x43423234)) == Word64(0x85E81354, 0xF0AB405)
  {
    hide Bit, FinalPerm;
    var a, b := FinalPermutation(Word64(0xA4CD995, 0x43423234)), Word64(0x85E81354, 0xF0AB405);
    forall i | 0 <= i < 64
      ensures a[i] == b[i]
    {
      if i < 32 {
        StandardHighBit(i);
      } else {
        StandardLowBit(i - 32);
      }
    }
  }

  lemma StandardAnswer()
    ensures Encipher(Low(0x0, 24), KeySchedule(Word64(0x13345779, 0x9BBCDFF1)), Word64(0x1234567, 0x89ABCDEF))
            == Word64(0x85E81354, 0xF0AB405)
  {
    hide Low, KeySchedule, Rounds, InitialPermutation, FinalPermutation;
    var ks := KeySchedule(Word64(0x13345779, 0x9BBCDFF1));
    ReachedStart(0x0, ks, 0xCC00CCFF, 0xF0AAF0AA);
    StandardRounds1(ks);
    StandardRounds2(ks);
    StandardRounds3(ks);
    StandardRounds4(ks);
    assert ks[..16] == ks;
    StandardInitial();
    SplitBlock(Halves(Low(0xCC00CCFF, 32), Low(0xF0AAF0AA, 32)));
    StandardFinal();
  }

  // ----- Salts, keys and printed answers of crypt(3) -----

  lemma SaltValueBit(n: nat, j: nat)
    requires (n == 55 || n == 49) && j < 6
    ensures n / Pow2(j) % 2 == 1 <==> j == 0 || j == 4 || j == 5 || (n == 55 && (j == 1 || j == 2))
  {
    assert Pow2(0) == 1 && Pow2(1) == 2 && Pow2(2) == 4 && Pow2(3) == 8 && Pow2(4) == 16 && Pow2(5) == 32;
    hide Pow2;
    if j < 3 {
      assert j == 0 || j == 1 || j == 2;
    } else {
      assert j == 3 || j == 4 || j == 5;
    }
  }

  lemma SaltKnownBit(k: nat)
    requires k < 24
    ensures SaltBit('r', 'l', k) == Bit(0xEE3000, 8 + k)
  {
    BitMasks(0xEE3000);
    hide Bit, Mask, Pow2;
    SaltValueBit(55, k % 6);
    SaltValueBit(49, k % 6);
  }

  /** The salt "rl". */
  lemma SaltKnown()
    ensures SaltBits('r', 'l') == Low(0xEE3000, 24)
  {
    hide Bit, SaltBit;
    forall k | 0 <= k < 24
      ensures SaltBits('r', 'l')[k] == Low(0xEE3000, 24)[k]
    {
      SaltKnownBit(k);
    }
  }

  /** Two rounds under this salt. */
  lemma SaltedRounds()
    ensures Round(SaltBits('r', 'l'), Round(SaltBits('r', 'l'), Halves(Low(0x1234567, 32), Low(0x89ABCDEF, 32)),
                                            Low48(0x1B02EF, 0xFC7072)), Low48(0x79AED9, 0xDBC9E5))
         == Halves(Low(0x8FAEF5E8, 32), Low(0xC44079A4, 32))
  {
    hide Low, Low48, Round, SaltBits;
    SaltKnown();
    RoundIs(0xEE3000, 0x1234567, 0x89ABCDEF, 0x1B02EF, 0xFC7072);
    RoundIs(0xEE3000, 0x89ABCDEF, 0x8FAEF5E8, 0x79AED9, 0xDBC9E5);
    assert Xor32(0x1234567, CipherWord(0xEE3000, 0x89ABCDEF, 0x1B02EF, 0xFC7072)) == 0x8FAEF5E8;
    assert Xor32(0x89ABCDEF, CipherWord(0xEE3000, 0x8FAEF5E8, 0x79AED9, 0xDBC9E5)) == 0xC44079A4;
  }

  /** The key that "rasmuslerdorf" makes: eight characters of seven bits. */
  lemma KeyKnown()
    ensures KeyOf(KeyChars("rasmuslerdorf")) == Word64(0xE4C2E6DA, 0xEAE6D8CA)
  {
    hide Bit, OfNat;
    var chars, w := KeyChars("rasmuslerdorf"), Word64(0xE4C2E6DA, 0xEAE6D8CA);
    forall c | 0 <= c < 64
      ensures KeyOf(chars)[c] == w[c]
    {
      KeyKnownBit(chars, c);
    }
  }

  lemma EightBits(a: bool, b: bool, c: bool, d: bool, e: bool, f: bool, g: bool, h: bool)
    ensures OfNat(16 * Value4(a, b, c, d) + Value4(e, f, g, h), 8) == [a, b, c, d, e, f, g, h]
  {
    hide OfNat, ToNat;
    var hi, lo := [a, b, c, d], [e, f, g, h];
    FourBits(a, b, c, d);
    FourBits(e, f, g, h);
    ToNatConcat(hi, lo);
    Pow2Values();
    assert hi + lo == [a, b, c, d, e, f, g, h];
    OfToNat(hi + lo);
  }

  lemma CharsKnown()
    ensures OfNat(97, 8) == [false, true, true, false, false, false, false, true]
    ensures OfNat(101, 8) == [false, true, true, false, false, true, false, true]
    ensures OfNat(108, 8) == [false, true, true, false, true, true, false, false]
    ensures OfNat(109, 8) == [false, true, true, false, true, true, false, true]
    ensures OfNat(114, 8) == [false, true, true, true, false, false, true, false]
    ensures OfNat(115, 8) == [false, true, true, true, false, false, true, true]
    ensures OfNat(117, 8) == [false, true, true, true, false, true, false, true]
  {
    hide OfNat;
    EightBits(false, true, true, false, false, false, false, true);
    EightBits(false, true, true, false, false, true, false, true);
    EightBits(false, true, true, false, true, true, false, false);
    EightBits(false, true, true, false, true, true, false, true);
    EightBits(false, true, true, true, false, false, true, false);
    EightBits(false, true, true, true, false, false, true, true);
    EightBits(false, true, true, true, false, true, false, true);
  }

  lemma KeyKnownBit(chars: seq<nat>, c: nat)
    requires chars == KeyChars("rasmuslerdorf") && c < 64
    ensures KeyOf(chars)[c] == Bit64(0xE4C2E6DA, 0xEAE6D8CA, c)
  {
    CharsKnown();
    BitMasks(0xE4C2E6DA);
    BitMasks(0xEAE6D8CA);
    hide Bit, Mask, OfNat;
    assert chars == [114, 97, 115, 109, 117, 115, 108, 101];
  }

  lemma SixValue(a: bool, b: bool, c: bool, d: bool, e: bool, f: bool)
    ensures ToNat([a, b, c, d, e, f]) == 4 * Value4(a, b, c, d) + 2 * BitValue(e) + BitValue(f)
  {
    hide ToNat;
    FourBits(a, b, c, d);
    ToNatNext([a, b, c, d], e);
    ToNatNext([a, b, c, d, e], f);
    assert [a, b, c, d] + [e] == [a, b, c, d, e] && [a, b, c, d, e] + [f] == [a, b, c, d, e, f];
  }

  /** One printed character. */
  lemma PrintedAt(block: W64, i: nat, a: bool, b: bool, c: bool, d: bool, e: bool, f: bool, ch: char)
    requires i < 11
    requires var w := block + Zeros(2);
             && w[6 * i] == a && w[6 * i + 1] == b && w[6 * i + 2] == c && w[6 * i + 3] == d && w[6 * i + 4] == e
             && w[6 * i + 5] == f
    requires ch == BinToAscii(4 * Value4(a, b, c, d) + 2 * BitValue(e) + BitValue(f))
    ensures Printed(block)[i] == ch
  {
    hide ToNat, BinToAscii;
    var w := block + Zeros(2);
    SixValue(a, b, c, d, e, f);
    assert w[6 * i..6 * i + 6] == [a, b, c, d, e, f];
  }

  lemma PrintableValues()
    ensures BinToAscii(0) == '.'
    ensures BinToAscii(5) == '3'
    ensures BinToAscii(6) == '4'
    ensures BinToAscii(10) == '8'
    ensures BinToAscii(22) == 'K'
    ensures BinToAscii(24) == 'M'
    ensures BinToAscii(30) == 'S'
    ensures BinToAscii(31) == 'T'
    ensures BinToAscii(57) == 't'
  {
  }

  lemma PrintedFirst(block: W64)
    requires block == Word64(0x57B959, 0xF0067CA6)
    ensures Printed(block)[0] == '.'
    ensures Printed(block)[1] == '3'
    ensures Printed(block)[2] == 'S'
    ensures Printed(block)[3] == 't'
  {
    BitMasks(0x57B959);
    BitMasks(0xF0067CA6);
    hide Bit, Mask, ToNat, Printed, BinToAscii;
    PrintableValues();
    PrintedAt(block, 0, false, false, false, false, false, false, '.');
    PrintedAt(block, 1, false, false, false, true, false, true, '3');
    PrintedAt(block, 2, false, true, true, true, true, false, 'S');
    PrintedAt(block, 3, true, true, true, false, false, true, 't');
  }

  lemma PrintedNext(block: W64)
    requires block == Word64(0x57B959, 0xF0067CA6)
    ensures Printed(block)[4] == 'K'
    ensures Printed(block)[5] == 'T'
    ensures Printed(block)[6] == '.'
    ensures Printed(block)[7] == '4'
  {
    BitMasks(0x57B959);
    BitMasks(0xF0067CA6);
    hide Bit, Mask, ToNat, Printed, BinToAscii;
    PrintableValues();
    PrintedAt(block, 4, false, true, false, true, true, false, 'K');
    PrintedAt(block, 5, false, true, true, true, true, true, 'T');
    PrintedAt(block, 6, false, false, false, false, false, false, '.');
    PrintedAt(block, 7, false, false, false, true, true, false, '4');
  }

  lemma PrintedLast(block: W64)
    requires block == Word64(0x57B959, 0xF0067CA6)
    ensures Printed(block)[8] == 'T'
    ensures Printed(block)[9] == '8'
    ensures Printed(block)[10] == 'M'
  {
    BitMasks(0x57B959);
    BitMasks(0xF0067CA6);
    hide Bit, Mask, ToNat, Printed, BinToAscii;
    PrintableValues();
    PrintedAt(block, 8, false, true, true, true, true, true, 'T');
    PrintedAt(block, 9, false, false, true, false, true, false, '8');
    PrintedAt(block, 10, false, true, true, false, false, false, 'M');
  }

  /** The last block of crypt("rasmuslerdorf", "rl"), and how it is printed. */
  lemma PrintedKnown()
    ensures Printed(Word64(0x57B959, 0xF0067CA6)) == ".3StKT.4T8M"
  {
    var block := Word64(0x57B959, 0xF0067CA6);
    hide Printed, Word64;
    PrintedFirst(block);
    PrintedNext(block);
    PrintedLast(block);
  }

  lemma NoSalt()
    ensures Low(0x0, 24) == Zeros(24)
  {
    BitMasks(0x0);
    hide Bit, Mask;
  }

  /** The same answer from setkey and encrypt, one char a bit: flag 0 enciphers, and any
      other flag gives the block back. */
  lemma EncryptKnown(flag: int)
    requires flag != 0
    ensures var ks := SetkeySchedule(BlockChars(Word64(0x13345779, 0x9BBCDFF1)));
            var plain, cipher := BlockChars(Word64(0x1234567, 0x89ABCDEF)), BlockChars(Word64(0x85E81354, 0xF0AB405));
            Crypted(ks, plain, 0) == cipher && Crypted(ks, cipher, flag) == plain
  {
    hide Word64, Low, Encipher, Decipher, KeySchedule, KeyBits, BlockBits, BlockChars;
    var key, plain := Word64(0x13345779, 0x9BBCDFF1), Word64(0x1234567, 0x89ABCDEF);
    ZeroOneKey(BlockChars(key));
    BitsOfChars(key);
    BitsOfChars(plain);
    NoSalt();
    StandardAnswer();
    CryptedTwice(SetkeySchedule(BlockChars(key)), BlockChars(plain), 0, flag);
  }
}
