/** The 32-bit version of UFC-crypt: every 64-bit word of the other version is a
    pair of 32-bit words.  Each routine here does to the pairs what its 64-bit
    counterpart does to the words. */
module Ufc32 {
  import opened Bits
  import opened DesTables
  import opened Des
  import opened Expanded
  import opened Packing
  import opened TableMeaning
  import opened SbTables
  import opened KeyRotation
  import opened UfcWords
  import opened BuildTables
  import opened StaticTables
  import opened UfcCrypt

  /** Entry i of the tables is the pair at words 2i and 2i + 1. */
  ghost predicate PairsHold(sb: array<W32>, salt: W24)
    reads sb
  {
    sb.Length == 32768 && forall i :: 0 <= i < 16384 ==> Join(sb[2 * i], sb[2 * i + 1]) == SbWord(salt, i)
  }

  ghost predicate KeyPairsHold(keysched: array<W32>, ks: seq<W48>)
    reads keysched
  {
    && keysched.Length == 32 && |ks| == 16
    && forall i :: 0 <= i < 16 ==>
         keysched[2 * i] == Tagged24(HalfOf(ks[i], 0)) && keysched[2 * i + 1] == Tagged24(HalfOf(ks[i], 1))
  }

  // ----- __init_des_r -----

  /** One pair: both words of the entry, from the same four bytes. */
  method SbPair(tables: Tables, sg: nat, j1: nat, j2: nat) returns (first: W32, second: W32)
    requires tables.Ready() && sg < 4 && j1 < 64 && j2 < 64
    ensures Join(first, second) == SbWord(Zeros(24), 4096 * sg + 64 * j1 + j2)
  {
    hide Image, Permute, ToPermute, SLookup, Pack24, Pack48, SbWord, Expand, Join;
    var toPermute := ToPermute(sg, SLookup(2 * sg, j1), SLookup(2 * sg + 1, j2));
    first := EpermLookups(tables, toPermute, 0);
    second := EpermLookups(tables, toPermute, 1);
    UnsaltedImage(Permute(toPermute));
    CellValue(sg, j1, j2);
  }

  ghost predicate PairsPrefix(sb: array<W32>, n: nat)
    reads sb
  {
    && sb.Length == 32768 && n <= 16384
    && forall i :: 0 <= i < n ==> Join(sb[2 * i], sb[2 * i + 1]) == SbWord(Zeros(24), i)
  }

  /** The loops that fill the tables, 4096 pairs each. */
  method FillSb(tables: Tables, sb: array<W32>)
    requires tables.Ready() && sb.Length == 32768 && sb as object !in tables.Repr
    modifies sb
    ensures PairsHold(sb, Zeros(24))
  {
    hide SbWord, Join, Tables.Ready;
    for sg := 0 to 4
      invariant PairsPrefix(sb, 4096 * sg) && tables.Ready()
    {
      for j1 := 0 to 64
        invariant PairsPrefix(sb, 4096 * sg + 64 * j1) && tables.Ready()
      {
        for j2 := 0 to 64
          invariant PairsPrefix(sb, 4096 * sg + 64 * j1 + j2) && tables.Ready()
        {
          var first, second := SbPair(tables, sg, j1, j2);
          var inx := 2 * (64 * j1 + j2);
          sb[8192 * sg + inx], sb[8192 * sg + inx + 1] := first, second;
        }
      }
    }
  }

  // ----- shuffle_sb -----

  lemma JoinInjective(a: W32, b: W32, c: W32, d: W32)
    requires Join(a, b) == Join(c, d)
    ensures a == c && b == d
  {
    var x := Join(a, b);
    assert a == x[..32] && b == x[32..] && c == x[..32] && d == x[32..];
  }

  lemma PairShuffled(k0: W32, k1: W32, d: W24, salt: W24, i: nat)
    requires i < 16384 && Join(k0, k1) == SbWord(salt, i)
    ensures Join(ShufflePair(k0, k1, Pack24(d)).0, ShufflePair(k0, k1, Pack24(d)).1) == SbWord(Xor(d, salt), i)
  {
    hide SbWord, Pack24, ShuffleWord, ShufflePair;
    ShuffleAgrees(k0, k1, Pack24(d));
    ShuffleEntry(d, salt, i);
  }

  /** shuffle_sb on all four tables; 4096 pairs each. */
  method ShuffleSb(sb: array<W32>, saltbits: W32, ghost d: W24, ghost salt: W24)
    requires PairsHold(sb, salt) && saltbits == Pack24(d)
    modifies sb
    ensures PairsHold(sb, Xor(d, salt))
  {
    hide SbWord, Pack24, ShufflePair, Join;
    for i := 0 to 16384
      invariant forall j :: 0 <= j < 16384 ==>
                  Join(sb[2 * j], sb[2 * j + 1]) == SbWord(if j < i then Xor(d, salt) else salt, j)
    {
      PairShuffled(sb[2 * i], sb[2 * i + 1], d, salt, i);
      var p := ShufflePair(sb[2 * i], sb[2 * i + 1], saltbits);
      sb[2 * i] := p.0;
      sb[2 * i + 1] := p.1;
    }
  }

  // ----- _ufc_mk_keytab_r with 32-bit ufc_long -----

  /** With only four spare bits the registers lose most of the pile-up, and still
      every subkey is right. */
  method MkKeytab(tables: Tables, key: seq<nat>, keysched: array<W32>)
    requires tables.Ready() && |key| == 8 && keysched.Length == 32
    modifies keysched
    requires keysched as object !in tables.Repr
    ensures KeyPairsHold(keysched, KeySchedule(KeyOf(key)))
  {
    hide KeyRegister, Turn, KeyOf, Unmasked, Choice2, Tagged24, HalfOf, Turns, KeySchedule, Tables.Ready;
    ghost var ks := KeySchedule(KeyOf(key));
    var v1, v2 := LoadRegisters(tables, key, 32);
    for i := 0 to 16
      invariant tables.Ready()
      invariant v1 == Unmasked(KeyRegister(KeyOf(key), 0), if i == 0 then 0 else Turns(i - 1), 32)
      invariant v2 == Unmasked(KeyRegister(KeyOf(key), 1), if i == 0 then 0 else Turns(i - 1), 32)
      invariant forall j :: 0 <= j < i ==>
                  keysched[2 * j] == Tagged24(HalfOf(ks[j], 0)) && keysched[2 * j + 1] == Tagged24(HalfOf(ks[j], 1))
    {
      var k1, k2;
      v1, k1 := NextSubkey(tables, v1, i, 0, KeyOf(key));
      v2, k2 := NextSubkey(tables, v2, i, 1, KeyOf(key));
      keysched[2 * i] := k1;
      keysched[2 * i + 1] := k2;
    }
  }

  /** Turns one register and chooses its half of round key i. */
  method NextSubkey(tables: Tables, v: W32, i: nat, half: nat, ghost key: W64) returns (v': W32, k: W32)
    requires tables.Ready() && i < 16 && half < 2
    requires v == Unmasked(KeyRegister(key, half), if i == 0 then 0 else Turns(i - 1), 32)
    ensures v' == Unmasked(KeyRegister(key, half), Turns(i), 32)
    ensures k == Tagged24(HalfOf(KeySchedule(key)[i], half))
  {
    hide KeyRegister, Turn, Unmasked, Choice2, Tagged24, HalfOf, Turns, KeySchedule, Rots;
    ghost var c := KeyRegister(key, half);
    TurnsNext(i);
    UnmaskedStep(c, if i == 0 then 0 else Turns(i - 1), Rots(i), 32);
    v' := UfcTurn(v, Rots(i));
    var w := ChooseHalf(tables, v', half, c, Turns(i));
    k := Or(w, TAG);
    TagPacked(Choice2(Turn(c, Turns(i)), half));
    KeyHalves(key, i);
  }

  lemma KeyHalves(key: W64, i: nat)
    requires i < 16
    ensures HalfOf(KeySchedule(key)[i], 0) == Choice2(Turn(KeyRegister(key, 0), Turns(i)), 0)
    ensures HalfOf(KeySchedule(key)[i], 1) == Choice2(Turn(KeyRegister(key, 1), Turns(i)), 1)
  {
    hide KeyRegister, Turn, Choice2;
  }

  // ----- _ufc_doit_r, 32-bit version -----

  /** SBA: the two 32-bit words of the entry at a byte offset and four above it. */
  method Sba(sb: array<W32>, pair: nat, offset: nat, ghost salt: W24, ghost y: W48, ghost g: nat)
    returns (first: W32, second: W32)
    requires PairsHold(sb, salt) && pair < 2 && g < 4 && pair == g / 2
    requires offset == ToNat(LaneOf(y, g))
    ensures Join(first, second) == GroupWord(salt, y, g)
  {
    hide SbWord, GroupWord, LaneOf, Join, ToNat;
    EntriesRead(salt, y);
    ghost var i := 8192 * pair + offset / 8;
    first := sb[16384 * pair + offset / 4];
    second := sb[16384 * pair + (offset + 4) / 4];
    assert offset % 8 == 0;
    assert first == sb[2 * i] && second == sb[2 * i + 1];
  }

  lemma JoinXor(a: W32, b: W32, c: W32, d: W32)
    ensures Join(Xor(a, c), Xor(b, d)) == Xor(Join(a, b), Join(c, d))
  {
    XorConcat(a, b, c, d);
  }

  lemma XorChain32(l: Word, a: Word, b: Word, c: Word, d: Word)
    requires |l| == |a| == |b| == |c| == |d|
    ensures Xor(Xor(Xor(Xor(l, b), a), d), c) == Xor(l, XorAll(a, b, c, d))
  {
  }

  /** Two lookups with one key word: the low lane, then the high lane. */
  method TwoLookups(sb: array<W32>, l1: W32, l2: W32, r: W32, k: W32, pair: nat, ghost salt: W24, ghost y: W48)
    returns (m1: W32, m2: W32)
    requires PairsHold(sb, salt) && pair < 2
    requires Xor(k, r) == LaneOf(y, 2 * pair) + LaneOf(y, 2 * pair + 1)
    ensures Join(m1, m2) == Xor(Xor(Join(l1, l2), GroupWord(salt, y, 2 * pair + 1)), GroupWord(salt, y, 2 * pair))
  {
    hide PairsHold, GroupWord, LaneOf, Join, Shr, ToNat, XorAll;
    LanesOfHalf(LaneOf(y, 2 * pair), LaneOf(y, 2 * pair + 1));
    var s: W32 := Xor(k, r);
    var lo1, lo2 := Sba(sb, pair, ToNat(Field(s, 0, 16)), salt, y, 2 * pair + 1);
    JoinXor(l1, l2, lo1, lo2);
    m1, m2 := Xor(l1, lo1), Xor(l2, lo2);
    s := Shr(s, 16);
    var hi1, hi2 := Sba(sb, pair, ToNat(s), salt, y, 2 * pair);
    JoinXor(m1, m2, hi1, hi2);
    m1, m2 := Xor(m1, hi1), Xor(m2, hi2);
  }

  lemma TaggedHalves(y: W48)
    ensures Tagged24(HalfOf(y, 0)) == LaneOf(y, 0) + LaneOf(y, 1)
    ensures Tagged24(HalfOf(y, 1)) == LaneOf(y, 2) + LaneOf(y, 3)
  {
    assert HalfOf(y, 0)[..12] == Group(y, 0) && HalfOf(y, 0)[12..] == Group(y, 1);
    assert HalfOf(y, 1)[..12] == Group(y, 2) && HalfOf(y, 1)[12..] == Group(y, 3);
  }

  method HalfRound(sb: array<W32>, l1: W32, l2: W32, r1: W32, r2: W32, k1: W32, k2: W32,
                   ghost salt: W24, ghost x: W48, ghost kk: W48) returns (m1: W32, m2: W32)
    requires PairsHold(sb, salt)
    requires r1 == Pack24(HalfOf(x, 0)) && r2 == Pack24(HalfOf(x, 1))
    requires k1 == Tagged24(HalfOf(kk, 0)) && k2 == Tagged24(HalfOf(kk, 1))
    ensures Join(m1, m2) == Xor(Join(l1, l2), Pack48(WideCipher(salt, Xor(x, kk))))
  {
    hide Pack24, Pack48, Tagged24, HalfOf, LaneOf, GroupWord, WideCipher, PairsHold, Join, XorAll;
    ghost var y := Xor(x, kk);
    XorSwap(kk, x);
    XorHalves(kk, x, 0);
    XorHalves(kk, x, 1);
    TaggedXor24(HalfOf(kk, 0), HalfOf(x, 0));
    TaggedXor24(HalfOf(kk, 1), HalfOf(x, 1));
    TaggedHalves(y);
    m1, m2 := TwoLookups(sb, l1, l2, r1, k1, 0, salt, y);
    m1, m2 := TwoLookups(sb, m1, m2, r2, k2, 1, salt, y);
    XorChain32(Join(l1, l2), GroupWord(salt, y, 0), GroupWord(salt, y, 1), GroupWord(salt, y, 2),
               GroupWord(salt, y, 3));
    FourWords(salt, y);
  }

  /** A packed pair. */
  ghost predicate Packed(a: W32, b: W32, x: W48) {
    a == Pack24(HalfOf(x, 0)) && b == Pack24(HalfOf(x, 1))
  }

  lemma PackedJoin(a: W32, b: W32, x: W48)
    ensures Join(a, b) == Pack48(x) <==> Packed(a, b, x)
  {
    hide Pack24;
    if Join(a, b) == Pack48(x) {
      JoinInjective(a, b, Pack24(HalfOf(x, 0)), Pack24(HalfOf(x, 1)));
    }
  }

  method HalfRoundPacked(sb: array<W32>, l1: W32, l2: W32, r1: W32, r2: W32, k1: W32, k2: W32,
                         ghost salt: W24, ghost w: Wide, ghost kk: W48) returns (m1: W32, m2: W32)
    requires PairsHold(sb, salt)
    requires Packed(l1, l2, w.l) && Packed(r1, r2, w.r)
    requires k1 == Tagged24(HalfOf(kk, 0)) && k2 == Tagged24(HalfOf(kk, 1))
    ensures Packed(m1, m2, WideRound(salt, w, kk).r)
  {
    hide PairsHold, Pack24, Pack48, Tagged24, WideCipher, HalfOf, Join;
    PackedJoin(l1, l2, w.l);
    m1, m2 := HalfRound(sb, l1, l2, r1, r2, k1, k2, salt, w.r, kk);
    PackXor(w.l, WideCipher(salt, Xor(w.r, kk)));
    PackedJoin(m1, m2, WideRound(salt, w, kk).r);
  }

  method Doit(itr: nat, sb: array<W32>, keysched: array<W32>, res: array<W32>,
              ghost salt: W24, ghost ks: seq<W48>, ghost w: Wide)
    requires PairsHold(sb, salt) && KeyPairsHold(keysched, ks)
    requires res.Length == 4 && res != sb && res != keysched
    requires Packed(res[0], res[1], w.l) && Packed(res[2], res[3], w.r)
    modifies res
    ensures Packed(res[0], res[1], WideRepeat(itr, salt, ks, w).l)
    ensures Packed(res[2], res[3], WideRepeat(itr, salt, ks, w).r)
  {
    hide PairsHold, KeyPairsHold, Packed, WideRounds;
    var l1, l2, r1, r2 := res[0], res[1], res[2], res[3];
    var left := itr;
    ghost var v := w;
    while left > 0
      invariant v == WideRepeat(itr - left, salt, ks, w)
      invariant Packed(l1, l2, v.l) && Packed(r1, r2, v.r)
    {
      left := left - 1;
      l1, l2, r1, r2, v := SixteenRounds(sb, keysched, l1, l2, r1, r2, salt, ks, v);
      var s := l1;
      l1 := r1;
      r1 := s;
      s := l2;
      l2 := r2;
      r2 := s;
      v := v.Swap();
    }
    res[0], res[1], res[2], res[3] := l1, l2, r1, r2;
  }

  method SixteenRounds(sb: array<W32>, keysched: array<W32>, a1: W32, a2: W32, b1: W32, b2: W32,
                       ghost salt: W24, ghost ks: seq<W48>, ghost w: Wide)
    returns (l1: W32, l2: W32, r1: W32, r2: W32, ghost v: Wide)
    requires PairsHold(sb, salt) && KeyPairsHold(keysched, ks)
    requires Packed(a1, a2, w.l) && Packed(b1, b2, w.r)
    ensures v == WideRounds(salt, ks, w)
    ensures Packed(l1, l2, v.l) && Packed(r1, r2, v.r)
  {
    hide PairsHold, Packed, Tagged24, HalfOf, WideCipher;
    l1, l2, r1, r2 := a1, a2, b1, b2;
    v := w;
    for i := 0 to 8
      invariant v == WideRounds(salt, ks[..2 * i], w)
      invariant Packed(l1, l2, v.l) && Packed(r1, r2, v.r)
    {
      var k := 4 * i;
      assert keysched[k] == keysched[2 * (2 * i)] && keysched[k + 2] == keysched[2 * (2 * i + 1)];
      l1, l2 := HalfRoundPacked(sb, l1, l2, r1, r2, keysched[k], keysched[k + 1], salt, v, ks[2 * i]);
      ghost var u := WideRound(salt, v, ks[2 * i]);
      r1, r2 := HalfRoundPacked(sb, r1, r2, l1, l2, keysched[k + 2], keysched[k + 3], salt, u, ks[2 * i + 1]);
      v := WideRound(salt, u, ks[2 * i + 1]);
      TwoRounds(salt, ks, i, w);
    }
    assert ks[..16] == ks;
  }

  // ----- The two versions agree -----

  /** Both versions, run on the same tables, schedule and state, leave the same
      four words, for any 48-bit states, not only images of half-blocks. */
  method BothVersions(itr: nat, data: CryptData, sb: array<W32>, keysched: array<W32>, start: seq<W32>,
                      ghost salt: W24, ghost ks: seq<W48>, ghost w: Wide) returns (res64: seq<W32>, res32: seq<W32>)
    requires data.SbHolds(salt) && data.KeysHold(ks)
    requires PairsHold(sb, salt) && KeyPairsHold(keysched, ks)
    requires |start| == 4 && Packed(start[0], start[1], w.l) && Packed(start[2], start[3], w.r)
    ensures res64 == res32 && |res32| == 4
    ensures Packed(res32[0], res32[1], WideRepeat(itr, salt, ks, w).l)
    ensures Packed(res32[2], res32[3], WideRepeat(itr, salt, ks, w).r)
  {
    hide PairsHold, KeyPairsHold, CryptData.SbHolds, CryptData.KeysHold, Packed, Pack48, Join, WideRepeat;
    PackedJoin(start[0], start[1], w.l);
    PackedJoin(start[2], start[3], w.r);
    var a := new W32[4](i requires 0 <= i < 4 => start[i]);
    var b := new W32[4](i requires 0 <= i < 4 => start[i]);
    data.Doit(itr, a, salt, ks, w);
    Doit(itr, sb, keysched, b, salt, ks, w);
    ghost var v := WideRepeat(itr, salt, ks, w);
    PackedJoin(a[0], a[1], v.l);
    PackedJoin(a[2], a[3], v.r);
    res64, res32 := a[..], b[..];
    SamePacked(a[0], a[1], b[0], b[1], v.l);
    SamePacked(a[2], a[3], b[2], b[3], v.r);
  }

  lemma SamePacked(a: W32, b: W32, c: W32, d: W32, x: W48)
    requires Packed(a, b, x) && Packed(c, d, x)
    ensures a == c && b == d
  {
  }
}
