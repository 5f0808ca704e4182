/** UFC-crypt's reentrant state and every operation on it, 64-bit version. */
module UfcCrypt {
  import opened Options
  import opened Bits
  import opened DesTables
  import opened Des
  import opened Expanded
  import opened Packing
  import opened SmallTables
  import opened Wiring
  import opened Lookup
  import opened TableMeaning
  import opened SbTables
  import opened BuildTables
  import opened KeyRotation
  import opened UfcWords
  import opened StaticTables
  import opened CryptSpec
  import opened BlockSpec
  import Md5Result

  /** struct crypt_data.  sb0..sb3 are adjacent in memory and are addressed as
      such, so they are one array here. */
  class CryptData {
    const tables: Tables
    const keysched: array<W64>
    const sb: array<W64>
    var crypt3Buf: string
    var currentSalt: (char, char)
    var currentSaltbits: W32
    var direction: int
    var initialized: nat

    ghost predicate Shaped() {
      && keysched.Length == 16 && sb.Length == 16384 && keysched != sb
      && keysched as object !in tables.Repr && sb as object !in tables.Repr && this !in tables.Repr
    }

    ghost predicate SbHolds(salt: W24)
      reads sb
    {
      sb.Length == 16384 && forall i :: 0 <= i < 16384 ==> sb[i] == SbWord(salt, i)
    }

    ghost predicate KeysHold(ks: seq<W48>)
      reads keysched
    {
      keysched.Length == 16 == |ks| && forall i :: 0 <= i < 16 ==> keysched[i] == Tagged48(ks[i])
    }

    /** The salt the tables are shuffled by: none right after initialization. */
    ghost function TableSalt(): W24
      reads this
    {
      if SaltChar(currentSalt.0) && SaltChar(currentSalt.1) then SaltBits(currentSalt.0, currentSalt.1) else Zeros(24)
    }

    /** Nothing is promised of a structure that is not initialized; of an
        initialized one, that the tables are the base tables shuffled by the
        salt on record, whatever calls came before. */
    ghost predicate Valid()
      reads this, sb, tables, tables.doPc1, tables.doPc2, tables.eperm32tab, tables.efp
    {
      && Shaped() && tables.Valid()
      && (initialized != 0 ==>
            && tables.initialized
            && (currentSalt == ('\0', '\0') || (SaltChar(currentSalt.0) && SaltChar(currentSalt.1)))
            && currentSaltbits == Pack24(TableSalt())
            && SbHolds(TableSalt()))
    }

    /** A structure "initialized to all zeroes", as crypt_r asks of its caller. */
    constructor (staticTables: Tables)
      requires staticTables.Valid()
      ensures Valid() && tables == staticTables && fresh(keysched) && fresh(sb) && initialized == 0
    {
      tables := staticTables;
      keysched := new W64[16](_ => Zeros(64));
      sb := new W64[16384](_ => Zeros(64));
      crypt3Buf := "";
      currentSalt := ('\0', '\0');
      currentSaltbits := Zeros(32);
      direction := 0;
      initialized := 0;
    }

    // ----- __init_des_r -----

    method InitDes()
      requires Valid() && initialized == 0
      modifies this, sb, tables.Repr
      ensures Valid() && initialized == 1 && currentSalt == ('\0', '\0')
      ensures crypt3Buf == old(crypt3Buf) && direction == old(direction)
    {
      hide SbHolds, Pack24, SaltBits;
      tables.Init();
      FillSb();
      currentSaltbits := Zeros(32);
      currentSalt := ('\0', '\0');
      initialized := initialized + 1;
      PackZero();
    }

    method FillSb()
      requires Shaped() && tables.Ready()
      modifies sb
      ensures SbHolds(Zeros(24))
    {
      hide SbWord;
      for sg := 0 to 4
        invariant SbPrefix(4096 * sg)
      {
        for j1 := 0 to 64
          invariant SbPrefix(4096 * sg + 64 * j1)
        {
          for j2 := 0 to 64
            invariant SbPrefix(4096 * sg + 64 * j1 + j2)
          {
            var w := SbCell(sg, j1, j2);
            sb[4096 * sg + 64 * j1 + j2] := w;
          }
        }
      }
    }

    ghost predicate SbPrefix(n: nat)
      reads sb
    {
      n <= 16384 == sb.Length && forall i :: 0 <= i < n ==> sb[i] == SbWord(Zeros(24), i)
    }

    /** One entry: two S-box lookups, then P and E through eperm32tab. */
    method SbCell(sg: nat, j1: nat, j2: nat) returns (w: W64)
      requires Shaped() && tables.Ready()
      requires sg < 4 && j1 < 64 && j2 < 64
      ensures w == SbWord(Zeros(24), 4096 * sg + 64 * j1 + j2)
    {
      hide Image, Permute, ToPermute, SLookup, Pack48, SbWord;
      var toPermute := ToPermute(sg, SLookup(2 * sg, j1), SLookup(2 * sg + 1, j2));
      w := PermuteAndExpand(toPermute);
      CellValue(sg, j1, j2);
    }

    method PermuteAndExpand(w: W32) returns (r: W64)
      requires Shaped() && tables.Ready()
      ensures r == Pack48(Image(Zeros(24), Permute(w)))
    {
      var hi := EpermLookups(tables, w, 0);
      var lo := EpermLookups(tables, w, 1);
      r := Join(hi, lo);
      UnsaltedWord(w);
    }

    // ----- _ufc_setup_salt_r -----

    /** shuffle_sb on the table that starts at entry `start`. */
    method ShuffleSb(start: nat, saltbits: W32, ghost d: W24, ghost salt: W24)
      requires sb.Length == 16384 && start + 4096 <= 16384 && saltbits == Pack24(d)
      requires forall i :: start <= i < start + 4096 ==> sb[i] == SbWord(salt, i)
      modifies sb
      ensures forall i :: start <= i < start + 4096 ==> sb[i] == SbWord(Xor(d, salt), i)
      ensures forall i :: 0 <= i < 16384 && !(start <= i < start + 4096) ==> sb[i] == old(sb[i])
    {
      hide SbWord, ShuffleWord, Pack24;
      var k := start;
      while k < start + 4096
        invariant start <= k <= start + 4096
        invariant forall i :: start <= i < k ==> sb[i] == SbWord(Xor(d, salt), i)
        invariant forall i :: 0 <= i < 16384 && !(start <= i < k) ==> sb[i] == old(sb[i])
      {
        ShuffleEntry(d, salt, k);
        sb[k] := ShuffleWord(sb[k], saltbits);
        k := k + 1;
      }
    }

    method ShuffleAll(saltbits: W32, ghost d: W24, ghost salt: W24)
      requires SbHolds(salt) && saltbits == Pack24(d)
      modifies sb
      ensures SbHolds(Xor(d, salt))
    {
      hide SbWord, Pack24;
      ShuffleSb(0, saltbits, d, salt);
      ShuffleSb(4096, saltbits, d, salt);
      ShuffleSb(8192, saltbits, d, salt);
      ShuffleSb(12288, saltbits, d, salt);
    }

    /** Makes the tables those of salt s, or reports a bad salt and leaves them. */
    method SetupSalt(s: string) returns (ok: bool)
      requires Valid()
      modifies this, sb, tables.Repr
      ensures Valid() && initialized != 0
      ensures ok == SaltOk(s)
      ensures currentSalt == if ok then (s[0], s[1]) else if old(initialized) == 0 then ('\0', '\0')
              else old(currentSalt)
      ensures crypt3Buf == old(crypt3Buf) && direction == old(direction)
    {
      hide SbHolds, Pack24;
      if initialized == 0 {
        InitDes();
      }
      var s0 := CharAt(s, 0);
      if !SaltChar(s0) {
        return false;
      }
      var s1 := CharAt(s, 1);
      if !SaltChar(s1) {
        return false;
      }
      if (s0, s1) == currentSalt {
        return true;
      }
      ghost var was := TableSalt();
      currentSalt := (s0, s1);
      var saltbits := SaltWord(s0, s1);
      ghost var now := SaltBits(s0, s1);
      PackXor24(was, now);
      ShuffleAll(Xor(currentSaltbits, saltbits), Xor(was, now), was);
      XorThere(was, now);
      currentSaltbits := saltbits;
      return true;
    }

    // ----- _ufc_mk_keytab_r -----

    /** The key registers of the password characters, then sixteen round keys. */
    method MkKeytab(key: seq<nat>)
      requires Shaped() && tables.Ready() && |key| == 8
      modifies keysched, this`direction
      ensures KeysHold(KeySchedule(KeyOf(key))) && direction == 0
    {
      hide KeyRegister, Turn, KeyOf, Unmasked, RoundKey, Tagged48, Turns, Rots;
      ghost var c, d := KeyRegister(KeyOf(key), 0), KeyRegister(KeyOf(key), 1);
      var v1, v2 := LoadRegisters(tables, key, 64);
      for i := 0 to 16
        invariant v1 == Unmasked(c, if i == 0 then 0 else Turns(i - 1), 64)
        invariant v2 == Unmasked(d, if i == 0 then 0 else Turns(i - 1), 64)
        invariant forall j :: 0 <= j < i ==> keysched[j] == Tagged48(RoundKey(KeyOf(key), j))
      {
        TurnsNext(i);
        UnmaskedStep(c, if i == 0 then 0 else Turns(i - 1), Rots(i), 64);
        UnmaskedStep(d, if i == 0 then 0 else Turns(i - 1), Rots(i), 64);
        v1 := UfcTurn(v1, Rots(i));
        var w1 := ChooseHalf(tables, v1, 0, c, Turns(i));
        var v := Shl(Zeros(32) + w1, 32);
        v2 := UfcTurn(v2, Rots(i));
        var w2 := ChooseHalf(tables, v2, 1, d, Turns(i));
        v := Or(v, Zeros(32) + w2);
        keysched[i] := Or(v, TAG + TAG);
        TaggedKey(Choice2(Turn(c, Turns(i)), 0), Choice2(Turn(d, Turns(i)), 1));
        RoundKeyIs(KeyOf(key), i);
      }
      direction := 0;
    }

    // ----- _ufc_doit_r, 64-bit version -----

    /** SBA: the table entry at a byte offset from sb0 (pair 0) or sb2 (pair 1).
        The offset must be that of a whole entry of the pair. */
    method Sba(pair: nat, offset: nat) returns (entry: W64)
      requires sb.Length == 16384 && pair < 2
      requires offset % 8 == 0 && offset / 8 < 8192
      ensures entry == sb[8192 * pair + offset / 8]
    {
      entry := sb[8192 * pair + offset / 8];
    }

    /** `s = k ^ r; l ^= ...` four times: each lane of s is an entry offset. */
    method HalfRound(l: W64, r: W64, k: W64, ghost salt: W24, ghost x: W48, ghost kk: W48) returns (l': W64)
      requires SbHolds(salt) && r == Pack48(x) && k == Tagged48(kk)
      ensures l' == Xor(l, Pack48(WideCipher(salt, Xor(x, kk))))
    {
      hide Pack48, Tagged48, SbWord, WideCipher, GroupWord, LaneOf, Group, Shr, ToNat;
      TaggedXor(kk, x);
      XorSwap(kk, x);
      ghost var y := Xor(x, kk);
      TaggedLanes(y);
      LanesFromLow(LaneOf(y, 0), LaneOf(y, 1), LaneOf(y, 2), LaneOf(y, 3));
      EntriesRead(salt, y);
      var s: W64 := Xor(k, r);
      var e3 := Sba(1, ToNat(Field(s, 0, 16)));
      l' := Xor(l, e3);
      s := Shr(s, 16);
      var e2 := Sba(1, ToNat(Field(s, 0, 16)));
      l' := Xor(l', e2);
      s := Shr(s, 16);
      var e1 := Sba(0, ToNat(Field(s, 0, 16)));
      l' := Xor(l', e1);
      s := Shr(s, 16);
      var e0 := Sba(0, ToNat(s));
      l' := Xor(l', e0);
      XorChain(l, e0, e1, e2, e3);
      FourWords(salt, y);
    }

    /** itr times sixteen rounds, the two halves updated in turn and exchanged
        once at the end of each sixteen. */
    method Doit(itr: nat, res: array<W32>, ghost salt: W24, ghost ks: seq<W48>, ghost w: Wide)
      requires res.Length == 4 && SbHolds(salt) && KeysHold(ks)
      requires Join(res[0], res[1]) == Pack48(w.l) && Join(res[2], res[3]) == Pack48(w.r)
      modifies res
      ensures Join(res[0], res[1]) == Pack48(WideRepeat(itr, salt, ks, w).l)
      ensures Join(res[2], res[3]) == Pack48(WideRepeat(itr, salt, ks, w).r)
    {
      hide Pack48, Tagged48, SbWord, WideCipher;
      var l: W64 := Join(res[0], res[1]);
      var r: W64 := Join(res[2], res[3]);
      var left := itr;
      ghost var v := w;
      while left > 0
        invariant v == WideRepeat(itr - left, salt, ks, w)
        invariant l == Pack48(v.l) && r == Pack48(v.r)
      {
        left := left - 1;
        l, r, v := SixteenRounds(l, r, salt, ks, v);
        l, r := r, l;
        v := v.Swap();
      }
      res[0], res[1] := l[..32], l[32..];
      res[2], res[3] := r[..32], r[32..];
      assert l[..32] + l[32..] == l && r[..32] + r[32..] == r;
    }

    method SixteenRounds(l0: W64, r0: W64, ghost salt: W24, ghost ks: seq<W48>, ghost w: Wide)
      returns (l: W64, r: W64, ghost v: Wide)
      requires SbHolds(salt) && KeysHold(ks)
      requires l0 == Pack48(w.l) && r0 == Pack48(w.r)
      ensures v == WideRounds(salt, ks, w)
      ensures l == Pack48(v.l) && r == Pack48(v.r)
    {
      hide Pack48, Tagged48, SbWord, WideCipher;
      l, r := l0, r0;
      v := w;
      for i := 0 to 8
        invariant v == WideRounds(salt, ks[..2 * i], w)
        invariant l == Pack48(v.l) && r == Pack48(v.r)
      {
        l := HalfRound(l, r, keysched[2 * i], salt, v.r, ks[2 * i]);
        PackXor(v.l, WideCipher(salt, Xor(v.r, ks[2 * i])));
        ghost var u := WideRound(salt, v, ks[2 * i]);
        r := HalfRound(r, l, keysched[2 * i + 1], salt, u.r, ks[2 * i + 1]);
        PackXor(u.l, WideCipher(salt, Xor(u.r, ks[2 * i + 1])));
        v := WideRound(salt, u, ks[2 * i + 1]);
        TwoRounds(salt, ks, i, w);
      }
      assert ks[..16] == ks;
    }

    // ----- _ufc_dofinalperm_r -----

    /** Undoes the salt swap and the expansion and applies the final permutation. */
    method DoFinalPerm(res: array<W32>, ghost salt: W24, ghost h: Halves)
      requires Shaped() && tables.Ready() && res.Length == 4 && currentSaltbits == Pack24(salt)
      requires Join(res[0], res[1]) == Pack48(Image(salt, h.l)) && Join(res[2], res[3]) == Pack48(Image(salt, h.r))
      requires res !in tables.Repr
      modifies res
      ensures Join(res[0], res[1]) == FinalPermutation(h.Block())
    {
      hide Pack48, Pack24, HalfOf, Expand, SaltSwap, ShufflePair, FinalPermutation, OrRows, Shr, ToNat, EfpWires;
      Unsalt(salt, Expand(h.l), res[0], res[1]);
      Unsalt(salt, Expand(h.r), res[2], res[3]);
      var (l1, l2) := ShufflePair(res[0], res[1], currentSaltbits);
      var (r1, r2) := ShufflePair(res[2], res[3], currentSaltbits);
      ghost var x := Expand(h.l) + Expand(h.r);
      ghost var index := seq(16, r requires 0 <= r < 16 => ToNat(x[6 * r..6 * r + 6]));
      ghost var ws := EfpWires(tables.inverse);
      Quarters(h, index);
      OrRowsNone(ws, index, 16, 0);
      OrRowsNone(ws, index, 16, 1);
      var v1, v2 := Zeros(32), Zeros(32);
      v1, v2 := EfpQuarter(Shr(r2, 3), 12, v1, v2, HalfOf(Expand(h.r), 1), index);
      v1, v2 := EfpQuarter(Shr(r1, 3), 8, v1, v2, HalfOf(Expand(h.r), 0), index);
      v1, v2 := EfpQuarter(Shr(l2, 3), 4, v1, v2, HalfOf(Expand(h.l), 1), index);
      v1, v2 := EfpQuarter(Shr(l1, 3), 0, v1, v2, HalfOf(Expand(h.l), 0), index);
      res[0], res[1] := v1, v2;
      EfpLookup(tables.inverse, h, index);
    }

    /** Four six-bit lookups, ORed into the two result words. */
    method EfpQuarter(w: W32, base: nat, v1: W32, v2: W32, ghost a: W24, ghost index: seq<nat>)
      returns (u1: W32, u2: W32)
      requires Shaped() && tables.Ready() && base <= 12 && |index| == 16
      requires w == Shr(Pack24(a), 3) && Quarter(a, base, index)
      requires v1 == OrRows(EfpWires(tables.inverse), index, base + 4, 16, 0)
      requires v2 == OrRows(EfpWires(tables.inverse), index, base + 4, 16, 1)
      ensures u1 == OrRows(EfpWires(tables.inverse), index, base, 16, 0)
      ensures u2 == OrRows(EfpWires(tables.inverse), index, base, 16, 1)
    {
      SixFields(a);
      var x := w;
      u1, u2 := EfpRow(ToNat(Field(x, 0, 6)), base + 3, v1, v2, index);
      x := Shr(x, 6);
      u1, u2 := EfpRow(ToNat(Field(x, 0, 6)), base + 2, u1, u2, index);
      x := Shr(x, 10);
      u1, u2 := EfpRow(ToNat(Field(x, 0, 6)), base + 1, u1, u2, index);
      x := Shr(x, 6);
      u1, u2 := EfpRow(ToNat(Field(x, 0, 6)), base, u1, u2, index);
    }

    method EfpRow(six: nat, row: nat, v1: W32, v2: W32, ghost index: seq<nat>) returns (u1: W32, u2: W32)
      requires Shaped() && tables.Ready() && row < 16 && six < 64 && |index| == 16 && index[row] == six
      requires v1 == OrRows(EfpWires(tables.inverse), index, row + 1, 16, 0)
      requires v2 == OrRows(EfpWires(tables.inverse), index, row + 1, 16, 1)
      ensures u1 == OrRows(EfpWires(tables.inverse), index, row, 16, 0)
      ensures u2 == OrRows(EfpWires(tables.inverse), index, row, 16, 1)
    {
      hide OrRows, WireWord, EfpWires, InvertsE;
      u1 := Or(v1, tables.efp[row, six, 0]);
      u2 := Or(v2, tables.efp[row, six, 1]);
      OrRowsDown(EfpWires(tables.inverse), index, row, 16, 0);
      OrRowsDown(EfpWires(tables.inverse), index, row, 16, 1);
    }

    // ----- _ufc_output_conversion_r -----

    method OutputConversion(v1: W32, v2: W32, salt: string)
      requires |salt| >= 1
      modifies this`crypt3Buf
      ensures crypt3Buf == SaltPrefix(salt) + Printed(Join(v1, v2))
    {
      hide Printed, BinToAscii, ToNat, Or;
      Pow2Values();
      ghost var p := Printed(Join(v1, v2));
      var buf := SaltPrefix(salt);
      for i := 0 to 5
        invariant buf == SaltPrefix(salt) + p[..i]
      {
        PrintedFirst(v1, v2, i);
        buf := buf + [BinToAscii(ToNat(Field(v1, 26 - 6 * i, 6)))];
      }
      PrintedLast(v1, v2);
      var s := 4 * ToNat(Field(v2, 0, 4));
      var w2 := SecondWord(v1, v2);
      for i := 5 to 10
        invariant buf == SaltPrefix(salt) + p[..i]
      {
        PrintedSecond(v1, v2, i);
        buf := buf + [BinToAscii(ToNat(Field(w2, 56 - 6 * i, 6)))];
      }
      crypt3Buf := buf + [BinToAscii(s)];
      assert p[..10] + [p[10]] == p;
    }

    // ----- __crypt_r, DES -----

    /** The DES part of crypt_r.  Nothing but key and salt can show in the result:
        the precondition says nothing about what the structure was used for before. */
    method DesCryptR(key: string, salt: string) returns (r: Option<string>)
      requires Valid()
      modifies this, sb, keysched, tables.Repr
      ensures Valid() && initialized != 0
      ensures r == if SaltOk(salt) then Some(DesCrypt(key, salt)) else None
      ensures r.Some? ==> |r.value| == 13 && r.value[..2] == salt[..2]
      ensures r.Some? ==> crypt3Buf == r.value && direction == 0
      ensures r.Some? ==> forall i :: 0 <= i < 16 ==> keysched[i] == Zeros(64)
      ensures r.None? ==> keysched[..] == old(keysched[..]) && direction == old(direction)
    {
      hide Printed, KeySchedule, SbHolds, KeysHold, Repeat;
      var ok := SetupSalt(salt);
      if !ok {
        return None;
      }
      var ktab := KeyChars(key);
      MkKeytab(ktab);
      ghost var ks := KeySchedule(KeyOf(ktab));
      var v1, v2 := TwentyFive(SaltBits(salt[0], salt[1]), ks);
      OutputConversion(v1, v2, salt);
      assert SaltPrefix(salt) == salt[..2];
      forall i | 0 <= i < 16 {
        keysched[i] := Zeros(64);
      }
      return Some(crypt3Buf);
    }

    /** 25 encipherments of the zero block and the final permutation. */
    method TwentyFive(ghost salt: W24, ghost ks: seq<W48>) returns (v1: W32, v2: W32)
      requires Valid() && initialized != 0 && salt == TableSalt() && KeysHold(ks)
      ensures Join(v1, v2) == Repeat(25, salt, ks, Zeros(64))
    {
      hide SbHolds, KeysHold, Image, FinalPermutation, RepeatCore, WideRepeat, Repeat, Pack48;
      var res := new W32[4](_ => Zeros(32));
      ghost var h := Halves(Zeros(32), Zeros(32));
      ghost var w := ImageOf(salt, h);
      ZeroImage(salt);
      Doit(25, res, salt, ks, w);
      ImageRepeat(25, salt, ks, h);
      DoFinalPerm(res, salt, RepeatCore(25, salt, ks, h));
      ZeroBlock();
      RepeatIsRepeatCore(25, salt, ks, Zeros(64));
      return res[0], res[1];
    }

    // ----- __setkey_r and __encrypt_r -----

    /** The schedule of ks in the order the last operation wanted it. */
    ghost predicate Keyed(ks: seq<W48>)
      reads this, keysched
    {
      KeysHold(if direction == 0 then ks else Reverse(ks))
    }

    method SetkeyR(key: seq<int>)
      requires Valid() && |key| == 64
      modifies this, sb, keysched, tables.Repr
      ensures Valid() && initialized != 0
      ensures Keyed(SetkeySchedule(key)) && direction == 0
    {
      hide KeysHold, SbHolds, KeySchedule;
      var ok := SetupSalt("..");
      var ktab := PackKey(key);
      MkKeytab(ktab);
    }

    method EncryptR(block: array<int>, edflag: int, ghost ks: seq<W48>)
      requires Valid() && block.Length == 64 && Keyed(ks)
      requires block as object !in tables.Repr
      modifies this, sb, keysched, tables.Repr, block
      ensures Valid() && initialized != 0
      ensures block[..] == Crypted(ks, old(block[..]), edflag)
      ensures edflag == 0 ==> BlockBits(block[..]) == Encipher(Zeros(24), ks, BlockBits(old(block[..])))
      ensures edflag != 0 ==> BlockBits(block[..]) == Decipher(Zeros(24), ks, BlockBits(old(block[..])))
      ensures Keyed(ks) && ((edflag == 0) == (direction == 0))
    {
      hide SbHolds, KeysHold, Encipher, BlockBits, BlockChars;
      Turn16(edflag, ks);
      ghost var now := if direction == 0 then ks else Reverse(ks);
      var v1, v2 := CipherBlock(block, now);
      StoreBits(block, v1, v2);
      BitsOfChars(if edflag == 0 then Encipher(Zeros(24), ks, BlockBits(old(block[..])))
                  else Decipher(Zeros(24), ks, BlockBits(old(block[..]))));
    }

    /** Resets the salt and, when the operation changes, reverses the key table. */
    method Turn16(edflag: int, ghost ks: seq<W48>)
      requires Valid() && Keyed(ks)
      modifies this, sb, keysched, tables.Repr
      ensures Valid() && initialized != 0 && TableSalt() == Zeros(24)
      ensures Keyed(ks) && ((edflag == 0) == (direction == 0))
    {
      hide SbHolds, KeysHold, SaltBits;
      var ok := SetupSalt("..");
      NoSalt();
      Reorient(edflag, ks);
    }

    /** Reverses the key table if the operation changes. */
    method Reorient(edflag: int, ghost ks: seq<W48>)
      requires Keyed(ks)
      modifies this`direction, keysched
      ensures Keyed(ks) && ((edflag == 0) == (direction == 0))
    {
      hide KeysHold;
      if (edflag == 0) != (direction == 0) {
        ReverseKeys(if direction == 0 then ks else Reverse(ks));
        ReverseTwice(ks);
        direction := edflag;
      }
    }

    /** Exchanges keys i and 15 - i. */
    method ReverseKeys(ghost ks: seq<W48>)
      requires KeysHold(ks)
      modifies keysched
      ensures KeysHold(Reverse(ks))
    {
      hide Tagged48;
      for i := 0 to 8
        invariant forall j :: 0 <= j < 16 ==>
                    keysched[j] == old(keysched[if j < i || j > 15 - i then 15 - j else j])
      {
        var x := keysched[15 - i];
        keysched[15 - i] := keysched[i];
        keysched[i] := x;
      }
    }

    method CipherBlock(block: array<int>, ghost ks: seq<W48>) returns (v1: W32, v2: W32)
      requires Valid() && initialized != 0 && TableSalt() == Zeros(24) && KeysHold(ks) && block.Length == 64
      ensures Join(v1, v2) == Encipher(Zeros(24), ks, BlockBits(block[..]))
    {
      hide SbHolds, KeysHold, Image, FinalPermutation, InitialPermutation, Core, WideRounds, Rounds, Pack48, Expand,
           BlockBits;
      ghost var h := Split(InitialPermutation(BlockBits(block[..])));
      var res := ExpandHalves(block, h);
      Doit(1, res, Zeros(24), ks, ImageOf(Zeros(24), h));
      ImageRepeatOnce(ks, h);
      DoFinalPerm(res, Zeros(24), Core(Zeros(24), ks, h));
      return res[0], res[1];
    }

    // ----- __crypt_r, MD5 -----

    /** crypt_r: the prefix of the salt decides. */
    method CryptR(key: string, salt: string, hashes: Hashes) returns (r: Option<string>)
      requires Valid()
      modifies this, sb, keysched, tables.Repr
      ensures Valid() && r == CryptText(key, salt, hashes)
      ensures Md5Result.MD5_PREFIX <= salt || WantsSha(salt) ==> initialized == 0
      ensures r.None? ==> keysched[..] == old(keysched[..]) && direction == old(direction)
    {
      hide SbHolds, KeysHold, DesCrypt, Md5Result.Md5Text;
      if Md5Result.MD5_PREFIX <= salt {
        var text := Md5CryptR(salt, hashes.md5(key, salt));
        return Some(text);
      }
      if WantsSha(salt) {
        ShaCryptR(hashes.sha(key, salt));
        return Some(hashes.sha(key, salt));
      }
      r := DesCryptR(key, salt);
    }

    /** crypt_r hands the whole structure to __md5_crypt_r as its result buffer. */
    method Md5CryptR(salt: string, digest: seq<Md5Result.Byte>) returns (r: string)
      requires Valid() && |digest| == 16
      modifies this, sb, keysched
      ensures Valid() && initialized == 0 && tables.initialized == old(tables.initialized)
      ensures r == Md5Result.Md5Text(salt, digest)
    {
      hide SbHolds, WordAt, IntAt, CString, TableSalt, SaltBits, Md5Result.Md5Text;
      var raw := new char[STRUCT_SIZE];
      Md5Result.Assemble(raw, salt, digest);
      ZeroInt(raw[..], INITIALIZED_OFFSET);
      Overlay(raw);
      r := Md5Result.Md5Text(salt, digest);
    }

    /** The SHA functions get the structure in the same way, and fill what their text
        leaves free with NULs in the same way. */
    method ShaCryptR(text: Md5Result.ShaText)
      requires Valid()
      modifies this, sb, keysched
      ensures Valid() && initialized == 0 && tables.initialized == old(tables.initialized)
    {
      hide SbHolds, WordAt, IntAt, CString, TableSalt, SaltBits;
      var raw := new char[STRUCT_SIZE];
      var _ := Md5Result.StpncpyAll(raw, text);
      ZeroInt(raw[..], INITIALIZED_OFFSET);
      Overlay(raw);
    }

    /** The structure's fields, read back from the bytes just written over it. */
    method Overlay(raw: array<char>)
      requires Shaped() && raw.Length == STRUCT_SIZE
      modifies this, sb, keysched
      ensures forall i :: 0 <= i < 16 ==> keysched[i] == WordAt(raw[..], 8 * i)
      ensures forall i :: 0 <= i < 16384 ==> sb[i] == WordAt(raw[..], SB_OFFSET + 8 * i)
      ensures currentSalt == (raw[SALT_OFFSET], raw[SALT_OFFSET + 1])
      ensures direction == IntAt(raw[..], DIRECTION_OFFSET) && initialized == IntAt(raw[..], INITIALIZED_OFFSET)
      ensures crypt3Buf == CString(raw[BUF_OFFSET..BUF_OFFSET + 14])
      ensures currentSaltbits == WordAt(raw[..], SALTBITS_OFFSET)[32..]
    {
      hide WordAt, IntAt, CString;
      var bytes := raw[..];
      forall i | 0 <= i < 16 {
        keysched[i] := WordAt(bytes, 8 * i);
      }
      forall i | 0 <= i < 16384 {
        sb[i] := WordAt(bytes, SB_OFFSET + 8 * i);
      }
      assert raw[..] == bytes;
      crypt3Buf := CString(bytes[BUF_OFFSET..BUF_OFFSET + 14]);
      currentSalt := (bytes[SALT_OFFSET], bytes[SALT_OFFSET + 1]);
      currentSaltbits := WordAt(bytes, SALTBITS_OFFSET)[32..];
      direction := IntAt(bytes, DIRECTION_OFFSET);
      initialized := IntAt(bytes, INITIALIZED_OFFSET);
    }
  }

  predicate WantsSha(salt: string) {
    Md5Result.SHA256_PREFIX <= salt || Md5Result.SHA512_PREFIX <= salt
  }

  /** The computations on key and salt that are not modelled: the MD5 digest, and the
      text the SHA functions make of theirs. */
  datatype Hashes = Hashes(md5: (string, string) -> Md5Result.Digest, sha: (string, string) -> Md5Result.ShaText)

  /** What crypt_r returns. */
  function CryptText(key: string, salt: string, hashes: Hashes): Option<string> {
    if Md5Result.MD5_PREFIX <= salt then Some(Md5Result.Md5Text(salt, hashes.md5(key, salt)))
    else if WantsSha(salt) then Some(hashes.sha(key, salt))
    else if SaltOk(salt) then Some(DesCrypt(key, salt))
    else None
  }

  // Layout of struct crypt_data on LP64.
  const SB_OFFSET := 128
  const BUF_OFFSET := 131200
  const SALT_OFFSET := 131214
  const SALTBITS_OFFSET := 131216
  const DIRECTION_OFFSET := 131224
  const INITIALIZED_OFFSET := 131228
  const STRUCT_SIZE := 131232

  /** The little-endian 64-bit word at an offset. */
  function WordAt(raw: seq<char>, offset: nat): W64
    requires offset + 8 <= |raw|
  {
    seq(64, p requires 0 <= p < 64 => OfNat(raw[offset + 7 - p / 8] as nat % 256, 8)[p % 8])
  }

  /** The little-endian 32-bit integer at an offset (nonnegative ones only). */
  function IntAt(raw: seq<char>, offset: nat): nat
    requires offset + 4 <= |raw|
  {
    raw[offset] as nat % 256 + 256 * (raw[offset + 1] as nat % 256)
    + 65536 * (raw[offset + 2] as nat % 256) + 16777216 * (raw[offset + 3] as nat % 256)
  }

  lemma ZeroInt(raw: seq<char>, offset: nat)
    requires offset + 4 <= |raw| && forall k :: offset <= k < offset + 4 ==> raw[k] == '\0'
    ensures IntAt(raw, offset) == 0
  {
  }

  function CString(s: seq<char>): string {
    if s == [] || s[0] == '\0' then "" else [s[0]] + CString(s[1..])
  }

  /** Four byte lookups in eperm32tab, ORed: one word of an expanded value. */
  method EpermLookups(tables: Tables, w: W32, half: nat) returns (r: W32)
    requires tables.Ready() && half < 2
    ensures r == Pack24(HalfOf(Expand(Permute(w)), half))
  {
    hide OrRows, Expand, Permute, EpermWires, WireWord, Pack24, HalfOf;
    Pow2Values();
    var b := [ToNat(Field(w, 24, 8)), ToNat(Field(w, 16, 8)), ToNat(Field(w, 8, 8)), ToNat(Field(w, 0, 8))];
    r := tables.eperm32tab[0, b[0], half];
    r := Or(r, tables.eperm32tab[1, b[1], half]);
    r := Or(r, tables.eperm32tab[2, b[2], half]);
    r := Or(r, tables.eperm32tab[3, b[3], half]);
    ghost var ws := EpermWires();
    OrRowsNone(ws, b, 0, half);
    OrRowsUp(ws, b, 0, 0, half);
    OrRowsUp(ws, b, 0, 1, half);
    OrRowsUp(ws, b, 0, 2, half);
    OrRowsUp(ws, b, 0, 3, half);
    assert Or(Zeros(32), tables.eperm32tab[0, b[0], half]) == tables.eperm32tab[0, b[0], half];
    EpermLookup(w, b, half);
  }

  lemma CellIndex(salt: W24, sg: nat, n: nat)
    requires sg < 4 && n < 4096
    ensures SbWord(salt, 4096 * sg + n) == Pack48(SbEntry(salt, sg, n))
  {
    hide SbEntry, Pack48;
    var i := 4096 * sg + n;
    assert i / 4096 == sg && i % 4096 == n;
  }

  lemma CellValue(sg: nat, j1: nat, j2: nat)
    requires sg < 4 && j1 < 64 && j2 < 64
    ensures Pack48(Image(Zeros(24), Permute(ToPermute(sg, SLookup(2 * sg, j1), SLookup(2 * sg + 1, j2)))))
         == SbWord(Zeros(24), 4096 * sg + 64 * j1 + j2)
  {
    hide Image, Permute, ToPermute, SLookup, SelectPair, InByte, Pack48, SbWord, OfNat;
    PairSelected(sg, j1, j2);
    CellIndex(Zeros(24), sg, 64 * j1 + j2);
  }

  lemma NoSalt()
    ensures SaltBits('.', '.') == Zeros(24)
  {
  }

  lemma UnsaltedImage(h: W32)
    ensures Pack48(Image(Zeros(24), h)) == Join(Pack24(HalfOf(Expand(h), 0)), Pack24(HalfOf(Expand(h), 1)))
  {
    hide Expand;
    SwapNone(Expand(h));
  }

  lemma ImageRepeatOnce(ks: seq<W48>, h: Halves)
    ensures WideRepeat(1, Zeros(24), ks, ImageOf(Zeros(24), h)) == ImageOf(Zeros(24), Core(Zeros(24), ks, h))
  {
    hide WideRounds, Image, Core;
    ImageRepeat(1, Zeros(24), ks, h);
    assert RepeatCore(0, Zeros(24), ks, h) == h;
    assert RepeatCore(1, Zeros(24), ks, h) == Core(Zeros(24), ks, RepeatCore(0, Zeros(24), ks, h));
  }

  /** Initial permutation and E expansion of half a block (offset 0 or 32) into
      one of its two words. */
  method ExpandBlock(block: array<int>, offset: nat, half: nat, ghost h: W32) returns (w: W32)
    requires block.Length == 64 && (offset == 0 || offset == 32) && half < 2
    requires forall f :: 0 <= f < 32 ==> h[f] == InitialPermutation(BlockBits(block[..]))[offset + f]
    ensures w == Pack24(HalfOf(Expand(h), half))
  {
    hide ESel, InitialPerm, Pack24;
    w := Zeros(32);
    ghost var x: W24 := Zeros(24);
    ghost var goal := HalfOf(Expand(h), half);
    PackZero();
    for i := 0 to 24
      invariant w == Pack24(x)
      invariant forall k :: 0 <= k < 24 ==> x[k] == (k < i && goal[k])
    {
      var f := ESel(24 * half + i) - 1;
      assert goal[i] == h[f];
      if block[InitialPerm(f + offset) - 1] != 0 {
        PackOr(x, i);
        w := Or(w, BitMask(i));
        x := x[i := true];
      }
    }
    assert x == goal;
  }

  /** The four words that start the rounds. */
  method ExpandHalves(block: array<int>, ghost h: Halves) returns (res: array<W32>)
    requires block.Length == 64 && h == Split(InitialPermutation(BlockBits(block[..])))
    ensures fresh(res) && res.Length == 4
    ensures Join(res[0], res[1]) == Pack48(Image(Zeros(24), h.l))
    ensures Join(res[2], res[3]) == Pack48(Image(Zeros(24), h.r))
  {
    hide Image, InitialPermutation, Pack48, Expand, BlockBits, Join;
    var l1 := ExpandBlock(block, 0, 0, h.l);
    var l2 := ExpandBlock(block, 0, 1, h.l);
    var r1 := ExpandBlock(block, 32, 0, h.r);
    var r2 := ExpandBlock(block, 32, 1, h.r);
    res := new W32[4](_ => Zeros(32));
    res[0], res[1], res[2], res[3] := l1, l2, r1, r2;
    UnsaltedImage(h.l);
    UnsaltedImage(h.r);
  }

  /** The output loops of encrypt_r: one char per bit. */
  method StoreBits(block: array<int>, v1: W32, v2: W32)
    requires block.Length == 64
    modifies block
    ensures block[..] == BlockChars(Join(v1, v2))
  {
    for i := 0 to 32
      invariant forall k :: 0 <= k < i ==> block[k] == if Join(v1, v2)[k] then 1 else 0
    {
      block[i] := if v1[i] then 1 else 0;
    }
    for i := 0 to 32
      invariant forall k :: 0 <= k < 32 + i ==> block[k] == if Join(v1, v2)[k] then 1 else 0
    {
      block[32 + i] := if v2[i] then 1 else 0;
    }
  }

  /** The packing loop of setkey_r: eight key chars to a byte, parity dropped. */
  method PackKey(key: seq<int>) returns (ktab: seq<nat>)
    requires |key| == 64
    ensures |ktab| == 8
    ensures KeySchedule(KeyOf(ktab)) == SetkeySchedule(key)
  {
    hide KeySchedule, OfNat, ToNat, CharWord, ShiftedIn, KeyBits;
    ghost var bits := KeyBits(key);
    ktab := [];
    for i := 0 to 8
      invariant |ktab| == i
      invariant forall m :: 0 <= m < i ==> ktab[m] == ToNat(bits[8 * m..8 * m + 7])
    {
      var c: W8 := Zeros(8);
      NoneShifted(key, i);
      for j := 0 to 8
        invariant forall p :: 0 <= p < 8 ==> c[p] == ShiftedIn(key, i, j, p)
      {
        ghost var n := j + 1;
        c := Or(Shl(c, 1), CharWord(key[8 * i + j]));
        forall p | 0 <= p < 8
          ensures c[p] == ShiftedIn(key, i, n, p)
        {
          ShiftedNext(key, i, j, p);
        }
      }
      ByteOfKey(key, i, c);
      ktab := ktab + [ToNat(Shr(c, 1))];
    }
    forall p | 0 <= p < 64 && p % 8 != 7
      ensures KeyOf(ktab)[p] == bits[p]
    {
      KeyByte(bits, p / 8, p % 8);
    }
    ParityIgnored(KeyOf(ktab), bits);
  }

  lemma NoneShifted(key: seq<int>, i: nat)
    requires |key| == 64 && i < 8
    ensures forall p :: 0 <= p < 8 ==> !ShiftedIn(key, i, 0, p)
  {
  }

  lemma ByteOfKey(key: seq<int>, i: nat, c: W8)
    requires |key| == 64 && i < 8 && forall p :: 0 <= p < 8 ==> c[p] == ShiftedIn(key, i, 8, p)
    ensures ToNat(Shr(c, 1)) == ToNat(KeyBits(key)[8 * i..8 * i + 7])
  {
    hide ShiftedIn, ToNat;
    var front, bits := c[..7], KeyBits(key);
    forall p | 0 <= p < 7
      ensures front[p] == bits[8 * i + p]
    {
      assert (8 * i + p) / 8 == i && (8 * i + p) % 8 == p;
    }
    assert front == bits[8 * i..8 * i + 7];
    assert Shr(c, 1) == Zeros(1) + front;
    ToNatLeadingZeros(1, front);
  }

  lemma KeyByte(bits: W64, m: nat, i: nat)
    requires m < 8 && i < 7
    ensures OfNat(ToNat(bits[8 * m..8 * m + 7]) % 128, 8)[i + 1] == bits[8 * m + i]
  {
    hide ToNat, OfNat, Pow2;
    var f := bits[8 * m..8 * m + 7];
    FieldBound(f);
    IndexBits(f, i);
  }

  lemma ZeroImage(salt: W24)
    ensures Pack48(Image(salt, Zeros(32))) == Join(Zeros(32), Zeros(32))
  {
    assert Image(salt, Zeros(32)) == Zeros(48);
  }

  lemma ZeroBlock()
    ensures Split(InitialPermutation(Zeros(64))) == Halves(Zeros(32), Zeros(32))
  {
    hide InitialPerm;
    assert InitialPermutation(Zeros(64)) == Zeros(64);
  }

  /** A one-character salt is printed twice. */
  function SaltPrefix(salt: string): (s: string)
    requires |salt| >= 1
    ensures |s| == 2
  {
    [salt[0], if CharAt(salt, 1) != '\0' then CharAt(salt, 1) else salt[0]]
  }

  /** `(v2 >> 2) | ((v1 & 0x3) << 30)`. */
  function SecondWord(v1: W32, v2: W32): W32 {
    Or(Shr(v2, 2), Shl(Zeros(30) + Field(v1, 0, 2), 30))
  }

  lemma PrintedFirst(v1: W32, v2: W32, i: nat)
    requires i < 5
    ensures ToNat(Field(v1, 26 - 6 * i, 6)) < 64
    ensures Printed(Join(v1, v2))[i] == BinToAscii(ToNat(Field(v1, 26 - 6 * i, 6)))
  {
    hide ToNat, BinToAscii;
    Pow2Values();
    assert Field(v1, 26 - 6 * i, 6) == (Join(v1, v2) + Zeros(2))[6 * i..6 * i + 6];
  }

  lemma PrintedSecond(v1: W32, v2: W32, i: nat)
    requires 5 <= i < 10
    ensures ToNat(Field(SecondWord(v1, v2), 56 - 6 * i, 6)) < 64
    ensures Printed(Join(v1, v2))[i] == BinToAscii(ToNat(Field(SecondWord(v1, v2), 56 - 6 * i, 6)))
  {
    hide ToNat, BinToAscii, SecondWord, Join, Pow2;
    SecondSlice(v1, v2, 6 * i);
    FieldBound(Field(SecondWord(v1, v2), 56 - 6 * i, 6));
  }

  lemma SecondSlice(v1: W32, v2: W32, at: nat)
    requires 30 <= at <= 54
    ensures Field(SecondWord(v1, v2), 56 - at, 6) == (Join(v1, v2) + Zeros(2))[at..at + 6]
  {
    hide SecondWord, Join;
    var b: Word, w := Join(v1, v2) + Zeros(2), SecondWord(v1, v2);
    forall k | 0 <= k < 32
      ensures w[k] == b[30 + k]
    {
      SecondBit(v1, v2, k);
    }
  }

  lemma SecondBit(v1: W32, v2: W32, k: nat)
    requires k < 32
    ensures SecondWord(v1, v2)[k] == (Join(v1, v2) + Zeros(2))[30 + k]
  {
  }

  lemma PrintedLast(v1: W32, v2: W32)
    ensures 4 * ToNat(Field(v2, 0, 4)) < 64
    ensures Printed(Join(v1, v2))[10] == BinToAscii(4 * ToNat(Field(v2, 0, 4)))
  {
    hide BinToAscii;
    Pow2Values();
    assert (Join(v1, v2) + Zeros(2))[60..66] == Field(v2, 0, 4) + Zeros(2);
    ToNatConcat(Field(v2, 0, 4), Zeros(2));
    ToNatZeros(2);
  }

  /** Rows base..base+3 are indexed by the six-bit groups of a. */
  ghost predicate Quarter(a: W24, base: nat, index: seq<nat>)
    requires base <= 12 && |index| == 16
  {
    && index[base] == ToNat(a[0..6]) && index[base + 1] == ToNat(a[6..12])
    && index[base + 2] == ToNat(a[12..18]) && index[base + 3] == ToNat(a[18..24])
    && index[base] < 64 && index[base + 1] < 64 && index[base + 2] < 64 && index[base + 3] < 64
  }

  lemma QuarterAt(x: Word, index: seq<nat>, a: W24, base: nat)
    requires |x| == 96 && |index| == 16 && base <= 12
    requires forall r :: 0 <= r < 16 ==> index[r] == ToNat(x[6 * r..6 * r + 6])
    requires a == x[6 * base..6 * base + 24]
    ensures Quarter(a, base, index)
  {
    hide ToNat;
    Pow2Values();
    SixOfSlice(x, a, base, 0);
    SixOfSlice(x, a, base, 1);
    SixOfSlice(x, a, base, 2);
    SixOfSlice(x, a, base, 3);
  }

  lemma SixOfSlice(x: Word, a: W24, base: nat, q: nat)
    requires |x| == 96 && base <= 12 && q < 4 && a == x[6 * base..6 * base + 24]
    ensures x[6 * (base + q)..6 * (base + q) + 6] == a[6 * q..6 * q + 6]
  {
    var s, u := x[6 * (base + q)..6 * (base + q) + 6], a[6 * q..6 * q + 6];
    forall i | 0 <= i < 6
      ensures s[i] == u[i]
    {
      assert s[i] == x[6 * base + (6 * q + i)];
    }
  }

  lemma Quarters(h: Halves, index: seq<nat>)
    requires |index| == 16
    requires forall r :: 0 <= r < 16 ==> index[r] == ToNat((Expand(h.l) + Expand(h.r))[6 * r..6 * r + 6])
    ensures Quarter(HalfOf(Expand(h.l), 0), 0, index) && Quarter(HalfOf(Expand(h.l), 1), 4, index)
    ensures Quarter(HalfOf(Expand(h.r), 0), 8, index) && Quarter(HalfOf(Expand(h.r), 1), 12, index)
  {
    hide Expand, ToNat, Quarter;
    var x := Expand(h.l) + Expand(h.r);
    assert x[0..24] == HalfOf(Expand(h.l), 0) && x[24..48] == HalfOf(Expand(h.l), 1);
    assert x[48..72] == HalfOf(Expand(h.r), 0) && x[72..96] == HalfOf(Expand(h.r), 1);
    QuarterAt(x, index, HalfOf(Expand(h.l), 0), 0);
    QuarterAt(x, index, HalfOf(Expand(h.l), 1), 4);
    QuarterAt(x, index, HalfOf(Expand(h.r), 0), 8);
    QuarterAt(x, index, HalfOf(Expand(h.r), 1), 12);
  }

  /** One more pair of rounds. */
  lemma TwoRounds(salt: W24, ks: seq<W48>, i: nat, w: Wide)
    requires 2 * i + 2 <= |ks|
    ensures WideRounds(salt, ks[..2 * i + 2], w)
         == WideRound(salt, WideRound(salt, WideRounds(salt, ks[..2 * i], w), ks[2 * i]), ks[2 * i + 1])
  {
    hide WideRound;
    var two, one := ks[..2 * i + 2], ks[..2 * i + 1];
    assert two[..|two| - 1] == one && one[..|one| - 1] == ks[..2 * i];
  }

  /** The offsets in the four lanes of a keyed word, and what lies there. */
  lemma EntriesRead(salt: W24, y: W48)
    ensures forall g :: 0 <= g < 4 ==>
              && ToNat(LaneOf(y, g)) % 8 == 0
              && 0 <= 8192 * (g / 2) + ToNat(LaneOf(y, g)) / 8 < 16384
              && ToNat(LaneOf(y, g)) / 8 < 8192
              && SbWord(salt, 8192 * (g / 2) + ToNat(LaneOf(y, g)) / 8) == GroupWord(salt, y, g)
  {
    hide SbWord, LaneOf, GroupWord, ToNat;
    forall g | 0 <= g < 4
      ensures ToNat(LaneOf(y, g)) % 8 == 0
      ensures ToNat(LaneOf(y, g)) / 8 < 8192
      ensures SbWord(salt, 8192 * (g / 2) + ToNat(LaneOf(y, g)) / 8) == GroupWord(salt, y, g)
    {
      EntryRead(salt, y, g);
    }
  }

  lemma EntryRead(salt: W24, y: W48, g: nat)
    requires g < 4
    ensures ToNat(LaneOf(y, g)) % 8 == 0
    ensures ToNat(LaneOf(y, g)) / 8 < 8192
    ensures SbWord(salt, 8192 * (g / 2) + ToNat(LaneOf(y, g)) / 8) == GroupWord(salt, y, g)
  {
    hide SbWord, LaneOf, Group, GroupEntry, Pack48, ToNat;
    LaneAddresses(y, g);
    EntryIsGroupEntry(salt, y, g);
  }

  /** v1 and v2: do_pc1 lookups ORed over the eight characters, in words of the
      width of ufc_long. */
  method LoadRegisters(tables: Tables, key: seq<nat>, width: nat) returns (v1: Word, v2: Word)
    requires tables.Ready() && |key| == 8 && width >= 32
    ensures v1 == Unmasked(KeyRegister(KeyOf(key), 0), 0, width)
    ensures v2 == Unmasked(KeyRegister(KeyOf(key), 1), 0, width)
  {
    hide OrRows, WireWord, Pc1Wires, KeyRegister, Unmasked;
    ghost var index := seq(8, i requires 0 <= i < 8 => key[i] % 128);
    ghost var ws := Pc1Wires();
    v1, v2 := Zeros(width), Zeros(width);
    OrRowsNone(ws, index, 0, 0);
    OrRowsNone(ws, index, 0, 1);
    for i := 0 to 8
      invariant v1 == Zeros(width - 32) + OrRows(ws, index, 0, i, 0)
      invariant v2 == Zeros(width - 32) + OrRows(ws, index, 0, i, 1)
    {
      OrRowsUp(ws, index, 0, i, 0);
      OrRowsUp(ws, index, 0, i, 1);
      OrPadded(width - 32, OrRows(ws, index, 0, i, 0), tables.doPc1[i, key[i] % 128, 0]);
      OrPadded(width - 32, OrRows(ws, index, 0, i, 1), tables.doPc1[i, key[i] % 128, 1]);
      v1 := Or(v1, Zeros(width - 32) + tables.doPc1[i, key[i] % 128, 0]);
      v2 := Or(v2, Zeros(width - 32) + tables.doPc1[i, key[i] % 128, 1]);
    }
    Pc1Lookup(key, index, 0);
    Pc1Lookup(key, index, 1);
    ghost var c, d := KeyRegister(KeyOf(key), 0), KeyRegister(KeyOf(key), 1);
    PadTwice(width - 32, 4, c);
    PadTwice(width - 32, 4, d);
    UnmaskedStart(c, width);
    UnmaskedStart(d, width);
  }

  /** Four septet lookups in do_pc2. */
  method ChooseHalf(tables: Tables, v: Word, half: nat, ghost c: Word, ghost t: nat) returns (w: W32)
    requires tables.Ready() && half < 2 && |v| >= 28
    requires |c| == 28 && t <= 28 && v == Unmasked(c, t, |v|)
    ensures w == Pack24(Choice2(Turn(c, t), half))
  {
    hide OrRows, WireWord, Pc1Wires, Pc2Wires, EpermWires, EfpWires, InvertsE, Unmasked, Turn, Choice2, Pack24;
    hide SeptetIndices, ToNat, Field;
    var f0, f1, f2, f3 := ToNat(Field(v, 21, 7)), ToNat(Field(v, 14, 7)), ToNat(Field(v, 7, 7)), ToNat(Field(v, 0, 7));
    Pow2Values();
    w := tables.doPc2[4 * half, f0, 0];
    w := Or(w, tables.doPc2[4 * half + 1, f1, 0]);
    w := Or(w, tables.doPc2[4 * half + 2, f2, 0]);
    w := Or(w, tables.doPc2[4 * half + 3, f3, 0]);
    ghost var index := if half == 0 then [f0, f1, f2, f3, 0, 0, 0, 0] else [0, 0, 0, 0, f0, f1, f2, f3];
    SeptetsRead(v, c, t, half, index);
    FourRows(Pc2Wires(), index, 4 * half, tables.doPc2[4 * half, f0, 0], tables.doPc2[4 * half + 1, f1, 0],
             tables.doPc2[4 * half + 2, f2, 0], tables.doPc2[4 * half + 3, f3, 0]);
    Pc2Lookup(Turn(c, t), half, index);
  }

  lemma FourRows(ws: seq<Wire>, index: seq<nat>, lo: nat, a: W32, b: W32, c: W32, d: W32)
    requires lo + 4 <= |index|
    requires a == WireWord(ws, lo, index[lo], 0) && b == WireWord(ws, lo + 1, index[lo + 1], 0)
    requires c == WireWord(ws, lo + 2, index[lo + 2], 0) && d == WireWord(ws, lo + 3, index[lo + 3], 0)
    ensures OrRows(ws, index, lo, lo + 4, 0) == Or(Or(Or(a, b), c), d)
  {
    hide WireWord, OrRows;
    OrRowsNone(ws, index, lo, 0);
    OrRowsUp(ws, index, lo, lo, 0);
    OrRowsUp(ws, index, lo, lo + 1, 0);
    OrRowsUp(ws, index, lo, lo + 2, 0);
    OrRowsUp(ws, index, lo, lo + 3, 0);
    OrNothing(a);
  }

  lemma TurnsNext(i: nat)
    requires i < 16
    ensures Turns(i) == (if i == 0 then 0 else Turns(i - 1)) + Rots(i) <= 28
    ensures Rots(i) >= 1
  {
  }

  lemma RoundKeyIs(key: W64, i: nat)
    requires i < 16
    ensures RoundKey(key, i) == Choice2(Turn(KeyRegister(key, 0), Turns(i)), 0)
                              + Choice2(Turn(KeyRegister(key, 1), Turns(i)), 1)
  {
  }

  lemma SeptetsRead(v: Word, c: Word, t: nat, half: nat, index: seq<nat>)
    requires |c| == 28 <= |v| && t <= 28 && v == Unmasked(c, t, |v|) && half < 2 && |index| == 8
    requires forall r :: 0 <= r < 4 ==> index[4 * half + r] == ToNat(Field(v, 21 - 7 * r, 7))
    ensures SeptetIndices(Turn(c, t), half, index)
  {
    hide Unmasked, Turn;
    forall r | 0 <= r < 4
      ensures index[4 * half + r] == ToNat(Turn(c, t)[7 * r..7 * r + 7])
    {
      SeptetsAreTrue(c, t, |v|, r);
    }
  }

  lemma XorThere(a: Word, b: Word)
    requires |a| == |b|
    ensures Xor(Xor(a, b), a) == b
  {
  }

  /** The loop that turns two salt characters into bits of the expansion. */
  method SaltWord(s0: char, s1: char) returns (saltbits: W32)
    requires SaltChar(s0) && SaltChar(s1)
    ensures saltbits == Pack24(SaltBits(s0, s1))
  {
    hide SaltBit, Pack24;
    saltbits := Zeros(32);
    ghost var bits: W24 := Zeros(24);
    PackZero();
    for i := 0 to 2
      invariant saltbits == Pack24(bits)
      invariant forall k :: 0 <= k < 24 ==> bits[k] == (k < 6 * i && SaltBit(s0, s1, k))
    {
      var c := AsciiToBin(if i == 0 then s0 else s1);
      for j := 0 to 6
        invariant saltbits == Pack24(bits)
        invariant forall k :: 0 <= k < 24 ==> bits[k] == (k < 6 * i + j && SaltBit(s0, s1, k))
      {
        SaltBitIs(s0, s1, i, j);
        if c / Pow2(j) % 2 == 1 {
          PackOr(bits, 6 * i + j);
          saltbits := Or(saltbits, BitMask(6 * i + j));
          bits := bits[6 * i + j := true];
        }
      }
    }
    assert bits == SaltBits(s0, s1) by {
      assert forall k :: 12 <= k < 24 ==> !SaltBit(s0, s1, k) by { SaltBitHigh(s0, s1); }
    }
  }

  lemma SaltBitIs(s0: char, s1: char, i: nat, j: nat)
    requires SaltChar(s0) && SaltChar(s1) && i < 2 && j < 6
    ensures SaltBit(s0, s1, 6 * i + j) == (AsciiToBin(if i == 0 then s0 else s1) / Pow2(j) % 2 == 1)
  {
    hide AsciiToBin, Pow2;
    assert (6 * i + j) % 6 == j;
  }

  lemma SaltBitHigh(s0: char, s1: char)
    requires SaltChar(s0) && SaltChar(s1)
    ensures forall k :: k >= 12 ==> !SaltBit(s0, s1, k)
  {
  }
}
