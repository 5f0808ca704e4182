/** Textbook DES (FIPS 46-3, "Enciphering", "Deciphering" and Appendix 1) with
    the one change crypt(3) makes to it: a 24-bit salt that swaps bits of the
    E expansion. */
module Des {
  import opened Bits
  import opened DesTables

  type W24 = w: Word | |w| == 24 witness Zeros(24)
  type W48 = w: Word | |w| == 48 witness Zeros(48)

  function InitialPermutation(b: W64): W64 {
    seq(64, i requires 0 <= i < 64 => b[InitialPerm(i) - 1])
  }

  function FinalPermutation(b: W64): W64 {
    seq(64, i requires 0 <= i < 64 => b[FinalPerm(i) - 1])
  }

  function Expand(r: W32): W48 {
    seq(48, i requires 0 <= i < 48 => r[ESel(i) - 1])
  }

  function Permute(s: W32): W32 {
    seq(32, i requires 0 <= i < 32 => s[Perm32(i) - 1])
  }

  /** For each salt bit that is set, exchange that bit of the first half of an
      expanded value with the same bit of the second half. */
  function SaltSwap(salt: W24, e: W48): W48 {
    seq(48, i requires 0 <= i < 48 => if salt[i % 24] then e[(i + 24) % 48] else e[i])
  }

  /** One selection function: outer bits choose the row, inner bits the column. */
  function Select(i: nat, six: Word): (four: Word)
    requires i < 8 && |six| == 6
    ensures |four| == 4
  {
    OfNat(SBox(i).Row(2 * BitValue(six[0]) + BitValue(six[5]))[SelectColumn(six)], 4)
  }

  function SelectColumn(six: Word): (c: nat)
    requires |six| == 6
    ensures c < 16
  {
    Pow2Values();
    ToNat(six[1..5])
  }

  /** Selection functions 2g and 2g + 1 on their twelve bits. */
  function SelectPair(g: nat, twelve: Word): (eight: Word)
    requires g < 4 && |twelve| == 12
    ensures |eight| == 8
  {
    Select(2 * g, twelve[..6]) + Select(2 * g + 1, twelve[6..])
  }

  /** The selection functions on all 48 bits, twelve at a time. */
  function SelectAll(x: W48): W32 {
    seq(32, i requires 0 <= i < 32 => SelectPair(i / 8, x[12 * (i / 8)..12 * (i / 8) + 12])[i % 8])
  }

  /** The cipher function f, with the salted expansion. */
  function Cipher(salt: W24, r: W32, k: W48): W32 {
    Permute(SelectAll(Xor(SaltSwap(salt, Expand(r)), k)))
  }

  datatype Halves = Halves(l: W32, r: W32) {
    function Swap(): Halves { Halves(r, l) }
    function Block(): W64 { l + r }
  }

  function Split(b: W64): (h: Halves)
    ensures h.Block() == b
  {
    Halves(b[..32], b[32..])
  }

  function Round(salt: W24, h: Halves, k: W48): Halves {
    Halves(h.r, Xor(h.l, Cipher(salt, h.r, k)))
  }

  /** One round for each key, first key first. */
  function Rounds(salt: W24, ks: seq<W48>, h: Halves): Halves {
    if ks == [] then h else Round(salt, Rounds(salt, ks[..|ks| - 1], h), ks[|ks| - 1])
  }

  /** The rounds and the exchange of halves after the last one. */
  function Core(salt: W24, ks: seq<W48>, h: Halves): Halves {
    Rounds(salt, ks, h).Swap()
  }

  function Encipher(salt: W24, ks: seq<W48>, b: W64): W64 {
    FinalPermutation(Core(salt, ks, Split(InitialPermutation(b))).Block())
  }

  function Reverse(ks: seq<W48>): (r: seq<W48>)
    ensures |r| == |ks|
    ensures forall i :: 0 <= i < |ks| ==> r[i] == ks[|ks| - 1 - i]
  {
    seq(|ks|, i requires 0 <= i < |ks| => ks[|ks| - 1 - i])
  }

  /** Deciphering is enciphering with the keys in the opposite order. */
  function Decipher(salt: W24, ks: seq<W48>, b: W64): W64 {
    Encipher(salt, Reverse(ks), b)
  }

  // ----- Deciphering undoes enciphering -----

  lemma XorCancels(a: Word, b: Word)
    requires |a| == |b|
    ensures Xor(Xor(a, b), b) == a
  {
  }

  lemma RoundUndone(salt: W24, h: Halves, k: W48)
    ensures Round(salt, Round(salt, h, k).Swap(), k) == h.Swap()
  {
    XorCancels(h.l, Cipher(salt, h.r, k));
  }

  lemma {:induction false} RoundsCons(salt: W24, k: W48, ks: seq<W48>, h: Halves)
    ensures Rounds(salt, [k] + ks, h) == Rounds(salt, ks, Round(salt, h, k))
  {
    var all := [k] + ks;
    if ks == [] {
      assert all[..0] == [];
      assert Rounds(salt, all[..0], h) == h;
    } else {
      assert all[..|all| - 1] == [k] + ks[..|ks| - 1];
      RoundsCons(salt, k, ks[..|ks| - 1], h);
    }
  }

  lemma {:induction false} RoundsUndone(salt: W24, ks: seq<W48>, h: Halves)
    ensures Rounds(salt, Reverse(ks), Rounds(salt, ks, h).Swap()) == h.Swap()
  {
    if ks == [] {
      assert Reverse(ks) == [];
    } else {
      var front, k := ks[..|ks| - 1], ks[|ks| - 1];
      var mid := Rounds(salt, front, h);
      assert Reverse(ks) == [k] + Reverse(front);
      RoundsCons(salt, k, Reverse(front), Rounds(salt, ks, h).Swap());
      RoundUndone(salt, mid, k);
      RoundsUndone(salt, front, h);
    }
  }

  lemma CoreUndone(salt: W24, ks: seq<W48>, h: Halves)
    ensures Core(salt, Reverse(ks), Core(salt, ks, h)) == h
  {
    RoundsUndone(salt, ks, h);
  }

  lemma FinalThenInitial(b: W64)
    ensures InitialPermutation(FinalPermutation(b)) == b
  {
    forall i | 0 <= i < 64
      ensures InitialPermutation(FinalPermutation(b))[i] == b[i]
    {
      FinalUndoesInitial(i);
    }
  }

  lemma InitialThenFinal(b: W64)
    ensures FinalPermutation(InitialPermutation(b)) == b
  {
    forall i | 0 <= i < 64
      ensures FinalPermutation(InitialPermutation(b))[i] == b[i]
    {
      InitialUndoesFinal(i);
    }
  }

  lemma SplitBlock(h: Halves)
    ensures Split(h.Block()) == h
  {
    assert h.Block()[..32] == h.l && h.Block()[32..] == h.r;
  }

  /** Whatever the salt and the keys, deciphering undoes enciphering. */
  lemma DecipherUndoesEncipher(salt: W24, ks: seq<W48>, b: W64)
    ensures Decipher(salt, ks, Encipher(salt, ks, b)) == b
  {
    var h := Split(InitialPermutation(b));
    FinalThenInitial(Core(salt, ks, h).Block());
    SplitBlock(Core(salt, ks, h));
    CoreUndone(salt, ks, h);
    InitialThenFinal(b);
  }

  lemma ReverseTwice(ks: seq<W48>)
    ensures Reverse(Reverse(ks)) == ks
  {
  }

  lemma EncipherUndoesDecipher(salt: W24, ks: seq<W48>, b: W64)
    ensures Encipher(salt, ks, Decipher(salt, ks, b)) == b
  {
    DecipherUndoesEncipher(salt, Reverse(ks), b);
    ReverseTwice(ks);
  }

  // ----- Repeated enciphering, as crypt(3) uses it -----

  function Repeat(n: nat, salt: W24, ks: seq<W48>, b: W64): W64 {
    if n == 0 then b else Encipher(salt, ks, Repeat(n - 1, salt, ks, b))
  }

  function RepeatCore(n: nat, salt: W24, ks: seq<W48>, h: Halves): Halves {
    if n == 0 then h else Core(salt, ks, RepeatCore(n - 1, salt, ks, h))
  }

  lemma EncipherPermuted(salt: W24, ks: seq<W48>, h: Halves)
    ensures Encipher(salt, ks, FinalPermutation(h.Block())) == FinalPermutation(Core(salt, ks, h).Block())
  {
    FinalThenInitial(h.Block());
    SplitBlock(h);
  }

  /** Between two encipherments the final and initial permutations cancel, so n
      encipherments need only one of each. */
  lemma {:induction false} RepeatIsRepeatCore(n: nat, salt: W24, ks: seq<W48>, b: W64)
    ensures Repeat(n, salt, ks, b)
         == FinalPermutation(RepeatCore(n, salt, ks, Split(InitialPermutation(b))).Block())
  {
    hide Encipher, Core, FinalPermutation, InitialPermutation;
    var h := Split(InitialPermutation(b));
    if n == 0 {
      InitialThenFinal(b);
    } else {
      RepeatIsRepeatCore(n - 1, salt, ks, b);
      EncipherPermuted(salt, ks, RepeatCore(n - 1, salt, ks, h));
    }
  }

  // ----- The key schedule -----

  /** A 28-bit register turned left n places. */
  function Turn(c: Word, n: nat): (r: Word)
    requires |c| == 28
    ensures |r| == 28
  {
    seq(28, i requires 0 <= i < 28 => c[(i + n) % 28])
  }

  /** How far the registers have turned when the key of round i is read. */
  function Turns(i: nat): (t: nat)
    requires i < 16
    ensures t == (if i == 0 then 1 else if i < 8 then 2 * i else if i < 15 then 2 * i - 1 else 28)
  {
    Rots(i) + if i == 0 then 0 else Turns(i - 1)
  }

  /** Registers C0 (half == 0) and D0 (half == 1). */
  function KeyRegister(key: W64, half: nat): (r: Word)
    requires half < 2
    ensures |r| == 28
  {
    seq(28, i requires 0 <= i < 28 => key[Pc1(28 * half + i) - 1])
  }

  /** Permuted choice 2 on one register. */
  function Choice2(register: Word, half: nat): W24
    requires |register| == 28 && half < 2
  {
    seq(24, j requires 0 <= j < 24 => register[if half == 0 then Pc2C(j) - 1 else Pc2D(j) - 29])
  }

  function RoundKey(key: W64, i: nat): W48
    requires i < 16
  {
    Choice2(Turn(KeyRegister(key, 0), Turns(i)), 0) + Choice2(Turn(KeyRegister(key, 1), Turns(i)), 1)
  }

  function KeySchedule(key: W64): (ks: seq<W48>)
    ensures |ks| == 16
  {
    seq(16, i requires 0 <= i < 16 => RoundKey(key, i))
  }
}
