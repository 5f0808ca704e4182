/** What each static table computes, in the standard's terms. */
module TableMeaning {
  import opened Bits
  import opened DesTables
  import opened Des
  import opened Packing
  import opened Wiring
  import opened Lookup

  // ----- eperm32tab: P, then E, packed -----

  predicate ByteIndices(w: W32, index: seq<nat>) {
    |index| == 4 && forall r :: 0 <= r < 4 ==> index[r] == ToNat(w[8 * r..8 * r + 8])
  }

  lemma EpermAlone(k: nat, row: nat)
    requires k < 48
    ensures Alone(EpermWires(), k, row)
  {
    hide ESel, Perm32;
  }

  lemma ByteBit(w: W32, index: seq<nat>, from: nat)
    requires ByteIndices(w, index) && from < 32
    ensures OfNat(index[from / 8], 8)[from % 8] == w[from]
  {
    hide ToNat, OfNat, Pow2;
    var r := from / 8;
    IndexBits(w[8 * r..8 * r + 8], from % 8);
  }

  lemma EpermBit(w: W32, index: seq<nat>, k: nat)
    requires |index| == 4 && ByteIndices(w, index) && k < 48
    ensures OrRows(EpermWires(), index, 0, 4, k / 24)[BitPos(k % 24)] == Expand(Permute(w))[k]
  {
    hide ESel, Perm32, OrRows, Alone, ByteIndices, EpermWires;
    var ws := EpermWires();
    forall row | 0 <= row < 4
      ensures Alone(ws, k, row)
    {
      EpermAlone(k, row);
    }
    OrRowsFed(ws, index, 0, 4, k);
    ByteBit(w, index, Perm32(ESel(k) - 1) - 1);
  }

  lemma EpermLookupAt(w: W32, index: seq<nat>, half: nat, p: nat)
    requires |index| == 4 && ByteIndices(w, index) && half < 2 && p < 32
    ensures OrRows(EpermWires(), index, 0, 4, half)[p]
         == (Carries(p) && HalfOf(Expand(Permute(w)), half)[CarriedBit(p)])
  {
    hide ESel, Perm32, OrRows, Expand, Permute, ByteIndices;
    if Carries(p) {
      EpermBit(w, index, 24 * half + CarriedBit(p));
    } else {
      OrRowsUnfed(EpermWires(), index, 0, 4, half, p);
    }
  }

  /** Four byte lookups in eperm32tab permute and expand a 32-bit value. */
  lemma EpermLookup(w: W32, index: seq<nat>, half: nat)
    requires |index| == 4 && ByteIndices(w, index) && half < 2
    ensures OrRows(EpermWires(), index, 0, 4, half) == Pack24(HalfOf(Expand(Permute(w)), half))
  {
    hide *;
    var r := OrRows(EpermWires(), index, 0, 4, half);
    forall p {:trigger r[p]} | 0 <= p < 32
      ensures r[p] == (Carries(p) && HalfOf(Expand(Permute(w)), half)[CarriedBit(p)])
    {
      EpermLookupAt(w, index, half, p);
    }
    IsPacked(r, HalfOf(Expand(Permute(w)), half));
  }

  // ----- do_pc1: permuted choice 1 -----

  /** The 64-bit key of eight characters: seven bits each, then the parity bit,
      which permuted choice 1 never reads. */
  function KeyOf(chars: seq<nat>): W64
    requires |chars| == 8
  {
    seq(64, c requires 0 <= c < 64 => c % 8 < 7 && OfNat(chars[c / 8] % 128, 8)[c % 8 + 1])
  }

  predicate CharIndices(chars: seq<nat>, index: seq<nat>) {
    |chars| == 8 && |index| == 8 && forall i :: 0 <= i < 8 ==> index[i] == chars[i] % 128
  }

  lemma Pc1Alone(k: nat, row: nat)
    requires k < 56
    ensures Alone(Pc1Wires(), k, row)
  {
    hide Pc1;
  }

  lemma Pc1LookupAt(chars: seq<nat>, index: seq<nat>, half: nat, b: nat)
    requires CharIndices(chars, index) && half < 2 && b < 28
    ensures OrRows(Pc1Wires(), index, 0, 8, half)[4 + b] == KeyRegister(KeyOf(chars), half)[b]
  {
    hide Pc1, OrRows, Alone, Pc1Wires, OfNat;
    var k := 28 * half + b;
    var ws := Pc1Wires();
    forall row | 0 <= row < 8
      ensures Alone(ws, k, row)
    {
      Pc1Alone(k, row);
    }
    OrRowsFed(ws, index, 0, 8, k);
  }

  /** Eight character lookups in do_pc1 load the two key registers, right aligned. */
  lemma Pc1Lookup(chars: seq<nat>, index: seq<nat>, half: nat)
    requires CharIndices(chars, index) && half < 2
    ensures OrRows(Pc1Wires(), index, 0, 8, half) == Zeros(4) + KeyRegister(KeyOf(chars), half)
  {
    hide Pc1, OrRows, KeyRegister, KeyOf, Pc1Wires;
    var r, c := OrRows(Pc1Wires(), index, 0, 8, half), KeyRegister(KeyOf(chars), half);
    forall p | 0 <= p < 32
      ensures r[p] == (Zeros(4) + c)[p]
    {
      if p < 4 {
        OrRowsUnfed(Pc1Wires(), index, 0, 8, half, p);
      } else {
        Pc1LookupAt(chars, index, half, p - 4);
      }
    }
  }

  // ----- do_pc2: permuted choice 2 -----

  /** Septets of the C register select rows 0..3, septets of D rows 4..7. */
  predicate SeptetIndices(register: Word, half: nat, index: seq<nat>) {
    && |register| == 28 && half < 2 && |index| == 8
    && forall r :: 0 <= r < 4 ==> index[4 * half + r] == ToNat(register[7 * r..7 * r + 7])
  }

  lemma Pc2Row(k: nat)
    requires k < 48
    ensures 4 * (k / 24) <= Pc2Wire(k).row < 4 * (k / 24) + 4
  {
    hide Pc2;
  }

  lemma SamePosition(k: nat, m: nat)
    requires k < 48 && m < 48 && k != m && BitPos(k % 24) == BitPos(m % 24)
    ensures k / 24 != m / 24
  {
  }

  lemma Pc2Alone(k: nat, row: nat)
    requires k < 48 && 4 * (k / 24) <= row < 4 * (k / 24) + 4
    ensures Alone(Pc2Wires(), k, row)
  {
    hide Pc2, Pc2Wires;
    var ws := Pc2Wires();
    forall m | 0 <= m < 48 && m != k && ws[m].dest == ws[k].dest && ws[m].pos == ws[k].pos
      ensures ws[m].row != row
    {
      SamePosition(k, m);
      Pc2Row(m);
    }
  }

  lemma SeptetBit(register: Word, half: nat, index: seq<nat>, from: nat)
    requires |index| == 8 && |register| == 28 && SeptetIndices(register, half, index)
    requires 28 * half <= from < 28 * half + 28
    ensures from / 7 < 8
    ensures OfNat(index[from / 7], 8)[from % 7 + 1] == register[from - 28 * half]
  {
    var r := from / 7 - 4 * half;
    assert index[4 * half + r] == ToNat(register[7 * r..7 * r + 7]);
    IndexBits(register[7 * r..7 * r + 7], from % 7);
  }

  lemma Pc2Bit(register: Word, half: nat, index: seq<nat>, j: nat)
    requires |index| == 8 && |register| == 28 && half < 2 && SeptetIndices(register, half, index) && j < 24
    ensures OrRows(Pc2Wires(), index, 4 * half, 4 * half + 4, 0)[BitPos(j)] == Choice2(register, half)[j]
  {
    hide Pc2C, Pc2D, OrRows, Alone, Pc2Wires, SeptetIndices;
    var k, ws := 24 * half + j, Pc2Wires();
    assert k / 24 == half && k % 24 == j;
    forall row | 4 * half <= row < 4 * half + 4
      ensures Alone(ws, k, row)
    {
      Pc2Alone(k, row);
    }
    SeptetBit(register, half, index, Pc2(k) - 1);
    OrRowsFed(ws, index, 4 * half, 4 * half + 4, k);
  }

  lemma Pc2LookupAt(register: Word, half: nat, index: seq<nat>, p: nat)
    requires |index| == 8 && |register| == 28 && half < 2 && SeptetIndices(register, half, index) && p < 32
    ensures OrRows(Pc2Wires(), index, 4 * half, 4 * half + 4, 0)[p]
         == (Carries(p) && Choice2(register, half)[CarriedBit(p)])
  {
    hide Pc2C, Pc2D, Pc2, OrRows, Choice2, SeptetIndices, Pc2Wires;
    if Carries(p) {
      Pc2Bit(register, half, index, CarriedBit(p));
    } else {
      OrRowsUnfed(Pc2Wires(), index, 4 * half, 4 * half + 4, 0, p);
    }
  }

  /** Four septet lookups in do_pc2 choose the 24 key bits of one register. */
  lemma Pc2Lookup(register: Word, half: nat, index: seq<nat>)
    requires |index| == 8 && |register| == 28 && half < 2 && SeptetIndices(register, half, index)
    ensures OrRows(Pc2Wires(), index, 4 * half, 4 * half + 4, 0) == Pack24(Choice2(register, half))
  {
    hide *;
    var r := OrRows(Pc2Wires(), index, 4 * half, 4 * half + 4, 0);
    forall p {:trigger r[p]} | 0 <= p < 32
      ensures r[p] == (Carries(p) && Choice2(register, half)[CarriedBit(p)])
    {
      Pc2LookupAt(register, half, index, p);
    }
    IsPacked(r, Choice2(register, half));
  }

  // ----- efp: undo E, then the final permutation -----

  predicate SixIndices(x: Word, index: seq<nat>) {
    |x| == 96 && |index| == 16 && forall r :: 0 <= r < 16 ==> index[r] == ToNat(x[6 * r..6 * r + 6])
  }

  lemma EfpAlone(inverse: seq<nat>, k: nat, row: nat)
    requires InvertsE(inverse) && k < 64
    ensures Alone(EfpWires(inverse), k, row)
  {
    hide FinalPerm, InvertsE;
  }

  lemma SixBit(x: Word, index: seq<nat>, e: nat)
    requires |x| == 96 && |index| == 16 && SixIndices(x, index) && e < 96
    ensures OfNat(index[e / 6], 8)[2 + e % 6] == x[e]
  {
    hide OfNat, ToNat;
    var r := e / 6;
    IndexBits(x[6 * r..6 * r + 6], e % 6);
  }

  lemma EfpBit(inverse: seq<nat>, x: Word, index: seq<nat>, k: nat)
    requires InvertsE(inverse) && |x| == 96 && |index| == 16 && SixIndices(x, index) && k < 64
    ensures inverse[FinalPerm(k) - 1] < 96
    ensures OrRows(EfpWires(inverse), index, 0, 16, k / 32)[k % 32] == x[inverse[FinalPerm(k) - 1]]
  {
    hide FinalPerm, ESel, OrRows, Alone, SixIndices;
    forall row | 0 <= row < 16
      ensures Alone(EfpWires(inverse), k, row)
    {
      EfpAlone(inverse, k, row);
    }
    InverseRange(inverse, FinalPerm(k) - 1);
    OrRowsFed(EfpWires(inverse), index, 0, 16, k);
    SixBit(x, index, inverse[FinalPerm(k) - 1]);
  }

  lemma ExpandedBit(h: Halves, inverse: seq<nat>, f: nat)
    requires InvertsE(inverse) && f < 64
    ensures inverse[f] < 96
    ensures (Expand(h.l) + Expand(h.r))[inverse[f]] == h.Block()[f]
  {
    hide ESel;
    InverseRange(inverse, f);
  }

  /** Sixteen six-bit lookups in efp, on the expanded preoutput, give the two
      words of its final permutation. */
  lemma EfpLookup(inverse: seq<nat>, h: Halves, index: seq<nat>)
    requires InvertsE(inverse) && |index| == 16 && SixIndices(Expand(h.l) + Expand(h.r), index)
    ensures OrRows(EfpWires(inverse), index, 0, 16, 0) + OrRows(EfpWires(inverse), index, 0, 16, 1)
         == FinalPermutation(h.Block())
  {
    hide FinalPerm, ESel, OrRows, Expand, InvertsE, SixIndices, EfpWires;
    var ws := EfpWires(inverse);
    var x := Expand(h.l) + Expand(h.r);
    var v: Word := OrRows(ws, index, 0, 16, 0) + OrRows(ws, index, 0, 16, 1);
    forall k | 0 <= k < 64
      ensures v[k] == FinalPermutation(h.Block())[k]
    {
      EfpBit(inverse, x, index, k);
      ExpandedBit(h, inverse, FinalPerm(k) - 1);
    }
  }
}
