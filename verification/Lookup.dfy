/** What ORing together one word from each row of a static table computes. */
module Lookup {
  import opened Bits
  import opened Des
  import opened Packing
  import opened SmallTables
  import opened Wiring

  /** The OR, over rows lo..hi, of the word selected by the row's index value. */
  ghost function OrRows(wires: seq<Wire>, index: seq<nat>, lo: nat, hi: nat, dest: nat): W32
    requires hi <= |index|
  {
    seq(32, p requires 0 <= p < 32 =>
      exists row :: lo <= row < hi && WireWord(wires, row, index[row], dest)[p])
  }

  lemma OrRowsNone(wires: seq<Wire>, index: seq<nat>, lo: nat, dest: nat)
    requires lo <= |index|
    ensures OrRows(wires, index, lo, lo, dest) == Zeros(32)
  {
  }

  lemma OrRowsUp(wires: seq<Wire>, index: seq<nat>, lo: nat, hi: nat, dest: nat)
    requires lo <= hi < |index|
    ensures OrRows(wires, index, lo, hi + 1, dest)
         == Or(OrRows(wires, index, lo, hi, dest), WireWord(wires, hi, index[hi], dest))
  {
    hide WireWord;
    var a, b := OrRows(wires, index, lo, hi, dest), OrRows(wires, index, lo, hi + 1, dest);
    var w := WireWord(wires, hi, index[hi], dest);
    forall p | 0 <= p < 32
      ensures b[p] == (a[p] || w[p])
    {
      if a[p] {
        var row :| lo <= row < hi && WireWord(wires, row, index[row], dest)[p];
        assert lo <= row < hi + 1 && WireWord(wires, row, index[row], dest)[p];
      }
    }
  }

  lemma OrRowsDown(wires: seq<Wire>, index: seq<nat>, lo: nat, hi: nat, dest: nat)
    requires lo < hi <= |index|
    ensures OrRows(wires, index, lo, hi, dest)
         == Or(OrRows(wires, index, lo + 1, hi, dest), WireWord(wires, lo, index[lo], dest))
  {
    hide WireWord;
    var a, b := OrRows(wires, index, lo + 1, hi, dest), OrRows(wires, index, lo, hi, dest);
    var w := WireWord(wires, lo, index[lo], dest);
    forall p | 0 <= p < 32
      ensures b[p] == (a[p] || w[p])
    {
      if a[p] {
        var row :| lo + 1 <= row < hi && WireWord(wires, row, index[row], dest)[p];
        assert lo <= row < hi && WireWord(wires, row, index[row], dest)[p];
      }
    }
  }

  /** A result bit with one wire in these rows copies the wire's index bit. */
  lemma OrRowsFed(wires: seq<Wire>, index: seq<nat>, lo: nat, hi: nat, k: nat)
    requires hi <= |index| && k < |wires|
    requires lo <= wires[k].row < hi && wires[k].pos < 32 && wires[k].mask < 8
    requires forall row :: lo <= row < hi ==> Alone(wires, k, row)
    ensures OrRows(wires, index, lo, hi, wires[k].dest)[wires[k].pos] == OfNat(index[wires[k].row], 8)[wires[k].mask]
  {
    hide WireWord;
    var w := wires[k];
    forall row | lo <= row < hi
      ensures WireWord(wires, row, index[row], w.dest)[w.pos] == (row == w.row && OfNat(index[w.row], 8)[w.mask])
    {
      FedBit(wires, k, row, index[row]);
    }
  }

  lemma OrRowsUnfed(wires: seq<Wire>, index: seq<nat>, lo: nat, hi: nat, dest: nat, p: nat)
    requires hi <= |index| && p < 32
    requires forall m :: 0 <= m < |wires| ==> wires[m].dest != dest || wires[m].pos != p
    ensures !OrRows(wires, index, lo, hi, dest)[p]
  {
    hide WireWord;
    forall row | lo <= row < hi
      ensures !WireWord(wires, row, index[row], dest)[p]
    {
      UnfedBit(wires, row, index[row], dest, p);
    }
  }

  // ----- Index values and their bits -----

  /** An index taken from a field of n bits shows those bits, low end aligned. */
  lemma IndexBits(f: Word, i: nat)
    requires i < |f| <= 8
    ensures OfNat(ToNat(f), 8)[8 - |f| + i] == f[i]
  {
    hide OfNat, ToNat;
    var w := Zeros(8 - |f|) + f;
    ToNatLeadingZeros(8 - |f|, f);
    OfToNat(w);
    assert |w| == 8 && w[8 - |f| + i] == f[i];
  }

  lemma FieldBound(f: Word)
    ensures |f| == 6 ==> ToNat(f) < 64
    ensures |f| == 7 ==> ToNat(f) < 128
    ensures |f| == 8 ==> ToNat(f) < 256
    ensures |f| == 12 ==> ToNat(f) < 4096
  {
    Pow2Values();
  }

  /** The positions that carry the 24 bits of a packed word. */
  predicate Carries(p: nat) {
    1 <= p <= 12 || 17 <= p <= 28
  }

  function CarriedBit(p: nat): (i: nat)
    requires p < 32 && Carries(p)
    ensures i < 24 && BitPos(i) == p
  {
    if p <= 12 then p - 1 else p - 5
  }

  /** A word is the packing of x if its carrier bits are x's and the rest are 0. */
  lemma IsPacked(w: W32, x: W24)
    requires forall p {:trigger w[p]} :: 0 <= p < 32 ==> w[p] == (Carries(p) && x[CarriedBit(p)])
    ensures w == Pack24(x)
  {
  }
}
