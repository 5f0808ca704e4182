/** The wires of each static table, and what a row-by-row lookup in it computes. */
module Wiring {
  import opened Bits
  import opened DesTables
  import opened Packing
  import opened SmallTables

  // ----- Reading one bit of a looked-up word -----

  /** In this row, only wire k can feed its result bit. */
  ghost predicate Alone(wires: seq<Wire>, k: nat, row: nat)
    requires k < |wires|
  {
    forall m :: 0 <= m < |wires| && m != k && wires[m].dest == wires[k].dest && wires[m].pos == wires[k].pos ==>
      wires[m].row != row
  }

  lemma FedBit(wires: seq<Wire>, k: nat, row: nat, v: nat)
    requires k < |wires| && Alone(wires, k, row)
    requires wires[k].pos < 32 && wires[k].mask < 8
    ensures WireWord(wires, row, v, wires[k].dest)[wires[k].pos]
         == (row == wires[k].row && OfNat(v, 8)[wires[k].mask])
  {
    var w := wires[k];
    if row == w.row && OfNat(v, 8)[w.mask] {
      assert Feeds(wires[k], row, v, w.dest, w.pos);
    }
  }

  lemma UnfedBit(wires: seq<Wire>, row: nat, v: nat, dest: nat, p: nat)
    requires p < 32
    requires forall m :: 0 <= m < |wires| ==> wires[m].dest != dest || wires[m].pos != p
    ensures !WireWord(wires, row, v, dest)[p]
  {
  }

  // ----- do_pc1: from the key bytes to the two key registers -----

  const PC1_SHAPE := Shape(8, 128, 2)

  function Pc1Wire(bit: nat): (w: Wire)
    requires bit < 56
    ensures WireFits(w, PC1_SHAPE)
  {
    var from := Pc1(bit) - 1;
    Wire(from / 8, from % 8 + 1, bit / 28, bit % 28 + 4)
  }

  function Pc1Wires(): (ws: seq<Wire>)
    ensures |ws| == 56
    ensures forall k :: 0 <= k < 56 ==> ws[k] == Pc1Wire(k)
    ensures Fits(ws, PC1_SHAPE)
  {
    seq(56, k requires 0 <= k < 56 => Pc1Wire(k))
  }

  // ----- do_pc2: from the turned registers to a round key -----

  const PC2_SHAPE := Shape(8, 128, 1)

  function Pc2(bit: nat): (b: nat)
    requires bit < 48
    ensures 1 <= b <= 56
    ensures bit < 24 <==> b <= 28
  {
    if bit < 24 then Pc2C(bit) else Pc2D(bit - 24)
  }

  /** Wires k and k + 24 feed the same bit, from rows of different halves. */
  function Pc2Wire(bit: nat): (w: Wire)
    requires bit < 48
    ensures WireFits(w, PC2_SHAPE)
  {
    var from := Pc2(bit) - 1;
    Wire(from / 7, from % 7 + 1, 0, BitPos(bit % 24))
  }

  function Pc2Wires(): (ws: seq<Wire>)
    ensures |ws| == 48
    ensures forall k :: 0 <= k < 48 ==> ws[k] == Pc2Wire(k)
    ensures Fits(ws, PC2_SHAPE)
  {
    seq(48, k requires 0 <= k < 48 => Pc2Wire(k))
  }

  // ----- eperm32tab: P followed by E -----

  const EPERM_SHAPE := Shape(4, 256, 2)

  function EpermWire(bit: nat): (w: Wire)
    requires bit < 48
    ensures WireFits(w, EPERM_SHAPE)
  {
    var from := Perm32(ESel(bit) - 1) - 1;
    Wire(from / 8, from % 8, bit / 24, BitPos(bit % 24))
  }

  function EpermWires(): (ws: seq<Wire>)
    ensures |ws| == 48
    ensures forall k :: 0 <= k < 48 ==> ws[k] == EpermWire(k)
    ensures Fits(ws, EPERM_SHAPE)
  {
    seq(48, k requires 0 <= k < 48 => EpermWire(k))
  }

  // ----- efp: undoing E and the final permutation -----

  const EFP_SHAPE := Shape(16, 64, 2)

  /** Where each of the 64 preoutput bits can be found in the 96 expanded bits. */
  predicate InvertsE(inverse: seq<nat>) {
    && |inverse| == 64
    && forall f :: 0 <= f < 32 ==>
         inverse[f] < 48 && ESel(inverse[f]) == f + 1 && inverse[f + 32] == inverse[f] + 48
  }

  lemma InverseRange(inverse: seq<nat>, f: nat)
    requires InvertsE(inverse) && f < 64
    ensures inverse[f] < 96
    ensures f < 32 <==> inverse[f] < 48
    ensures ESel(inverse[f] % 48) == f % 32 + 1
  {
    hide ESel;
    var g := f % 32;
    assert inverse[g] < 48 && inverse[g + 32] == inverse[g] + 48;
    assert f == g || f == g + 32;
  }

  function EfpWire(inverse: seq<nat>, bit: nat): (w: Wire)
    requires InvertsE(inverse) && bit < 64
    ensures WireFits(w, EFP_SHAPE)
  {
    InverseRange(inverse, FinalPerm(bit) - 1);
    var e := inverse[FinalPerm(bit) - 1];
    Wire(e / 6, 2 + e % 6, bit / 32, bit % 32)
  }

  function EfpWires(inverse: seq<nat>): (ws: seq<Wire>)
    requires InvertsE(inverse)
    ensures |ws| == 64
    ensures forall k :: 0 <= k < 64 ==> ws[k] == EfpWire(inverse, k)
    ensures Fits(ws, EFP_SHAPE)
  {
    seq(64, k requires 0 <= k < 64 => EfpWire(inverse, k))
  }
}
