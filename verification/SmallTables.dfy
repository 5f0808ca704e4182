/** The four static tables of crypt_util.c.  Each is filled by a loop over wires:
    wire k says that bit `mask` of the value indexing row `row` feeds bit `pos`
    of result word `dest`. */
module SmallTables {
  import opened Bits

  /** `mask` counts from the top of the 8-bit index value. */
  datatype Wire = Wire(row: nat, mask: nat, dest: nat, pos: nat)

  datatype Shape = Shape(rows: nat, values: nat, dests: nat)

  predicate WireFits(w: Wire, shape: Shape) {
    w.row < shape.rows && w.mask < 8 && w.dest < shape.dests && w.pos < 32
  }

  ghost predicate Fits(wires: seq<Wire>, shape: Shape) {
    shape.values <= 256 && forall k :: 0 <= k < |wires| ==> WireFits(wires[k], shape)
  }

  ghost predicate Feeds(w: Wire, row: nat, v: nat, dest: nat, p: nat) {
    w.row == row && w.dest == dest && w.pos == p && w.mask < 8 && OfNat(v, 8)[w.mask]
  }

  /** The table word at [row][v][dest]: exactly the bits some wire feeds. */
  ghost function WireWord(wires: seq<Wire>, row: nat, v: nat, dest: nat): (r: W32) {
    seq(32, p requires 0 <= p < 32 => exists k :: 0 <= k < |wires| && Feeds(wires[k], row, v, dest, p))
  }

  ghost predicate Wired(t: array3<W32>, shape: Shape, wires: seq<Wire>)
    reads t
  {
    && t.Length0 == shape.rows && t.Length1 == shape.values && t.Length2 == shape.dests
    && forall row, v, dest :: 0 <= row < shape.rows && 0 <= v < shape.values && 0 <= dest < shape.dests ==>
         t[row, v, dest] == WireWord(wires, row, v, dest)
  }

  /** Adding one wire sets its bit in the words whose index value has its mask
      bit, and changes no other word. */
  lemma WireWordStep(wires: seq<Wire>, w: Wire, row: nat, v: nat, dest: nat)
    requires w.mask < 8 && w.pos < 32
    ensures WireWord(wires + [w], row, v, dest)
         == if w.row == row && w.dest == dest && OfNat(v, 8)[w.mask]
            then Or(WireWord(wires, row, v, dest), OneHot(32, w.pos))
            else WireWord(wires, row, v, dest)
  {
    var all := wires + [w];
    var before, after := WireWord(wires, row, v, dest), WireWord(all, row, v, dest);
    var hit := w.row == row && w.dest == dest && OfNat(v, 8)[w.mask];
    forall p | 0 <= p < 32
      ensures after[p] == (before[p] || (hit && p == w.pos))
    {
      assert all[|wires|] == w;
      assert forall k :: 0 <= k < |wires| ==> all[k] == wires[k];
      if before[p] {
        var k :| 0 <= k < |wires| && Feeds(wires[k], row, v, dest, p);
        assert Feeds(all[k], row, v, dest, p);
      }
      if hit && p == w.pos {
        assert Feeds(all[|wires|], row, v, dest, p);
      }
    }
    if hit {
      assert after == Or(before, OneHot(32, w.pos));
    } else {
      assert after == before;
    }
  }

  /** The common shape of the four loops that fill do_pc1, do_pc2, eperm32tab and
      efp: clear the table, then for every wire set its bit in every word whose
      index value has its mask bit. */
  method Fill(t: array3<W32>, shape: Shape, wires: seq<Wire>)
    requires t.Length0 == shape.rows && t.Length1 == shape.values && t.Length2 == shape.dests
    requires Fits(wires, shape)
    modifies t
    ensures Wired(t, shape, wires)
  {
    forall row, v, dest | 0 <= row < t.Length0 && 0 <= v < t.Length1 && 0 <= dest < t.Length2 {
      t[row, v, dest] := Zeros(32);
    }
    EmptyWiring(t, shape);
    for bit := 0 to |wires|
      invariant Wired(t, shape, wires[..bit])
    {
      AddWire(t, shape, wires[..bit], wires[bit]);
      assert wires[..bit + 1] == wires[..bit] + [wires[bit]];
    }
    assert wires[..|wires|] == wires;
  }

  lemma EmptyWiring(t: array3<W32>, shape: Shape)
    requires t.Length0 == shape.rows && t.Length1 == shape.values && t.Length2 == shape.dests
    requires forall row, v, dest :: 0 <= row < t.Length0 && 0 <= v < t.Length1 && 0 <= dest < t.Length2 ==>
               t[row, v, dest] == Zeros(32)
    ensures Wired(t, shape, [])
  {
    forall row: nat, v: nat, dest: nat
      ensures WireWord([], row, v, dest) == Zeros(32)
    {
    }
  }

  /** The inner loop: `if (j & mask1) table[row][j][dest] |= mask2`. */
  method AddWire(t: array3<W32>, shape: Shape, ghost wires: seq<Wire>, w: Wire)
    requires Wired(t, shape, wires)
    requires shape.values <= 256 && WireFits(w, shape)
    modifies t
    ensures Wired(t, shape, wires + [w])
  {
    hide WireWord, OfNat;
    for j := 0 to shape.values
      invariant forall row, v, dest :: 0 <= row < shape.rows && 0 <= v < shape.values && 0 <= dest < shape.dests ==>
                  t[row, v, dest] ==
                  WireWord(if row == w.row && dest == w.dest && v < j then wires + [w] else wires, row, v, dest)
    {
      WireWordStep(wires, w, w.row, j, w.dest);
      if OfNat(j, 8)[w.mask] {
        t[w.row, j, w.dest] := Or(t[w.row, j, w.dest], OneHot(32, w.pos));
      }
    }
    forall row, v, dest | 0 <= row < shape.rows && 0 <= v < shape.values && 0 <= dest < shape.dests
      ensures t[row, v, dest] == WireWord(wires + [w], row, v, dest)
    {
      WireWordStep(wires, w, row, v, dest);
    }
  }
}
