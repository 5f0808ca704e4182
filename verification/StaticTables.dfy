/** The static tables of crypt_util.c as objects, filled once by the first part
    of __init_des_r. */
module StaticTables {
  import opened Bits
  import opened DesTables
  import opened SmallTables
  import opened Wiring

  class Tables {
    var initialized: bool
    const doPc1: array3<W32>
    const doPc2: array3<W32>
    const eperm32tab: array3<W32>
    const efp: array3<W32>
    ghost var inverse: seq<nat>

    ghost const Repr: set<object> := {this, doPc1, doPc2, eperm32tab, efp}

    ghost predicate Allocated() {
      && doPc1.Length0 == 8 && doPc1.Length1 == 128 && doPc1.Length2 == 2
      && doPc2.Length0 == 8 && doPc2.Length1 == 128 && doPc2.Length2 == 1
      && eperm32tab.Length0 == 4 && eperm32tab.Length1 == 256 && eperm32tab.Length2 == 2
      && efp.Length0 == 16 && efp.Length1 == 64 && efp.Length2 == 2
      && doPc1 != doPc2 && doPc1 != eperm32tab && doPc1 != efp
      && doPc2 != eperm32tab && doPc2 != efp && eperm32tab != efp
    }

    /** Every table holds exactly what its wires say. */
    ghost predicate Ready()
      reads this, doPc1, doPc2, eperm32tab, efp
    {
      && Allocated()
      && InvertsE(inverse)
      && Wired(doPc1, PC1_SHAPE, Pc1Wires())
      && Wired(doPc2, PC2_SHAPE, Pc2Wires())
      && Wired(eperm32tab, EPERM_SHAPE, EpermWires())
      && Wired(efp, EFP_SHAPE, EfpWires(inverse))
    }

    ghost predicate Valid()
      reads this, doPc1, doPc2, eperm32tab, efp
    {
      Allocated() && (initialized ==> Ready())
    }

    constructor ()
      ensures Valid() && !initialized && fresh(Repr)
    {
      initialized := false;
      inverse := [];
      doPc1 := new W32[8, 128, 2]((_, _, _) => Zeros(32));
      doPc2 := new W32[8, 128, 1]((_, _, _) => Zeros(32));
      eperm32tab := new W32[4, 256, 2]((_, _, _) => Zeros(32));
      efp := new W32[16, 64, 2]((_, _, _) => Zeros(32));
    }

    /** Fills the tables the first time only. */
    method Init()
      requires Valid()
      modifies Repr
      ensures Valid() && Ready() && initialized
      ensures old(initialized) ==>
                unchanged(this) && unchanged(doPc1) && unchanged(doPc2) && unchanged(eperm32tab) && unchanged(efp)
    {
      if !initialized {
        Fill(doPc1, PC1_SHAPE, Pc1Wires());
        Fill(doPc2, PC2_SHAPE, Pc2Wires());
        Fill(eperm32tab, EPERM_SHAPE, EpermWires());
        var e := InvertE();
        Fill(efp, EFP_SHAPE, EfpWires(e));
        inverse := e;
        initialized := true;
      }
    }
  }

  /** Bit f of a half-block reaches this bit of its expansion. */
  function Place(f: nat): (e: nat)
    requires f < 32
    ensures e < 48
  {
    6 * (f / 4) + 1 + f % 4
  }

  lemma PlaceHolds(f: nat)
    requires f < 32
    ensures ESel(Place(f)) == f + 1
  {
    var e := Place(f);
    assert e / 6 == f / 4 && e % 6 == 1 + f % 4;
  }

  /** The places noted for bit e of the expansion, or an earlier one copying the
      same bit, in both halves. */
  predicate Noted(a: seq<nat>, e: nat)
    requires |a| == 64 && e < 48
  {
    var f := ESel(e) - 1;
    a[f] <= e && ESel(a[f]) == f + 1 && a[f + 32] == a[f] + 48
  }

  lemma NotedStep(a: seq<nat>, a': seq<nat>, bit: nat, e: nat)
    requires |a| == 64 && |a'| == 64 && bit <= e < 48
    requires a' == a[ESel(bit) - 1 := bit][ESel(bit) + 31 := bit + 48]
    requires bit < e ==> Noted(a, e)
    ensures Noted(a', e)
  {
    hide ESel;
  }

  /** The e_inverse loop: from the last expanded bit down, note where each bit
      can be taken from. */
  method InvertE() returns (inverse: seq<nat>)
    ensures InvertsE(inverse)
    ensures forall f, e :: 0 <= f < 32 && 0 <= e < inverse[f] ==> ESel(e) != f + 1
  {
    hide ESel, Noted;
    var a := new nat[64](_ => 0);
    var bit := 48;
    while bit > 0
      invariant 0 <= bit <= 48
      invariant forall e :: bit <= e < 48 ==> Noted(a[..], e)
    {
      ghost var was := a[..];
      bit := bit - 1;
      a[ESel(bit) - 1] := bit;
      a[ESel(bit) - 1 + 32] := bit + 48;
      forall e | bit <= e < 48
        ensures Noted(a[..], e)
      {
        NotedStep(was, a[..], bit, e);
      }
    }
    inverse := a[..];
    AllNoted(inverse);
  }

  lemma AllNoted(a: seq<nat>)
    requires |a| == 64 && forall e :: 0 <= e < 48 ==> Noted(a, e)
    ensures InvertsE(a)
    ensures forall f, e :: 0 <= f < 32 && 0 <= e < a[f] ==> ESel(e) != f + 1
  {
    hide ESel;
    forall f | 0 <= f < 32
      ensures a[f] < 48 && ESel(a[f]) == f + 1 && a[f + 32] == a[f] + 48
    {
      PlaceHolds(f);
      assert Noted(a, Place(f));
    }
    forall f, e | 0 <= f < 32 && 0 <= e < a[f]
      ensures ESel(e) != f + 1
    {
      assert Noted(a, e);
    }
  }
}
