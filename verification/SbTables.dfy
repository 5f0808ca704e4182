/** The big lookup tables sb0..sb3 of crypt_data: their contents in the
    standard's terms, and what four lookups compute. */
module SbTables {
  import opened Bits
  import opened DesTables
  import opened Des
  import opened Expanded
  import opened Packing
  import opened Lookup

  /** The 32-bit value whose byte g is b, other bytes zero. */
  function InByte(g: nat, b: W8): (w: W32)
    requires g < 4
    ensures forall i :: 0 <= i < 32 ==> w[i] == (i / 8 == g && b[i % 8])
  {
    seq(32, i requires 0 <= i < 32 => i / 8 == g && b[i % 8])
  }

  /** Entry n of table g: two selection functions, P, E and the salt swap. */
  function SbEntry(salt: W24, g: nat, n: nat): W48
    requires g < 4
  {
    Image(salt, Permute(InByte(g, SelectPair(g, OfNat(n, 12)))))
  }

  /** The four tables in a row, as they lie in memory. */
  function SbWord(salt: W24, i: nat): W64
    requires i < 16384
  {
    Pack48(SbEntry(salt, i / 4096, i % 4096))
  }

  // ----- Four lookups make one application of f -----

  function Group(x: W48, g: nat): (t: W12)
    requires g < 4
  {
    x[12 * g..12 * g + 12]
  }

  function XorAll(a: Word, b: Word, c: Word, d: Word): (r: Word)
    requires |a| == |b| == |c| == |d|
    ensures |r| == |a|
    ensures forall i :: 0 <= i < |a| ==> r[i] == (a[i] != (b[i] != (c[i] != d[i])))
  {
    Xor(a, Xor(b, Xor(c, d)))
  }

  function Selected(x: W48, g: nat): W32
    requires g < 4
  {
    InByte(g, SelectPair(g, Group(x, g)))
  }

  lemma SelectAllSplits(x: W48)
    ensures XorAll(Selected(x, 0), Selected(x, 1), Selected(x, 2), Selected(x, 3)) == SelectAll(x)
  {
    hide SelectPair;
    var parts, all := XorAll(Selected(x, 0), Selected(x, 1), Selected(x, 2), Selected(x, 3)), SelectAll(x);
    forall i | 0 <= i < 32
      ensures parts[i] == all[i]
    {
      assert Selected(x, i / 8)[i] == SelectPair(i / 8, Group(x, i / 8))[i % 8];
    }
  }

  lemma ImagePermuteXor(salt: W24, a: W32, b: W32)
    ensures Image(salt, Permute(Xor(a, b))) == Xor(Image(salt, Permute(a)), Image(salt, Permute(b)))
  {
    assert Permute(Xor(a, b)) == Xor(Permute(a), Permute(b)) by {
      hide Perm32;
    }
    ImageXor(salt, Permute(a), Permute(b));
  }

  function GroupEntry(salt: W24, x: W48, g: nat): W48
    requires g < 4
  {
    Image(salt, Permute(Selected(x, g)))
  }

  /** The entries that the four groups of x select XOR to f's expanded output. */
  lemma FourEntries(salt: W24, x: W48)
    ensures XorAll(GroupEntry(salt, x, 0), GroupEntry(salt, x, 1), GroupEntry(salt, x, 2), GroupEntry(salt, x, 3))
         == WideCipher(salt, x)
  {
    hide Image, Permute, Selected, SelectAll;
    var s0, s1, s2, s3 := Selected(x, 0), Selected(x, 1), Selected(x, 2), Selected(x, 3);
    ImagePermuteXor(salt, s2, s3);
    ImagePermuteXor(salt, s1, Xor(s2, s3));
    ImagePermuteXor(salt, s0, Xor(s1, Xor(s2, s3)));
    SelectAllSplits(x);
  }

  lemma EntryIsGroupEntry(salt: W24, x: W48, g: nat)
    requires g < 4
    ensures ToNat(Group(x, g)) < 4096
    ensures SbWord(salt, 4096 * g + ToNat(Group(x, g))) == Pack48(GroupEntry(salt, x, g))
  {
    hide Image, Permute, SelectPair;
    FieldBound(Group(x, g));
    OfToNat(Group(x, g));
    var i := 4096 * g + ToNat(Group(x, g));
    assert i / 4096 == g && i % 4096 == ToNat(Group(x, g));
  }

  function GroupWord(salt: W24, x: W48, g: nat): W64
    requires g < 4
  {
    Pack48(GroupEntry(salt, x, g))
  }

  lemma FourWords(salt: W24, x: W48)
    ensures XorAll(GroupWord(salt, x, 0), GroupWord(salt, x, 1), GroupWord(salt, x, 2), GroupWord(salt, x, 3))
         == Pack48(WideCipher(salt, x))
  {
    hide GroupEntry, WideCipher, Pack48;
    var e0, e1, e2, e3 :=
      GroupEntry(salt, x, 0), GroupEntry(salt, x, 1), GroupEntry(salt, x, 2), GroupEntry(salt, x, 3);
    PackXor(e2, e3);
    PackXor(e1, Xor(e2, e3));
    PackXor(e0, Xor(e1, Xor(e2, e3)));
    FourEntries(salt, x);
  }

  // ----- Reading a table by byte offset -----

  /** Bytes 0..15 (lane 3) to 48..63 (lane 0) of a tagged keyed word. */
  function LaneOf(x: W48, g: nat): (r: Word)
    requires g < 4
    ensures |r| == 16
  {
    Lane(g % 2 == 1, Group(x, g))
  }

  lemma TaggedLanes(x: W48)
    ensures Tagged48(x) == LaneOf(x, 0) + LaneOf(x, 1) + LaneOf(x, 2) + LaneOf(x, 3)
  {
    assert HalfOf(x, 0)[..12] == Group(x, 0) && HalfOf(x, 0)[12..] == Group(x, 1);
    assert HalfOf(x, 1)[..12] == Group(x, 2) && HalfOf(x, 1)[12..] == Group(x, 3);
  }

  /** Every lane of a keyed word is the offset of a whole table entry: it is a
      multiple of the entry size, and the tag moves odd lanes into the second
      table of the pair they address. */
  lemma LaneAddresses(x: W48, g: nat)
    requires g < 4
    ensures ToNat(LaneOf(x, g)) % 8 == 0
    ensures ToNat(Group(x, g)) < 4096
    ensures 8192 * (g / 2) + ToNat(LaneOf(x, g)) / 8 == 4096 * g + ToNat(Group(x, g))
  {
    hide Group, ToNat, Lane;
    LaneValue(g % 2 == 1, Group(x, g));
    LaneOffset(g, ToNat(Group(x, g)));
  }

  lemma LaneOffset(g: nat, v: nat)
    requires g < 4
    ensures var lane := 32768 * BitValue(g % 2 == 1) + 8 * v;
            lane % 8 == 0 && 8192 * (g / 2) + lane / 8 == 4096 * g + v
  {
    assert g == 2 * (g / 2) + BitValue(g % 2 == 1);
  }
}
