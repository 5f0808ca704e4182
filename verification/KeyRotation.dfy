/** The key registers of _ufc_mk_keytab_r.  The code turns a 28-bit register with
    (v << n) | (v >> (28 - n)) and never masks the result, so bits pile up above
    bit 27.  This module shows the pile-up is harmless: every bit at or above 28
    is a copy of the bit 28 places below, or zero, so the low 28 bits are always
    the true rotation. */
module KeyRotation {
  import opened Bits
  import opened Des

  function UfcTurn(v: Word, n: nat): (r: Word)
    requires |v| >= 28 && n <= 28
    ensures |r| == |v|
  {
    Or(Shl(v, n), Shr(v, 28 - n))
  }

  /** The value, counting from the least significant end, of bit b. */
  function LowBit(v: Word, b: nat): bool
    requires b < |v|
  {
    v[|v| - 1 - b]
  }

  /** A register that has turned t places without being masked: 28 + t bits. */
  function Unmasked(c: Word, t: nat, width: nat): (r: Word)
    requires |c| == 28 && t <= 28
    ensures |r| == width
  {
    seq(width, p requires 0 <= p < width =>
      var b := width - 1 - p;
      b < 28 + t && c[(55 + t - b) % 28])
  }

  lemma UnmaskedStart(c: Word, width: nat)
    requires |c| == 28 <= width
    ensures Unmasked(c, 0, width) == Zeros(width - 28) + c
  {
  }

  lemma UnmaskedStep(c: Word, t: nat, n: nat, width: nat)
    requires |c| == 28 <= width && 1 <= n <= 28 && t + n <= 28
    ensures UfcTurn(Unmasked(c, t, width), n) == Unmasked(c, t + n, width)
  {
    hide UfcTurn, Unmasked, LowBit;
    var turned, next := UfcTurn(Unmasked(c, t, width), n), Unmasked(c, t + n, width);
    forall p | 0 <= p < width
      ensures turned[p] == next[p]
    {
      var b := width - 1 - p;
      TurnedBit(Unmasked(c, t, width), n, b);
      UnmaskedBit(c, t + n, width, b);
      if n <= b {
        UnmaskedBit(c, t, width, b - n);
      }
      if b + 28 - n < width {
        UnmaskedBit(c, t, width, b + 28 - n);
      }
      BitIndex(turned, b);
      BitIndex(next, b);
      assert b < t + n ==> Source(t, b + 28 - n) == Source(t + n, b);
    }
  }

  /** Where bit b of a register that has turned t places comes from. */
  function Source(t: nat, b: nat): (p: nat)
    requires t <= 28 && b < 28 + t
    ensures p < 28
  {
    (55 + t - b) % 28
  }

  lemma UnmaskedBit(c: Word, t: nat, width: nat, b: nat)
    requires |c| == 28 && t <= 28 && b < width
    ensures LowBit(Unmasked(c, t, width), b) == (b < 28 + t && c[Source(t, b)])
  {
  }

  lemma TurnedBit(v: Word, n: nat, b: nat)
    requires |v| >= 28 && n <= 28 && b < |v|
    ensures LowBit(UfcTurn(v, n), b) == ((n <= b && LowBit(v, b - n)) || (b + 28 - n < |v| && LowBit(v, b + 28 - n)))
  {
  }

  lemma BitIndex(v: Word, b: nat)
    requires b < |v|
    ensures LowBit(v, b) == v[|v| - 1 - b]
  {
  }

  /** Bits at or above 28 duplicate the bit 28 below, as far up as they reach. */
  lemma HighBitsDuplicate(c: Word, t: nat, width: nat, b: nat)
    requires |c| == 28 && t <= 28 && 28 <= b < width
    ensures LowBit(Unmasked(c, t, width), b) == (b < 28 + t && LowBit(Unmasked(c, t, width), b - 28))
  {
  }

  /** The four septets the code reads are those of the true rotation. */
  lemma SeptetsAreTrue(c: Word, t: nat, width: nat, r: nat)
    requires |c| == 28 <= width && t <= 28 && r < 4
    ensures Field(Unmasked(c, t, width), 21 - 7 * r, 7) == Turn(c, t)[7 * r..7 * r + 7]
  {
    var f, s := Field(Unmasked(c, t, width), 21 - 7 * r, 7), Turn(c, t)[7 * r..7 * r + 7];
    forall i | 0 <= i < 7
      ensures f[i] == s[i]
    {
      var j := 7 * r + i;
      assert f[i] == Unmasked(c, t, width)[width - 28 + j];
      assert (55 + t - (27 - j)) % 28 == (j + t) % 28;
    }
  }
}
