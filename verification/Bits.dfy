/** Machine words as sequences of bits, most significant bit first: index 0 of
    a 32-bit word is the bit C writes as 0x80000000. */
module Bits {

  type Word = seq<bool>

  type W8 = w: Word | |w| == 8 witness Zeros(8)
  type W32 = w: Word | |w| == 32 witness Zeros(32)
  type W64 = w: Word | |w| == 64 witness Zeros(64)

  function Zeros(n: nat): (r: Word)
    ensures |r| == n
    ensures forall i :: 0 <= i < n ==> !r[i]
  {
    seq(n, _ => false)
  }

  /** C's `a ^ b`. */
  function Xor(a: Word, b: Word): (r: Word)
    requires |a| == |b|
    ensures |r| == |a|
    ensures forall i :: 0 <= i < |r| ==> r[i] == (a[i] != b[i])
  {
    seq(|a|, i requires 0 <= i < |a| => a[i] != b[i])
  }

  /** C's `a & b`. */
  function And(a: Word, b: Word): (r: Word)
    requires |a| == |b|
    ensures |r| == |a|
    ensures forall i :: 0 <= i < |r| ==> r[i] == (a[i] && b[i])
  {
    seq(|a|, i requires 0 <= i < |a| => a[i] && b[i])
  }

  /** C's `a | b`. */
  function Or(a: Word, b: Word): (r: Word)
    requires |a| == |b|
    ensures |r| == |a|
    ensures forall i :: 0 <= i < |r| ==> r[i] == (a[i] || b[i])
  {
    seq(|a|, i requires 0 <= i < |a| => a[i] || b[i])
  }

  /** C's `w << n` on an unsigned word: high bits fall off. */
  function Shl(w: Word, n: nat): (r: Word)
    requires n <= |w|
    ensures |r| == |w|
    ensures forall i :: 0 <= i < |r| ==> r[i] == (i + n < |w| && w[i + n])
  {
    w[n..] + Zeros(n)
  }

  /** C's `w >> n` on an unsigned word. */
  function Shr(w: Word, n: nat): (r: Word)
    requires n <= |w|
    ensures |r| == |w|
    ensures forall i :: 0 <= i < |r| ==> r[i] == (i >= n && w[i - n])
  {
    Zeros(n) + w[..|w| - n]
  }

  /** C's `((long64) a << 32) | b`. */
  function Join(a: W32, b: W32): W64 {
    var hi: Word, lo: Word := a, b;
    hi + lo
  }

  /** The word of length n whose only set bit is at index p. */
  function OneHot(n: nat, p: nat): (r: Word)
    requires p < n
    ensures |r| == n
    ensures forall i :: 0 <= i < n ==> r[i] == (i == p)
  {
    seq(n, i => i == p)
  }

  /** The bits C's `(w >> shift) & mask` keeps, where mask has `width` low bits. */
  function Field(w: Word, shift: nat, width: nat): (r: Word)
    requires shift + width <= |w|
    ensures |r| == width
  {
    w[|w| - shift - width..|w| - shift]
  }

  function Pow2(n: nat): (r: nat)
    ensures r >= 1
  {
    if n == 0 then 1 else 2 * Pow2(n - 1)
  }

  function BitValue(b: bool): (r: nat)
    ensures r <= 1
  {
    if b then 1 else 0
  }

  /** The unsigned value of a word. */
  function ToNat(w: Word): (r: nat)
    ensures r < Pow2(|w|)
  {
    if w == [] then 0 else 2 * ToNat(w[..|w| - 1]) + BitValue(w[|w| - 1])
  }

  /** The low `len` bits of a natural number. */
  function OfNat(n: nat, len: nat): (r: Word)
    ensures |r| == len
  {
    if len == 0 then [] else OfNat(n / 2, len - 1) + [n % 2 == 1]
  }

  lemma LowBit(x: nat, b: bool)
    ensures (2 * x + BitValue(b)) / 2 == x
    ensures ((2 * x + BitValue(b)) % 2 == 1) == b
  {
  }

  lemma {:induction false} OfToNat(w: Word)
    ensures OfNat(ToNat(w), |w|) == w
  {
    if w != [] {
      var front, last := w[..|w| - 1], w[|w| - 1];
      OfToNat(front);
      var n := ToNat(w);
      LowBit(ToNat(front), last);
      assert n / 2 == ToNat(front);
      assert OfNat(n, |w|) == OfNat(n / 2, |w| - 1) + [n % 2 == 1];
      assert w == front + [last];
    }
  }

  lemma ToNatNext(w: Word, b: bool)
    ensures ToNat(w + [b]) == 2 * ToNat(w) + BitValue(b)
  {
    assert (w + [b])[..|w|] == w;
  }

  lemma Halved(n: nat, p: nat)
    requires n < 2 * p
    ensures n / 2 < p && 2 * (n / 2) + BitValue(n % 2 == 1) == n
  {
  }

  lemma {:induction false} ToOfNat(n: nat, len: nat)
    requires n < Pow2(len)
    ensures ToNat(OfNat(n, len)) == n
  {
    if len != 0 {
      var half, low := n / 2, n % 2 == 1;
      Halved(n, Pow2(len - 1));
      ToOfNat(half, len - 1);
      assert OfNat(n, len) == OfNat(half, len - 1) + [low];
      hide OfNat, ToNat, Pow2;
      ToNatNext(OfNat(half, len - 1), low);
    }
  }

  lemma {:induction false} ToNatConcat(a: Word, b: Word)
    ensures ToNat(a + b) == ToNat(a) * Pow2(|b|) + ToNat(b)
  {
    if b == [] {
      assert a + b == a;
    } else {
      var b' := b[..|b| - 1];
      ToNatConcat(a, b');
      assert (a + b)[..|a + b| - 1] == a + b';
      assert Pow2(|b|) == 2 * Pow2(|b'|);
      ShiftIn(ToNat(a), Pow2(|b'|), ToNat(b'), BitValue(b[|b'|]));
    }
  }

  lemma ShiftIn(x: nat, p: nat, y: nat, v: nat)
    ensures 2 * (x * p + y) + v == x * (2 * p) + (2 * y + v)
  {
  }

  lemma {:induction false} ToNatZeros(n: nat)
    ensures ToNat(Zeros(n)) == 0
  {
    if n != 0 {
      ToNatZeros(n - 1);
      assert Zeros(n)[..n - 1] == Zeros(n - 1);
    }
  }

  lemma ToNatLeadingZeros(n: nat, w: Word)
    ensures ToNat(Zeros(n) + w) == ToNat(w)
  {
    ToNatConcat(Zeros(n), w);
    ToNatZeros(n);
  }

  lemma Pow2Values()
    ensures Pow2(1) == 2 && Pow2(2) == 4 && Pow2(3) == 8 && Pow2(4) == 16 && Pow2(6) == 64 && Pow2(7) == 128
    ensures Pow2(8) == 256 && Pow2(12) == 4096 && Pow2(15) == 32768 && Pow2(16) == 65536
  {
    assert Pow2(4) == 16;
    assert Pow2(8) == 256;
    assert Pow2(12) == 4096;
  }
}
