/** The form UFC-crypt computes in: every half-block is kept E-expanded and
    salt-swapped (48 bits), so a round needs no expansion of its own.  This
    module shows that the expanded computation is the image of the textbook one,
    round by round. */
module Expanded {
  import opened Bits
  import opened Des

  /** How a textbook half-block is represented. */
  function Image(salt: W24, h: W32): W48 {
    SaltSwap(salt, Expand(h))
  }

  datatype Wide = Wide(l: W48, r: W48) {
    function Swap(): Wide { Wide(r, l) }
  }

  function ImageOf(salt: W24, h: Halves): Wide {
    Wide(Image(salt, h.l), Image(salt, h.r))
  }

  /** What the four lookup tables compute together on a keyed value. */
  function WideCipher(salt: W24, x: W48): W48 {
    Image(salt, Permute(SelectAll(x)))
  }

  function WideRound(salt: W24, w: Wide, k: W48): Wide {
    Wide(w.r, Xor(w.l, WideCipher(salt, Xor(w.r, k))))
  }

  function WideRounds(salt: W24, ks: seq<W48>, w: Wide): Wide {
    if ks == [] then w else WideRound(salt, WideRounds(salt, ks[..|ks| - 1], w), ks[|ks| - 1])
  }

  function WideRepeat(n: nat, salt: W24, ks: seq<W48>, w: Wide): Wide {
    if n == 0 then w else WideRounds(salt, ks, WideRepeat(n - 1, salt, ks, w)).Swap()
  }

  /** Expansion and salt swap only select bits, so they respect exclusive or. */
  lemma ImageXor(salt: W24, a: W32, b: W32)
    ensures Image(salt, Xor(a, b)) == Xor(Image(salt, a), Image(salt, b))
  {
    var x, y := Expand(a), Expand(b);
    assert Expand(Xor(a, b)) == Xor(x, y);
    assert SaltSwap(salt, Xor(x, y)) == Xor(SaltSwap(salt, x), SaltSwap(salt, y));
  }

  lemma ImageRound(salt: W24, h: Halves, k: W48)
    ensures WideRound(salt, ImageOf(salt, h), k) == ImageOf(salt, Round(salt, h, k))
  {
    ImageXor(salt, h.l, Cipher(salt, h.r, k));
  }

  lemma {:induction false} ImageRounds(salt: W24, ks: seq<W48>, h: Halves)
    ensures WideRounds(salt, ks, ImageOf(salt, h)) == ImageOf(salt, Rounds(salt, ks, h))
  {
    if ks != [] {
      var front, k := ks[..|ks| - 1], ks[|ks| - 1];
      ImageRounds(salt, front, h);
      ImageRound(salt, Rounds(salt, front, h), k);
    }
  }

  /** The expanded computation refines the textbook one, for every salt, key
      schedule and number of repetitions. */
  lemma {:induction false} ImageRepeat(n: nat, salt: W24, ks: seq<W48>, h: Halves)
    ensures WideRepeat(n, salt, ks, ImageOf(salt, h)) == ImageOf(salt, RepeatCore(n, salt, ks, h))
  {
    hide WideRounds, Rounds, Image;
    if n != 0 {
      ImageRepeat(n - 1, salt, ks, h);
      ImageRounds(salt, ks, RepeatCore(n - 1, salt, ks, h));
    }
  }

  // ----- Salt swaps compose by exclusive or -----

  lemma SwapAt(s: W24, e: W48, i: nat)
    requires i < 24
    ensures SaltSwap(s, e)[i] == (if s[i] then e[i + 24] else e[i])
    ensures SaltSwap(s, e)[i + 24] == (if s[i] then e[i] else e[i + 24])
  {
  }

  lemma SwapTwice(s: W24, t: W24, e: W48)
    ensures SaltSwap(s, SaltSwap(t, e)) == SaltSwap(Xor(s, t), e)
  {
    var twice, once := SaltSwap(s, SaltSwap(t, e)), SaltSwap(Xor(s, t), e);
    forall k | 0 <= k < 48
      ensures twice[k] == once[k]
    {
      hide SaltSwap;
      var i := if k < 24 then k else k - 24;
      SwapAt(t, e, i);
      SwapAt(s, SaltSwap(t, e), i);
      SwapAt(Xor(s, t), e, i);
    }
  }

  lemma SwapNone(e: W48)
    ensures SaltSwap(Zeros(24), e) == e
  {
  }

  lemma SwapUndone(s: W24, e: W48)
    ensures SaltSwap(s, SaltSwap(s, e)) == e
  {
    SwapTwice(s, s, e);
    assert Xor(s, s) == Zeros(24);
    SwapNone(e);
  }
}
