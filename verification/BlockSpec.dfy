/** Blocks and keys as setkey and encrypt take them: one char per bit. */
module BlockSpec {
  import opened Bits
  import opened DesTables
  import opened Des

  /** Any nonzero char is a one bit. */
  function BlockBits(block: seq<int>): W64
    requires |block| == 64
  {
    seq(64, i requires 0 <= i < 64 => block[i] != 0)
  }

  function BlockChars(b: W64): (block: seq<int>)
    ensures |block| == 64
    ensures forall i :: 0 <= i < 64 ==> 0 <= block[i] <= 1
  {
    seq(64, i requires 0 <= i < 64 => if b[i] then 1 else 0)
  }

  predicate ZeroOne(block: seq<int>) {
    |block| == 64 && forall i :: 0 <= i < 64 ==> block[i] == 0 || block[i] == 1
  }

  lemma CharsOfBits(block: seq<int>)
    requires ZeroOne(block)
    ensures BlockChars(BlockBits(block)) == block
  {
  }

  lemma BitsOfChars(b: W64)
    ensures BlockBits(BlockChars(b)) == b
  {
  }

  /** One operation of encrypt_r under key schedule ks: flag 0 enciphers. */
  function Crypted(ks: seq<W48>, block: seq<int>, edflag: int): seq<int>
    requires |block| == 64
  {
    var b := BlockBits(block);
    BlockChars(if edflag == 0 then Encipher(Zeros(24), ks, b) else Decipher(Zeros(24), ks, b))
  }

  /** Decrypting an encrypted block of zeros and ones returns it, and so does
      encrypting a decrypted one, whatever the key. */
  lemma CryptedTwice(ks: seq<W48>, block: seq<int>, flag1: int, flag2: int)
    requires ZeroOne(block) && (flag1 == 0) != (flag2 == 0)
    ensures Crypted(ks, Crypted(ks, block, flag1), flag2) == block
  {
    hide Encipher, Decipher, BlockBits, BlockChars;
    var b := BlockBits(block);
    if flag1 == 0 {
      BitsOfChars(Encipher(Zeros(24), ks, b));
      DecipherUndoesEncipher(Zeros(24), ks, b);
    } else {
      BitsOfChars(Decipher(Zeros(24), ks, b));
      EncipherUndoesDecipher(Zeros(24), ks, b);
    }
    CharsOfBits(block);
  }

  /** A char as eight bits. */
  function CharWord(k: int): W8 {
    OfNat(k % 256, 8)
  }

  /** Char j of group i, shifted left n - 1 - j places, sets bit p from the high end. */
  predicate FromChar(key: seq<int>, i: nat, n: nat, p: nat, j: int)
    requires |key| == 64 && i < 8 && n <= 8 && p < 8
  {
    0 <= j < n && p + n - 1 - j < 8 && CharWord(key[8 * i + j])[p + n - 1 - j]
  }

  /** Bit p of a byte into which n key chars have been shifted one after the other: a
      char contributes all its bits, not only the lowest. */
  predicate ShiftedIn(key: seq<int>, i: nat, n: nat, p: nat)
    requires |key| == 64 && i < 8 && n <= 8 && p < 8
  {
    exists j :: 0 <= j < n && FromChar(key, i, n, p, j)
  }

  lemma ShiftedNext(key: seq<int>, i: nat, n: nat, p: nat)
    requires |key| == 64 && i < 8 && n < 8 && p < 8
    ensures ShiftedIn(key, i, n + 1, p) <==> (p < 7 && ShiftedIn(key, i, n, p + 1)) || CharWord(key[8 * i + n])[p]
  {
    hide CharWord;
    var n', p' := n + 1, p + 1;
    if p < 7 && ShiftedIn(key, i, n, p') {
      var j :| 0 <= j < n && FromChar(key, i, n, p', j);
      assert FromChar(key, i, n', p, j);
    }
    if CharWord(key[8 * i + n])[p] {
      assert FromChar(key, i, n', p, n);
    }
    if ShiftedIn(key, i, n', p) {
      var j :| 0 <= j < n' && FromChar(key, i, n', p, j);
      if j < n {
        assert FromChar(key, i, n, p', j);
      }
    }
  }

  /** The 64 key bits of any 64 chars. */
  function KeyBits(key: seq<int>): W64
    requires |key| == 64
  {
    seq(64, c requires 0 <= c < 64 => ShiftedIn(key, c / 8, 8, c % 8))
  }

  /** Chars that are 0 or 1, as setkey asks for, are the key bits themselves. */
  lemma ZeroOneKey(key: seq<int>)
    requires ZeroOne(key)
    ensures KeyBits(key) == BlockBits(key)
  {
    hide OfNat, CharWord;
    forall c | 0 <= c < 64
      ensures ShiftedIn(key, c / 8, 8, c % 8) == (key[c] != 0)
    {
      var i, p := c / 8, c % 8;
      forall j | 0 <= j < 8
        ensures FromChar(key, i, 8, p, j) == (j == p && key[c] != 0)
      {
        if p <= j {
          LowBitOnly(key[8 * i + j], p + 7 - j);
        }
      }
      assert FromChar(key, i, 8, p, p) == (key[c] != 0);
    }
  }

  lemma LowBitOnly(k: int, q: nat)
    requires (k == 0 || k == 1) && q < 8
    ensures CharWord(k)[q] == (q == 7 && k == 1)
  {
    assert OfNat(k, 8) == OfNat(k / 2, 7) + [k % 2 == 1];
    assert k / 2 == 0;
    hide OfNat;
    NoBits(7);
  }

  lemma {:induction false} NoBits(n: nat)
    ensures forall q :: 0 <= q < n ==> !OfNat(0, n)[q]
  {
    if n > 0 {
      NoBits(n - 1);
    }
  }

  /** setkey's key table. */
  function SetkeySchedule(key: seq<int>): seq<W48>
    requires |key| == 64
  {
    KeySchedule(KeyBits(key))
  }

  lemma ParityUnread(k1: W64, k2: W64, half: nat)
    requires half < 2
    requires forall i :: 0 <= i < 64 && i % 8 != 7 ==> k1[i] == k2[i]
    ensures KeyRegister(k1, half) == KeyRegister(k2, half)
  {
    hide Pc1;
    forall i | 0 <= i < 28
      ensures KeyRegister(k1, half)[i] == KeyRegister(k2, half)[i]
    {
      var from := Pc1(28 * half + i) - 1;
      assert from % 8 != 7;
      assert k1[from] == k2[from];
    }
  }

  /** Permuted choice 1 never reads a parity bit, so only the other bits matter. */
  lemma ParityIgnored(k1: W64, k2: W64)
    requires forall i :: 0 <= i < 64 && i % 8 != 7 ==> k1[i] == k2[i]
    ensures KeySchedule(k1) == KeySchedule(k2)
  {
    ParityUnread(k1, k2, 0);
    ParityUnread(k1, k2, 1);
    forall i | 0 <= i < 16
      ensures RoundKey(k1, i) == RoundKey(k2, i)
    {
      hide KeyRegister, Turn, Choice2, Turns;
    }
    hide RoundKey;
  }
}
