/** What the DES entry points of crypt(3) return, in textbook terms. */
module CryptSpec {
  import opened Bits
  import opened Des
  import opened TableMeaning

  /** The alphabet crypt accepts in a salt. */
  predicate SaltChar(c: char) {
    '0' <= c <= '9' || 'A' <= c <= 'Z' || 'a' <= c <= 'z' || c == '.' || c == '/'
  }

  /** C's s[i] on a string with its terminating NUL. */
  function CharAt(s: string, i: nat): char
    requires i <= |s|
  {
    if i < |s| then s[i] else '\0'
  }

  predicate SaltOk(s: string) {
    |s| >= 2 && SaltChar(s[0]) && SaltChar(s[1])
  }

  function AsciiToBin(c: char): (n: nat)
    requires SaltChar(c)
    ensures n < 64
  {
    if c >= 'a' then c as int - 59 else if c >= 'A' then c as int - 53 else c as int - '.' as int
  }

  function BinToAscii(n: nat): (c: char)
    requires n < 64
    ensures SaltChar(c)
  {
    if n >= 38 then (n - 38 + 'a' as int) as char
    else if n >= 12 then (n - 12 + 'A' as int) as char
    else (n + '.' as int) as char
  }

  /** The two tables are inverse, so a printed salt can be read back. */
  lemma AlphabetRoundTrip(n: nat, c: char)
    ensures n < 64 ==> AsciiToBin(BinToAscii(n)) == n
    ensures SaltChar(c) ==> BinToAscii(AsciiToBin(c)) == c
  {
  }

  const UPPER := "ABCDEFGHIJKLMNOPQRSTUVWXYZ"
  const LOWER := "abcdefghijklmnopqrstuvwxyz"
  /** The alphabet in order. */
  const ALPHABET := "./0123456789" + UPPER + LOWER

  lemma LettersInOrder(k: nat)
    requires k < 26
    ensures UPPER[k] == ('A' as int + k) as char && LOWER[k] == ('a' as int + k) as char
  {
  }

  lemma AlphabetInOrder(n: nat)
    requires n < 64
    ensures BinToAscii(n) == ALPHABET[n]
  {
    if n < 12 {
      assert ALPHABET[n] == "./0123456789"[n];
    } else if n < 38 {
      LettersInOrder(n - 12);
    } else {
      LettersInOrder(n - 38);
    }
  }

  /** Salt bit 6i + j is bit j, from the low end, of the value of character i. */
  function SaltBit(s0: char, s1: char, k: nat): bool
    requires SaltChar(s0) && SaltChar(s1)
  {
    k < 12 && AsciiToBin(if k < 6 then s0 else s1) / Pow2(k % 6) % 2 == 1
  }

  function SaltBits(s0: char, s1: char): W24
    requires SaltChar(s0) && SaltChar(s1)
  {
    seq(24, k requires 0 <= k < 24 => SaltBit(s0, s1, k))
  }

  /** The first eight characters of the password, padded with NULs. */
  function KeyChars(key: string): (ks: seq<nat>)
    ensures |ks| == 8
  {
    seq(8, i requires 0 <= i < 8 => if i < |key| then key[i] as nat else 0)
  }

  /** 64 bits and two zero bits, printed six at a time. */
  function Printed(b: W64): (s: string)
    ensures |s| == 11
  {
    Pow2Values();
    seq(11, i requires 0 <= i < 11 => BinToAscii(ToNat((b + Zeros(2))[6 * i..6 * i + 6])))
  }

  /** crypt(3): 25 salted encipherments of the zero block, printed after the salt. */
  function DesCrypt(key: string, salt: string): string
    requires SaltOk(salt)
  {
    salt[..2] + Printed(Repeat(25, SaltBits(salt[0], salt[1]), KeySchedule(KeyOf(KeyChars(key))), Zeros(64)))
  }
}
