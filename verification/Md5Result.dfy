/** The result assembly of __md5_crypt_r.  crypt_r lets it write over the whole
    struct crypt_data, so what it leaves behind matters to later DES calls. */
module Md5Result {
  import opened CryptSpec

  const MD5_PREFIX := "$1$"
  const SHA256_PREFIX := "$5$"
  const SHA512_PREFIX := "$6$"
  /** What the SHA functions return: three characters of prefix, at most seventeen for
      the rounds, sixteen of salt, a separator and 86 of digest. */
  type ShaText = s: string | |s| <= 123 witness ""

  type Byte = n: nat | n < 256
  type Digest = d: seq<Byte> | |d| == 16 witness seq(16, _ => 0)

  /** n base-64 characters of a 24-bit group, low end first. */
  function B64(w: nat, n: nat): (s: string)
    ensures |s| == n && forall i :: 0 <= i < n ==> SaltChar(s[i])
  {
    if n == 0 then "" else [BinToAscii(w % 64)] + B64(w / 64, n - 1)
  }

  function Group24(b2: Byte, b1: Byte, b0: Byte): nat {
    b2 * 65536 + b1 * 256 + b0
  }

  /** The salt proper: up to eight characters, up to the first '$'. */
  function SaltLength(salt: string, i: nat): (n: nat)
    requires i <= |salt|
    ensures i <= n <= |salt|
    ensures forall k :: i <= k < n ==> salt[k] != '$'
    ensures n < |salt| && n < 8 ==> salt[n] == '$'
    ensures n > i ==> n <= 8
    decreases |salt| - i
  {
    if i == |salt| || i >= 8 || salt[i] == '$' then i else SaltLength(salt, i + 1)
  }

  function SkipPrefix(salt: string): string {
    if MD5_PREFIX <= salt then salt[3..] else salt
  }

  function SaltPart(salt: string): (s: string)
    ensures |s| <= 8
  {
    var rest := SkipPrefix(salt);
    rest[..SaltLength(rest, 0)]
  }

  function DigestPart(d: seq<Byte>): (s: string)
    requires |d| == 16
    ensures |s| == 22
  {
    B64(Group24(d[0], d[6], d[12]), 4) + B64(Group24(d[1], d[7], d[13]), 4) + B64(Group24(d[2], d[8], d[14]), 4)
    + B64(Group24(d[3], d[9], d[15]), 4) + B64(Group24(d[4], d[10], d[5]), 4) + B64(Group24(0, 0, d[11]), 2)
  }

  /** What the caller gets: prefix, salt, separator, digest. */
  function Md5Text(salt: string, digest: seq<Byte>): (s: string)
    requires |digest| == 16
    ensures |s| <= 34
  {
    MD5_PREFIX + SaltPart(salt) + "$" + DigestPart(digest)
  }

  lemma FourCharacters(w: nat, a: nat, b: nat, c: nat, d: nat)
    requires a < 64 && b < 64 && c < 64 && d < 64 && w == a + 64 * b + 4096 * c + 262144 * d
    ensures B64(w, 4) == [BinToAscii(a), BinToAscii(b), BinToAscii(c), BinToAscii(d)]
  {
    hide BinToAscii;
    NextCharacter(a, b + 64 * c + 4096 * d, 3);
    NextCharacter(b, c + 64 * d, 2);
    NextCharacter(c, d, 1);
    NextCharacter(d, 0, 0);
    hide B64;
  }

  lemma TwoCharacters(w: nat, a: nat, b: nat)
    requires a < 64 && b < 64 && w == a + 64 * b
    ensures B64(w, 2) == [BinToAscii(a), BinToAscii(b)]
  {
    hide BinToAscii;
    NextCharacter(a, b, 1);
    NextCharacter(b, 0, 0);
    hide B64;
  }

  lemma NextCharacter(a: nat, w: nat, n: nat)
    requires a < 64
    ensures B64(a + 64 * w, n + 1) == [BinToAscii(a)] + B64(w, n) && B64(w, 0) == ""
  {
    assert (a + 64 * w) % 64 == a && (a + 64 * w) / 64 == w;
  }

  lemma Sextets(w: nat) returns (a: nat, b: nat, c: nat, d: nat)
    requires w < 0x100_0000
    ensures a < 64 && b < 64 && c < 64 && d < 64 && w == a + 64 * b + 4096 * c + 262144 * d
  {
    var w1 := w / 64;
    var w2 := w1 / 64;
    a, b, c, d := w % 64, w1 % 64, w2 % 64, w2 / 64;
    assert w == a + 64 * w1 && w1 == b + 64 * w2 && w2 == c + 64 * d;
  }

  /** A group can be read back from its four characters. */
  lemma GroupReadBack(w: nat)
    requires w < 0x100_0000
    ensures var s := B64(w, 4);
            w == AsciiToBin(s[0]) + 64 * AsciiToBin(s[1]) + 4096 * AsciiToBin(s[2]) + 262144 * AsciiToBin(s[3])
  {
    hide AsciiToBin, BinToAscii, B64;
    var a, b, c, d := Sextets(w);
    FourCharacters(w, a, b, c, d);
    AlphabetRoundTrip(a, '.');
    AlphabetRoundTrip(b, '.');
    AlphabetRoundTrip(c, '.');
    AlphabetRoundTrip(d, '.');
  }

  lemma GroupText(b2: Byte, b1: Byte, b0: Byte, a: nat, b: nat, c: nat, d: nat, text: string)
    requires a < 64 && b < 64 && c < 64 && d < 64 && Group24(b2, b1, b0) == a + 64 * b + 4096 * c + 262144 * d
    requires text == [BinToAscii(a), BinToAscii(b), BinToAscii(c), BinToAscii(d)]
    ensures B64(Group24(b2, b1, b0), 4) == text
  {
    hide BinToAscii, B64;
    FourCharacters(Group24(b2, b1, b0), a, b, c, d);
  }

  lemma GroupsKnown()
    ensures B64(Group24(179, 230, 36), 4) == "YMyg"
    ensures B64(Group24(98, 63, 122), 4) == "uxXM"
    ensures B64(Group24(18, 157, 77), 4) == "Bpd2"
  {
    hide B64;
    GroupText(179, 230, 36, 36, 24, 62, 44, "YMyg");
    GroupText(98, 63, 122, 58, 61, 35, 24, "uxXM");
    GroupText(18, 157, 77, 13, 53, 41, 4, "Bpd2");
  }

  lemma MoreGroupsKnown()
    ensures B64(Group24(2, 84, 31), 4) == "TEZ."
    ensures B64(Group24(20, 23, 187), 4) == "vS/3"
    ensures B64(Group24(0, 0, 246), 2) == "q1"
  {
    hide B64;
    GroupText(2, 84, 31, 31, 16, 37, 0, "TEZ.");
    GroupText(20, 23, 187, 59, 30, 1, 5, "vS/3");
    TwoCharacters(246, 54, 3);
  }

  lemma DigestKnown()
    ensures DigestPart([179, 98, 18, 2, 20, 187, 230, 63, 157, 84, 23, 246, 36, 122, 77, 31])
            == "YMyguxXMBpd2TEZ.vS/3q1"
  {
    hide B64, Group24;
    GroupsKnown();
    MoreGroupsKnown();
  }

  lemma SaltKnown()
    ensures SaltPart("$1$saltstring") == "saltstri"
  {
    var rest := "saltstring";
    assert SkipPrefix("$1$saltstring") == rest;
    assert SaltLength(rest, 8) == 8;
    assert SaltLength(rest, 6) == 8;
    assert SaltLength(rest, 4) == 8;
    assert SaltLength(rest, 2) == 8;
    assert SaltLength(rest, 0) == 8;
  }

  /** The digest of "Hello world!" under the salt of md5c-test.c, and the text it becomes. */
  lemma KnownText()
    ensures Md5Text("$1$saltstring", [179, 98, 18, 2, 20, 187, 230, 63, 157, 84, 23, 246, 36, 122, 77, 31])
            == "$1$saltstri$YMyguxXMBpd2TEZ.vS/3q1"
  {
    hide SaltPart, DigestPart;
    SaltKnown();
    DigestKnown();
  }

  /** The text written so far, then NULs to the end of the buffer. */
  ghost predicate Holds(buffer: array<char>, text: string)
    reads buffer
  {
    && |text| <= buffer.Length
    && buffer[..|text|] == text
    && forall i :: |text| <= i < buffer.Length ==> buffer[i] == '\0'
  }

  /** stpncpy at the start of the buffer: copies and NUL-fills all the rest. */
  method StpncpyAll(buffer: array<char>, text: string) returns (cp: nat)
    requires |text| <= buffer.Length
    modifies buffer
    ensures Holds(buffer, text) && cp == |text|
  {
    for i := 0 to buffer.Length
      invariant forall k :: 0 <= k < i ==> buffer[k] == if k < |text| then text[k] else '\0'
    {
      buffer[i] := if i < |text| then text[i] else '\0';
    }
    cp := |text|;
  }

  method Append(buffer: array<char>, cp: nat, c: char, ghost text: string) returns (next: nat)
    requires Holds(buffer, text) && cp == |text| < buffer.Length
    modifies buffer
    ensures Holds(buffer, text + [c]) && next == cp + 1
  {
    buffer[cp] := c;
    next := cp + 1;
  }

  /** The bounded stpncpy of the salt: n characters, none of them NUL. */
  method AppendText(buffer: array<char>, start: nat, s: string, ghost text: string) returns (cp: nat)
    requires Holds(buffer, text) && start == |text| && |text| + |s| <= buffer.Length
    modifies buffer
    ensures Holds(buffer, text + s) && cp == start + |s|
  {
    cp := start;
    assert text + s[..0] == text;
    for i := 0 to |s|
      invariant cp == start + i
      invariant Holds(buffer, text + s[..i])
    {
      cp := Append(buffer, cp, s[i], text + s[..i]);
      assert text + s[..i] + [s[i]] == text + s[..i + 1];
    }
    assert s[..|s|] == s;
  }

  /** __b64_from_24bit, writing through cp while buflen lasts. */
  method B64From24bit(buffer: array<char>, start: nat, w0: nat, n: nat, ghost text: string) returns (cp: nat)
    requires Holds(buffer, text) && start == |text| && |text| + n <= buffer.Length
    modifies buffer
    ensures Holds(buffer, text + B64(w0, n)) && cp == start + n
  {
    cp := start;
    var w: nat, left: nat := w0, n;
    ghost var done := "";
    assert text + done == text;
    while left > 0
      invariant left <= n && cp == start + |done| && |done| == n - left
      invariant Holds(buffer, text + done)
      invariant done + B64(w, left) == B64(w0, n)
    {
      cp := Append(buffer, cp, BinToAscii(w % 64), text + done);
      assert done + B64(w, left) == done + [BinToAscii(w % 64)] + B64(w / 64, left - 1);
      assert text + done + [BinToAscii(w % 64)] == text + (done + [BinToAscii(w % 64)]);
      done := done + [BinToAscii(w % 64)];
      w := w / 64;
      left := left - 1;
    }
    assert done == B64(w0, n);
  }

  /** A buffer with room for the text ends up holding it and NULs, nothing else. */
  method Assemble(buffer: array<char>, salt: string, digest: seq<Byte>)
    requires |digest| == 16 && buffer.Length > 34
    modifies buffer
    ensures Holds(buffer, Md5Text(salt, digest))
  {
    hide B64, Group24, SaltPart, DigestPart;
    var cp := StpncpyAll(buffer, MD5_PREFIX);
    cp := AppendText(buffer, cp, SaltPart(salt), MD5_PREFIX);
    cp := Append(buffer, cp, '$', MD5_PREFIX + SaltPart(salt));
    cp := AssembleDigest(buffer, cp, digest, MD5_PREFIX + SaltPart(salt) + "$");
    buffer[cp] := '\0';
  }

  method AssembleDigest(buffer: array<char>, start: nat, d: seq<Byte>, ghost text: string) returns (cp: nat)
    requires |d| == 16 && Holds(buffer, text) && start == |text| && |text| + 22 < buffer.Length
    modifies buffer
    ensures Holds(buffer, text + DigestPart(d)) && cp == start + 22
  {
    hide B64, Group24, Holds;
    cp := B64From24bit(buffer, start, Group24(d[0], d[6], d[12]), 4, text);
    ghost var t1 := B64(Group24(d[0], d[6], d[12]), 4);
    cp := B64From24bit(buffer, cp, Group24(d[1], d[7], d[13]), 4, text + t1);
    ghost var t2 := t1 + B64(Group24(d[1], d[7], d[13]), 4);
    AppendLater(text, t1, B64(Group24(d[1], d[7], d[13]), 4));
    cp := B64From24bit(buffer, cp, Group24(d[2], d[8], d[14]), 4, text + t2);
    ghost var t3 := t2 + B64(Group24(d[2], d[8], d[14]), 4);
    AppendLater(text, t2, B64(Group24(d[2], d[8], d[14]), 4));
    cp := B64From24bit(buffer, cp, Group24(d[3], d[9], d[15]), 4, text + t3);
    ghost var t4 := t3 + B64(Group24(d[3], d[9], d[15]), 4);
    AppendLater(text, t3, B64(Group24(d[3], d[9], d[15]), 4));
    cp := B64From24bit(buffer, cp, Group24(d[4], d[10], d[5]), 4, text + t4);
    ghost var t5 := t4 + B64(Group24(d[4], d[10], d[5]), 4);
    AppendLater(text, t4, B64(Group24(d[4], d[10], d[5]), 4));
    cp := B64From24bit(buffer, cp, Group24(0, 0, d[11]), 2, text + t5);
    AppendLater(text, t5, B64(Group24(0, 0, d[11]), 2));
  }

  lemma AppendLater(a: string, b: string, c: string)
    ensures a + b + c == a + (b + c)
  {
  }
}
