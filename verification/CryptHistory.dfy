/** Any history of calls on one struct crypt_data: every answer is the one a
    fresh structure would give, except that encrypt_r uses the key last set. */
module CryptHistory {
  import opened Bits
  import opened Options
  import opened Des
  import opened Packing
  import opened TableMeaning
  import opened CryptSpec
  import opened BlockSpec
  import opened UfcCrypt

  /** Calls on one structure. */
  datatype Call =
    | CryptCall(key: string, salt: string)
    | SetkeyCall(keyChars: seq<int>)
    | EncryptCall(block: seq<int>, edflag: int)

  datatype Answer = Text(text: Option<string>) | Block(chars: seq<int>) | Done

  /** What one call does to the key schedule that encrypt_r will use: crypt_r
      destroys it, unless it rejects its salt. */
  function NextKey(call: Call, before: Option<seq<W48>>): Option<seq<W48>> {
    match call
    case CryptCall(_, salt) => if Md5Result.MD5_PREFIX <= salt || WantsSha(salt) || SaltOk(salt) then None else before
    case SetkeyCall(key) => if |key| == 64 then Some(SetkeySchedule(key)) else before
    case EncryptCall(_, _) => before
  }

  /** The key schedule left by setkey_r, if no later call has destroyed it. */
  function KeyAfter(calls: seq<Call>): Option<seq<W48>> {
    if calls == [] then None else NextKey(calls[|calls| - 1], KeyAfter(calls[..|calls| - 1]))
  }

  /** Calls with arguments of the size the interface asks for. */
  predicate WellFormed(call: Call) {
    match call
    case CryptCall(_, _) => true
    case SetkeyCall(key) => |key| == 64
    case EncryptCall(block, _) => |block| == 64
  }

  /** Well-formed calls, with encrypt_r only while a key is set. */
  predicate Proper(calls: seq<Call>) {
    forall i :: 0 <= i < |calls| ==> WellFormed(calls[i]) && (calls[i].EncryptCall? ==> KeyAfter(calls[..i]).Some?)
  }

  /** The answer to a call, in textbook terms.  It does not mention the history,
      except that encrypt_r uses the key last set. */
  function Expected(call: Call, hashes: Hashes, key: Option<seq<W48>>): Answer
    requires WellFormed(call) && (call.EncryptCall? ==> key.Some?)
  {
    match call
    case CryptCall(k, salt) => Text(CryptText(k, salt, hashes))
    case SetkeyCall(_) => Done
    case EncryptCall(block, edflag) => Block(Crypted(key.value, block, edflag))
  }

  /** Runs any proper history on one structure, in any order and mixture. */
  method Replay(data: CryptData, calls: seq<Call>, hashes: Hashes)
    returns (answers: seq<Answer>)
    requires data.Valid() && Proper(calls)
    modifies data, data.sb, data.keysched, data.tables.Repr
    ensures data.Valid() && |answers| == |calls|
    ensures forall i :: 0 <= i < |calls| ==> answers[i] == Expected(calls[i], hashes, KeyAfter(calls[..i]))
  {
    hide CryptData.Valid, CryptData.Keyed, Expected, KeyAfter, NextKey, WellFormed;
    assert KeyAfter(calls[..0]) == None by { NoKeyYet(calls); }
    answers := [];
    for i := 0 to |calls|
      invariant data.Valid() && |answers| == i
      invariant forall j :: 0 <= j < i ==> answers[j] == Expected(calls[j], hashes, KeyAfter(calls[..j]))
      invariant KeyAfter(calls[..i]).Some? ==> data.Keyed(KeyAfter(calls[..i]).value)
    {
      var answer := Perform(data, calls[i], hashes, KeyAfter(calls[..i]));
      answers := answers + [answer];
      KeyAfterNext(calls, i);
    }
  }

  lemma NoKeyYet(calls: seq<Call>)
    ensures KeyAfter(calls[..0]) == None
  {
  }

  lemma KeyAfterNext(calls: seq<Call>, i: nat)
    requires i < |calls|
    ensures KeyAfter(calls[..i + 1]) == NextKey(calls[i], KeyAfter(calls[..i]))
  {
    var s := calls[..i + 1];
    assert s[..|s| - 1] == calls[..i] && s[|s| - 1] == calls[i];
  }

  method Perform(data: CryptData, call: Call, hashes: Hashes, ghost key: Option<seq<W48>>)
    returns (answer: Answer)
    requires data.Valid() && (key.Some? ==> data.Keyed(key.value))
    requires WellFormed(call) && (call.EncryptCall? ==> key.Some?)
    modifies data, data.sb, data.keysched, data.tables.Repr
    ensures data.Valid() && answer == Expected(call, hashes, key)
    ensures NextKey(call, key).Some? ==> data.Keyed(NextKey(call, key).value)
  {
    hide CryptData.Valid, Tagged48, DesCrypt, Crypted, SetkeySchedule, Md5Result.Md5Text;
    match call
    case CryptCall(k, salt) =>
      var r := data.CryptR(k, salt, hashes);
      answer := Text(r);
    case SetkeyCall(chars) =>
      data.SetkeyR(chars);
      answer := Done;
    case EncryptCall(block, edflag) =>
      var a := new int[64](i requires 0 <= i < 64 => block[i]);
      assert a[..] == block;
      data.EncryptR(a, edflag, key.value);
      answer := Block(a[..]);
  }

  // ----- crypt from setkey and encrypt -----

  /** The zero block encrypted n times. */
  function EncryptedZeros(n: nat, ks: seq<W48>): (block: seq<int>)
    ensures |block| == 64
  {
    if n == 0 then BlockChars(Zeros(64)) else Crypted(ks, EncryptedZeros(n - 1, ks), 0)
  }

  lemma {:induction false} EncryptedBits(n: nat, ks: seq<W48>)
    ensures BlockBits(EncryptedZeros(n, ks)) == Repeat(n, Zeros(24), ks, Zeros(64))
  {
    hide Encipher, BlockBits, BlockChars;
    if n == 0 {
      BitsOfChars(Zeros(64));
    } else {
      EncryptedBits(n - 1, ks);
      BitsOfChars(Encipher(Zeros(24), ks, BlockBits(EncryptedZeros(n - 1, ks))));
    }
  }

  /** crypt with the salt ".." is 25 encryptions of the zero block, under the key that
      the password makes, printed after the salt. */
  lemma CryptIsEncryption(key: string)
    ensures DesCrypt(key, "..") == ".." + Printed(BlockBits(EncryptedZeros(25, KeySchedule(KeyOf(KeyChars(key))))))
  {
    hide KeySchedule, KeyOf, KeyChars, BlockBits, EncryptedZeros, SaltBits, Repeat, Printed;
    EncryptedBits(25, KeySchedule(KeyOf(KeyChars(key))));
    NoSalt();
    assert ".."[..2] == "..";
  }

  /** The same with the calls themselves: setkey, 25 times encrypt, and then crypt. */
  method CryptTwoWays(data: CryptData, key: string, hashes: Hashes) returns (block: array<int>, text: Option<string>)
    requires data.Valid()
    modifies data, data.sb, data.keysched, data.tables.Repr
    ensures data.Valid() && block.Length == 64
    ensures text == Some(".." + Printed(BlockBits(block[..])))
  {
    hide CryptData.Valid, CryptData.Keyed, DesCrypt, Crypted, Printed, KeyOf, KeyChars, KeySchedule, BlockBits;
    var bits := KeyOf(KeyChars(key));
    ghost var ks := KeySchedule(bits);
    data.SetkeyR(BlockChars(bits));
    ZeroOneKey(BlockChars(bits));
    BitsOfChars(bits);
    block := new int[64](_ => 0);
    assert block[..] == EncryptedZeros(0, ks);
    for n := 0 to 25
      invariant data.Valid() && data.Keyed(ks) && fresh(block)
      invariant block[..] == EncryptedZeros(n, ks)
    {
      data.EncryptR(block, 0, ks);
    }
    text := data.CryptR(key, "..", hashes);
    CryptIsEncryption(key);
  }
}
