# Verified model of five glibc 2.33 components

A Dafny 4.11 project that models, and proves properties of, five parts of the glibc
2.33 tree this repository carries.  `dafny verify dfyconfig.toml` checks all of it.

**UFC-crypt** (`crypt/`), the table-driven salted DES behind crypt(3), setkey and
encrypt.  `Des` is DES as FIPS 46-3 writes it ("Enciphering", "Deciphering", "The Cipher
Function f", Appendix 1) with crypt's salt swap.  `UfcCrypt.CryptData` is the C code on
its mutable structure, with the static tables in `StaticTables`; `Ufc32` is the 32-bit
build.  Between them lie three steps: `Expanded` (rounds on E-expanded, salt-swapped
halves), `Packing` and `SbTables` (48 bits in 64-bit words, lookups), `TableMeaning` and
`KeyRotation` (what each generated table computes; why the unmasked key registers are
harmless).  `CryptHistory` is about whole histories of calls on one structure.  `SBoxes`
has the laws of the selection functions, `DesWords` the rounds on machine words, and
`DesKnown` known answers worked out with them, for which every table is needed.

**Message catalogs** (`catgets/`).  `GencatMeaning` is what input lines mean, `Gencat`
reads them into lists and merges an old catalog, `CatalogSize` searches the table size,
`CatalogFill` fills the table, `CatalogFile` writes it in both byte orders and opens it
again, `CatalogTable` has catgets.  `CatalogPipeline` puts them together: lines and an
old file in, lookups out.  `SetLines` says which set messages go to, `CatalogBytes` what
each byte of a file is.

**argp** (`argp/`).  `ArgpUsage` and `ArgpHelp`: the usage patterns as a mixed-radix
odometer and the code that drives it; `ArgpPatterns`: the order of the patterns.
`ArgpConvert`, `ArgpTables`, `ArgpOwners`: the flattening into getopt tables; `ArgpMarks`:
what getopt reads off them.  `ArgpHol`: the help list, and its agreement with the parser.
`ArgpLifeCycle` with `ArgpTrace`, `ArgpInputs`, `ArgpOffer` and `ArgpTurns`: the parse
driver, run against arbitrary parsers and an arbitrary getopt.  `ArgpArguments` has its
laws for single turns and whole runs, told from the parsers' reactions.

**Link-namespace closure** (`conform/linknamespace.py`): `LinkClosure`.

**One-slot producer and consumer** (`benchtests/bench-pthread-locks.c`):
`ProducerConsumer`.

## Reading the model

- Machine words are sequences of bits, most significant first (`Bits`).
- A method that stands for a C function carries ghost parameters for the abstract value
  its words represent; its postcondition says what it computes in terms of them.
- Code the model cannot see is a parameter: getopt and the users' argp parsers are
  arbitrary functions of time, the MD5 digest and the text of a SHA result are arbitrary
  functions of key and salt, an input line of gencat comes already split, with a flag
  telling whether its text converts.

## Where the code differs from what is written about it

- `argp.h` (lines 139-140) says that after ARGP_KEY_ERROR no further calls are made.  The
  code then calls every parser with ARGP_KEY_FINI (`ArgpTrace.OneLife`).
- `argp.h` (lines 150-154) says that a parser given ARGP_KEY_ARGS may take some of the
  arguments by moving `next` past them.  The code takes all of them, wherever `next` was
  left (`ArgpArguments.ArgsHonoursNext` says when the two agree).
- The usage odometer counts alternatives in a char.  Every combination is printed once if
  each args_doc has at most 128 alternatives, and printing never stops otherwise
  (`ArgpUsage.StopsIffSmall`, for a signed char).  `ArgpHelp.PrintPatterns` therefore
  asks for that.
- parser_init reserves no room for the leading `+` that ARGP_NO_ARGS adds.  The short
  options fit unless every option in the tree takes three characters
  (`ArgpTables.ShortFitsIff` is an equivalence).
- A SUCCESS call that fails stops the round: parsers not yet reached see neither SUCCESS
  nor ERROR.  `ArgpTrace.Course` records how far each round got.
- The size search takes UINT_MAX for "nothing found".  `CatalogSize.FindSize` says exactly
  when the optimum is missed, `TooLarge` and `TakenForNone` give inputs.
- A catalog without messages becomes a file that passes the reader's size check, although
  the reader then looks for the end of a string beyond the end of the file
  (`CatalogPipeline.WriteCatalog`, `CatalogFile.NothingToScan`).
- Help and parser disagree on aliases of documentation options.  The parser leaves them
  out; help shows those that are not marked as documentation themselves
  (`ArgpHol.HelpShowsMore`).  `ArgpHol.HelpAgreesIff` says exactly when they agree.

## Model

| member | source | states |
|---|---|---|
| Des.DecipherUndoesEncipher | glibc-2.33/crypt/crypt_util.c:799-890 | For every salt, key list and block, deciphering (the same rounds, keys reversed) returns the enciphered block |
| Des.EncipherUndoesDecipher | glibc-2.33/crypt/crypt_util.c:799-890 | and the other way round |
| Des.RepeatIsRepeatCore | glibc-2.33/crypt/crypt-entry.c:130-139 | n complete encipherments are one initial permutation, n cores and one final permutation, which is all the code computes |
| DesTables.FinalUndoesInitial | glibc-2.33/crypt/crypt_util.c:159-176 | The listed final permutation undoes the listed initial permutation |
| DesTables.InitialUndoesFinal | glibc-2.33/crypt/crypt_util.c:159-176 | and conversely |
| SBoxes.OneBitChangesTwo | glibc-2.33/crypt/crypt_util.c:104-152 | In every selection function and for every input, changing any one of the six input bits changes at least two of the four output bits |
| SBoxes.RowsPermute | glibc-2.33/crypt/crypt_util.c:104-152 | Every row of every box is a permutation: with the outer bits fixed, different inner bits select different outputs |
| DesWords.RoundIs | glibc-2.33/crypt/crypt.c:94-107 | For every salt, halves and key a round is one on machine words, in which expansion, salt swap, selection and permutation are mask-and-shift operations written without the tables of bit positions |
| DesWords.RoundKeyIs | glibc-2.33/crypt/crypt_util.c:665-717 | Every round key from the two registers as machine words, turned and chosen by masks and shifts |
| DesKnown.StandardAnswer | glibc-2.33/crypt/crypt_util.c:799-890 | A known answer of DES: the key 133457799BBCDFF1 enciphers 0123456789ABCDEF to 85E813540F0AB405 |
| DesKnown.EncryptKnown | glibc-2.33/crypt/crypt_util.c:799-890 | The same answer from setkey and encrypt on chars: flag 0 gives it, and any other flag gives the plain block back |
| DesKnown.SaltKnown | glibc-2.33/crypt/crypt_util.c:629-641 | The salt bits of the characters r and l |
| DesKnown.SaltedRounds | glibc-2.33/crypt/crypt.c:94-107 | A known answer of two rounds under that salt |
| DesKnown.KeyKnown | glibc-2.33/crypt/crypt_util.c:679-683 | The key that the password rasmuslerdorf makes |
| DesKnown.PrintedKnown | glibc-2.33/crypt/crypt_util.c:764-789 | The text that a known last block is printed as |
| Expanded.ImageXor | glibc-2.33/crypt/crypt_util.c:85-90 | E and the salt swap respect exclusive or |
| Expanded.ImageRound | glibc-2.33/crypt/crypt.c:96-106 | A round on expanded, salt-swapped halves is the image of the textbook round |
| Expanded.ImageRepeat | glibc-2.33/crypt/crypt.c:81-113 | So are any number of sixteen-round repetitions with the exchange between them: the expanded form refines the textbook one for every salt, schedule and count |
| Expanded.SwapTwice | glibc-2.33/crypt/crypt_util.c:643-660 | Two salt swaps compose to the swap by the XOR of the salts, the reason shuffling by the difference is enough |
| Expanded.SwapUndone | glibc-2.33/crypt/crypt_util.c:732-733 | A salt swap undoes itself |
| Packing.PackXor | glibc-2.33/crypt/crypt_util.c:181-186 | XOR of packed words is the packing of the XOR |
| Packing.TaggedXor | glibc-2.33/crypt/crypt_util.c:694-713 | XORing a tagged round key and packed state gives a tagged packed sum |
| Packing.LaneValue | glibc-2.33/crypt/crypt.c:96-100 | A 16-bit lane read as a byte offset is eight times its twelve bits, plus 0x8000 for a tagged lane |
| SbTables.LaneAddresses | glibc-2.33/crypt/crypt.c:81-113 | Every lane of a keyed word is the offset of a whole entry and lands in the table it is meant for |
| SbTables.FourWords | glibc-2.33/crypt/crypt_util.c:465-534 | The four entries selected by a 48-bit value XOR to the packed image of the cipher function on it |
| SmallTables.WireWordStep | glibc-2.33/crypt/crypt_util.c:363-370 | One turn of a table-filling loop sets one bit in exactly the words whose index has the mask bit |
| SmallTables.Fill | glibc-2.33/crypt/crypt_util.c:357-455 | The common loop of the four table fills leaves the table its wires describe |
| SmallTables.AddWire | glibc-2.33/crypt/crypt_util.c:367-370 | The inner loop adds one wire and changes no other word |
| StaticTables.InvertE | glibc-2.33/crypt/crypt_util.c:412-419 | The e_inverse loop finds, for each bit, the first place in both expansions where it appears |
| StaticTables.Tables.Init | glibc-2.33/crypt/crypt_util.c:350-463 | All four static tables are filled after any call, and a call after the first changes nothing |
| TableMeaning.EpermLookup | glibc-2.33/crypt/crypt_util.c:389-410 | Four byte lookups in eperm32tab apply P and then E |
| TableMeaning.Pc1Lookup | glibc-2.33/crypt/crypt_util.c:357-371 | Eight lookups in do_pc1 load the register of permuted choice 1 |
| TableMeaning.Pc2Lookup | glibc-2.33/crypt/crypt_util.c:373-387 | Four septet lookups in do_pc2 make one half of permuted choice 2 |
| TableMeaning.EfpLookup | glibc-2.33/crypt/crypt_util.c:421-455 | Sixteen lookups in efp undo E and apply the final permutation |
| BuildTables.PairSelected | glibc-2.33/crypt/crypt_util.c:493-504 | The two S-box values shifted into a byte are those of the twelve input bits |
| UfcCrypt.CryptData.SbCell | glibc-2.33/crypt/crypt_util.c:493-534 | One cell of the sb tables holds the packed E(P(S-boxes)) of its index |
| UfcCrypt.CryptData.FillSb | glibc-2.33/crypt/crypt_util.c:478-534 | The loops fill all four tables for the unsalted E |
| UfcCrypt.CryptData.InitDes | glibc-2.33/crypt/crypt_util.c:329-540 | Initialization establishes the state invariant with no salt on record |
| UfcWords.ShuffleAgrees | glibc-2.33/crypt/crypt_util.c:553-578 | The 32-bit and 64-bit shuffles of an entry agree |
| UfcWords.ShufflePacked | glibc-2.33/crypt/crypt_util.c:567-578 | Shuffling a packed entry is the salt swap on the value it packs |
| UfcCrypt.CryptData.ShuffleSb | glibc-2.33/crypt/crypt_util.c:567-578 | shuffle_sb turns a table for one salt into the table for that salt XOR the argument, and touches no other table |
| UfcCrypt.SaltWord | glibc-2.33/crypt/crypt_util.c:629-641 | The loop over two salt characters computes the packed salt bits |
| UfcCrypt.CryptData.SetupSalt | glibc-2.33/crypt/crypt_util.c:606-663 | From any valid state: the tables become those of the new salt, or the salt is rejected and nothing else changes |
| CryptSpec.AlphabetRoundTrip | glibc-2.33/crypt/crypt_util.c:178-179 | The two conversion macros are inverse on the 64-character alphabet |
| CryptSpec.AlphabetInOrder | glibc-2.33/crypt/crypt_util.c:178-179 | bin_to_ascii goes through the alphabet ./0-9A-Za-z in order |
| KeyRotation.UnmaskedStart | glibc-2.33/crypt/crypt_util.c:679-683 | A freshly loaded register is the 28-bit register, right aligned |
| KeyRotation.UnmaskedStep | glibc-2.33/crypt/crypt_util.c:688-702 | One unmasked turn of a register that has turned t places gives one that has turned t + n |
| KeyRotation.HighBitsDuplicate | glibc-2.33/crypt/crypt_util.c:688-702 | Bits at or above 28 duplicate the bit 28 below, as far up as they reach |
| KeyRotation.SeptetsAreTrue | glibc-2.33/crypt/crypt_util.c:689-706 | The septets read are those of the true 28-bit rotation |
| UfcWords.TaggedKey | glibc-2.33/crypt/crypt_util.c:694-713 | Shifting, ORing and tagging two halves makes a tagged 48-bit round key |
| UfcCrypt.LoadRegisters | glibc-2.33/crypt/crypt_util.c:679-683 | The do_pc1 loop loads both registers, whatever the word width |
| UfcCrypt.ChooseHalf | glibc-2.33/crypt/crypt_util.c:688-706 | Four septet lookups in the unmasked register give the packed half of the round key |
| UfcCrypt.CryptData.MkKeytab | glibc-2.33/crypt/crypt_util.c:665-717 | For every key the table holds the sixteen tagged subkeys of the standard |
| UfcCrypt.PackKey | glibc-2.33/crypt/crypt_util.c:916-920 | The packing loop, for any 64 chars: the schedule of the table is that of the key bits, in which a char contributes all its bits |
| BlockSpec.ShiftedNext | glibc-2.33/crypt/crypt_util.c:917-918 | One turn of the inner packing loop: the byte moves left and the next char is ORed in whole |
| BlockSpec.ZeroOneKey | glibc-2.33/crypt/crypt_util.c:916-920 | Chars that are 0 or 1 are the key bits themselves |
| BlockSpec.ParityIgnored | glibc-2.33/crypt/crypt_util.c:55-60 | Keys that differ in parity bits only have the same schedule |
| UfcCrypt.CryptData.HalfRound | glibc-2.33/crypt/crypt.c:96-100 | Four lookups XOR the image of the cipher function into the other half; every lookup is aligned and inside its pair of tables |
| UfcCrypt.CryptData.SixteenRounds | glibc-2.33/crypt/crypt.c:94-107 | Eight turns of two half rounds are sixteen expanded rounds |
| UfcCrypt.CryptData.Doit | glibc-2.33/crypt/crypt.c:81-113 | _ufc_doit_r leaves the packed result of itr times sixteen rounds, for every packed start, schedule and salt |
| UfcWords.SixFields | glibc-2.33/crypt/crypt_util.c:735-755 | The shifts by 3, 6, 10 and 6 read the four six-bit groups of a packed word |
| UfcWords.Unsalt | glibc-2.33/crypt/crypt_util.c:732-733 | The masked exchange undoes the salt swap |
| UfcCrypt.CryptData.DoFinalPerm | glibc-2.33/crypt/crypt_util.c:723-758 | From the images of any two halves under the salt on record, the final permutation of the block they form |
| UfcCrypt.CryptData.OutputConversion | glibc-2.33/crypt/crypt_util.c:764-789 | The printed text is the salt and the 64 bits, six at a time |
| UfcCrypt.CryptData.TwentyFive | glibc-2.33/crypt/crypt-entry.c:130-139 | 25 repetitions from zero and the final permutation are 25 textbook encipherments of the zero block |
| UfcCrypt.CryptData.DesCryptR | glibc-2.33/crypt/crypt-entry.c:107-154 | From any valid state the result is a function of key and salt alone, None for a bad salt; the key schedule is erased |
| UfcCrypt.CryptData.SetkeyR | glibc-2.33/crypt/crypt_util.c:907-922 | For any 64 chars, the schedule of their key bits, for encryption |
| UfcCrypt.CryptData.Turn16 | glibc-2.33/crypt/crypt_util.c:814-843 | Clears the salt and keeps the key table the schedule or its reversal, as direction says |
| UfcCrypt.CryptData.ReverseKeys | glibc-2.33/crypt/crypt_util.c:824-841 | The exchange loop reverses the key table |
| UfcCrypt.ExpandBlock | glibc-2.33/crypt/crypt_util.c:845-866 | One word of the initial permutation and expansion of the block |
| UfcCrypt.CryptData.CipherBlock | glibc-2.33/crypt/crypt_util.c:845-878 | One DES encipherment of the block under the keys in the table |
| UfcCrypt.StoreBits | glibc-2.33/crypt/crypt_util.c:883-889 | The result words as chars, one per bit |
| UfcCrypt.CryptData.EncryptR | glibc-2.33/crypt/crypt_util.c:799-890 | encrypt_r with flag 0 leaves the bits of the enciphered block, and with any other flag those of the deciphered one, under the last key; it keeps the state invariant and leaves the key table in the direction asked for |
| BlockSpec.CryptedTwice | glibc-2.33/crypt/crypt_util.c:799-890 | For every key, decrypting an encrypted block of zeros and ones returns it, and encrypting a decrypted one |
| CryptHistory.CryptIsEncryption | glibc-2.33/crypt/crypt-entry.c:107-154 | For every password: crypt with the salt .. is what 25 encryptions of the zero block, under the key the password makes, print after the salt |
| CryptHistory.CryptTwoWays | glibc-2.33/crypt/crypt-entry.c:107-154 | The same on the structure: setkey and 25 calls of encrypt leave a block that prints as crypt then answers |
| Md5Result.B64From24bit | glibc-2.33/crypt/crypt_util.c:934-946 | Writes the base-64 characters of a group after the text so far |
| Md5Result.Assemble | glibc-2.33/crypt/md5-crypt.c:250-282 | A buffer with room ends up holding prefix, salt, separator and digest and NULs, nothing else |
| Md5Result.KnownText | glibc-2.33/crypt/md5c-test.c:7-15 | For the salt of this test and the digest of its password, the text the test expects |
| Md5Result.GroupReadBack | glibc-2.33/crypt/crypt_util.c:934-946 | The 24 bits of a group can be read back from its four characters |
| UfcCrypt.CryptData.Md5CryptR | glibc-2.33/crypt/crypt-entry.c:84-94 | A $1$ call leaves the structure uninitialized, so that later calls rebuild it |
| UfcCrypt.CryptData.CryptR | glibc-2.33/crypt/crypt-entry.c:74-155 | For every salt: the prefix decides between MD5, SHA and DES; the result is a function of key and salt, the hashing calls leave the structure uninitialized, and a rejected salt leaves the key schedule alone |
| UfcCrypt.CryptData.ShaCryptR | glibc-2.33/crypt/crypt-entry.c:96-105 | A $5$ or $6$ call leaves the structure uninitialized as well, whatever text it returns |
| CryptHistory.Perform | glibc-2.33/crypt/crypt-entry.c:74-155 | One call of any kind keeps the invariant and gives the textbook answer; crypt_r dispatches on the salt |
| CryptHistory.Replay | glibc-2.33/crypt/crypt-entry.c:74-155 | Any sequence of crypt, setkey and encrypt calls on one structure: every answer is that of a fresh structure, except that encrypt uses the last key |
| Ufc32.ShuffleSb | glibc-2.33/crypt/crypt_util.c:553-565 | The 32-bit shuffle does to pairs what the 64-bit one does to words |
| Ufc32.FillSb | glibc-2.33/crypt/crypt_util.c:493-534 | The 32-bit fill leaves the pair of every entry for the unsalted E, from which shuffling and the rounds start |
| Ufc32.MkKeytab | glibc-2.33/crypt/crypt_util.c:665-717 | With 32-bit registers every subkey is still right |
| Ufc32.HalfRound | glibc-2.33/crypt/crypt.c:52-57 | Two key words and four lookups XOR the packed cipher function into the other half |
| Ufc32.Doit | glibc-2.33/crypt/crypt.c:36-69 | The 32-bit _ufc_doit_r computes the packed expanded rounds |
| Ufc32.BothVersions | glibc-2.33/crypt/crypt.c:36-113 | On the same tables, schedule and state both versions leave the same four words, for any 48-bit states and any count |
| Gencat.InsertSorted | glibc-2.33/catgets/gencat.c:784-803 | Inserting a new number keeps the list strictly increasing and adds one member |
| Gencat.MoveClash | glibc-2.33/catgets/gencat.c:606-644 | A clashing automatic message gets the next unused number and moves to the end; order and the bound last_message survive |
| Gencat.AddNumbered | glibc-2.33/catgets/gencat.c:588-650 | A numbered line in all its cases: duplicate, clash, unconvertible text, new |
| Gencat.NumberedMeaning | glibc-2.33/catgets/gencat.c:588-650 | After an accepted numbered line: its number has its text, the displaced message is found under the next unused number, every other number is as before |
| Gencat.AddSymbolic | glibc-2.33/catgets/gencat.c:651-675 | A symbolic line in all its cases |
| Gencat.SymbolicMeaning | glibc-2.33/catgets/gencat.c:651-675 | After an accepted symbolic line the next unused number has its text and every other number is as before |
| Gencat.Catalog.FindSet | glibc-2.33/catgets/gencat.c:1074-1096 | Finds or makes the set stored one higher; what is listed does not change |
| Gencat.Catalog.EnterSet | glibc-2.33/catgets/gencat.c:455-464 | Makes the set stored one higher current and records its symbol, as the meaning says; what is listed does not change |
| Gencat.Catalog.ReadLine | glibc-2.33/catgets/gencat.c:359-805 | Every line keeps all lists strictly increasing with numbers at most last_message, and changes what they say exactly as the line means; `$set n` makes n current, a new name the set above the last, and no other line changes the current set |
| Gencat.Catalog.ReadLines | glibc-2.33/catgets/gencat.c:264-840 | After any lines the lists are in order and say exactly what the lines mean, taken in turn |
| Gencat.NumberedIsMeant | glibc-2.33/catgets/gencat.c:588-650 | The list operation for a numbered line is the meaning of that line on the mapping from numbers to texts |
| Gencat.SymbolicIsMeant | glibc-2.33/catgets/gencat.c:651-675 | The same for a symbolic line |
| GencatMeaning.OneLineMore | glibc-2.33/catgets/gencat.c:359-805 | A line adds to the current set the message it gives, if it is accepted, and takes nothing away from any set |
| GencatMeaning.ExactlyAccepted | glibc-2.33/catgets/gencat.c:264-840 | After any lines a set has exactly the messages that accepted lines have given it: none is lost or changed by later lines, and nothing else is there |
| GencatMeaning.NumberKept | glibc-2.33/catgets/gencat.c:588-650 | A number given by the user keeps its message, whatever lines follow |
| SetLines.NumberEnters | glibc-2.33/catgets/gencat.c:385-401 | `$set n` makes the set stored as n + 1 current and says nothing |
| SetLines.NameEnters | glibc-2.33/catgets/gencat.c:425-464 | `$set` with a new name makes current the set one above the highest number used, and says nothing |
| SetLines.OthersStay | glibc-2.33/catgets/gencat.c:359-805 | Any other line leaves the current set alone: `$set 0`, a name that is taken, `$delset`, messages |
| SetLines.SetThenMessage | glibc-2.33/catgets/gencat.c:455-464 | From any proper state: after `$set n` and a message whose number the user has not given there, user set n says it and every other set says what it said |
| SetLines.NameThenMessage | glibc-2.33/catgets/gencat.c:446-464 | The same after `$set` with a new name, in the set above all numbers used |
| SetLines.SectionOfSet | glibc-2.33/catgets/gencat.c:264-840 | Up to the next `$set`, any lines after `$set n` leave n current and change what no other set says |
| SetLines.HighestUsed | glibc-2.33/catgets/gencat.c:397-448 | After any lines last_set is the highest number that a `$set` line has used, by number or by name |
| SetLines.SymbolSaid | glibc-2.33/catgets/gencat.c:651-675 | A message with a new symbol takes the number after the last one given out, which was free |
| SetLines.AutomaticMoves | glibc-2.33/catgets/gencat.c:606-644 | An automatic number that the user takes moves, with its text, to the number after the last one |
| SetLines.Counted | glibc-2.33/catgets/gencat.c:784-805 | total_messages grows by one for a message line that converts or is refused, and by no other line |
| GencatMeaning.BlocksFind | glibc-2.33/catgets/gencat.c:784-803 | What the lists find for a set and number is what the mapping has |
| GencatMeaning.ItemsAre | glibc-2.33/catgets/gencat.c:784-803 | A strictly increasing list and its mapping determine each other |
| MessageLists.FindMsgInserted | glibc-2.33/catgets/gencat.c:784-803 | Inserting a new number changes the lookup of that number only |
| MessageLists.FindInUpdated | glibc-2.33/catgets/gencat.c:1219-1299 | Changing one set changes lookups in that set only |
| CatalogTable.Catgets | glibc-2.33/catgets/catgets.c:88-115 | On any table that indexes the entries: the listed text for a present (set, message), the default for every other pair, negative and zero ones included |
| CatalogSize.CountOne | glibc-2.33/catgets/gencat.c:893-901 | Counting one message, with the early exit |
| CatalogSize.Measure | glibc-2.33/catgets/gencat.c:881-907 | One candidate size is accepted if and only if its true cost is at most the best so far, and then with its true depth, although the break leaves one set only |
| CatalogSize.FindSize | glibc-2.33/catgets/gencat.c:864-923 | The loop ends with the size of least cost from 1 + total/5 up, the largest on ties, and its true depth; it falls back to one slot exactly when that optimum is out of unsigned range or is UINT_MAX |
| CatalogSize.BestExists | glibc-2.33/catgets/gencat.c:872-878 | There always is a best size, and it costs no more than the starting size |
| CatalogSize.BestMeans | glibc-2.33/catgets/gencat.c:884-912 | No size from the start up gives a table with fewer slots than the best one, and no larger size one with as few |
| CatalogSize.SmallCatalog | glibc-2.33/catgets/gencat.c:864-916 | For catalogs below UINT_MAX slots the optimum is in range, and no bucket is deeper than its depth |
| CatalogSize.TooLarge | glibc-2.33/catgets/gencat.c:864-923 | With five times UINT_MAX messages counted no size is in range, whatever the entries |
| CatalogSize.TakenForNone | glibc-2.33/catgets/gencat.c:864-923 | A catalog of one message for which UINT_MAX itself is the best size and is missed |
| CatalogFill.Probe | glibc-2.33/catgets/gencat.c:947-951 | The probing loop stops at the first free plane of the bucket, inside the table |
| CatalogFill.FilledStep | glibc-2.33/catgets/gencat.c:953-962 | Storing an entry in that slot keeps every bucket filled from plane 0 up without gaps |
| CatalogFill.BuildTable | glibc-2.33/catgets/gencat.c:931-970 | For sets with distinct positive numbers and messages with distinct positive numbers the loops never leave the table, and the table indexes exactly the listed messages |
| CatalogFill.FilledOnce | glibc-2.33/catgets/gencat.c:939-968 | No (set, message) pair occupies two slots |
| CatalogFile.SwapTwice | glibc-2.33/catgets/open_catalog.c:262-278 | The byte swap is its own inverse |
| CatalogFile.EncodeSwapped | glibc-2.33/catgets/gencat.c:972-974 | Swapped words in the host order are the plain words in the other order |
| CatalogFile.WriteOut | glibc-2.33/catgets/gencat.c:925-1004 | The file is header, little-endian table, big-endian table and strings, on either kind of host |
| CatalogFile.OpenCatalog | glibc-2.33/catgets/open_catalog.c:257-326 | For every file it can examine without reading past the end: accepted exactly if the magic number in either order and the size check hold, with dimensions, host order table and strings located |
| CatalogFile.CompleteOpens | glibc-2.33/catgets/open_catalog.c:302-324 | A file whose strings all lie in it passes the size check and the scan stays inside it |
| CatalogFile.NothingToScan | glibc-2.33/catgets/open_catalog.c:302-324 | A file without strings passes the size check as well, and the scan then starts at its end |
| CatalogFile.ReadHeader | glibc-2.33/catgets/open_catalog.c:257-279 | Accepts the magic number in either order, and gives the dimensions in host order |
| CatalogFile.StringEnds | glibc-2.33/catgets/open_catalog.c:316-324 | The scan finds the end of the last string before its limit runs out |
| CatalogFile.LargestOffset | glibc-2.33/catgets/open_catalog.c:302-307 | The largest string offset in the table, as the size check uses it |
| CatalogFile.RoundTrip | glibc-2.33/catgets/open_catalog.c:257-326 | For all four pairs of writer and reader byte order: the file passes the checks, and dimensions, table and strings are the writer’s |
| CatalogBytes.FileLayout | glibc-2.33/catgets/gencat.c:925-1004 | The file byte by byte: magic number, size and depth in the writer’s order, the table low byte first and then high byte first, and the strings |
| CatalogBytes.MagicEitherWay | glibc-2.33/catgets/open_catalog.c:257-268 | On either machine a file passes by its first four bytes, de 08 04 96 or the reverse |
| CatalogBytes.SizeCheck | glibc-2.33/catgets/open_catalog.c:302-312 | The size check accepts exactly the files longer than the header, six bytes a slot and any slot’s offset |
| CatalogBytes.PlaceInTable | glibc-2.33/catgets/gencat.c:939-957 | Message n of stored set s lies in slot p times the size plus s times n modulo the size, for some plane p |
| CatalogMerge.MergeMessage | glibc-2.33/catgets/gencat.c:1256-1297 | One old message against a sorted list: a new number gets its text, an empty new message goes, a new message with a text stays; every other number is as before |
| Gencat.Catalog.MergeSlot | glibc-2.33/catgets/gencat.c:1250-1297 | One occupied slot of the old table |
| CatalogMerge.SeenAll | glibc-2.33/catgets/gencat.c:1242-1248 | Walking all slots sees exactly the keys of the old catalog |
| Gencat.Catalog.ReadOld | glibc-2.33/catgets/gencat.c:1219-1299 | For every key, whatever the slot order: a message with a text stays, an empty one goes if the old file has its key and stays otherwise, a key not listed gets what the old file says; lists stay sorted, and total_messages grows by the number of keys that were not listed |
| CatalogPipeline.FlatFind | glibc-2.33/catgets/gencat.c:939-968 | The list of all messages in order says what the nested lists say |
| CatalogPipeline.WriteCatalog | glibc-2.33/catgets/gencat.c:843-1005 | A catalog becomes a file that readers of both byte orders see as exactly the lists, in a table of optimal size if the search can find it; one without messages becomes a file that readers take for a catalog and run past the end of |
| CatalogPipeline.LookUp | glibc-2.33/catgets/catgets.c:88-115 | Opening such a file and calling catgets gives the listed text or the default |
| CatalogPipeline.ReadInputs | glibc-2.33/catgets/gencat.c:861-862 | For every set and number: a text the lines say is listed, an empty one deletes what the old file says or is listed if it says nothing, and without one the old file decides; lists are in order, and the message count is that of the lines and the old keys they do not say |
| CatalogPipeline.MergeIntoEmpty | glibc-2.33/catgets/gencat.c:1219-1299 | read_old on a catalog without messages lists exactly what the old file says, for every set and number |
| ArgpHelp.SelectAlternative | glibc-2.33/argp/argp-help.c:1404-1424 | Skipping newlines selects the alternative the level byte says, and knows whether another follows |
| ArgpHelp.FirstAlternative | glibc-2.33/argp/argp-help.c:1406-1415 | The text up to the first newline is the first alternative |
| ArgpHelp.ArgsLevels | glibc-2.33/argp/argp-help.c:1373-1387 | One level for every args_doc with several alternatives |
| ArgpHelp.ArgsUsage | glibc-2.33/argp/argp-help.c:1394-1447 | Prints the selected alternatives of a subtree and moves exactly its level bytes, as the odometer step says |
| ArgpHelp.PrintPatterns | glibc-2.33/argp/argp-help.c:1583-1636 | As many patterns as the product of the counts, pattern n showing combination n, and all bytes zero at the end |
| ArgpUsage.StepAdds | glibc-2.33/argp/argp-help.c:1428-1446 | One call adds one to the mixed-radix number the bytes spell, or carries out and resets to zero |
| ArgpUsage.ValueInjective | glibc-2.33/argp/argp-help.c:1389-1393 | Different bytes spell different numbers |
| ArgpUsage.AfterSpells | glibc-2.33/argp/argp-help.c:1592-1635 | Before call n the bytes spell n |
| ArgpUsage.StopsAfterTotal | glibc-2.33/argp/argp-help.c:1592-1635 | Printing stops after exactly the product of the counts |
| ArgpUsage.EveryCombinationOnce | glibc-2.33/argp/argp-help.c:1592-1635 | Every combination of alternatives is printed by exactly one call |
| ArgpPatterns.ChildFastest | glibc-2.33/argp/argp-help.c:1428-1446 | For a parent and a child with alternatives, pattern n shows alternative n / c of the parent and n % c of the child: the child’s change fastest |
| ArgpPatterns.FirstChildFastest | glibc-2.33/argp/argp-help.c:1424-1446 | For two children the first one’s change fastest |
| ArgpUsage.StopsIffSmall | glibc-2.33/argp/argp-help.c:1432-1444 | Printing ever stops if and only if no args_doc has more alternatives than a signed char can count |
| ArgpUsage.NeverStops | glibc-2.33/argp/argp-help.c:1432-1444 | A concrete args_doc of 128 newlines for which printing never stops |
| ArgpUsage.BigNeverCarries | glibc-2.33/argp/argp-help.c:1438 | The reason: the byte wraps round before the last alternative, and no carry comes out |
| ArgpConvert.EncodeDecodes | glibc-2.33/argp/argp-parse.c:354-369 | Group and key are recovered from a long option value: the group always, the key exactly when it fits 24 signed bits; the value is an int exactly for fewer than 127 groups |
| ArgpConvert.Converter.FindLongOption | glibc-2.33/argp/argp-parse.c:199-212 | Finds a long option by name if there is one |
| ArgpConvert.Converter.AddOptions | glibc-2.33/argp/argp-parse.c:325-375 | The loop over one argp’s options: short characters with colons, long options with new names, alias values from the real option |
| ArgpConvert.Converter.ConvertOptions | glibc-2.33/argp/argp-parse.c:312-411 | The recursive traversal builds the tables of the specification |
| ArgpTables.ConvertWalks | glibc-2.33/argp/argp-parse.c:312-411 | Apart from parent links the tables are those of a walk over the nodes in preorder |
| ArgpTables.CalcSizes | glibc-2.33/argp/argp-parse.c:453-478 | The traversal that counts |
| ArgpTables.ParserConvert | glibc-2.33/argp/argp-parse.c:414-438 | The whole conversion with its leading flag character |
| ArgpTables.FlattenFits | glibc-2.33/argp/argp-parse.c:481-510 | Without ARGP_NO_ARGS, no more short characters, long options, groups or child slots than reserved |
| ArgpTables.ShortFitsIff | glibc-2.33/argp/argp-parse.c:488 | For any flags the short options fit unless ARGP_NO_ARGS is given and every option takes three characters |
| ArgpTables.ShortOverflow | glibc-2.33/argp/argp-parse.c:488 | A concrete argp for which ARGP_NO_ARGS makes the short options too long |
| ArgpOwners.SelectGroup | glibc-2.33/argp/argp-parse.c:732-758 | parser_parse_opt’s choice of group and key |
| ArgpOwners.ShortOwner | glibc-2.33/argp/argp-parse.c:735-751 | For every tree a short option goes to the group of the first argp in preorder that declares it |
| ArgpOwners.LongOwner | glibc-2.33/argp/argp-parse.c:345-374 | For every tree each long name is kept once, with the argument its option takes, and its value decodes to the first argp that declares it and to the option’s key, whenever that fits |
| ArgpMarks.RealIs | glibc-2.33/argp/argp-parse.c:325-333 | An alias stands for the nearest option before it that is none |
| ArgpMarks.ShortMarks | glibc-2.33/argp/argp-parse.c:333-343 | For every tree and flags: the string starts as the flags say, and every short option is followed by no colon, one or two, as the option it stands for takes no argument, one, or an optional one |
| ArgpInputs.FlattenLinked | glibc-2.33/argp/argp-parse.c:377-408 | Parents come before children, child positions are in range, and no two groups share a child slot |
| ArgpHol.MakeHol | glibc-2.33/argp/argp-help.c:426-495 | The entries of one argp and its short keys without repetition |
| ArgpHol.Scan | glibc-2.33/argp/argp-help.c:555-563 | The moving pointer meets an option’s key exactly if the option is the first with that key |
| ArgpHol.HolAppend | glibc-2.33/argp/argp-help.c:821-911 | Merging keeps exactly the characters not seen before and moves every entry to its own |
| ArgpHol.ArgpHolOf | glibc-2.33/argp/argp-help.c:1350-1369 | For every tree the list is that of all options in preorder, each with the place of its argp |
| ArgpHol.MergedOnce | glibc-2.33/argp/argp-help.c:821-911 | The merged string has every declared short key once and nothing else |
| ArgpHol.ShortIterate | glibc-2.33/argp/argp-help.c:543-566 | Calls back for exactly the visible options that are the first with their key, in order, until the callback returns a value that is not 0 |
| ArgpHol.FirstBelongs | glibc-2.33/argp/argp-help.c:1350-1369 | The owner of the first option with a short key: no argp before it declares the key, and it is the first to declare it exactly if it declares it at all |
| ArgpHol.HelpAgreesIff | glibc-2.33/argp/argp-help.c:543-566 | Help shows a short key under an entry: the parser calls the group of the argp at the entry’s place in preorder for it if and only if that argp declares the key to the parser |
| ArgpHol.HelpAgreesWithParser | glibc-2.33/argp/argp-help.c:543-566 | It does whenever that argp marks aliases of documentation options as documentation |
| ArgpHol.HelpShowsMore | glibc-2.33/argp/argp-parse.c:327-345 | A concrete argp whose help shows a short key for which no parser is called |
| ArgpLifeCycle.Parser.GroupParse | glibc-2.33/argp/argp-parse.c:247-263 | Swaps the group’s fields in and out around one call; a group without parser is not called; the steering fields become what the parser left |
| ArgpLifeCycle.Parser.InitGroup | glibc-2.33/argp/argp-parse.c:535-549 | One turn of the INIT loop: input from the parent’s slot, passed on by a group without parser |
| ArgpLifeCycle.Parser.ParserInit | glibc-2.33/argp/argp-parse.c:527-554 | Succeeds exactly if no INIT call fails; then every parser has seen INIT once, in order; otherwise the error is that of the last call and nobody sees more |
| ArgpLifeCycle.InputIsGiven | glibc-2.33/argp/argp-parse.c:538-540 | The slot read for a child holds what its parent’s parser left there |
| ArgpOffer.OfferInOrder | glibc-2.33/argp/argp-parse.c:685-702 | An argument is offered to the parsers in order, to each as ARG with the argument consumed and then as ARGS with it put back, up to the first call that does not refuse; if all refuse, each was asked twice |
| ArgpLifeCycle.Parser.ParseArg | glibc-2.33/argp/argp-parse.c:676-723 | Calls, error and new state are those of the offering.  The position is what the taker left, or the end of the arguments if it took ARGS; its group is credited with the distance from the argument, and getopt gets another try if that is not positive |
| ArgpLifeCycle.Parser.ParseOpt | glibc-2.33/argp/argp-parse.c:727-782 | One call with the decoded key to the group that owns the option, and its error; EBADKEY without a call if nobody owns it |
| ArgpLifeCycle.ChoiceOrdinary | glibc-2.33/argp/argp-parse.c:732-758 | No option, short or long, decodes to the key of a stage |
| ArgpLifeCycle.Parser.AskGetopt | glibc-2.33/argp/argp-parse.c:794-838 | getopt is asked unless it has said there are no more options or the position is past a quoting --; its answer updates position, quoting and later turns |
| ArgpLifeCycle.Parser.ParseNext | glibc-2.33/argp/argp-parse.c:788-873 | For any answer of getopt: stop without a call, offer an argument, or handle an option; the new state, the error and whether EBADKEY is about an argument are those of the turn |
| ArgpLifeCycle.Parser.Close | glibc-2.33/argp/argp-parse.c:586-630 | NO_ARGS and END until a parser fails, remaining arguments as an error or an end index, and the error that remains |
| ArgpLifeCycle.Parser.Finalize | glibc-2.33/argp/argp-parse.c:580-669 | Which of the rounds of NO_ARGS, END, ERROR or SUCCESS and FINI take place, the error returned and the end index, in every case |
| ArgpLifeCycle.Parser.Parse | glibc-2.33/argp/argp-parse.c:913-925 | A whole run: whether it fails to start, is cut off or returns is settled by the INIT calls and the turns; the calls made in the loop, what each of them saw, the processed counts, the error and the end index are those of the turns |
| ArgpTurns.EndedStays | glibc-2.33/argp/argp-parse.c:920-922 | A loop that has ended stays ended, however many more turns are allowed |
| ArgpTurns.GoingGoesOn | glibc-2.33/argp/argp-parse.c:920-922 | A loop that has not ended has had a turn without error for every round, and its calls are those of the turns |
| ArgpTurns.TakerHeard | glibc-2.33/argp/argp-parse.c:676-723 | The effect of an argument from the reaction of its taker alone |
| ArgpArguments.TakerDecides | glibc-2.33/argp/argp-parse.c:704-723 | The same for a turn of the loop: position, credit and getopt’s next try |
| ArgpArguments.ArgsHonoursNext | glibc-2.33/argp/argp-parse.c:704-709 | A parser that takes ARGS has the `next` it leaves honoured if and only if it leaves it alone or at the end |
| ArgpArguments.ArgsEndTheLoop | glibc-2.33/argp/argp-parse.c:704-709 | Once ARGS is taken the loop ends at the next turn with every argument parsed, unless getopt has more |
| ArgpArguments.EveryArgumentTaken | glibc-2.33/argp/argp-parse.c:676-723 | A run of any number of turns past the options: a first parser that takes each argument sees each once, in order, and is credited with all |
| ArgpArguments.AllArgumentsTaken | glibc-2.33/argp/argp-parse.c:840-873 | and then the loop ends there, with no argument left |
| ArgpArguments.AllAtOnce | glibc-2.33/argp/argp-parse.c:690-713 | A first parser that refuses ARG and takes ARGS is called twice, is credited with all arguments, and the loop ends |
| ArgpArguments.OptionTaken | glibc-2.33/argp/argp-parse.c:727-782 | An option getopt finds is one call to the group that owns it, whose reaction decides where the loop goes on |
| ArgpArguments.OptionUnknown | glibc-2.33/argp/argp-parse.c:831-838 | An option nobody owns, or that getopt complains about, ends the loop without a call |
| ArgpArguments.OptionsOver | glibc-2.33/argp/argp-parse.c:816-862 | When getopt is through, the first argument left is offered, unless there is none or none is wanted, and getopt is not asked again |
| ArgpArguments.ArgumentInOrder | glibc-2.33/argp/argp-parse.c:864-866 | An argument getopt hands out is the one before its new position, and getopt is asked again |
| ArgpArguments.DashesQuote | glibc-2.33/argp/argp-parse.c:816-830 | The quoted part starts where getopt stood when it met the -- |
| ArgpArguments.QuotedIsNotScanned | glibc-2.33/argp/argp-parse.c:794-804 | What follows a -- is never shown to getopt, even if a parser has moved back towards it |
| ArgpArguments.LeftOver | glibc-2.33/argp/argp-parse.c:586-612 | Arguments nobody took: EINVAL and no END, or, if the caller asks where they start, that place and success |
| ArgpArguments.LoopFailed | glibc-2.33/argp/argp-parse.c:580-669 | A parser’s error in the loop is the caller’s, EBADKEY read as EINVAL |
| ArgpArguments.AllWell | glibc-2.33/argp/argp-parse.c:586-661 | With all arguments taken and no failure at the end the run succeeds, and every parser hears END and SUCCESS |
| ArgpTurns.OneOutcome | glibc-2.33/argp/argp-parse.c:580-669 | How the loop ended and what was called in it leave one possibility for all calls of the run, its error and its end index |
| ArgpLifeCycle.ArgpParse | glibc-2.33/argp/argp-parse.c:880-926 | On any tree: the same from the initial state; if the call returns, every parser saw a complete life cycle, the input its parent gave it, the hook it left and the number of arguments it had processed |
| ArgpTrace.OneLife | glibc-2.33/argp/argp-parse.c:580-669 | Each parser of a returning run sees INIT, options and arguments, then at most NO_ARGS, END and one of SUCCESS and ERROR, then FINI |
| ArgpTrace.LifeOrder | glibc-2.33/argp/argp-parse.c:580-669 | INIT once and first, FINI once and last, END before SUCCESS, never both SUCCESS and ERROR; NO_ARGS only if the run counted no processed argument, and in a run with END exactly then |
| ArgpTrace.FiniLast | glibc-2.33/argp/argp-parse.c:659-661 | The last calls of a run are FINI to every parser in reverse group order |
| ArgpTrace.StageOrder | glibc-2.33/argp/argp-parse.c:535-661 | In every returning run INIT, NO_ARGS and ERROR go to the groups in rising order, parents first, and END, SUCCESS and FINI in falling order, children first |
| LinkClosure.Load | glibc-2.33/conform/linknamespace.py:102-113 | The three dictionaries hold exactly what the listing says |
| LinkClosure.ListingSays | glibc-2.33/conform/linknamespace.py:95-113 | What the listing says of a file: all symbols but weakly defined ones, strong undefined ones, and those it defines in either way |
| LinkClosure.ChainText | glibc-2.33/conform/linknamespace.py:180-202 | A chain of two links as it is printed |
| LinkClosure.InitialSymbols | glibc-2.33/conform/linknamespace.py:180-185 | The strongly undefined symbols of the compiled header |
| LinkClosure.Search.VisitFile | glibc-2.33/conform/linknamespace.py:193-202 | A new file’s symbols are recorded with a chain through it, known ones keep theirs |
| LinkClosure.Search.VisitSymbol | glibc-2.33/conform/linknamespace.py:190-202 | All files defining a symbol get visited |
| LinkClosure.Search.Round | glibc-2.33/conform/linknamespace.py:187-203 | One turn of the worklist, in sorted order: chains of one more link are matched |
| LinkClosure.ChainInside | glibc-2.33/conform/linknamespace.py:187-203 | Every closed set of files contains whatever a real chain reaches |
| LinkClosure.Find | glibc-2.33/conform/linknamespace.py:187-203 | The loop ends with the least closed set of files, exactly the initial symbols and those the files mention, and for each a real and shortest chain |
| LinkClosure.Report | glibc-2.33/conform/linknamespace.py:205-212 | Prints the chains of exactly the symbols that are neither reserved nor standard, in sorted order of the symbols |
| LinkClosure.Check | glibc-2.33/conform/linknamespace.py:102-213 | Exit code 0 exactly if every symbol some real chain leads to is allowed; every line printed is a real chain to one that is not, and each of these has a line, with a chain no longer than any |
| ProducerConsumer.InvStep | glibc-2.33/benchtests/bench-pthread-locks.c:344-370 | Every step of either thread and every spurious wakeup keeps the invariant |
| ProducerConsumer.Safety | glibc-2.33/benchtests/bench-pthread-locks.c:344-404 | In every reachable state queued is 0 or 1 and equals produced minus consumed, and at most one thread is in its critical section |
| ProducerConsumer.NotStuck | glibc-2.33/benchtests/bench-pthread-locks.c:344-404 | A reachable state has no enabled move if and only if both threads are finished |
| ProducerConsumer.FinalState | glibc-2.33/benchtests/bench-pthread-locks.c:389-404 | When both threads are finished, queued is 0 and each made iters + 1 changes (none for negative iters) |
| ProducerConsumer.RunsEnd | glibc-2.33/benchtests/bench-pthread-locks.c:344-404 | The number of moves is bounded by the number of turns and of spurious wakeups, and a run that can only go on by spurious wakeups is finished |

## Left out

- crypt: the MD5 computation before its result is assembled, the SHA computations and the
  assembly of their results, the FIPS check, locks and barriers, and the erasing of local
  buffers.
- crypt: the four sb tables are one array, as they are adjacent in the structure and the
  code addresses them across their boundaries.  The case of tables that are not adjacent
  does not arise.
- CryptHistory.Replay: encrypt is called only while a key is set, as its interface asks.
  A DES call erases the schedule and the hashing calls write their text over it; what
  encrypt returns after that is not stated.
- Message and set numbers are unbounded integers: an overflow of `int` in
  last_message, in set times message, or in a number read from a line is not modelled.
- gencat: line splitting, quoting, escapes and character set conversion; `$quote` and
  `$codeset`; the effect of `$delset` (the flag it sets is never read); the C header file
  with symbolic names; error messages; allocation failure.
- gencat: linked lists are sequences held in fields, so relinking and aliasing of list
  nodes are not modelled.
- CatalogFile.OpenCatalog: asks that the reader stays within the file.  For a file whose
  tables or last string run past its end, the source reads beyond the end, and what it
  does then is not stated.
- CatalogPipeline.WriteCatalog: asks for numbers and string offsets of 32 bits, and for an
  optimal table that the search can find (at most UINT_MAX slots, and not of that size)
  unless there is at most one message.  Otherwise the source uses a table of one slot and
  writes past its end.
- Opening, mapping and searching for catalog files (catopen, NLSPATH).
- argp help: help filters, translation, sorting, clusters, wrapping and the printing of
  options; only which alternatives and which short keys are shown is modelled.
- ArgpHol.ShortIterate: the callback's second argument is left out; it is the entry's own
  option, as all others of an entry are aliases.
- ArgpHol.MakeHol: asks that the first option is not an alias, which the code asserts.
- isprint is that of the C locale.
- ArgpLifeCycle.Parser.Parse: the parse loop is cut off after any number of turns, since
  parsers may make it run forever; by `ArgpTurns.EndedStays` a run that ends within some
  number of turns is the same for every larger one.  Runs that exit the process from
  within an error message, and parsers that keep a pointer into another group's
  child_inputs, are not modelled; nor is the unsigned wrap of args_processed.
- argp_parse with no argp at all, and the built-in help and version parsers (they are
  parsers like any other).
- Compiling the header and reading the symbol listing.
- ProducerConsumer: the filler work, timing, and thread creation and joining.
- The Flutter shell, the other benchmarks and the other conform scripts.
