/** The catalog file: gencat writes it in its own byte order with the table in
    both orders, and the reader picks what its own machine can use. */
module CatalogFile {
  import opened Options
  import opened MessageLists
  import opened CatalogTable
  import opened CatalogFill

  datatype Order = LittleEndian | BigEndian

  type U32 = n: nat | n < 0x1_0000_0000

  const CATGETS_MAGIC: U32 := 0x960408de

  /** The word with these bytes, low end first. */
  function Word(a: Byte, b: Byte, c: Byte, d: Byte): U32 {
    var n: int := d;
    var w := a as int + 256 * b as int + 0x1_0000 * c as int + 0x100_0000 * n;
    w
  }

  lemma WordParts(a: Byte, b: Byte, c: Byte, d: Byte)
    ensures Word(a, b, c, d) % 256 == a && Word(a, b, c, d) / 256 % 256 == b
    ensures Word(a, b, c, d) / 0x1_0000 % 256 == c && Word(a, b, c, d) / 0x100_0000 == d
  {
    var w := Word(a, b, c, d);
    assert w / 256 == b + 256 * c + 0x1_0000 * d;
    assert w / 0x1_0000 == c + 256 * d;
    assert w / 0x100_0000 == d;
  }

  lemma Digits(w: U32)
    ensures w / 0x100_0000 < 256
    ensures w == Word(w % 256, w / 256 % 256, w / 0x1_0000 % 256, w / 0x100_0000)
  {
    assert w / 0x1_0000 == w / 0x1_0000 % 256 + 256 * (w / 0x100_0000);
    assert w / 256 == w / 256 % 256 + 256 * (w / 0x1_0000);
  }

  /** SWAPU32: (w << 24) | ((w & 0xff00) << 8) | ((w >> 8) & 0xff00) | (w >> 24). */
  function Swap(w: U32): U32 {
    Word(w / 0x100_0000, w / 0x1_0000 % 256, w / 256 % 256, w % 256)
  }

  lemma SwapTwice(w: U32)
    ensures Swap(Swap(w)) == w
  {
    hide Word;
    Digits(w);
    WordParts(w / 0x100_0000, w / 0x1_0000 % 256, w / 256 % 256, w % 256);
  }

  /** A word as a machine of this byte order stores it. */
  function Bytes(order: Order, w: U32): (b: seq<Byte>)
    ensures |b| == 4
  {
    if order == LittleEndian then [w % 256, w / 256 % 256, w / 0x1_0000 % 256, w / 0x100_0000]
    else [w / 0x100_0000, w / 0x1_0000 % 256, w / 256 % 256, w % 256]
  }

  /** The word a machine of this byte order loads. */
  function Load(order: Order, file: seq<Byte>, offset: nat): U32
    requires offset + 4 <= |file|
  {
    if order == LittleEndian then Word(file[offset], file[offset + 1], file[offset + 2], file[offset + 3])
    else Word(file[offset + 3], file[offset + 2], file[offset + 1], file[offset])
  }

  /** Reading in the other byte order swaps. */
  lemma LoadStored(writer: Order, reader: Order, w: U32)
    ensures Load(reader, Bytes(writer, w), 0) == if writer == reader then w else Swap(w)
  {
    hide Word;
    Digits(w);
  }

  /** Storing a swapped word is storing it in the other byte order. */
  lemma StoreSwapped(order: Order, other: Order, w: U32)
    requires order != other
    ensures Bytes(order, Swap(w)) == Bytes(other, w)
  {
    hide Word;
    WordParts(w / 0x100_0000, w / 0x1_0000 % 256, w / 256 % 256, w % 256);
  }

  // ----- Sequences of words -----

  function Encode(order: Order, ws: seq<U32>): (b: seq<Byte>)
    ensures |b| == 4 * |ws|
  {
    if ws == [] then [] else Encode(order, ws[..|ws| - 1]) + Bytes(order, ws[|ws| - 1])
  }

  lemma EncodeNext(order: Order, ws: seq<U32>, w: U32)
    ensures Encode(order, ws + [w]) == Encode(order, ws) + Bytes(order, w)
  {
    assert (ws + [w])[..|ws|] == ws;
  }

  lemma {:induction false} LoadEncoded(order: Order, ws: seq<U32>, k: nat)
    requires k < |ws|
    ensures Load(order, Encode(order, ws), 4 * k) == ws[k]
  {
    hide Load, Bytes;
    var front, last := ws[..|ws| - 1], ws[|ws| - 1];
    if k == |ws| - 1 {
      LoadLater(order, Encode(order, front), Bytes(order, last), [], 0);
      LoadStored(order, order, last);
      assert Encode(order, front) + Bytes(order, last) + [] == Encode(order, ws);
    } else {
      LoadEncoded(order, front, k);
      LoadLater(order, [], Encode(order, front), Bytes(order, last), 4 * k);
      assert [] + Encode(order, front) + Bytes(order, last) == Encode(order, ws);
      assert ws[k] == front[k];
    }
  }

  /** A load does not depend on where in a file the bytes lie. */
  lemma LoadLater(order: Order, before: seq<Byte>, mid: seq<Byte>, after: seq<Byte>, offset: nat)
    requires offset + 4 <= |mid|
    ensures Load(order, before + mid + after, |before| + offset) == Load(order, mid, offset)
  {
  }

  /** SWAPU32 applied to every word. */
  function SwapAll(ws: seq<U32>): (r: seq<U32>)
    ensures |r| == |ws|
    ensures forall k :: 0 <= k < |ws| ==> r[k] == Swap(ws[k])
  {
    seq(|ws|, k requires 0 <= k < |ws| => Swap(ws[k]))
  }

  lemma {:induction false} EncodeSwapped(order: Order, other: Order, ws: seq<U32>)
    requires order != other
    ensures Encode(order, SwapAll(ws)) == Encode(other, ws)
  {
    if ws != [] {
      var front, last := ws[..|ws| - 1], ws[|ws| - 1];
      assert SwapAll(ws) == SwapAll(front) + [Swap(last)];
      EncodeSwapped(order, other, front);
      EncodeNext(order, SwapAll(front), Swap(last));
      StoreSwapped(order, other, last);
    }
  }

  // ----- Writing -----

  /** What a catalog file holds, whoever writes it: only the header's byte order
      depends on the writer. */
  function FileOf(writer: Order, size: U32, depth: U32, table: seq<U32>, strings: seq<Byte>): seq<Byte> {
    Bytes(writer, CATGETS_MAGIC) + Bytes(writer, size) + Bytes(writer, depth)
    + Encode(LittleEndian, table) + Encode(BigEndian, table) + strings
  }

  /** The last part of write_out. */
  method WriteOut(host: Order, size: U32, depth: U32, table: seq<U32>, strings: seq<Byte>) returns (file: seq<Byte>)
    ensures file == FileOf(host, size, depth, table, strings)
  {
    hide Swap, Bytes, Encode;
    var swapped := new U32[|table|](_ => 0);
    for cnt := 0 to |table|
      invariant forall k :: 0 <= k < cnt ==> swapped[k] == Swap(table[k])
    {
      swapped[cnt] := Swap(table[cnt]);
    }
    assert swapped[..] == SwapAll(table);
    file := Bytes(host, CATGETS_MAGIC) + Bytes(host, size) + Bytes(host, depth);
    if host == LittleEndian {
      EncodeSwapped(LittleEndian, BigEndian, table);
      file := file + Encode(host, table) + Encode(host, swapped[..]);
    } else {
      EncodeSwapped(BigEndian, LittleEndian, table);
      file := file + Encode(host, swapped[..]) + Encode(host, table);
    }
    file := file + strings;
  }

  // ----- Reading -----

  const HEADER := 12

  function MagicOk(host: Order, file: seq<Byte>): bool
    requires |file| >= HEADER
  {
    Load(host, file, 0) == CATGETS_MAGIC || Load(host, file, 0) == Swap(CATGETS_MAGIC)
  }

  /** A header word, swapped back if the magic number came out swapped. */
  function HeaderWord(host: Order, file: seq<Byte>, offset: nat): U32
    requires |file| >= HEADER && offset + 4 <= HEADER
  {
    if Load(host, file, 0) == CATGETS_MAGIC then Load(host, file, offset) else Swap(Load(host, file, offset))
  }

  function Slots(host: Order, file: seq<Byte>): nat
    requires |file| >= HEADER
  {
    hide HeaderWord;
    HeaderWord(host, file, 4) * HeaderWord(host, file, 8)
  }

  function TableStart(host: Order, slots: nat): nat {
    if host == LittleEndian then HEADER else HEADER + 4 * (3 * slots)
  }

  function LoadWords(host: Order, file: seq<Byte>, start: nat, n: nat): (ws: seq<nat>)
    requires start + 4 * n <= |file|
    ensures |ws| == n
  {
    seq(n, k requires 0 <= k < n => Load(host, file, start + 4 * k))
  }

  /** What the reader takes a file to say. */
  function InfoOf(host: Order, file: seq<Byte>): Info
    requires |file| >= HEADER && HEADER + 24 * Slots(host, file) <= |file|
  {
    var slots := Slots(host, file);
    Info(HeaderWord(host, file, 4), HeaderWord(host, file, 8),
         LoadWords(host, file, TableStart(host, slots), 3 * slots), file[HEADER + 24 * slots..])
  }

  /** Both tables lie in the file, and so does the string at every offset. */
  ghost predicate Complete(host: Order, file: seq<Byte>)
    requires |file| >= HEADER
  {
    && HEADER + 24 * Slots(host, file) < |file| && file[|file| - 1] == 0
    && forall c :: 0 <= c < Slots(host, file) ==>
         HEADER + 24 * Slots(host, file) + InfoOf(host, file).namePtr[3 * c + 2] < |file|
  }

  /** The largest third word of any slot, and 0 for no slots. */
  function MaxOffset(namePtr: seq<nat>, slots: nat): (max: nat)
    requires |namePtr| == 3 * slots
    ensures forall c :: 0 <= c < slots ==> namePtr[3 * c + 2] <= max
    ensures max == 0 || exists c :: 0 <= c < slots && namePtr[3 * c + 2] == max
  {
    if slots == 0 then 0
    else
      var before := MaxOffset(namePtr[..3 * slots - 3], slots - 1);
      assert forall c :: 0 <= c < slots - 1 ==> namePtr[..3 * slots - 3][3 * c + 2] == namePtr[3 * c + 2];
      if namePtr[3 * slots - 1] > before then namePtr[3 * slots - 1] else before
  }

  /** The reader's size check, which counts the words of the tables as bytes. */
  predicate SizeOk(host: Order, file: seq<Byte>)
    requires |file| >= HEADER && HEADER + 24 * Slots(host, file) <= |file|
  {
    |file| > HEADER + 6 * Slots(host, file) + MaxOffset(InfoOf(host, file).namePtr, Slots(host, file))
  }

  /** The reader stays within the file: both tables lie in it and, if the size check
      passes, the last string ends in it. */
  ghost predicate StaysInside(host: Order, file: seq<Byte>)
    requires |file| >= HEADER
  {
    && HEADER + 24 * Slots(host, file) <= |file|
    && (SizeOk(host, file) ==>
          var lastp := HEADER + 24 * Slots(host, file) + MaxOffset(InfoOf(host, file).namePtr, Slots(host, file));
          exists k :: lastp <= k < |file| && file[k] == 0)
  }

  /** Complete files are accepted. */
  lemma CompleteOpens(host: Order, file: seq<Byte>)
    requires |file| >= HEADER && Complete(host, file)
    ensures StaysInside(host, file) && SizeOk(host, file)
  {
    hide InfoOf, Slots;
    assert file[|file| - 1] == 0;
  }

  /** __open_catalog from the magic check on, for every file it can examine without
      reading beyond its end. */
  method OpenCatalog(host: Order, file: seq<Byte>) returns (r: Option<Info>)
    requires |file| >= HEADER && MagicOk(host, file) ==> StaysInside(host, file)
    ensures r == if |file| >= HEADER && MagicOk(host, file) && SizeOk(host, file) then Some(InfoOf(host, file))
            else None
  {
    hide Load, HeaderWord, LoadWords, MaxOffset;
    if |file| < HEADER {
      return None;
    }
    var valid, planeSize, planeDepth := ReadHeader(host, file);
    if !valid {
      return None;
    }
    hide MagicOk;
    var slots := planeSize * planeDepth;
    var namePtr := LoadWords(host, file, TableStart(host, slots), 3 * slots);
    var strings := HEADER + 24 * slots;
    assert InfoOf(host, file) == Info(planeSize, planeDepth, namePtr, file[strings..]);
    hide InfoOf, TableStart, Slots;
    var tabSize := 3 * slots;
    var maxOffset := LargestOffset(namePtr, slots);
    if |file| <= HEADER + 2 * tabSize + maxOffset {
      return None;
    }
    ghost var end := LastEnd(host, file);
    var ends := StringEnds(file, strings + maxOffset, |file| - HEADER + 2 * tabSize + maxOffset, end);
    if !ends {
      return None;
    }
    return Some(Info(planeSize, planeDepth, namePtr, file[strings..]));
  }

  lemma LastEnd(host: Order, file: seq<Byte>) returns (end: nat)
    requires |file| >= HEADER && StaysInside(host, file) && SizeOk(host, file)
    ensures HEADER + 24 * Slots(host, file) + MaxOffset(InfoOf(host, file).namePtr, Slots(host, file)) <= end < |file|
    ensures file[end] == 0
  {
    hide Slots, LoadWords, MaxOffset, SizeOk;
    var lastp := HEADER + 24 * Slots(host, file) + MaxOffset(InfoOf(host, file).namePtr, Slots(host, file));
    end :| lastp <= end < |file| && file[end] == 0;
  }

  /** The magic number, in either byte order, and the dimensions. */
  method ReadHeader(host: Order, file: seq<Byte>) returns (valid: bool, planeSize: nat, planeDepth: nat)
    requires |file| >= HEADER
    ensures valid == MagicOk(host, file)
    ensures valid ==> planeSize == HeaderWord(host, file, 4) && planeDepth == HeaderWord(host, file, 8)
  {
    hide Load, Swap;
    var magic := Load(host, file, 0);
    var swapping: bool;
    if magic == CATGETS_MAGIC {
      swapping := false;
    } else if magic == Swap(CATGETS_MAGIC) {
      swapping := true;
    } else {
      return false, 0, 0;
    }
    planeSize := if swapping then Swap(Load(host, file, 4)) else Load(host, file, 4);
    planeDepth := if swapping then Swap(Load(host, file, 8)) else Load(host, file, 8);
    valid := true;
  }

  /** The scan for the end of the last string: it finds the NUL at `end`, or one
      before it, because the limit is generous. */
  method StringEnds(file: seq<Byte>, start: nat, limit0: nat, ghost end: nat) returns (ends: bool)
    requires start <= end < |file| && file[end] == 0 && limit0 > end - start
    ensures ends
  {
    var lastp, limit := start, limit0;
    while file[lastp] != 0
      invariant lastp <= end && limit > end - lastp
      decreases |file| - lastp
    {
      limit := limit - 1;
      if limit == 0 {
        return false;
      }
      lastp := lastp + 1;
    }
    return true;
  }

  /** The largest third word of any slot. */
  method LargestOffset(namePtr: seq<nat>, slots: nat) returns (max: nat)
    requires |namePtr| == 3 * slots
    ensures max == MaxOffset(namePtr, slots)
  {
    max := 0;
    var cnt := 2;
    ghost var c := 0;
    while cnt < 3 * slots
      invariant cnt == 3 * c + 2 && c <= slots
      invariant forall k :: 0 <= k < c ==> namePtr[3 * k + 2] <= max
      invariant max == 0 || exists k :: 0 <= k < c && namePtr[3 * k + 2] == max
    {
      if namePtr[cnt] > max {
        max := namePtr[cnt];
      }
      cnt := cnt + 3;
      c := c + 1;
    }
  }

  // ----- The round trip -----

  lemma MagicIsNotPalindrome()
    ensures Swap(CATGETS_MAGIC) == 0xde080496 != CATGETS_MAGIC
  {
    WordParts(0x96, 0x04, 0x08, 0xde);
    WordParts(0xde, 0x08, 0x04, 0x96);
    assert CATGETS_MAGIC == Word(0xde, 0x08, 0x04, 0x96);
  }

  lemma HeaderRead(writer: Order, reader: Order, size: U32, depth: U32, rest: seq<Byte>)
    ensures var file := Bytes(writer, CATGETS_MAGIC) + Bytes(writer, size) + Bytes(writer, depth) + rest;
            && MagicOk(reader, file)
            && HeaderWord(reader, file, 4) == size && HeaderWord(reader, file, 8) == depth
  {
    hide Load, Bytes, Swap;
    var m, s, d := Bytes(writer, CATGETS_MAGIC), Bytes(writer, size), Bytes(writer, depth);
    var file := m + s + d + rest;
    LoadStored(writer, reader, CATGETS_MAGIC);
    LoadStored(writer, reader, size);
    LoadStored(writer, reader, depth);
    LoadLater(reader, [], m, s + d + rest, 0);
    LoadLater(reader, m, s, d + rest, 0);
    LoadLater(reader, m + s, d, rest, 0);
    assert file == [] + m + (s + d + rest) && file == m + s + (d + rest);
    MagicIsNotPalindrome();
    SwapTwice(size);
    SwapTwice(depth);
  }

  lemma TableRead(reader: Order, header: seq<Byte>, table: seq<U32>, strings: seq<Byte>, slots: nat)
    requires |header| == HEADER && |table| == 3 * slots
    ensures var file := header + Encode(LittleEndian, table) + Encode(BigEndian, table) + strings;
            && |file| == HEADER + 24 * slots + |strings|
            && LoadWords(reader, file, TableStart(reader, slots), 3 * slots) == table
            && file[HEADER + 24 * slots..] == strings
  {
    hide Load, Encode;
    var le, be := Encode(LittleEndian, table), Encode(BigEndian, table);
    var file := header + le + be + strings;
    forall k | 0 <= k < 3 * slots
      ensures Load(reader, file, TableStart(reader, slots) + 4 * k) == table[k]
    {
      LoadEncoded(reader, table, k);
      if reader == LittleEndian {
        LoadLater(reader, header, le, be + strings, 4 * k);
        assert file == header + le + (be + strings);
      } else {
        LoadLater(reader, header + le, be, strings, 4 * k);
      }
    }
  }

  /** For every pair of byte orders, the reader's view of a written file is the
      writer's table and strings, and the file passes the reader's checks. */
  lemma RoundTrip(writer: Order, reader: Order, info: Info)
    requires info.Shaped() && info.planeSize < 0x1_0000_0000 && info.planeDepth < 0x1_0000_0000
    requires forall k :: 0 <= k < |info.namePtr| ==> info.namePtr[k] < 0x1_0000_0000
    requires OffsetsIn(info.namePtr, info.planeSize * info.planeDepth, info.strings)
    requires info.strings == [] || info.strings[|info.strings| - 1] == 0
    ensures var file := FileOf(writer, info.planeSize, info.planeDepth, info.namePtr, info.strings);
            && |file| >= HEADER && MagicOk(reader, file)
            && HEADER + 24 * Slots(reader, file) <= |file| && InfoOf(reader, file) == info
            && Slots(reader, file) == info.planeSize * info.planeDepth
            && (if info.strings != [] then Complete(reader, file) else |file| == HEADER + 24 * Slots(reader, file))
  {
    hide Load, Encode, Bytes, MagicOk, HeaderWord;
    var table: seq<U32> := info.namePtr;
    var size: U32, depth: U32 := info.planeSize, info.planeDepth;
    var header := Bytes(writer, CATGETS_MAGIC) + Bytes(writer, size) + Bytes(writer, depth);
    var rest := Encode(LittleEndian, table) + Encode(BigEndian, table) + info.strings;
    var file := FileOf(writer, size, depth, table, info.strings);
    assert file == header + rest;
    HeaderRead(writer, reader, size, depth, rest);
    TableRead(reader, header, table, info.strings, info.planeSize * info.planeDepth);
    if info.strings != [] {
      assert file[|file| - 1] == info.strings[|info.strings| - 1];
    }
  }

  /** A file without strings passes the reader's size check, and the scan for the end
      of the last string then starts beyond its end. */
  lemma NothingToScan(reader: Order, file: seq<Byte>)
    requires |file| >= HEADER && |file| == HEADER + 24 * Slots(reader, file) && Slots(reader, file) > 0
    requires OffsetsIn(InfoOf(reader, file).namePtr, Slots(reader, file), [])
    ensures SizeOk(reader, file) && !StaysInside(reader, file)
  {
    hide InfoOf, Slots;
    assert MaxOffset(InfoOf(reader, file).namePtr, Slots(reader, file)) == 0;
  }
}
