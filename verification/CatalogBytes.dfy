/** The catalog file byte by byte, without the functions that store and load words, and
    the place of every message in its table. */
module CatalogBytes {
  import opened MessageLists
  import opened CatalogTable
  import opened CatalogFile

  /** The four bytes from p on are this word, its low byte first. */
  predicate LowFirst(file: seq<Byte>, p: nat, w: U32)
    requires p + 4 <= |file|
  {
    && file[p] == w % 256 && file[p + 1] == w / 256 % 256
    && file[p + 2] == w / 0x1_0000 % 256 && file[p + 3] == w / 0x100_0000
  }

  /** Its high byte first. */
  predicate HighFirst(file: seq<Byte>, p: nat, w: U32)
    requires p + 4 <= |file|
  {
    && file[p + 3] == w % 256 && file[p + 2] == w / 256 % 256
    && file[p + 1] == w / 0x1_0000 % 256 && file[p] == w / 0x100_0000
  }

  lemma {:induction false} EncodedAt(order: Order, ws: seq<U32>, k: nat)
    requires k < |ws|
    ensures if order == LittleEndian then LowFirst(Encode(order, ws), 4 * k, ws[k])
            else HighFirst(Encode(order, ws), 4 * k, ws[k])
  {
    if k < |ws| - 1 {
      EncodedAt(order, ws[..|ws| - 1], k);
    }
  }

  lemma Parts(a: seq<Byte>, b: seq<Byte>, c: seq<Byte>, d: seq<Byte>, e: seq<Byte>, f: seq<Byte>)
    requires |a| == |b| == |c| == 4
    ensures var file := a + b + c + d + e + f;
            && file[..4] == a && file[4..8] == b && file[8..12] == c && file[12..12 + |d|] == d
            && file[12 + |d|..12 + |d| + |e|] == e && file[12 + |d| + |e|..] == f
  {
  }

  /** The words of a table, one after the other. */
  predicate LaidOut(order: Order, table: seq<U32>, file: seq<Byte>, start: nat)
    requires start + 4 * |table| <= |file|
  {
    forall k :: 0 <= k < |table| ==>
      if order == LittleEndian then LowFirst(file, start + 4 * k, table[k])
      else HighFirst(file, start + 4 * k, table[k])
  }

  lemma TableLaid(order: Order, table: seq<U32>, file: seq<Byte>, start: nat)
    requires start + 4 * |table| <= |file| && file[start..start + 4 * |table|] == Encode(order, table)
    ensures LaidOut(order, table, file, start)
  {
    hide Encode, LowFirst, HighFirst;
    forall k | 0 <= k < |table|
      ensures if order == LittleEndian then LowFirst(file, start + 4 * k, table[k])
              else HighFirst(file, start + 4 * k, table[k])
    {
      EncodedAt(order, table, k);
      Within(Encode(order, table), file, start, 4 * k, table[k]);
    }
  }

  /** Every file starts with the magic number, the size and the depth in the writer's byte
      order; then the table follows low byte first and again high byte first, and the
      strings. */
  lemma FileLayout(writer: Order, size: U32, depth: U32, table: seq<U32>, strings: seq<Byte>)
    ensures var file, n := FileOf(writer, size, depth, table, strings), |table|;
            && |file| == 12 + 8 * n + |strings| && file[12 + 8 * n..] == strings
            && file[..4] == (if writer == LittleEndian then [0xde, 0x08, 0x04, 0x96] else [0x96, 0x04, 0x08, 0xde])
            && (if writer == LittleEndian then LowFirst(file, 4, size) && LowFirst(file, 8, depth)
                else HighFirst(file, 4, size) && HighFirst(file, 8, depth))
            && LaidOut(LittleEndian, table, file, 12) && LaidOut(BigEndian, table, file, 12 + 4 * n)
  {
    hide Encode, LowFirst, HighFirst, Bytes, LaidOut;
    var file, n := FileOf(writer, size, depth, table, strings), |table|;
    Parts(Bytes(writer, CATGETS_MAGIC), Bytes(writer, size), Bytes(writer, depth), Encode(LittleEndian, table),
          Encode(BigEndian, table), strings);
    HeaderBytes(writer, size, file, 4);
    HeaderBytes(writer, depth, file, 8);
    MagicBytes(writer);
    TableLaid(LittleEndian, table, file, 12);
    TableLaid(BigEndian, table, file, 12 + 4 * n);
  }

  lemma MagicBytes(writer: Order)
    ensures Bytes(writer, CATGETS_MAGIC)
         == if writer == LittleEndian then [0xde, 0x08, 0x04, 0x96] else [0x96, 0x04, 0x08, 0xde]
  {
  }

  lemma HeaderBytes(writer: Order, w: U32, file: seq<Byte>, p: nat)
    requires p + 4 <= |file| && file[p..p + 4] == Bytes(writer, w)
    ensures if writer == LittleEndian then LowFirst(file, p, w) else HighFirst(file, p, w)
  {
    var part := file[p..p + 4];
    assert part[0] == file[p] && part[1] == file[p + 1] && part[2] == file[p + 2] && part[3] == file[p + 3];
  }

  lemma Within(part: seq<Byte>, file: seq<Byte>, start: nat, p: nat, w: U32)
    requires start + |part| <= |file| && file[start..start + |part|] == part && p + 4 <= |part|
    ensures LowFirst(part, p, w) ==> LowFirst(file, start + p, w)
    ensures HighFirst(part, p, w) ==> HighFirst(file, start + p, w)
  {
    assert forall i :: 0 <= i < |part| ==> part[i] == file[start + i];
  }

  /** A file passes for a catalog by its first four bytes alone, on either machine. */
  lemma MagicEitherWay(host: Order, file: seq<Byte>)
    requires |file| >= HEADER
    ensures MagicOk(host, file) <==> file[..4] == [0xde, 0x08, 0x04, 0x96] || file[..4] == [0x96, 0x04, 0x08, 0xde]
  {
    var a, b, c, d := file[0], file[1], file[2], file[3];
    assert file[..4] == [a, b, c, d];
    OneWord(a, b, c, d, 0xde, 0x08, 0x04, 0x96);
    OneWord(a, b, c, d, 0x96, 0x04, 0x08, 0xde);
    OneWord(d, c, b, a, 0xde, 0x08, 0x04, 0x96);
    OneWord(d, c, b, a, 0x96, 0x04, 0x08, 0xde);
    assert CATGETS_MAGIC == Word(0xde, 0x08, 0x04, 0x96) && Swap(CATGETS_MAGIC) == Word(0x96, 0x04, 0x08, 0xde);
    hide Word, Swap;
  }

  lemma OneWord(a: Byte, b: Byte, c: Byte, d: Byte, a': Byte, b': Byte, c': Byte, d': Byte)
    ensures Word(a, b, c, d) == Word(a', b', c', d') <==> a == a' && b == b' && c == c' && d == d'
  {
    WordParts(a, b, c, d);
    WordParts(a', b', c', d');
    hide Word;
  }

  /** The file is longer than its header and six bytes a slot, and with any slot's offset
      added. */
  predicate ExceedsOffsets(host: Order, file: seq<Byte>)
    requires |file| >= HEADER && HEADER + 24 * Slots(host, file) <= |file|
  {
    var slots, namePtr := Slots(host, file), InfoOf(host, file).namePtr;
    |file| > 12 + 6 * slots && forall c :: 0 <= c < slots ==> |file| > 12 + 6 * slots + namePtr[3 * c + 2]
  }

  /** That is the size check. */
  lemma SizeCheck(host: Order, file: seq<Byte>)
    requires |file| >= HEADER && HEADER + 24 * Slots(host, file) <= |file|
    ensures SizeOk(host, file) <==> ExceedsOffsets(host, file)
  {
    hide InfoOf, Slots;
  }

  /** Message n of stored set s lies in a slot whose number is s * n modulo the size, so
      many planes further on. */
  lemma PlaceInTable(info: Info, es: seq<Entry>, i: nat) returns (p: nat)
    requires Indexed(info, es) && i < |es|
    ensures p < info.planeDepth
    ensures var c := p * info.planeSize + es[i].set_ * es[i].number % info.planeSize;
            && 3 * c + 2 < |info.namePtr| && info.namePtr[3 * c] == es[i].set_
            && info.namePtr[3 * c + 1] == es[i].number && StringAt(info.strings, info.namePtr[3 * c + 2], es[i].text)
  {
    hide StringAt;
    assert Found(info, es[i]);
    p :| 0 <= p < info.planeDepth && InPlane(info, es[i], p);
  }
}
