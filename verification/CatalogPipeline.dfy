/** gencat and catgets together: input lines and an old catalog in, lookups out. */
module CatalogPipeline {
  import opened Options
  import opened MessageLists
  import opened CatalogTable
  import opened CatalogMerge
  import opened CatalogSize
  import opened CatalogFill
  import opened CatalogFile
  import opened Gencat
  import opened GencatMeaning

  // ----- The lists seen as one sequence of entries -----

  lemma {:induction false} FindInLast(sets: seq<MsgSet>, s: int, n: int)
    requires sets != [] && sets[|sets| - 1].number != s
    ensures FindIn(sets, s, n) == FindIn(sets[..|sets| - 1], s, n)
  {
    if |sets| > 1 {
      assert sets[1..][..|sets| - 2] == sets[..|sets| - 1][1..];
      FindInLast(sets[1..], s, n);
    }
  }

  lemma {:induction false} FindOfSet(set_: MsgSet, s: int, n: int)
    ensures FindEntry(OfSet(set_), s, n) == if s == set_.number then FindMsg(set_.messages, n) else None
    decreases |set_.messages|
  {
    if set_.messages != [] {
      assert OfSet(set_)[1..] == OfSet(set_.(messages := set_.messages[1..]));
      FindOfSet(set_.(messages := set_.messages[1..]), s, n);
    }
  }

  /** The flat list of entries says what the nested lists say. */
  lemma {:induction false} FlatFind(sets: seq<MsgSet>, s: int, n: int)
    requires DistinctSets(sets)
    ensures FindEntry(Flat(sets), s, n) == FindIn(sets, s, n)
  {
    if sets != [] {
      var front, last := sets[..|sets| - 1], sets[|sets| - 1];
      FlatFind(front, s, n);
      FindEntryConcat(Flat(front), OfSet(last), s, n);
      FindOfSet(last, s, n);
      if s == last.number {
        FindInAbsent(front, s, n);
        FindInAt(sets, |sets| - 1, n);
      } else {
        FindInLast(sets, s, n);
      }
    }
  }

  lemma {:induction false} FlatMember(sets: seq<MsgSet>, i: nat) returns (k: nat, j: nat)
    requires i < |Flat(sets)|
    ensures k < |sets| && j < |sets[k].messages|
    ensures Flat(sets)[i] == Entry(sets[k].number, sets[k].messages[j].number, sets[k].messages[j].text)
    ensures i == |Flat(sets[..k])| + j
  {
    var front := sets[..|sets| - 1];
    if i < |Flat(front)| {
      k, j := FlatMember(front, i);
      assert front[..k] == sets[..k];
    } else {
      k, j := |sets| - 1, i - |Flat(front)|;
    }
  }

  lemma OrderedIsKeyed(sets: seq<MsgSet>)
    requires Ordered(sets)
    ensures Keyed(Flat(sets))
  {
    var es := Flat(sets);
    forall i | 0 <= i < |es|
      ensures es[i].set_ >= 1 && es[i].number >= 1
    {
      var k, j := FlatMember(sets, i);
    }
    forall i, i' | 0 <= i < i' < |es|
      ensures es[i].set_ != es[i'].set_ || es[i].number != es[i'].number
    {
      KeysDiffer(sets, i, i');
    }
  }

  lemma KeysDiffer(sets: seq<MsgSet>, i: nat, i': nat)
    requires Ordered(sets) && i < i' < |Flat(sets)|
    ensures Flat(sets)[i].set_ != Flat(sets)[i'].set_ || Flat(sets)[i].number != Flat(sets)[i'].number
  {
    hide Flat;
    var k, j := FlatMember(sets, i);
    var k', j' := FlatMember(sets, i');
    if k == k' {
      assert j < j';
    }
  }

  // ----- From lists to file -----

  /** Limits of the file format and of the size search: 32-bit numbers and string
      offsets, and a best table that the search can find, unless one slot will do. */
  ghost predicate Fits(sets: seq<MsgSet>, totalMessages: nat) {
    && Narrow(Flat(sets)) && |PoolOf(Flat(sets))| < 0x1_0000_0000
    && (InRange(Flat(sets), 1 + totalMessages / 5) || |Flat(sets)| <= 1)
  }

  /** A machine of this byte order that opens the file sees exactly the lists. */
  ghost predicate Readable(file: seq<Byte>, reader: Order, sets: seq<MsgSet>) {
    && |file| >= HEADER && MagicOk(reader, file) && Complete(reader, file)
    && Indexed(InfoOf(reader, file), Flat(sets)) && OncePerKey(InfoOf(reader, file))
  }

  ghost predicate HeaderSays(file: seq<Byte>, reader: Order, size: nat, depth: nat) {
    |file| >= HEADER && HeaderWord(reader, file, 4) == size && HeaderWord(reader, file, 8) == depth
  }

  /** A machine that opens the file takes it for a catalog and reads past its end. */
  ghost predicate Misread(file: seq<Byte>, reader: Order) {
    |file| >= HEADER && MagicOk(reader, file) && !StaysInside(reader, file)
  }

  /** write_out: search the size, fill the table, write the file.  The file uses the
      smallest table, and every machine can read all of it, unless there is nothing
      to read: a catalog without messages makes a file that no machine should open. */
  method WriteCatalog(sets: seq<MsgSet>, totalMessages: nat, host: Order)
    returns (file: seq<Byte>, size: nat, depth: nat)
    requires Ordered(sets) && Fits(sets, totalMessages)
    ensures forall reader :: HeaderSays(file, reader, size, depth)
    ensures forall reader :: if Flat(sets) != [] then Readable(file, reader, sets) else Misread(file, reader)
    ensures if InRange(Flat(sets), 1 + totalMessages / 5) then
              Best(Flat(sets), 1 + totalMessages / 5, size) && depth == Depth(Flat(sets), size)
            else size == 1 && depth == 1
  {
    hide Flat, Keyed, Indexed, OncePerKey, Best, Cost, Depth, PoolOf, OffsetsIn, FileOf, HeaderWord, Readable, Count;
    hide Misread;
    ghost var es := Flat(sets);
    OrderedIsKeyed(sets);
    size, depth := FindSize(sets, totalMessages);
    if InRange(es, 1 + totalMessages / 5) {
      CostIs(es, size);
      DepthBound(es, size);
    }
    DimensionsFit(size, depth);
    var info := BuildTable(sets, size, depth);
    PoolEmpty(es);
    if es != [] {
      PoolEnd(es);
    }
    IndexedShape(info, es);
    file := WriteOut(host, size, depth, info.namePtr, info.strings);
    forall reader
      ensures HeaderSays(file, reader, size, depth)
      ensures if es != [] then Readable(file, reader, sets) else Misread(file, reader)
    {
      WrittenIsReadable(host, reader, info, sets);
    }
  }

  lemma WrittenIsReadable(writer: Order, reader: Order, info: Info, sets: seq<MsgSet>)
    requires info.Shaped() && info.planeSize < 0x1_0000_0000 && info.planeDepth < 0x1_0000_0000
    requires forall k :: 0 <= k < |info.namePtr| ==> info.namePtr[k] < 0x1_0000_0000
    requires OffsetsIn(info.namePtr, info.planeSize * info.planeDepth, info.strings)
    requires info.planeSize >= 1 && info.planeDepth >= 1 && info.strings == PoolOf(Flat(sets))
    requires info.strings == [] || info.strings[|info.strings| - 1] == 0
    requires Indexed(info, Flat(sets)) && OncePerKey(info)
    ensures var file := FileOf(writer, info.planeSize, info.planeDepth, info.namePtr, info.strings);
            && HeaderSays(file, reader, info.planeSize, info.planeDepth)
            && if Flat(sets) != [] then Readable(file, reader, sets) else Misread(file, reader)
  {
    PoolEmpty(Flat(sets));
    WellShaped(writer, reader, info);
    hide Flat, Indexed, OncePerKey, OffsetsIn, FileOf, HeaderWord, MagicOk, PoolOf, Complete, StaysInside, SizeOk;
    hide InfoOf, Slots;
    RoundTrip(writer, reader, info);
    if info.strings == [] {
      NothingToScan(reader, FileOf(writer, info.planeSize, info.planeDepth, info.namePtr, info.strings));
    }
  }

  /** The header of a written file has the dimensions of the table. */
  lemma WellShaped(writer: Order, reader: Order, info: Info)
    requires info.Shaped() && info.planeSize < 0x1_0000_0000 && info.planeDepth < 0x1_0000_0000
    requires info.planeSize >= 1 && info.planeDepth >= 1
    requires forall k :: 0 <= k < |info.namePtr| ==> info.namePtr[k] < 0x1_0000_0000
    requires OffsetsIn(info.namePtr, info.planeSize * info.planeDepth, info.strings)
    requires info.strings == [] || info.strings[|info.strings| - 1] == 0
    ensures info.planeSize * info.planeDepth > 0
    ensures HeaderSays(FileOf(writer, info.planeSize, info.planeDepth, info.namePtr, info.strings), reader,
                       info.planeSize, info.planeDepth)
  {
    hide OffsetsIn, FileOf, HeaderWord, MagicOk, Complete, Slots, LoadWords;
    RoundTrip(writer, reader, info);
    assert info.planeSize * info.planeDepth == info.planeSize + info.planeSize * (info.planeDepth - 1);
  }

  lemma PoolEmpty(es: seq<Entry>)
    ensures PoolOf(es) == [] <==> es == []
  {
  }

  lemma DimensionsFit(size: nat, depth: nat)
    requires size >= 1 && depth >= 1 && depth * size <= UINT_MAX
    ensures size <= UINT_MAX && depth <= UINT_MAX
  {
    assert depth * size == size + (depth - 1) * size;
    assert depth * size == depth + depth * (size - 1);
  }

  /** catopen and catgets on such a file. */
  method LookUp(file: seq<Byte>, reader: Order, set0: int, message: int, fallback: Text, ghost sets: seq<MsgSet>)
    returns (r: Text)
    requires Readable(file, reader, sets) && Ordered(sets)
    ensures r == match FindIn(sets, set0 + 1, message) case Some(t) => t case None => fallback
  {
    hide Flat, Keyed, Indexed, OncePerKey, Complete, StaysInside, SizeOk, MagicOk, InfoOf, FindEntry, FindIn;
    OrderedIsKeyed(sets);
    FlatFind(sets, set0 + 1, message);
    CompleteOpens(reader, file);
    var info := OpenCatalog(reader, file);
    r := Catgets(info.value, set0, message, fallback, Flat(sets));
  }

  // ----- The lists themselves -----

  /** The keys listed in these sets for which the lines said nothing. */
  ghost function NotSaid(said: Said, sets: seq<MsgSet>): set<(int, int)> {
    set e | e in Flat(sets) && Says(said, e.set_, e.number) == None :: (e.set_, e.number)
  }

  lemma NotSaidIs(said: Said, listed: seq<MsgSet>, sets: seq<MsgSet>)
    requires forall s, n :: FindIn(listed, s, n) == Says(said, s, n)
    ensures NewKeys(listed, Flat(sets)) == NotSaid(said, sets)
  {
    hide FindIn, Says, Flat;
  }

  /** Everything gencat does before it writes: reads the input lines and merges
      the old catalog file, if there is one.  Every key then has the merge of what
      the lines mean with what the old file said. */
  method ReadInputs(lines: seq<Line>, previous: Option<seq<Byte>>, host: Order, ghost oldSets: seq<MsgSet>)
    returns (sets: seq<MsgSet>, totalMessages: nat)
    requires previous.Some? ==> Ordered(oldSets) && Readable(previous.value, host, oldSets)
    ensures Ordered(sets)
    ensures totalMessages == TakeAll(NOTHING_SAID, lines).total
                             + if previous.Some? then |NotSaid(TakeAll(NOTHING_SAID, lines), oldSets)| else 0
    ensures forall s, n :: FindIn(sets, s, n)
                        == var mine := Says(TakeAll(NOTHING_SAID, lines), s, n);
                           if previous.Some? then Merged(mine, FindIn(oldSets, s, n)) else mine
    ensures var said := TakeAll(NOTHING_SAID, lines);
            forall s, n :: Says(said, s, n).Some? && Says(said, s, n) != Some(EMPTY_TEXT) ==>
              FindIn(sets, s, n) == Says(said, s, n)
    ensures forall s, n :: Says(TakeAll(NOTHING_SAID, lines), s, n) == Some(EMPTY_TEXT) ==>
              FindIn(sets, s, n) == if previous.Some? && FindIn(oldSets, s, n).Some? then None else Some(EMPTY_TEXT)
    ensures forall s, n :: Says(TakeAll(NOTHING_SAID, lines), s, n) == None ==>
              FindIn(sets, s, n) == if previous.Some? then FindIn(oldSets, s, n) else None
  {
    hide FindIn, FindEntry, Flat, Keyed, Indexed, OncePerKey, Complete, StaysInside, SizeOk, MagicOk, InfoOf, TakeAll,
         Blocks, NewKeys, NotSaid;
    var catalog := new Catalog();
    catalog.ReadLines(lines);
    ghost var said := catalog.allSets;
    forall s, n
      ensures FindIn(said, s, n) == Says(TakeAll(NOTHING_SAID, lines), s, n)
    {
      BlocksFind(said, s, n);
    }
    if previous.Some? {
      OrderedIsKeyed(oldSets);
      CompleteOpens(host, previous.value);
      var info := OpenCatalog(host, previous.value);
      catalog.ReadOld(info.value, Flat(oldSets));
      forall s, n
        ensures FindIn(catalog.allSets, s, n) == Merged(FindIn(said, s, n), FindIn(oldSets, s, n))
      {
        FlatFind(oldSets, s, n);
      }
      NotSaidIs(TakeAll(NOTHING_SAID, lines), said, oldSets);
    }
    return catalog.allSets, catalog.totalMessages;
  }

  /** Merging into an empty catalog reproduces the old mapping. */
  method MergeIntoEmpty(info: Info, ghost es: seq<Entry>) returns (sets: seq<MsgSet>)
    requires Indexed(info, es) && Keyed(es) && OncePerKey(info)
    ensures Ordered(sets) && forall s, n :: FindIn(sets, s, n) == FindEntry(es, s, n)
  {
    hide FindEntry, Keyed, Indexed, OncePerKey;
    var catalog := new Catalog();
    assert forall s, n :: FindIn(catalog.allSets, s, n) == None;
    catalog.ReadOld(info, es);
    return catalog.allSets;
  }
}
