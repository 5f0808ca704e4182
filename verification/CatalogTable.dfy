/** The hash table of a message catalog: planes of `size` slots, three words to a
    slot, and the lookup that catgets does in it. */
module CatalogTable {
  import opened Options
  import opened MessageLists

  /** One listed message with its set. */
  datatype Entry = Entry(set_: int, number: int, text: Text)

  // ----- All messages in the order the lists are walked -----

  function OfSet(s: MsgSet): (es: seq<Entry>)
    ensures |es| == |s.messages|
  {
    seq(|s.messages|, j requires 0 <= j < |s.messages| => Entry(s.number, s.messages[j].number, s.messages[j].text))
  }

  function Flat(sets: seq<MsgSet>): seq<Entry> {
    if sets == [] then [] else Flat(sets[..|sets| - 1]) + OfSet(sets[|sets| - 1])
  }

  lemma FlatNext(sets: seq<MsgSet>, i: nat)
    requires i < |sets|
    ensures Flat(sets[..i + 1]) == Flat(sets[..i]) + OfSet(sets[i])
  {
    assert sets[..i + 1][..i] == sets[..i];
  }

  ghost predicate Keyed(es: seq<Entry>) {
    && (forall i :: 0 <= i < |es| ==> es[i].set_ >= 1 && es[i].number >= 1)
    && (forall i, j :: 0 <= i < j < |es| ==> es[i].set_ != es[j].set_ || es[i].number != es[j].number)
  }

  /** The text listed for a key. */
  function FindEntry(es: seq<Entry>, s: int, n: int): Option<Text> {
    if es == [] then None
    else if es[0].set_ == s && es[0].number == n then Some(es[0].text)
    else FindEntry(es[1..], s, n)
  }

  lemma {:induction false} FindEntryAt(es: seq<Entry>, i: nat)
    requires i < |es| && Keyed(es)
    ensures FindEntry(es, es[i].set_, es[i].number) == Some(es[i].text)
  {
    if i > 0 {
      FindEntryAt(es[1..], i - 1);
    }
  }

  lemma {:induction false} FindEntrySome(es: seq<Entry>, s: int, n: int)
    requires FindEntry(es, s, n).Some?
    ensures exists i :: 0 <= i < |es| && es[i] == Entry(s, n, FindEntry(es, s, n).value)
  {
    if es[0].set_ == s && es[0].number == n {
      assert es[0] == Entry(s, n, es[0].text);
    } else {
      FindEntrySome(es[1..], s, n);
      var i :| 0 <= i < |es[1..]| && es[1..][i] == Entry(s, n, FindEntry(es, s, n).value);
      assert es[i + 1] == es[1..][i];
    }
  }

  lemma {:induction false} FindEntryConcat(a: seq<Entry>, b: seq<Entry>, s: int, n: int)
    ensures FindEntry(a + b, s, n) == if FindEntry(a, s, n).Some? then FindEntry(a, s, n) else FindEntry(b, s, n)
  {
    if a == [] {
      assert a + b == b;
    } else {
      assert (a + b)[1..] == a[1..] + b;
      FindEntryConcat(a[1..], b, s, n);
    }
  }

  // ----- Hashing -----

  function Hash(e: Entry, size: nat): (h: nat)
    requires size >= 1
    ensures h < size
  {
    e.number * e.set_ % size
  }

  /** How many entries fall into bucket b. */
  function Count(es: seq<Entry>, size: nat, b: nat): (c: nat)
    requires size >= 1
    ensures c <= |es|
  {
    if es == [] then 0
    else Count(es[..|es| - 1], size, b) + if Hash(es[|es| - 1], size) == b then 1 else 0
  }

  lemma CountNext(es: seq<Entry>, e: Entry, size: nat, b: nat)
    requires size >= 1
    ensures Count(es + [e], size, b) == Count(es, size, b) + if Hash(e, size) == b then 1 else 0
  {
    assert (es + [e])[..|es|] == es;
  }

  lemma {:induction false} CountPrefix(a: seq<Entry>, b: seq<Entry>, size: nat, h: nat)
    requires size >= 1
    ensures Count(a, size, h) <= Count(a + b, size, h)
  {
    if b == [] {
      assert a + b == a;
    } else {
      CountPrefix(a, b[..|b| - 1], size, h);
      assert a + b == (a + b[..|b| - 1]) + [b[|b| - 1]];
      CountNext(a + b[..|b| - 1], b[|b| - 1], size, h);
    }
  }

  // ----- Reading the table -----

  datatype Info = Info(planeSize: nat, planeDepth: nat, namePtr: seq<nat>, strings: seq<Byte>) {
    ghost predicate Shaped() {
      planeSize >= 1 && planeDepth >= 1 && |namePtr| == 3 * (planeSize * planeDepth)
    }
  }

  /** The C string at an offset, if it is there. */
  predicate StringAt(pool: seq<Byte>, offset: nat, t: Text) {
    offset + |t| < |pool| && pool[offset..offset + |t|] == t && pool[offset + |t|] == 0
  }

  /** Slot c holds entry e. */
  ghost predicate SlotHolds(table: seq<nat>, pool: seq<Byte>, c: nat, e: Entry) {
    && 3 * c + 2 < |table|
    && table[3 * c] == e.set_ && table[3 * c + 1] == e.number && StringAt(pool, table[3 * c + 2], e.text)
  }

  /** Slot of plane p in bucket b. */
  function SlotOf(size: nat, p: nat, b: nat): nat {
    p * size + b
  }

  lemma SlotInRange(size: nat, depth: nat, p: nat, b: nat)
    requires b < size && p < depth
    ensures SlotOf(size, p, b) < size * depth
    ensures SlotOf(size, p + 1, b) == SlotOf(size, p, b) + size
  {
    assert (p + 1) * size <= depth * size;
    assert (p + 1) * size == p * size + size;
  }

  /** Entry e lies in some plane of its bucket. */
  ghost predicate Found(info: Info, e: Entry)
    requires info.planeSize >= 1
  {
    exists p :: 0 <= p < info.planeDepth && InPlane(info, e, p)
  }

  ghost predicate InPlane(info: Info, e: Entry, p: nat)
    requires info.planeSize >= 1
  {
    SlotHolds(info.namePtr, info.strings, SlotOf(info.planeSize, p, Hash(e, info.planeSize)), e)
  }

  /** Slot c holds one of these entries. */
  ghost predicate Taken(info: Info, es: seq<Entry>, c: nat) {
    exists i :: 0 <= i < |es| && SlotHolds(info.namePtr, info.strings, c, es[i])
  }

  /** The table indexes exactly these entries: each lies in some plane of its
      bucket, and every other slot is empty. */
  ghost predicate Indexed(info: Info, es: seq<Entry>) {
    && info.Shaped()
    && (forall i :: 0 <= i < |es| ==> Found(info, es[i]))
    && (forall c :: 0 <= c < info.planeSize * info.planeDepth ==> info.namePtr[3 * c] == 0 || Taken(info, es, c))
  }

  /** No key lies in two slots. */
  ghost predicate OncePerKey(info: Info)
    requires info.Shaped()
  {
    forall c, d :: 0 <= c < d < info.planeSize * info.planeDepth && info.namePtr[3 * c] != 0 ==>
      info.namePtr[3 * c] != info.namePtr[3 * d] || info.namePtr[3 * c + 1] != info.namePtr[3 * d + 1]
  }

  method ReadString(pool: seq<Byte>, offset: nat, ghost t: Text) returns (r: Text)
    requires StringAt(pool, offset, t)
    ensures r == t
  {
    assert forall k :: offset <= k < offset + |t| ==> pool[k] == pool[offset..offset + |t|][k - offset];
    var i := offset;
    while pool[i] != 0
      invariant offset <= i <= offset + |t| && i < |pool|
      invariant forall k :: offset <= k < i ==> pool[k] != 0
      decreases offset + |t| - i
    {
      i := i + 1;
    }
    r := pool[offset..i];
  }

  /** catgets: the listed text for a present (set, message), else the default.
      Catalogs store set numbers one higher than callers use. */
  method Catgets(info: Info, set0: int, message: int, fallback: Text, ghost es: seq<Entry>) returns (r: Text)
    requires Indexed(info, es) && Keyed(es)
    ensures r == match FindEntry(es, set0 + 1, message) case Some(t) => t case None => fallback
  {
    hide Keyed, SlotHolds, SlotOf;
    var s := set0 + 1;
    if s <= 0 || message < 0 {
      NotKeyed(es, s, message);
      return fallback;
    }
    var h := s * message % info.planeSize;
    var idx, cnt := h * 3, 0;
    SlotStart(info.planeSize, h);
    while true
      invariant cnt < info.planeDepth
      invariant idx == 3 * SlotOf(info.planeSize, cnt, h)
      invariant forall p :: 0 <= p < cnt ==> NoMatch(info, SlotOf(info.planeSize, p, h), s, message)
      decreases info.planeDepth - cnt
    {
      SlotInRange(info.planeSize, info.planeDepth, cnt, h);
      assert NoMatch(info, SlotOf(info.planeSize, cnt, h), s, message)
          || (info.namePtr[idx] == s && info.namePtr[idx + 1] == message);
      if info.namePtr[idx] == s && info.namePtr[idx + 1] == message {
        ghost var t := MatchIsListed(info, es, SlotOf(info.planeSize, cnt, h), s, message);
        r := ReadString(info.strings, info.namePtr[idx + 2], t);
        return r;
      }
      idx := idx + info.planeSize * 3;
      cnt := cnt + 1;
      if !(cnt < info.planeDepth) {
        break;
      }
    }
    NotIndexed(info, es, s, message, h);
    return fallback;
  }

  lemma SlotStart(size: nat, b: nat)
    ensures SlotOf(size, 0, b) == b
  {
  }

  ghost predicate NoMatch(info: Info, c: nat, s: int, n: int) {
    3 * c + 2 < |info.namePtr| && (info.namePtr[3 * c] != s || info.namePtr[3 * c + 1] != n)
  }

  lemma NotKeyed(es: seq<Entry>, s: int, n: int)
    requires Keyed(es) && (s <= 0 || n < 0)
    ensures FindEntry(es, s, n) == None
  {
    if FindEntry(es, s, n).Some? {
      FindEntrySome(es, s, n);
    }
  }

  lemma MatchIsListed(info: Info, es: seq<Entry>, c: nat, s: int, n: int) returns (t: Text)
    requires Indexed(info, es) && Keyed(es) && c < info.planeSize * info.planeDepth
    requires info.namePtr[3 * c] == s >= 1 && info.namePtr[3 * c + 1] == n
    ensures FindEntry(es, s, n) == Some(t) && StringAt(info.strings, info.namePtr[3 * c + 2], t)
  {
    var i := Occupant(info, es, c);
    hide Keyed, Indexed, StringAt, FindEntry;
    FindEntryAt(es, i);
    t := es[i].text;
  }

  lemma Occupant(info: Info, es: seq<Entry>, c: nat) returns (i: nat)
    requires Indexed(info, es) && c < info.planeSize * info.planeDepth && info.namePtr[3 * c] != 0
    ensures i < |es| && SlotHolds(info.namePtr, info.strings, c, es[i])
  {
    hide SlotHolds, SlotOf;
    i :| 0 <= i < |es| && SlotHolds(info.namePtr, info.strings, c, es[i]);
  }

  lemma NotIndexed(info: Info, es: seq<Entry>, s: int, n: int, h: nat)
    requires Indexed(info, es) && s >= 1 && h == s * n % info.planeSize
    requires forall p :: 0 <= p < info.planeDepth ==> NoMatch(info, SlotOf(info.planeSize, p, h), s, n)
    ensures FindEntry(es, s, n) == None
  {
    if FindEntry(es, s, n).Some? {
      FindEntrySome(es, s, n);
    }
  }
}
