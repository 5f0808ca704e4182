/** gencat's filling of the hash table, plane by plane. */
module CatalogFill {
  import opened MessageLists
  import opened CatalogTable

  /** owner[c] is the entry in slot c, or -1.  In every bucket the planes fill up
      in order, one for each entry of the bucket so far. */
  ghost predicate Filled(table: seq<nat>, pool: seq<Byte>, size: nat, depth: nat, es: seq<Entry>, owner: seq<int>)
    requires size >= 1
  {
    && |table| == 3 * (size * depth) && |owner| == size * depth
    && (forall c :: 0 <= c < |owner| ==> -1 <= owner[c] < |es|)
    && (forall c :: 0 <= c < |owner| && owner[c] == -1 ==> EmptySlot(table, c))
    && (forall c :: 0 <= c < |owner| && owner[c] != -1 ==> SlotHolds(table, pool, c, es[owner[c]]))
    && (forall c, d :: 0 <= c < d < |owner| && owner[c] != -1 ==> owner[c] != owner[d])
    && (forall i :: 0 <= i < |es| ==> Placed(size, depth, es, owner, i))
    && (forall p, b :: 0 <= p < depth && 0 <= b < size ==> PlaneFull(size, es, owner, p, b))
  }

  predicate EmptySlot(table: seq<nat>, c: nat) {
    3 * c + 2 < |table| && table[3 * c] == 0 && table[3 * c + 1] == 0 && table[3 * c + 2] == 0
  }

  ghost predicate Placed(size: nat, depth: nat, es: seq<Entry>, owner: seq<int>, i: nat)
    requires size >= 1 && i < |es|
  {
    exists p :: 0 <= p < depth && Owns(size, es, owner, i, p)
  }

  ghost predicate Owns(size: nat, es: seq<Entry>, owner: seq<int>, i: nat, p: nat)
    requires size >= 1 && i < |es|
  {
    SlotOf(size, p, Hash(es[i], size)) < |owner| && owner[SlotOf(size, p, Hash(es[i], size))] == i
  }

  ghost predicate PlaneFull(size: nat, es: seq<Entry>, owner: seq<int>, p: nat, b: nat)
    requires size >= 1
  {
    SlotOf(size, p, b) < |owner| && (owner[SlotOf(size, p, b)] != -1 <==> p < Count(es, size, b))
  }

  lemma FilledIsIndexed(table: seq<nat>, pool: seq<Byte>, size: nat, depth: nat, es: seq<Entry>, owner: seq<int>)
    requires size >= 1 && depth >= 1 && Filled(table, pool, size, depth, es, owner)
    ensures Indexed(Info(size, depth, table, pool), es)
  {
    hide SlotHolds, SlotOf, Hash;
    var info := Info(size, depth, table, pool);
    forall i | 0 <= i < |es|
      ensures Found(info, es[i])
    {
      assert Placed(size, depth, es, owner, i);
      var p :| 0 <= p < depth && Owns(size, es, owner, i, p);
      assert InPlane(info, es[i], p);
    }
    forall c | 0 <= c < size * depth
      ensures table[3 * c] == 0 || Taken(info, es, c)
    {
      if owner[c] != -1 {
        assert SlotHolds(table, pool, c, es[owner[c]]);
      }
    }
  }

  // ----- One entry -----

  lemma SlotsDiffer(size: nat, p: nat, b: nat, q: nat, c: nat)
    requires b < size && c < size && SlotOf(size, p, b) == SlotOf(size, q, c)
    ensures p == q && b == c
  {
    if p < q {
      SlotBelow(size, p, b, q, c);
    } else if q < p {
      SlotBelow(size, q, c, p, b);
    }
  }

  lemma SlotBelow(size: nat, p: nat, b: nat, q: nat, c: nat)
    requires b < size && p < q
    ensures SlotOf(size, p, b) < SlotOf(size, q, c)
  {
    assert (p + 1) * size == p * size + size;
    assert (p + 1) * size <= q * size;
  }

  lemma StringKept(pool: seq<Byte>, more: seq<Byte>, offset: nat, t: Text)
    requires StringAt(pool, offset, t)
    ensures StringAt(pool + more, offset, t)
  {
    assert (pool + more)[offset..offset + |t|] == pool[offset..offset + |t|];
  }

  lemma StringAdded(pool: seq<Byte>, t: Text)
    ensures StringAt(pool + t + [0], |pool|, t)
  {
  }

  /** The three words of slot c. */
  function SetSlot(table: seq<nat>, c: nat, s: nat, n: nat, offset: nat): (r: seq<nat>)
    requires 3 * c + 2 < |table|
    ensures |r| == |table|
    ensures r[3 * c] == s && r[3 * c + 1] == n && r[3 * c + 2] == offset
    ensures forall k :: 0 <= k < |r| && k != 3 * c && k != 3 * c + 1 && k != 3 * c + 2 ==> r[k] == table[k]
  {
    table[3 * c := s][3 * c + 1 := n][3 * c + 2 := offset]
  }

  /** Storing entry e in plane p of its bucket, p being the first free plane. */
  lemma FilledStep(table: seq<nat>, pool: seq<Byte>, size: nat, depth: nat, es: seq<Entry>, owner: seq<int>,
                   e: Entry, p: nat, table': seq<nat>, pool': seq<Byte>)
    requires size >= 1 && Filled(table, pool, size, depth, es, owner)
    requires p == Count(es, size, Hash(e, size)) < depth
    requires SlotOf(size, p, Hash(e, size)) < size * depth
    requires e.set_ >= 1 && e.number >= 1
    requires pool' == pool + e.text + [0]
    requires table' == SetSlot(table, SlotOf(size, p, Hash(e, size)), e.set_, e.number, |pool|)
    ensures Filled(table', pool', size, depth, es + [e], owner[SlotOf(size, p, Hash(e, size)) := |es|])
  {
    var c := SlotOf(size, p, Hash(e, size));
    var owner' := owner[c := |es|];
    var all := es + [e];
    HoldsStep(table, pool, es, owner, e, c, table', pool', owner');
    forall i | 0 <= i < |all|
      ensures Placed(size, depth, all, owner', i)
    {
      PlacedStep(size, depth, es, owner, e, p, i);
    }
    forall q, b | 0 <= q < depth && 0 <= b < size
      ensures PlaneFull(size, all, owner', q, b)
    {
      PlaneStep(size, depth, es, owner, e, p, q, b);
    }
  }

  lemma HoldsStep(table: seq<nat>, pool: seq<Byte>, es: seq<Entry>, owner: seq<int>, e: Entry, c: nat,
                  table': seq<nat>, pool': seq<Byte>, owner': seq<int>)
    requires |table| == 3 * |owner| && c < |owner| && e.set_ >= 1 && e.number >= 1
    requires forall k :: 0 <= k < |owner| ==> -1 <= owner[k] < |es|
    requires forall k :: 0 <= k < |owner| && owner[k] == -1 ==> EmptySlot(table, k)
    requires forall k :: 0 <= k < |owner| && owner[k] != -1 ==> SlotHolds(table, pool, k, es[owner[k]])
    requires pool' == pool + e.text + [0]
    requires table' == SetSlot(table, c, e.set_, e.number, |pool|)
    requires owner' == owner[c := |es|]
    ensures forall k :: 0 <= k < |owner| && owner'[k] == -1 ==> EmptySlot(table', k)
    ensures forall k :: 0 <= k < |owner| && owner'[k] != -1 ==> SlotHolds(table', pool', k, (es + [e])[owner'[k]])
  {
    var all := es + [e];
    forall k | 0 <= k < |owner| && owner'[k] != -1
      ensures SlotHolds(table', pool', k, all[owner'[k]])
    {
      if k == c {
        StringAdded(pool, e.text);
      } else {
        StringKept(pool, e.text + [0], table[3 * k + 2], es[owner[k]].text);
        assert pool + (e.text + [0]) == pool';
      }
    }
  }

  lemma PlacedStep(size: nat, depth: nat, es: seq<Entry>, owner: seq<int>, e: Entry, p: nat, i: nat)
    requires size >= 1 && |owner| == size * depth
    requires p == Count(es, size, Hash(e, size)) < depth
    requires SlotOf(size, p, Hash(e, size)) < |owner|
    requires PlaneFull(size, es, owner, p, Hash(e, size))
    requires i <= |es| && (i < |es| ==> Placed(size, depth, es, owner, i))
    ensures Placed(size, depth, es + [e], owner[SlotOf(size, p, Hash(e, size)) := |es|], i)
  {
    hide SlotOf, Hash, Count;
    var all, owner' := es + [e], owner[SlotOf(size, p, Hash(e, size)) := |es|];
    if i == |es| {
      assert Owns(size, all, owner', i, p);
    } else {
      var q :| 0 <= q < depth && Owns(size, es, owner, i, q);
      assert Owns(size, all, owner', i, q);
    }
  }

  lemma PlaneStep(size: nat, depth: nat, es: seq<Entry>, owner: seq<int>, e: Entry, p: nat, q: nat, b: nat)
    requires size >= 1 && |owner| == size * depth && q < depth && b < size
    requires p == Count(es, size, Hash(e, size)) < depth
    requires SlotOf(size, p, Hash(e, size)) < |owner|
    requires PlaneFull(size, es, owner, q, b)
    ensures PlaneFull(size, es + [e], owner[SlotOf(size, p, Hash(e, size)) := |es|], q, b)
  {
    CountNext(es, e, size, b);
    if SlotOf(size, p, Hash(e, size)) == SlotOf(size, q, b) {
      SlotsDiffer(size, p, Hash(e, size), q, b);
    }
    hide SlotOf, Hash, Count;
  }

  /** The probing loop: the first free plane of the bucket, never past the last. */
  method Probe(table: array<nat>, size: nat, depth: nat, e: Entry, ghost pool: seq<Byte>, ghost es: seq<Entry>,
               ghost owner: seq<int>)
    returns (idx: nat)
    requires size >= 1 && Filled(table[..], pool, size, depth, es, owner)
    requires forall i :: 0 <= i < |es| ==> es[i].set_ >= 1
    requires Count(es, size, Hash(e, size)) < depth
    ensures SlotOf(size, Count(es, size, Hash(e, size)), Hash(e, size)) < size * depth
    ensures idx == 3 * SlotOf(size, Count(es, size, Hash(e, size)), Hash(e, size))
  {
    hide Count, SlotOf;
    ghost var b := Hash(e, size);
    idx := e.number * e.set_ % size * 3;
    ghost var p := 0;
    SlotStart(size, b);
    SlotInRange(size, depth, 0, b);
    while table[idx] != 0
      invariant p <= Count(es, size, b) && p < depth
      invariant idx == 3 * SlotOf(size, p, b) && SlotOf(size, p, b) < size * depth
      decreases depth - p
    {
      Occupied(table[..], pool, size, depth, es, owner, p, b);
      SlotInRange(size, depth, p, b);
      SlotInRange(size, depth, p + 1, b);
      p := p + 1;
      idx := idx + size * 3;
    }
    Occupied(table[..], pool, size, depth, es, owner, p, b);
  }

  lemma Occupied(table: seq<nat>, pool: seq<Byte>, size: nat, depth: nat, es: seq<Entry>, owner: seq<int>, p: nat,
                 b: nat)
    requires size >= 1 && Filled(table, pool, size, depth, es, owner) && p < depth && b < size
    requires forall i :: 0 <= i < |es| ==> es[i].set_ >= 1
    requires SlotOf(size, p, b) < size * depth
    ensures table[3 * SlotOf(size, p, b)] != 0 <==> p < Count(es, size, b)
  {
    hide SlotOf, Count, Placed;
    assert PlaneFull(size, es, owner, p, b);
  }

  /** Stores one message and adds its string to the pool. */
  method StoreEntry(table: array<nat>, pool: seq<Byte>, size: nat, depth: nat, e: Entry,
                    ghost es: seq<Entry>, ghost owner: seq<int>) returns (pool': seq<Byte>, ghost owner': seq<int>)
    requires size >= 1 && Filled(table[..], pool, size, depth, es, owner)
    requires (forall i :: 0 <= i < |es| ==> es[i].set_ >= 1) && e.set_ >= 1 && e.number >= 1
    requires Count(es, size, Hash(e, size)) < depth
    modifies table
    ensures Filled(table[..], pool', size, depth, es + [e], owner')
    ensures pool' == pool + e.text + [0]
  {
    hide Filled, SlotOf, Count, Hash;
    var idx := Probe(table, size, depth, e, pool, es, owner);
    ghost var before := table[..];
    FilledLength(before, pool, size, depth, es, owner);
    table[idx] := e.set_;
    table[idx + 1] := e.number;
    table[idx + 2] := |pool|;
    pool' := pool + e.text + [0];
    ghost var p := Count(es, size, Hash(e, size));
    assert table[..] == SetSlot(before, SlotOf(size, p, Hash(e, size)), e.set_, e.number, |pool|);
    FilledStep(before, pool, size, depth, es, owner, e, p, table[..], pool');
    owner' := owner[SlotOf(size, p, Hash(e, size)) := |es|];
  }

  lemma FilledLength(table: seq<nat>, pool: seq<Byte>, size: nat, depth: nat, es: seq<Entry>, owner: seq<int>)
    requires size >= 1 && Filled(table, pool, size, depth, es, owner)
    ensures |table| == 3 * (size * depth) && |owner| == size * depth
  {
  }

  // ----- The whole table -----

  /** All strings one after the other, each with its NUL. */
  function PoolOf(es: seq<Entry>): (pool: seq<Byte>) {
    if es == [] then [] else PoolOf(es[..|es| - 1]) + es[|es| - 1].text + [0]
  }

  lemma PoolNext(es: seq<Entry>, e: Entry)
    ensures PoolOf(es + [e]) == PoolOf(es) + e.text + [0]
  {
    assert (es + [e])[..|es|] == es;
  }

  lemma PoolEnd(es: seq<Entry>)
    requires es != []
    ensures PoolOf(es) != [] && PoolOf(es)[|PoolOf(es)| - 1] == 0
  {
  }

  /** Every offset in the table is one of the pool. */
  ghost predicate OffsetsIn(table: seq<nat>, slots: nat, pool: seq<Byte>) {
    |table| == 3 * slots && forall c :: 0 <= c < slots ==> table[3 * c + 2] < |pool| || table[3 * c + 2] == 0
  }

  /** Set and message numbers that fit the table's 32-bit words. */
  ghost predicate Narrow(es: seq<Entry>) {
    forall i :: 0 <= i < |es| ==> es[i].set_ < 0x1_0000_0000 && es[i].number < 0x1_0000_0000
  }

  lemma FilledOnce(table: seq<nat>, pool: seq<Byte>, size: nat, depth: nat, es: seq<Entry>, owner: seq<int>)
    requires size >= 1 && depth >= 1 && Filled(table, pool, size, depth, es, owner) && Keyed(es)
    ensures OncePerKey(Info(size, depth, table, pool))
  {
    hide Placed, PlaneFull, StringAt;
    forall c, d | 0 <= c < d < size * depth && table[3 * c] != 0
      ensures table[3 * c] != table[3 * d] || table[3 * c + 1] != table[3 * d + 1]
    {
      assert owner[c] != -1 && SlotHolds(table, pool, c, es[owner[c]]);
      assert owner[d] == -1 || SlotHolds(table, pool, d, es[owner[d]]);
    }
  }

  lemma FilledOffsets(table: seq<nat>, pool: seq<Byte>, size: nat, depth: nat, es: seq<Entry>, owner: seq<int>)
    requires size >= 1 && Filled(table, pool, size, depth, es, owner)
    ensures OffsetsIn(table, size * depth, pool)
    ensures Narrow(es) && |pool| < 0x1_0000_0000 ==> forall k :: 0 <= k < |table| ==> table[k] < 0x1_0000_0000
  {
    hide Placed, PlaneFull;
    forall c | 0 <= c < size * depth
      ensures table[3 * c + 2] < |pool| || table[3 * c + 2] == 0
    {
      assert owner[c] == -1 || SlotHolds(table, pool, c, es[owner[c]]);
    }
    if Narrow(es) && |pool| < 0x1_0000_0000 {
      forall k | 0 <= k < |table|
        ensures table[k] < 0x1_0000_0000
      {
        var c := k / 3;
        assert k == 3 * c || k == 3 * c + 1 || k == 3 * c + 2;
        assert owner[c] == -1 || SlotHolds(table, pool, c, es[owner[c]]);
      }
    }
  }

  /** The loops of write_out that fill array1 and the string pool, for a table
      deep enough for every bucket. */
  method BuildTable(sets: seq<MsgSet>, size: nat, depth: nat) returns (info: Info)
    requires size >= 1 && depth >= 1 && Keyed(Flat(sets))
    requires forall h :: 0 <= h < size ==> Count(Flat(sets), size, h) <= depth
    ensures info.planeSize == size && info.planeDepth == depth && Indexed(info, Flat(sets)) && OncePerKey(info)
    ensures info.strings == PoolOf(Flat(sets)) && OffsetsIn(info.namePtr, size * depth, info.strings)
    ensures Narrow(Flat(sets)) && |info.strings| < 0x1_0000_0000 ==>
              forall k :: 0 <= k < |info.namePtr| ==> info.namePtr[k] < 0x1_0000_0000
  {
    hide Filled, Count;
    var table := new nat[3 * (size * depth)](_ => 0);
    var pool: seq<Byte> := [];
    ghost var owner := seq(size * depth, _ => -1);
    EmptyFilled(table[..], size, depth, owner);
    ghost var all := Flat(sets);
    for i := 0 to |sets|
      invariant Filled(table[..], pool, size, depth, Flat(sets[..i]), owner) && pool == PoolOf(Flat(sets[..i]))
    {
      FlatNext(sets, i);
      FlatPrefix(sets, i + 1);
      pool, owner := StoreSet(table, pool, size, depth, sets[i], Flat(sets[..i]), owner, all);
    }
    assert sets[..|sets|] == sets;
    FilledIsIndexed(table[..], pool, size, depth, all, owner);
    FilledOffsets(table[..], pool, size, depth, all, owner);
    FilledOnce(table[..], pool, size, depth, all, owner);
    info := Info(size, depth, table[..], pool);
  }

  lemma EmptyFilled(table: seq<nat>, size: nat, depth: nat, owner: seq<int>)
    requires size >= 1 && |table| == 3 * (size * depth) && forall k :: 0 <= k < |table| ==> table[k] == 0
    requires |owner| == size * depth && forall c :: 0 <= c < |owner| ==> owner[c] == -1
    ensures Filled(table, [], size, depth, [], owner)
  {
    forall p, b | 0 <= p < depth && 0 <= b < size
      ensures PlaneFull(size, [], owner, p, b)
    {
      SlotInRange(size, depth, p, b);
    }
  }

  lemma {:induction false} FlatPrefix(sets: seq<MsgSet>, i: nat)
    requires i <= |sets|
    ensures |Flat(sets[..i])| <= |Flat(sets)| && Flat(sets)[..|Flat(sets[..i])|] == Flat(sets[..i])
    decreases |sets| - i
  {
    if i == |sets| {
      assert sets[..i] == sets;
    } else {
      FlatNext(sets, i);
      FlatPrefix(sets, i + 1);
    }
  }

  method StoreSet(table: array<nat>, pool0: seq<Byte>, size: nat, depth: nat, set_: MsgSet,
                  ghost es: seq<Entry>, ghost owner0: seq<int>, ghost all: seq<Entry>)
    returns (pool: seq<Byte>, ghost owner: seq<int>)
    requires size >= 1 && Filled(table[..], pool0, size, depth, es, owner0) && pool0 == PoolOf(es)
    requires Keyed(all) && es + OfSet(set_) <= all
    requires forall h :: 0 <= h < size ==> Count(all, size, h) <= depth
    modifies table
    ensures Filled(table[..], pool, size, depth, es + OfSet(set_), owner) && pool == PoolOf(es + OfSet(set_))
  {
    hide Filled, Count, PoolOf;
    ghost var more := OfSet(set_);
    pool, owner := pool0, owner0;
    assert es + more[..0] == es;
    for j := 0 to |set_.messages|
      invariant Filled(table[..], pool, size, depth, es + more[..j], owner) && pool == PoolOf(es + more[..j])
    {
      var m := set_.messages[j];
      var e := Entry(set_.number, m.number, m.text);
      assert more[j] == e;
      ghost var done := es + more[..j];
      assert done + [e] == es + more[..j + 1];
      PrefixKeyed(all, done, e, size);
      PoolNext(done, e);
      pool, owner := StoreEntry(table, pool, size, depth, e, done, owner);
    }
    assert more[..|more|] == more;
  }

  /** What a proper prefix of the entries inherits from all of them. */
  lemma PrefixKeyed(all: seq<Entry>, done: seq<Entry>, e: Entry, size: nat)
    requires Keyed(all) && done + [e] <= all && size >= 1
    ensures e.set_ >= 1 && e.number >= 1 && forall i :: 0 <= i < |done| ==> done[i].set_ >= 1
    ensures Count(done, size, Hash(e, size)) < Count(all, size, Hash(e, size))
  {
    hide Count, Hash;
    var more, rest := done + [e], all[|done| + 1..];
    assert all[|done|] == more[|done|];
    assert forall i :: 0 <= i < |done| ==> done[i] == more[i] == all[i];
    assert all == more + rest;
    CountNext(done, e, size, Hash(e, size));
    CountPrefix(more, rest, size, Hash(e, size));
  }
}
