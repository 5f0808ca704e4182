/** gencat's search for the smallest hash table. */
module CatalogSize {
  import opened MessageLists
  import opened CatalogTable

  const UINT_MAX := 4294967295

  /** The largest bucket among the first b. */
  function MaxLoad(es: seq<Entry>, size: nat, b: nat): (m: nat)
    requires size >= 1
    ensures forall h :: 0 <= h < b ==> Count(es, size, h) <= m
  {
    if b == 0 then 0
    else if Count(es, size, b - 1) > MaxLoad(es, size, b - 1) then Count(es, size, b - 1)
    else MaxLoad(es, size, b - 1)
  }

  lemma {:induction false} MaxLoadAttained(es: seq<Entry>, size: nat, b: nat) returns (h: nat)
    requires size >= 1 && MaxLoad(es, size, b) > 0
    ensures h < b && Count(es, size, h) == MaxLoad(es, size, b)
  {
    if Count(es, size, b - 1) > MaxLoad(es, size, b - 1) {
      h := b - 1;
    } else {
      h := MaxLoadAttained(es, size, b - 1);
    }
  }

  /** Planes needed with this table size; an empty table still has one. */
  function Depth(es: seq<Entry>, size: nat): (d: nat)
    requires size >= 1
    ensures d >= 1
  {
    if MaxLoad(es, size, size) > 1 then MaxLoad(es, size, size) else 1
  }

  function Cost(es: seq<Entry>, size: nat): (c: nat)
    requires size >= 1
  {
    Depth(es, size) * size
  }

  lemma CostAtLeastSize(es: seq<Entry>, size: nat)
    requires size >= 1
    ensures Cost(es, size) >= size
  {
    assert Depth(es, size) * size == size + (Depth(es, size) - 1) * size;
  }

  lemma DepthIs(es: seq<Entry>, size: nat, d: nat, top: nat)
    requires size >= 1 && d >= 1
    requires forall h :: 0 <= h < size ==> Count(es, size, h) <= d
    requires d == 1 || (top < size && Count(es, size, top) == d)
    ensures Depth(es, size) == d
  {
    if MaxLoad(es, size, size) > 1 {
      var h := MaxLoadAttained(es, size, size);
    }
  }

  lemma DepthAtLeast(es: seq<Entry>, size: nat, h: nat)
    requires size >= 1 && h < size
    ensures Count(es, size, h) <= Depth(es, size)
  {
  }

  /** Best among all sizes from `start` up: least cost, and the largest size of
      that cost. */
  ghost predicate Best(es: seq<Entry>, start: nat, size: nat) {
    1 <= start <= size
    && forall s :: s >= start ==> Cost(es, s) > Cost(es, size) || (Cost(es, s) == Cost(es, size) && s <= size)
  }

  /** So no size from the start up has a smaller table, and no larger size one as small. */
  lemma BestMeans(es: seq<Entry>, start: nat, size: nat, other: nat)
    requires Best(es, start, size) && other >= start
    ensures Depth(es, size) * size <= Depth(es, other) * other
    ensures other > size ==> Depth(es, size) * size < Depth(es, other) * other
  {
    hide Depth;
    assert Cost(es, other) == Depth(es, other) * other && Cost(es, size) == Depth(es, size) * size;
  }

  /** The best size is one the search can find: its table has at most UINT_MAX slots,
      and it is not UINT_MAX itself. */
  ghost predicate InRange(es: seq<Entry>, start: nat) {
    exists b: nat :: Best(es, start, b) && Cost(es, b) <= UINT_MAX && b != UINT_MAX
  }

  // ----- Measuring one size -----

  /** `deep` counts the prefix, and `depth` is its largest count. */
  ghost predicate Counted(deep: array<nat>, depth: nat, es: seq<Entry>, size: nat)
    requires size >= 1
    reads deep
  {
    && deep.Length == size && depth >= 1
    && (forall h :: 0 <= h < size ==> deep[h] == Count(es, size, h) && deep[h] <= depth)
    && (depth == 1 || exists h :: 0 <= h < size && deep[h] == depth)
  }

  /** After a break some entries are uncounted; `deep` is then only a lower bound. */
  ghost predicate Under(deep: array<nat>, depth: nat, es: seq<Entry>, size: nat)
    requires size >= 1
    reads deep
  {
    && deep.Length == size && 1 <= depth
    && (forall h :: 0 <= h < size ==> deep[h] <= Count(es, size, h))
    && (depth == 1 || exists h :: 0 <= h < size && depth <= deep[h])
  }

  /** The state between two messages: exact, or given up because the cost so far
      is already too high. */
  ghost predicate Measured(deep: array<nat>, depth: nat, es: seq<Entry>, size: nat, best: nat)
    requires size >= 1
    reads deep
  {
    Counted(deep, depth, es, size) || (Under(deep, depth, es, size) && depth * size > best)
  }

  lemma UnderIsBelow(deep: array<nat>, depth: nat, es: seq<Entry>, size: nat)
    requires size >= 1 && Under(deep, depth, es, size)
    ensures depth <= Depth(es, size)
  {
    if depth > 1 {
      var h :| 0 <= h < size && depth <= deep[h];
      DepthAtLeast(es, size, h);
    }
  }

  lemma MulMono(a: nat, b: nat, c: nat)
    requires a <= b
    ensures a * c <= b * c
  {
  }

  lemma UnderMore(deep: array<nat>, depth: nat, es: seq<Entry>, more: seq<Entry>, size: nat)
    requires size >= 1 && Under(deep, depth, es, size)
    ensures Under(deep, depth, es + more, size)
  {
    forall h | 0 <= h < size
      ensures deep[h] <= Count(es + more, size, h)
    {
      CountPrefix(es, more, size, h);
    }
  }

  /** One message: `++deep[idx]`, and give up if this makes the cost too high. */
  method CountOne(deep: array<nat>, depth: nat, e: Entry, size: nat, best: nat, ghost es: seq<Entry>)
    returns (depth': nat, stop: bool)
    requires size >= 1 && deep.Length == size && Measured(deep, depth, es, size, best)
    modifies deep
    ensures Measured(deep, depth', es + [e], size, best)
    ensures stop ==> Under(deep, depth', es + [e], size) && depth' * size > best
  {
    ghost var exact := Counted(deep, depth, es, size);
    ghost var top := if depth > 1 then Largest(deep, depth) else 0;
    var idx := e.number * e.set_ % size;
    assert idx == Hash(e, size);
    forall h | 0 <= h < size
      ensures Count(es + [e], size, h) == Count(es, size, h) + if h == idx then 1 else 0
    {
      CountNext(es, e, size, h);
    }
    hide Count;
    deep[idx] := deep[idx] + 1;
    depth' := depth;
    stop := false;
    if deep[idx] > depth' {
      depth' := deep[idx];
      MulMono(depth, depth', size);
      if depth' * size > best {
        stop := true;
      }
    }
    assert depth' == 1 || depth' <= deep[idx] || depth' <= deep[top];
    assert exact ==> depth' == 1 || depth' == deep[idx] || depth' == deep[top];
  }

  /** Some bucket that reaches the depth. */
  ghost function Largest(deep: array<nat>, depth: nat): (h: nat)
    requires exists h :: 0 <= h < deep.Length && depth <= deep[h]
    reads deep
    ensures h < deep.Length && depth <= deep[h]
  {
    var h :| 0 <= h < deep.Length && depth <= deep[h];
    h
  }

  /** The loops over sets and messages for one table size.  The break leaves the
      messages of one set only; the walk goes on with the next set. */
  method Measure(sets: seq<MsgSet>, size: nat, best: nat) returns (depth: nat)
    requires size >= 1
    ensures depth * size <= best <==> Cost(Flat(sets), size) <= best
    ensures depth * size <= best ==> depth == Depth(Flat(sets), size)
  {
    var deep := new nat[size](_ => 0);
    depth := 1;
    for i := 0 to |sets|
      invariant Measured(deep, depth, Flat(sets[..i]), size, best)
    {
      depth := MeasureSet(deep, depth, sets[i], size, best, Flat(sets[..i]));
      FlatNext(sets, i);
    }
    assert sets[..|sets|] == sets;
    MeasuredCost(deep, depth, Flat(sets), size, best);
  }

  lemma MeasuredCost(deep: array<nat>, depth: nat, es: seq<Entry>, size: nat, best: nat)
    requires size >= 1 && Measured(deep, depth, es, size, best)
    ensures depth * size <= best <==> Cost(es, size) <= best
    ensures depth * size <= best ==> depth == Depth(es, size)
  {
    if Counted(deep, depth, es, size) {
      var top := if depth > 1 then Largest(deep, depth) else 0;
      DepthIs(es, size, depth, top);
    } else {
      UnderIsBelow(deep, depth, es, size);
      MulMono(depth, Depth(es, size), size);
    }
  }

  method MeasureSet(deep: array<nat>, depth0: nat, set_: MsgSet, size: nat, best: nat, ghost es: seq<Entry>)
    returns (depth: nat)
    requires size >= 1 && deep.Length == size && Measured(deep, depth0, es, size, best)
    modifies deep
    ensures Measured(deep, depth, es + OfSet(set_), size, best)
  {
    hide Measured, Under, Counted;
    ghost var all := OfSet(set_);
    depth := depth0;
    assert es + all[..0] == es;
    for j := 0 to |set_.messages|
      invariant Measured(deep, depth, es + all[..j], size, best)
    {
      var stop;
      depth, stop := CountOne(deep, depth, Entry(set_.number, set_.messages[j].number, set_.messages[j].text),
                              size, best, es + all[..j]);
      assert es + all[..j] + [all[j]] == es + all[..j + 1];
      if stop {
        UnderMore(deep, depth, es + all[..j + 1], all[j + 1..], size);
        assert es + all[..j + 1] + all[j + 1..] == es + all;
        UnderIsMeasured(deep, depth, es + all, size, best);
        return;
      }
    }
    assert all[..|all|] == all;
  }

  lemma UnderIsMeasured(deep: array<nat>, depth: nat, es: seq<Entry>, size: nat, best: nat)
    requires size >= 1 && Under(deep, depth, es, size) && depth * size > best
    ensures Measured(deep, depth, es, size, best)
  {
  }

  // ----- The search -----

  /** No size in start..stop costs less than best; those that cost as much are
      not larger than `size`. */
  ghost predicate SearchedTo(es: seq<Entry>, start: nat, stop: nat, best: nat, size: nat) {
    1 <= start && forall s :: start <= s < stop ==> Cost(es, s) > best || (Cost(es, s) == best && s <= size)
  }

  /** The sizes found so far: the initial UINT_MAX placeholders, or a real size. */
  ghost predicate Candidate(es: seq<Entry>, start: nat, stop: nat, best: nat, size: nat, depth: nat)
    requires start >= 1
  {
    (best == UINT_MAX && size == UINT_MAX && forall s :: start <= s < stop ==> Cost(es, s) > UINT_MAX)
    || (start <= size < stop && Cost(es, size) == best && best <= UINT_MAX && depth == Depth(es, size))
  }

  /** The search of write_out.  Whatever size is best overall is found, early
      exits and shrinking bound notwithstanding, as long as its table has at most
      UINT_MAX slots and it is not UINT_MAX itself, which the code takes for "none
      found"; in that case, and only then, it falls back to one slot. */
  method FindSize(sets: seq<MsgSet>, totalMessages: nat) returns (size: nat, depth: nat)
    ensures size >= 1 && depth >= 1
    ensures forall b ::
            Best(Flat(sets), 1 + totalMessages / 5, b) && Cost(Flat(sets), b) <= UINT_MAX && b != UINT_MAX ==>
              size == b && depth == Depth(Flat(sets), b)
    ensures (forall b ::
               Best(Flat(sets), 1 + totalMessages / 5, b) ==>
               Cost(Flat(sets), b) > UINT_MAX || b == UINT_MAX) ==>
              size == 1 && depth == 1
  {
    hide Cost, Flat, Depth;
    ghost var es := Flat(sets);
    ghost var start := 1 + totalMessages / 5;
    var bestTotal: nat, bestSize: nat, bestDepth: nat := UINT_MAX, UINT_MAX, UINT_MAX;
    var actSize := 1 + totalMessages / 5;
    while actSize <= bestTotal
      invariant start <= actSize && bestTotal <= UINT_MAX
      invariant SearchedTo(es, start, actSize, bestTotal, bestSize)
      invariant Candidate(es, start, actSize, bestTotal, bestSize, bestDepth)
      decreases bestTotal - actSize
    {
      var actDepth := Measure(sets, actSize, bestTotal);
      CostIs(es, actSize);
      if actDepth * actSize <= bestTotal {
        bestTotal := actDepth * actSize;
        bestSize := actSize;
        bestDepth := actDepth;
      }
      actSize := actSize + 1;
    }
    SearchDone(es, start, actSize, bestTotal, bestSize, bestDepth);
    if bestSize == UINT_MAX {
      bestSize := 1;
      bestDepth := 1;
    }
    size, depth := bestSize, bestDepth;
  }

  lemma CostIs(es: seq<Entry>, size: nat)
    requires size >= 1
    ensures Cost(es, size) == Depth(es, size) * size >= size
  {
    CostAtLeastSize(es, size);
  }

  lemma SearchDone(es: seq<Entry>, start: nat, stop: nat, best: nat, size: nat, depth: nat)
    requires 1 <= start <= stop && best < stop && best <= UINT_MAX
    requires SearchedTo(es, start, stop, best, size) && Candidate(es, start, stop, best, size, depth)
    ensures forall b :: Best(es, start, b) && Cost(es, b) <= UINT_MAX ==>
            b == size && (b != UINT_MAX ==> depth == Depth(es, b))
    ensures start <= size < stop && Cost(es, size) == best ==> Best(es, start, size)
  {
    hide Cost, Depth;
    forall s | s >= stop
      ensures Cost(es, s) > best
    {
      CostIs(es, s);
    }
  }

  // ----- A best size always exists -----

  lemma {:induction false} BestUpTo(es: seq<Entry>, start: nat, stop: nat) returns (b: nat)
    requires 1 <= start <= stop
    ensures start <= b <= stop
    ensures forall s :: start <= s <= stop ==> Cost(es, s) > Cost(es, b) || (Cost(es, s) == Cost(es, b) && s <= b)
    decreases stop - start
  {
    if start == stop {
      b := start;
    } else {
      b := BestUpTo(es, start, stop - 1);
      if Cost(es, stop) <= Cost(es, b) {
        b := stop;
      }
    }
  }

  lemma BestExists(es: seq<Entry>, start: nat) returns (b: nat)
    requires 1 <= start
    ensures Best(es, start, b) && Cost(es, b) <= Cost(es, start)
  {
    hide Cost;
    CostIs(es, start);
    b := BestUpTo(es, start, Cost(es, start));
    forall s | s > Cost(es, start)
      ensures Cost(es, s) > Cost(es, start)
    {
      CostIs(es, s);
    }
  }

  lemma DepthBound(es: seq<Entry>, size: nat)
    requires size >= 1
    ensures Depth(es, size) <= |es| + 1
    ensures forall h :: 0 <= h < size ==> Count(es, size, h) <= Depth(es, size)
  {
    if MaxLoad(es, size, size) > 0 {
      var h := MaxLoadAttained(es, size, size);
    }
  }

  /** With fewer than UINT_MAX slots even at the starting size, the search ends
      at the true optimum, and the table is deep enough for every bucket. */
  lemma SmallCatalog(es: seq<Entry>, start: nat) returns (b: nat)
    requires 1 <= start && start * (|es| + 1) < UINT_MAX
    ensures Best(es, start, b) && Cost(es, b) < UINT_MAX && b != UINT_MAX && InRange(es, start)
    ensures forall h :: 0 <= h < b ==> Count(es, b, h) <= Depth(es, b)
  {
    hide Depth, Cost;
    b := BestExists(es, start);
    DepthBound(es, start);
    DepthBound(es, b);
    CostIs(es, start);
    CostIs(es, b);
    MulMono(Depth(es, start), |es| + 1, start);
  }

  /** The two ways to miss the optimum: with so many messages counted, refused ones
      included, every size is too large; or the best size is the number that stands
      for "none found". */
  lemma TooLarge(es: seq<Entry>)
    ensures !InRange(es, 1 + (5 * UINT_MAX) / 5)
  {
    forall b: nat | Best(es, 1 + UINT_MAX, b)
      ensures Cost(es, b) > UINT_MAX
    {
      CostIs(es, b);
    }
  }

  lemma TakenForNone(e: Entry)
    ensures Best([e], 1 + (5 * (UINT_MAX - 1)) / 5, UINT_MAX) && Cost([e], UINT_MAX) == UINT_MAX
    ensures !InRange([e], 1 + (5 * (UINT_MAX - 1)) / 5)
  {
    forall s: nat | s >= 1
      ensures Cost([e], s) == s
    {
      OneDeep(e, s);
    }
    hide Cost;
    assert 1 + (5 * (UINT_MAX - 1)) / 5 == UINT_MAX;
  }

  lemma OneDeep(e: Entry, s: nat)
    requires s >= 1
    ensures Depth([e], s) == 1 && Cost([e], s) == s
  {
    if MaxLoad([e], s, s) > 1 {
      var h := MaxLoadAttained([e], s, s);
    }
  }
}
