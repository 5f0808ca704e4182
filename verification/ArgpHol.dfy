/** argp-help.c's list of options for help, and its agreement with the parser on
    who owns a short option. */
module ArgpHol {
  import opened Options
  import opened ArgpTree
  import opened ArgpConvert
  import opened ArgpTables
  import opened ArgpOwners

  /** struct hol_entry: an option with its aliases, where its characters start in the
      list's short option string, and its argp, given by its place in preorder. */
  datatype Entry = Entry(opts: seq<Opt>, start: nat, node: nat)

  datatype Hol = Hol(entries: seq<Entry>, shortOptions: seq<int>)

  // ----- Short keys in order of first appearance -----

  function Keys(os: seq<Opt>): (ks: seq<int>)
    ensures |ks| <= |os|
  {
    if os == [] then []
    else
      var before, o := Keys(os[..|os| - 1]), os[|os| - 1];
      if IsShort(o) && o.key !in before then before + [o.key] else before
  }

  /** The option at position p is the first with its short key. */
  predicate First(os: seq<Opt>, p: nat)
    requires p < |os|
  {
    IsShort(os[p]) && forall q :: 0 <= q < p && IsShort(os[q]) ==> os[q].key != os[p].key
  }

  lemma KeysNext(os: seq<Opt>, o: Opt)
    ensures Keys(os + [o]) == if IsShort(o) && o.key !in Keys(os) then Keys(os) + [o.key] else Keys(os)
  {
    assert (os + [o])[..|os|] == os;
  }

  lemma {:induction false} KeysContain(os: seq<Opt>, c: int)
    ensures c in Keys(os) <==> exists q :: 0 <= q < |os| && IsShort(os[q]) && os[q].key == c
  {
    if os != [] {
      KeysContain(os[..|os| - 1], c);
    }
  }

  lemma {:induction false} KeysDistinct(os: seq<Opt>)
    ensures forall i, j :: 0 <= i < j < |Keys(os)| ==> Keys(os)[i] != Keys(os)[j]
  {
    if os != [] {
      KeysDistinct(os[..|os| - 1]);
    }
  }

  lemma {:induction false} KeysPrefix(a: seq<Opt>, b: seq<Opt>)
    ensures Keys(a) <= Keys(a + b)
  {
    if b == [] {
      assert a + b == a;
    } else {
      hide Keys;
      KeysPrefix(a, b[..|b| - 1]);
      assert a + b == a + b[..|b| - 1] + [b[|b| - 1]];
      KeysNext(a + b[..|b| - 1], b[|b| - 1]);
    }
  }

  lemma FirstIsNew(os: seq<Opt>, p: nat)
    requires p < |os|
    ensures First(os, p) <==> IsShort(os[p]) && os[p].key !in Keys(os[..p])
  {
    hide IsShort, Keys;
    KeysContain(os[..p], os[p].key);
    assert forall q :: 0 <= q < p ==> os[..p][q] == os[q];
  }

  lemma KeysOfPrefix(os: seq<Opt>, p: nat)
    requires p <= |os|
    ensures Keys(os[..p]) <= Keys(os)
  {
    hide Keys;
    var front, rest := os[..p], os[p..];
    assert front + rest == os;
    KeysPrefix(front, rest);
  }

  lemma KeysStep(os: seq<Opt>, p: nat)
    requires p < |os|
    ensures Keys(os[..p + 1]) == Keys(os[..p]) + if First(os, p) then [os[p].key] else []
  {
    hide IsShort, Keys, First;
    FirstIsNew(os, p);
    KeysNext(os[..p], os[p]);
    assert os[..p] + [os[p]] == os[..p + 1];
    if First(os, p) {
      assert Keys(os[..p + 1]) == Keys(os[..p]) + [os[p].key];
    } else {
      assert Keys(os[..p + 1]) == Keys(os[..p]);
    }
  }

  /** Standing at position p with the pointer after the keys of what came before,
      the next character is the option's key exactly if the option is the first
      with that key. */
  lemma Scan(os: seq<Opt>, p: nat)
    requires p < |os|
    ensures IsShort(os[p]) && Next(Keys(os), |Keys(os[..p])|) == os[p].key <==> First(os, p)
    ensures |Keys(os[..p + 1])| == |Keys(os[..p])| + if First(os, p) then 1 else 0
  {
    hide IsShort, Keys, First;
    KeysStep(os, p);
    KeysOfPrefix(os, p);
    FirstIsNew(os, p);
    if First(os, p) {
      KeysOfPrefix(os, p + 1);
      NextOfPrefix(Keys(os[..p]), os[p].key, Keys(os));
    } else if IsShort(os[p]) {
      KeysDistinct(os);
      ShortPositive(os[p]);
      NextIsOther(Keys(os[..p]), os[p].key, Keys(os));
    }
  }

  lemma NextOfPrefix(s: seq<int>, c: int, all: seq<int>)
    requires s + [c] <= all
    ensures Next(all, |s|) == c
  {
    assert (s + [c])[|s|] == c;
  }

  lemma NextIsOther(s: seq<int>, c: int, all: seq<int>)
    requires s <= all && c in s && c > 0
    requires forall i, j :: 0 <= i < j < |all| ==> all[i] != all[j]
    ensures Next(all, |s|) != c
  {
    var j :| 0 <= j < |s| && s[j] == c;
    assert all[j] == c;
  }

  lemma ShortPositive(o: Opt)
    ensures IsShort(o) ==> o.key > 0
  {
  }

  /** The character a pointer sees: the terminating NUL at the end. */
  function Next(s: seq<int>, k: nat): int {
    if k < |s| then s[k] else 0
  }

  // ----- Consistent lists -----

  function Flat(es: seq<Entry>): seq<Opt> {
    if es == [] then [] else Flat(es[..|es| - 1]) + es[|es| - 1].opts
  }

  function Times(n: nat, x: nat): (r: seq<nat>)
    ensures |r| == n && forall k :: 0 <= k < n ==> r[k] == x
  {
    seq(n, _ => x)
  }

  /** The place in preorder of the argp each option of the flat list comes from. */
  function FlatOwners(es: seq<Entry>): (r: seq<nat>)
    ensures |r| == |Flat(es)|
  {
    if es == [] then [] else FlatOwners(es[..|es| - 1]) + Times(|es[|es| - 1].opts|, es[|es| - 1].node)
  }

  lemma FlatNext(es: seq<Entry>, e: Entry)
    ensures Flat(es + [e]) == Flat(es) + e.opts
    ensures FlatOwners(es + [e]) == FlatOwners(es) + Times(|e.opts|, e.node)
  {
    assert (es + [e])[..|es|] == es;
  }

  lemma Regroup<T>(a: seq<T>, b: seq<T>, c: seq<T>, bc: seq<T>)
    requires b + c == bc
    ensures a + b + c == a + bc
  {
  }

  lemma {:induction false} FlatConcat(a: seq<Entry>, b: seq<Entry>)
    ensures Flat(a + b) == Flat(a) + Flat(b)
    ensures FlatOwners(a + b) == FlatOwners(a) + FlatOwners(b)
  {
    if b == [] {
      assert a + b == a;
    } else {
      hide Flat, FlatOwners, Times;
      var front, last := b[..|b| - 1], b[|b| - 1];
      FlatConcat(a, front);
      FlatNext(a + front, last);
      FlatNext(front, last);
      Regroup(a, front, [last], b);
      Regroup(Flat(a), Flat(front), last.opts, Flat(b));
      Regroup(FlatOwners(a), FlatOwners(front), Times(|last.opts|, last.node), FlatOwners(b));
    }
  }

  predicate StartsRight(es: seq<Entry>) {
    forall i :: 0 <= i < |es| ==> es[i].start == |Keys(Flat(es[..i]))|
  }

  /** The string is the list's short keys in order of first appearance, and every
      entry starts after the keys of the entries before it. */
  predicate Consistent(h: Hol, all: seq<Opt>, owners: seq<nat>) {
    && Flat(h.entries) == all && FlatOwners(h.entries) == owners
    && h.shortOptions == Keys(all) && StartsRight(h.entries)
  }

  // ----- make_hol -----

  /** make_hol: the entries of one argp.  The first option must not be an alias. */
  method MakeHol(argp: Argp, at: nat) returns (h: Hol)
    requires Opts(argp) != [] ==> !Opts(argp)[0].alias
    ensures Consistent(h, Opts(argp), Times(|Opts(argp)|, at))
  {
    hide IsShort, Consistent, Keys;
    h := Hol([], []);
    var opts := Opts(argp);
    var o := 0;
    NothingConsistent(opts, at);
    while o < |opts|
      invariant o <= |opts|
      invariant Consistent(h, opts[..o], Times(o, at))
    {
      ConsistentKeys(h, opts[..o], Times(o, at));
      var first, start := o, |h.shortOptions|;
      var so := h.shortOptions;
      so, o := TakeOption(opts, o, so);
      while o < |opts| && opts[o].alias
        invariant first < o <= |opts|
        invariant so == Keys(opts[..o])
      {
        so, o := TakeOption(opts, o, so);
      }
      var e := Entry(opts[first..o], start, at);
      EntryAdded(h, e, opts[..first], Times(first, at));
      assert opts[..first] + opts[first..o] == opts[..o];
      assert Times(first, at) + Times(|e.opts|, e.node) == Times(o, at);
      h := Hol(h.entries + [e], so);
    }
    assert opts[..|opts|] == opts;
  }

  lemma NothingConsistent(opts: seq<Opt>, at: nat)
    ensures Consistent(Hol([], []), opts[..0], Times(0, at))
  {
  }

  lemma ConsistentKeys(h: Hol, all: seq<Opt>, owners: seq<nat>)
    requires Consistent(h, all, owners)
    ensures h.shortOptions == Keys(all)
  {
  }

  method TakeOption(opts: seq<Opt>, o: nat, so: seq<int>) returns (so': seq<int>, next: nat)
    requires o < |opts| && so == Keys(opts[..o])
    ensures next == o + 1 && so' == Keys(opts[..o + 1])
  {
    assert opts[..o + 1] == opts[..o] + [opts[o]];
    KeysNext(opts[..o], opts[o]);
    so' := if IsShort(opts[o]) && opts[o].key !in so then so + [opts[o].key] else so;
    next := o + 1;
  }

  lemma EntryAdded(h: Hol, e: Entry, all: seq<Opt>, owners: seq<nat>)
    requires Consistent(h, all, owners) && e.start == |Keys(all)|
    ensures Consistent(Hol(h.entries + [e], Keys(all + e.opts)), all + e.opts, owners + Times(|e.opts|, e.node))
  {
    var es := h.entries + [e];
    FlatNext(h.entries, e);
    forall i | 0 <= i < |es|
      ensures es[i].start == |Keys(Flat(es[..i]))|
    {
      assert es[..i] == h.entries[..i];
      if i == |h.entries| {
        assert h.entries[..i] == h.entries;
      }
    }
  }

  // ----- hol_append -----

  /** Appends `more` to `hol`, keeping only characters hol does not have. */
  method HolAppend(hol: Hol, more: Hol, ghost a: seq<Opt>, ghost oa: seq<nat>, ghost b: seq<Opt>, ghost ob: seq<nat>)
    returns (r: Hol)
    requires Consistent(hol, a, oa) && Consistent(more, b, ob)
    ensures Consistent(r, a + b, oa + ob)
  {
    hide IsShort, Keys, Flat, FlatOwners;
    if |more.entries| == 0 {
      NoEntries(more, b, ob);
      assert a + b == a && oa + ob == oa;
      return hol;
    }
    if |hol.entries| == 0 {
      NoEntries(hol, a, oa);
      assert a + b == b && oa + ob == ob;
      return more;
    }
    var entries := hol.entries;
    var so := hol.shortOptions;
    var moreSo := 0;
    StartMerge(hol, a, oa, b);
    for i := 0 to |more.entries|
      invariant Merging(more, i, a, oa, entries, so, moreSo)
    {
      var e := more.entries[i];
      EntryInPlace(more, b, i);
      ghost var done := Flat(more.entries[..i]);
      var start := |so|;
      assert e.opts[..0] == [] && done + [] == done && a + done + [] == a + done;
      for j := 0 to |e.opts|
        invariant moreSo == |Keys(done + e.opts[..j])|
        invariant so == Keys(a + done + e.opts[..j])
      {
        var opt := e.opts[j];
        var ch := Next(more.shortOptions, moreSo);
        ScanEntry(more, b, i, j);
        MergeKey(a, done, e.opts, j);
        if IsShort(opt) && ch == opt.key {
          if ch !in hol.shortOptions {
            so := so + [ch];
          }
          moreSo := moreSo + 1;
        }
      }
      entries := entries + [e.(start := start)];
      NextMerge(more, i, a, oa, entries[..|entries| - 1], start, so, moreSo);
    }
    EndMerge(more, a, oa, b, ob, entries, so, moreSo);
    r := Hol(entries, so);
  }

  lemma NoEntries(h: Hol, all: seq<Opt>, owners: seq<nat>)
    requires Consistent(h, all, owners) && h.entries == []
    ensures all == [] && owners == []
  {
  }

  /** The first i entries of `more` have been appended. */
  ghost predicate Merging(more: Hol, i: nat, a: seq<Opt>, oa: seq<nat>, entries: seq<Entry>, so: seq<int>, moreSo: nat)
    requires i <= |more.entries|
  {
    && moreSo == |Keys(Flat(more.entries[..i]))|
    && Consistent(Hol(entries, so), a + Flat(more.entries[..i]), oa + FlatOwners(more.entries[..i]))
  }

  lemma StartMerge(hol: Hol, a: seq<Opt>, oa: seq<nat>, b: seq<Opt>)
    requires Consistent(hol, a, oa)
    ensures forall more: Hol :: Merging(more, 0, a, oa, hol.entries, hol.shortOptions, 0)
  {
    forall more: Hol
      ensures Merging(more, 0, a, oa, hol.entries, hol.shortOptions, 0)
    {
      assert more.entries[..0] == [];
      assert a + [] == a && oa + [] == oa;
    }
  }

  lemma EntryInPlace(more: Hol, b: seq<Opt>, i: nat)
    requires i < |more.entries| && Flat(more.entries) == b
    ensures Flat(more.entries[..i + 1]) == Flat(more.entries[..i]) + more.entries[i].opts
    ensures FlatOwners(more.entries[..i + 1])
            == FlatOwners(more.entries[..i]) + Times(|more.entries[i].opts|, more.entries[i].node)
    ensures Flat(more.entries[..i + 1]) <= b
  {
    hide Flat, FlatOwners, Times;
    assert more.entries[..i + 1] == more.entries[..i] + [more.entries[i]];
    FlatNext(more.entries[..i], more.entries[i]);
    FlatConcat(more.entries[..i + 1], more.entries[i + 1..]);
    assert more.entries == more.entries[..i + 1] + more.entries[i + 1..];
  }

  lemma ScanEntry(more: Hol, b: seq<Opt>, i: nat, j: nat)
    requires i < |more.entries| && j < |more.entries[i].opts|
    requires Flat(more.entries) == b && more.shortOptions == Keys(b)
    ensures var done, opts := Flat(more.entries[..i]), more.entries[i].opts;
            IsShort(opts[j]) && Next(more.shortOptions, |Keys(done + opts[..j])|) == opts[j].key
            <==> IsShort(opts[j]) && opts[j].key !in Keys(done + opts[..j])
  {
    hide IsShort, Keys, Next;
    var done, opts := Flat(more.entries[..i]), more.entries[i].opts;
    EntryInPlace(more, b, i);
    var p := |done| + j;
    assert b[..p] == done + opts[..j] && b[p] == opts[j];
    Scan(b, p);
    FirstIsNew(b, p);
  }

  lemma MergeKey(a: seq<Opt>, done: seq<Opt>, opts: seq<Opt>, j: nat)
    requires j < |opts|
    ensures Keys(done + opts[..j + 1])
         == if IsShort(opts[j]) && opts[j].key !in Keys(done + opts[..j]) then Keys(done + opts[..j]) + [opts[j].key]
            else Keys(done + opts[..j])
    ensures Keys(a + done + opts[..j + 1])
         == if IsShort(opts[j]) && opts[j].key !in Keys(done + opts[..j]) && opts[j].key !in Keys(a)
            then Keys(a + done + opts[..j]) + [opts[j].key] else Keys(a + done + opts[..j])
  {
    hide IsShort, Keys;
    var o := opts[j];
    assert done + opts[..j + 1] == done + opts[..j] + [o];
    assert a + done + opts[..j + 1] == a + done + opts[..j] + [o];
    KeysNext(done + opts[..j], o);
    KeysNext(a + done + opts[..j], o);
    assert a + done + opts[..j] == a + (done + opts[..j]);
    KeysUnion(a, done + opts[..j], o.key);
  }

  lemma KeysUnion(a: seq<Opt>, b: seq<Opt>, c: int)
    ensures c in Keys(a + b) <==> c in Keys(a) || c in Keys(b)
  {
    hide IsShort, Keys;
    KeysContain(a, c);
    KeysContain(b, c);
    KeysContain(a + b, c);
    var ab := a + b;
    if q :| 0 <= q < |b| && IsShort(b[q]) && b[q].key == c {
      assert ab[|a| + q] == b[q];
    }
    if q :| 0 <= q < |a| && IsShort(a[q]) && a[q].key == c {
      assert ab[q] == a[q];
    }
    if q :| 0 <= q < |ab| && IsShort(ab[q]) && ab[q].key == c {
      assert if q < |a| then ab[q] == a[q] else ab[q] == b[q - |a|];
    }
  }

  lemma NextMerge(more: Hol, i: nat, a: seq<Opt>, oa: seq<nat>, entries: seq<Entry>, start: nat, so: seq<int>,
                  moreSo: nat)
    requires i < |more.entries|
    requires Consistent(Hol(entries, Keys(a + Flat(more.entries[..i]))), a + Flat(more.entries[..i]),
                        oa + FlatOwners(more.entries[..i]))
    requires start == |Keys(a + Flat(more.entries[..i]))|
    requires moreSo == |Keys(Flat(more.entries[..i]) + more.entries[i].opts[..|more.entries[i].opts|])|
    requires so == Keys(a + Flat(more.entries[..i]) + more.entries[i].opts[..|more.entries[i].opts|])
    ensures Merging(more, i + 1, a, oa, entries + [more.entries[i].(start := start)], so, moreSo)
  {
    hide Keys, Consistent, Flat, FlatOwners;
    var e := more.entries[i].(start := start);
    var done, dones := Flat(more.entries[..i]), FlatOwners(more.entries[..i]);
    assert e.opts[..|e.opts|] == e.opts;
    assert more.entries[..i + 1] == more.entries[..i] + [more.entries[i]];
    FlatNext(more.entries[..i], more.entries[i]);
    EntryAdded(Hol(entries, Keys(a + done)), e, a + done, oa + dones);
    assert a + done + e.opts == a + (done + e.opts);
    var own := Times(|e.opts|, e.node);
    assert own == Times(|more.entries[i].opts|, more.entries[i].node);
    assert oa + dones + own == oa + (dones + own);
  }

  lemma EndMerge(more: Hol, a: seq<Opt>, oa: seq<nat>, b: seq<Opt>, ob: seq<nat>, entries: seq<Entry>, so: seq<int>,
                 moreSo: nat)
    requires Merging(more, |more.entries|, a, oa, entries, so, moreSo) && Consistent(more, b, ob)
    ensures Consistent(Hol(entries, so), a + b, oa + ob)
  {
    assert more.entries[..|more.entries|] == more.entries;
  }

  // ----- argp_hol -----

  /** All options of some argps, and the places of the argps, which start at `at`. */
  function AllOpts(nodes: seq<Argp>): seq<Opt> {
    if nodes == [] then [] else Opts(nodes[0]) + AllOpts(nodes[1..])
  }

  function AllOwners(nodes: seq<Argp>, at: nat): (r: seq<nat>)
    ensures |r| == |AllOpts(nodes)|
  {
    if nodes == [] then [] else Times(|Opts(nodes[0])|, at) + AllOwners(nodes[1..], at + 1)
  }

  lemma AllNext(nodes: seq<Argp>, at: nat)
    requires nodes != []
    ensures AllOpts(nodes) == Opts(nodes[0]) + AllOpts(nodes[1..])
    ensures AllOwners(nodes, at) == Times(|Opts(nodes[0])|, at) + AllOwners(nodes[1..], at + 1)
  {
  }

  lemma {:induction false} AllConcat(a: seq<Argp>, b: seq<Argp>, at: nat)
    ensures AllOpts(a + b) == AllOpts(a) + AllOpts(b)
    ensures AllOwners(a + b, at) == AllOwners(a, at) + AllOwners(b, at + |a|)
  {
    if a == [] {
      assert a + b == b;
    } else {
      hide AllOpts, AllOwners, Opts, Times;
      var rest := a[1..] + b;
      assert (a + b)[1..] == rest && (a + b)[0] == a[0];
      AllConcat(a[1..], b, at + 1);
      AllNext(a, at);
      AllNext(a + b, at);
      Regroup(Opts(a[0]), AllOpts(a[1..]), AllOpts(b), AllOpts(rest));
      Regroup(Times(|Opts(a[0])|, at), AllOwners(a[1..], at + 1), AllOwners(b, at + |a|), AllOwners(rest, at + 1));
    }
  }

  /** What make_hol asserts of every argp: its first option is not an alias. */
  predicate WellHeaded(nodes: seq<Argp>) {
    forall k :: 0 <= k < |nodes| && Opts(nodes[k]) != [] ==> !Opts(nodes[k])[0].alias
  }

  /** argp_hol, for the argp at place `at`; `next` is the place after its subtree. */
  method ArgpHolOf(argp: Argp, at: nat) returns (h: Hol, next: nat)
    requires WellHeaded(Preorder(argp))
    ensures Consistent(h, AllOpts(Preorder(argp)), AllOwners(Preorder(argp), at))
    ensures next == at + |Preorder(argp)|
    decreases argp
  {
    hide Consistent, AllOpts, AllOwners, Opts;
    h := MakeHol(argp, at);
    next := at + 1;
    ghost var nodes := [argp];
    AllOfOne(argp, at);
    for i := 0 to |argp.children|
      invariant Consistent(h, AllOpts(nodes), AllOwners(nodes, at)) && next == at + |nodes|
      invariant nodes + PreorderAll(argp.children[i..]) == Preorder(argp)
    {
      ghost var below := Preorder(argp.children[i]);
      assert argp.children[i..][1..] == argp.children[i + 1..];
      HeadedPart(nodes, below, PreorderAll(argp.children[i + 1..]));
      Regroup(nodes, below, PreorderAll(argp.children[i + 1..]), below + PreorderAll(argp.children[i + 1..]));
      var more, after := ArgpHolOf(argp.children[i], next);
      h := HolAppend(h, more, AllOpts(nodes), AllOwners(nodes, at), AllOpts(below), AllOwners(below, next));
      AllConcat(nodes, below, at);
      nodes, next := nodes + below, after;
    }
    assert argp.children[|argp.children|..] == [];
    assert nodes == Preorder(argp);
  }

  lemma AllOfOne(argp: Argp, at: nat)
    ensures AllOpts([argp]) == Opts(argp) && AllOwners([argp], at) == Times(|Opts(argp)|, at)
  {
    assert [argp][1..] == [];
  }

  lemma HeadedPart(a: seq<Argp>, b: seq<Argp>, c: seq<Argp>)
    requires WellHeaded(a + (b + c))
    ensures WellHeaded(b)
  {
    assert forall k :: 0 <= k < |b| ==> (a + (b + c))[|a| + k] == b[k];
  }

  // ----- hol_entry_short_iterate -----

  /** Where entry i's options begin in the flat list. */
  function Offset(h: Hol, i: nat): nat
    requires i <= |h.entries|
  {
    |Flat(h.entries[..i])|
  }

  lemma OffsetInside(h: Hol, i: nat, j: nat)
    requires i < |h.entries| && j < |h.entries[i].opts|
    ensures Offset(h, i) + j < |Flat(h.entries)|
    ensures Flat(h.entries)[Offset(h, i) + j] == h.entries[i].opts[j]
    ensures FlatOwners(h.entries)[Offset(h, i) + j] == h.entries[i].node
    ensures Flat(h.entries)[..Offset(h, i) + j] == Flat(h.entries[..i]) + h.entries[i].opts[..j]
  {
    hide Flat, FlatOwners;
    var e, before := h.entries[i], h.entries[..i];
    assert h.entries[..i + 1] == before + [e];
    FlatNext(before, e);
    FlatConcat(before + [e], h.entries[i + 1..]);
    assert h.entries == before + [e] + h.entries[i + 1..];
  }

  /** Option j of entry i is visible and the first with its short key. */
  predicate Shows(h: Hol, i: nat, j: nat, all: seq<Opt>)
    requires i < |h.entries| && j < |h.entries[i].opts|
  {
    !h.entries[i].opts[j].hidden && ShownFirst(h, i, j, all)
  }

  predicate ShownFirst(h: Hol, i: nat, j: nat, all: seq<Opt>)
    requires i < |h.entries|
  {
    Offset(h, i) + j < |all| && First(all, Offset(h, i) + j)
  }

  lemma ShownFirstIs(h: Hol, i: nat, j: nat, all: seq<Opt>)
    requires i < |h.entries| && Offset(h, i) + j < |all|
    ensures ShownFirst(h, i, j, all) <==> First(all, Offset(h, i) + j)
    ensures j < |h.entries[i].opts| ==>
              (Shows(h, i, j, all) <==> !h.entries[i].opts[j].hidden && ShownFirst(h, i, j, all))
  {
  }

  /** The callback was called for options `shown` of entry i, those to be shown among
      its first j, and stopped at the last of them exactly if it returned `val` != 0. */
  ghost predicate Iterated(h: Hol, i: nat, func: Opt -> int, all: seq<Opt>, j: nat, val: int, shown: seq<nat>)
    requires i < |h.entries| && j <= |h.entries[i].opts|
  {
    && (forall k :: 0 <= k < |shown| ==> shown[k] < j && Shows(h, i, shown[k], all))
    && (forall k, l :: 0 <= k < l < |shown| ==> shown[k] < shown[l])
    && (forall k :: 0 <= k < |shown| - 1 ==> func(h.entries[i].opts[shown[k]]) == 0)
    && val == (if shown == [] then 0 else func(h.entries[i].opts[shown[|shown| - 1]]))
    && (forall k: nat :: k < j && Shows(h, i, k, all) ==> k in shown)
    && (val != 0 ==> shown[|shown| - 1] == j - 1)
  }

  lemma NextIterated(h: Hol, i: nat, func: Opt -> int, all: seq<Opt>, j: nat, shown: seq<nat>)
    requires i < |h.entries| && j < |h.entries[i].opts| && Iterated(h, i, func, all, j, 0, shown)
    ensures var o := h.entries[i].opts[j];
            if Shows(h, i, j, all) then Iterated(h, i, func, all, j + 1, func(o), shown + [j])
            else Iterated(h, i, func, all, j + 1, 0, shown)
  {
    hide Shows;
    var longer := shown + [j];
    assert longer[|shown|] == j;
    assert forall k :: 0 <= k < |shown| ==> longer[k] == shown[k];
    if Shows(h, i, j, all) && shown != [] {
      assert func(h.entries[i].opts[shown[|shown| - 1]]) == 0;
    }
  }

  lemma NothingIterated(h: Hol, i: nat, func: Opt -> int, all: seq<Opt>)
    requires i < |h.entries|
    ensures Iterated(h, i, func, all, 0, 0, [])
  {
  }

  lemma AllIterated(h: Hol, i: nat, func: Opt -> int, all: seq<Opt>, j: nat, val: int, shown: seq<nat>)
    requires i < |h.entries| && j <= |h.entries[i].opts| && Iterated(h, i, func, all, j, val, shown)
    requires val == 0 ==> j == |h.entries[i].opts|
    ensures forall k :: 0 <= k < |shown| ==> shown[k] < |h.entries[i].opts| && Shows(h, i, shown[k], all)
    ensures forall k, l :: 0 <= k < l < |shown| ==> shown[k] < shown[l]
    ensures forall k :: 0 <= k < |shown| - 1 ==> func(h.entries[i].opts[shown[k]]) == 0
    ensures val == if shown == [] then 0 else func(h.entries[i].opts[shown[|shown| - 1]])
    ensures forall k: nat :: k < |h.entries[i].opts| && Shows(h, i, k, all) && (val == 0 || k <= shown[|shown| - 1]) ==>
            k in shown
  {
    hide Shows;
  }

  /** The callback is called for the visible options of the entry that are the first
      in the whole list with their short key, in order, until it returns a value that
      is not 0; that value is returned. */
  method ShortIterate(h: Hol, i: nat, func: Opt -> int, ghost all: seq<Opt>, ghost owners: seq<nat>)
    returns (val: int, shown: seq<nat>)
    requires Consistent(h, all, owners) && i < |h.entries|
    ensures forall k :: 0 <= k < |shown| ==> shown[k] < |h.entries[i].opts| && Shows(h, i, shown[k], all)
    ensures forall k, l :: 0 <= k < l < |shown| ==> shown[k] < shown[l]
    ensures forall k :: 0 <= k < |shown| - 1 ==> func(h.entries[i].opts[shown[k]]) == 0
    ensures val == if shown == [] then 0 else func(h.entries[i].opts[shown[|shown| - 1]])
    ensures forall j: nat :: j < |h.entries[i].opts| && Shows(h, i, j, all) && (val == 0 || j <= shown[|shown| - 1]) ==>
            j in shown
  {
    hide IsShort, Keys, Flat, FlatOwners, First, ShownFirst, Shows, Iterated, Next;
    var e := h.entries[i];
    var so := e.start;
    val, shown := 0, [];
    assert e.opts[..0] == [] && Flat(h.entries[..i]) + [] == Flat(h.entries[..i]);
    NothingIterated(h, i, func, all);
    var j := 0;
    while j < |e.opts| && val == 0
      invariant j <= |e.opts| && so == |Keys(Flat(h.entries[..i]) + e.opts[..j])|
      invariant Iterated(h, i, func, all, j, val, shown)
    {
      OffsetInside(h, i, j);
      Scan(all, Offset(h, i) + j);
      ShownFirstIs(h, i, j, all);
      NextIterated(h, i, func, all, j, shown);
      assert all[..Offset(h, i) + j + 1] == Flat(h.entries[..i]) + e.opts[..j + 1];
      if IsShort(e.opts[j]) && Next(h.shortOptions, so) == e.opts[j].key {
        if !e.opts[j].hidden {
          val, shown := func(e.opts[j]), shown + [j];
        }
        so := so + 1;
      }
      j := j + 1;
    }
    AllIterated(h, i, func, all, j, val, shown);
  }

  // ----- Help and parser agree -----

  lemma DeclaresShort(node: Argp, c: int)
    ensures Declares(node, c) ==> exists i :: 0 <= i < |Opts(node)| && IsShort(Opts(node)[i]) && Opts(node)[i].key == c
  {
    hide Real;
    if i :| 0 <= i < |Opts(node)| && IsKey(Opts(node), i, c) {
      assert IsShort(Opts(node)[i]) && Opts(node)[i].key == c;
    }
  }

  /** The owner of the first option with a short key: no argp before it declares the
      key, so it is the first to declare it exactly if it declares it at all. */
  lemma {:induction false} FirstBelongs(nodes: seq<Argp>, at: nat, p: nat)
    requires p < |AllOpts(nodes)| && First(AllOpts(nodes), p)
    ensures var m, c := AllOwners(nodes, at)[p] - at, AllOpts(nodes)[p].key;
            && 0 <= m < |nodes| && AllOpts(nodes)[p] in Opts(nodes[m]) && m <= FirstDeclaring(nodes, c)
            && (Declares(nodes[m], c) <==> m == FirstDeclaring(nodes, c))
  {
    hide IsShort, Declares, Real, AllOpts, AllOwners, Opts, FirstDeclaring;
    NotNone(nodes);
    AllNext(nodes, at);
    FirstDeclaringNext(nodes, AllOpts(nodes)[p].key);
    var c, n := AllOpts(nodes)[p].key, |Opts(nodes[0])|;
    if p < n {
      assert Opts(nodes[0])[p] == AllOpts(nodes)[p];
    } else {
      DeclaresShort(nodes[0], c);
      assert forall q :: 0 <= q < n ==> AllOpts(nodes)[q] == Opts(nodes[0])[q];
      assert !Declares(nodes[0], c);
      FirstTail(nodes, p);
      FirstBelongs(nodes[1..], at + 1, p - n);
    }
  }

  lemma NotNone(nodes: seq<Argp>)
    ensures AllOpts(nodes) != [] ==> nodes != []
  {
  }

  lemma FirstDeclaringNext(nodes: seq<Argp>, c: int)
    requires nodes != []
    ensures FirstDeclaring(nodes, c) == if Declares(nodes[0], c) then 0 else 1 + FirstDeclaring(nodes[1..], c)
  {
  }

  lemma FirstTail(nodes: seq<Argp>, p: nat)
    requires nodes != [] && |Opts(nodes[0])| <= p < |AllOpts(nodes)| && First(AllOpts(nodes), p)
    ensures p - |Opts(nodes[0])| < |AllOpts(nodes[1..])|
    ensures First(AllOpts(nodes[1..]), p - |Opts(nodes[0])|)
    ensures AllOpts(nodes[1..])[p - |Opts(nodes[0])|] == AllOpts(nodes)[p]
  {
    AllNext(nodes, 0);
    hide IsShort, AllOpts, AllOwners, First;
    FirstInRest(Opts(nodes[0]), AllOpts(nodes[1..]), p);
  }

  lemma FirstInRest(a: seq<Opt>, b: seq<Opt>, p: nat)
    requires |a| <= p < |a + b| && First(a + b, p)
    ensures First(b, p - |a|) && b[p - |a|] == (a + b)[p]
  {
    hide IsShort;
    forall q | 0 <= q < p - |a| && IsShort(b[q])
      ensures b[q].key != b[p - |a|].key
    {
      assert (a + b)[|a| + q] == b[q];
    }
  }

  /** The merged string has every declared short key once and nothing else. */
  lemma MergedOnce(h: Hol, all: seq<Opt>, owners: seq<nat>)
    requires Consistent(h, all, owners)
    ensures forall i, j :: 0 <= i < j < |h.shortOptions| ==> h.shortOptions[i] != h.shortOptions[j]
    ensures forall c :: c in h.shortOptions <==> exists q :: 0 <= q < |all| && IsShort(all[q]) && all[q].key == c
  {
    hide Keys;
    KeysDistinct(all);
    forall c
      ensures c in h.shortOptions <==> exists q :: 0 <= q < |all| && IsShort(all[q]) && all[q].key == c
    {
      KeysContain(all, c);
    }
  }

  /** A node with a group is counted for every later node. */
  lemma {:induction false} GroupsGrow(nodes: seq<Argp>, m: nat, k: nat)
    requires m < k <= |nodes| && Grouped(nodes[m])
    ensures GroupsIn(nodes[..m]) < GroupsIn(nodes[..k])
  {
    var before, upTo := nodes[..m], nodes[..k];
    if m > 0 {
      assert before[1..] == nodes[1..][..m - 1] && upTo[1..] == nodes[1..][..k - 1];
      GroupsGrow(nodes[1..], m - 1, k - 1);
    }
  }

  /** Help shows a short key under an entry, from the argp at place m in preorder.
      The parser calls that argp's group for the key if and only if the argp
      declares it to the parser. */
  lemma HelpAgreesIff(flags: Flags, root: Argp, h: Hol, i: nat, j: nat)
    requires Consistent(h, AllOpts(Preorder(root)), AllOwners(Preorder(root), 0))
    requires i < |h.entries| && j < |h.entries[i].opts| && ShownFirst(h, i, j, AllOpts(Preorder(root)))
    requires h.entries[i].opts[j].key != COLON && h.entries[i].opts[j].key !in Prefix(flags)
    ensures var c, m, nodes, t := h.entries[i].opts[j].key, h.entries[i].node, Preorder(root), Flatten(flags, root);
            && m < |nodes| && Grouped(nodes[m]) && h.entries[i].opts[j] in Opts(nodes[m])
            && (Choice(t, c) == Some((GroupsIn(nodes[..m]), c)) <==> Declares(nodes[m], c))
            && (Declares(nodes[m], c) ==>
                  GroupsIn(nodes[..m]) < |t.groups| && t.groups[GroupsIn(nodes[..m])].node == nodes[m])
  {
    hide Keys, Flat, FlatOwners, Preorder, AllOpts, AllOwners, FirstDeclaring, Convert, Choice, GroupsIn, Declares;
    var nodes, c, m := Preorder(root), h.entries[i].opts[j].key, h.entries[i].node;
    OffsetInside(h, i, j);
    var p := Offset(h, i) + j;
    FirstBelongs(nodes, 0, p);
    ShortOwner(flags, root, c);
    var k := FirstDeclaring(nodes, c);
    if m < k {
      GroupsGrow(nodes, m, k);
    }
  }

  /** Aliases of documentation options are themselves marked as documentation. */
  predicate DocAliases(opts: seq<Opt>) {
    forall i :: 0 <= i < |opts| && Real(opts, i).doc ==> opts[i].doc
  }

  lemma MarkedDeclares(node: Argp, o: Opt)
    requires DocAliases(Opts(node)) && o in Opts(node) && IsShort(o)
    ensures Declares(node, o.key)
  {
    hide Real;
    var i :| 0 <= i < |Opts(node)| && Opts(node)[i] == o;
    assert IsKey(Opts(node), i, o.key);
  }

  /** In particular it does so if the argp marks aliases of documentation options as
      documentation, whatever the others do. */
  lemma HelpAgreesWithParser(flags: Flags, root: Argp, h: Hol, i: nat, j: nat)
    requires Consistent(h, AllOpts(Preorder(root)), AllOwners(Preorder(root), 0))
    requires i < |h.entries| && j < |h.entries[i].opts| && ShownFirst(h, i, j, AllOpts(Preorder(root)))
    requires h.entries[i].opts[j].key != COLON && h.entries[i].opts[j].key !in Prefix(flags)
    requires h.entries[i].node < |Preorder(root)| ==> DocAliases(Opts(Preorder(root)[h.entries[i].node]))
    ensures var c, m, nodes, t := h.entries[i].opts[j].key, h.entries[i].node, Preorder(root), Flatten(flags, root);
            && m < |nodes| && Grouped(nodes[m])
            && var g := GroupsIn(nodes[..m]);
               g < |t.groups| && t.groups[g].node == nodes[m] && Choice(t, c) == Some((g, c))
  {
    hide Keys, Flat, FlatOwners, Preorder, AllOpts, AllOwners, Convert, Choice, GroupsIn, Declares, DocAliases, Opts;
    HelpAgreesIff(flags, root, h, i, j);
    OffsetInside(h, i, j);
    MarkedDeclares(Preorder(root)[h.entries[i].node], h.entries[i].opts[j]);
  }

  /** A documentation entry and an alias of it that is not marked as documentation. */
  const UNMARKED := [Opt(None, 0, false, false, false, true, false),
                     Opt(None, 'x' as int, false, false, true, false, false)]

  lemma UnmarkedKeys()
    ensures Keys(UNMARKED) == ['x' as int] && First(UNMARKED, 1)
  {
    KeysNext([], UNMARKED[0]);
    KeysNext([UNMARKED[0]], UNMARKED[1]);
    assert [] + [UNMARKED[0]] == [UNMARKED[0]] && [UNMARKED[0]] + [UNMARKED[1]] == UNMARKED;
  }

  lemma UnmarkedShown(h: Hol)
    requires h == Hol([Entry(UNMARKED, 0, 0)], ['x' as int])
    ensures Consistent(h, UNMARKED, Times(2, 0)) && Shows(h, 0, 1, UNMARKED)
  {
    UnmarkedKeys();
    NothingConsistent(UNMARKED, 0);
    hide Keys, First, Consistent, IsShort, FlatOwners, Times;
    var e := h.entries[0];
    assert Consistent(Hol([], []), [], Times(0, 0)) && Keys([]) == [] by {
      assert UNMARKED[..0] == [];
      ConsistentKeys(Hol([], []), [], Times(0, 0));
    }
    EntryAdded(Hol([], []), e, [], Times(0, 0));
    assert [] + UNMARKED == UNMARKED && [] + [e] == h.entries && h.entries[..0] == [];
    assert Times(0, 0) + Times(2, 0) == Times(2, 0);
  }

  lemma UnmarkedRefused(node: Argp)
    requires node.options == Some(UNMARKED)
    ensures !Declares(node, 'x' as int)
  {
    var opts := Opts(node);
    assert opts == UNMARKED && Real(opts, 0) == opts[0] && Real(opts, 1) == Real(opts, 0);
    assert !IsKey(opts, 0, 'x' as int) && !IsKey(opts, 1, 'x' as int);
  }

  /** It does not always: help shows this alias, and no parser is called for it. */
  lemma HelpShowsMore(flags: Flags)
    ensures var root := Argp(Some(UNMARKED), true, None, []);
            var h := Hol([Entry(UNMARKED, 0, 0)], ['x' as int]);
            && Consistent(h, AllOpts(Preorder(root)), AllOwners(Preorder(root), 0))
            && Shows(h, 0, 1, AllOpts(Preorder(root)))
            && Choice(Flatten(flags, root), 'x' as int) == None
  {
    var root := Argp(Some(UNMARKED), true, None, []);
    var h := Hol([Entry(UNMARKED, 0, 0)], ['x' as int]);
    UnmarkedShown(h);
    assert Preorder(root) == [root];
    AllOfOne(root, 0);
    UnmarkedRefused(root);
    ShortOwner(flags, root, 'x' as int);
  }
}
