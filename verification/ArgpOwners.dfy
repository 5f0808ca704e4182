/** Which group an option belongs to: what parser_parse_opt decides from getopt's
    answer, and why that is the first argp in preorder that declares it. */
module ArgpOwners {
  import opened Options
  import opened ArgpTree
  import opened ArgpConvert
  import opened ArgpTables

  // ----- Short options -----

  /** Option i can be used as the short option c. */
  predicate IsKey(opts: seq<Opt>, i: nat, c: int)
    requires i < |opts|
  {
    Usable(opts, i) && IsShort(opts[i]) && opts[i].key == c
  }

  /** The argp declares c as a short option. */
  predicate Declares(node: Argp, c: int) {
    exists i :: 0 <= i < |Opts(node)| && IsKey(Opts(node), i, c)
  }

  lemma ShortCharsContain(opts: seq<Opt>, i: nat, c: int)
    requires i < |opts| && c != COLON
    ensures c in ShortChars(opts, i) <==> IsKey(opts, i, c)
  {
  }

  lemma {:induction false} ShortOfContains(opts: seq<Opt>, n: nat, c: int)
    requires n <= |opts| && c != COLON
    ensures c in ShortOf(opts, n) <==> exists i :: 0 <= i < n && IsKey(opts, i, c)
  {
    hide ShortChars, IsKey;
    if n > 0 {
      ShortOfContains(opts, n - 1, c);
      ShortCharsContain(opts, n - 1, c);
    }
  }

  lemma DeclaresIsIn(node: Argp, c: int)
    requires c != COLON
    ensures Declares(node, c) <==> c in ShortOf(Opts(node), |Opts(node)|)
  {
    ShortOfContains(Opts(node), |Opts(node)|, c);
  }

  /** strchr: the first position of c, or |s|. */
  function IndexOf(s: seq<int>, c: int): (k: nat)
    ensures k <= |s| && (k < |s| ==> s[k] == c)
    ensures c in s <==> k < |s|
    ensures forall j :: 0 <= j < k ==> s[j] != c
  {
    if s == [] then 0 else if s[0] == c then 0 else 1 + IndexOf(s[1..], c)
  }

  lemma {:induction false} IndexOfConcat(a: seq<int>, b: seq<int>, c: int)
    ensures IndexOf(a + b, c) == if c in a then IndexOf(a, c) else |a| + IndexOf(b, c)
  {
    if a == [] {
      assert a + b == b;
    } else {
      assert (a + b)[1..] == a[1..] + b;
      IndexOfConcat(a[1..], b, c);
    }
  }

  /** The first group whose short options end after position k. */
  function FirstEnding(groups: seq<Group>, k: nat): (g: nat)
    ensures g <= |groups|
    ensures g < |groups| ==> groups[g].shortEnd > k
    ensures forall j :: 0 <= j < g ==> groups[j].shortEnd <= k
  {
    if groups == [] then 0 else if groups[0].shortEnd > k then 0 else 1 + FirstEnding(groups[1..], k)
  }

  /** The choice parser_parse_opt makes: the group to call and the key to call it
      with, if any. */
  function Choice(t: Tables, opt: int): Option<(nat, int)> {
    if GroupKey(opt) == 0 then
      var k := IndexOf(t.shortOpts, opt);
      if k < |t.shortOpts| && FirstEnding(t.groups, k) < |t.groups| then Some((FirstEnding(t.groups, k), opt)) else None
    else if 1 <= GroupKey(opt) <= |t.groups| then Some((GroupKey(opt) - 1, UserKey(opt)))
    else None
  }

  /** parser_parse_opt up to the call of the group's parser. */
  method SelectGroup(t: Tables, opt: int) returns (r: Option<(nat, int)>)
    requires 0 <= GroupKey(opt) <= |t.groups|
    ensures r == Choice(t, opt)
  {
    var groupKey := opt / USER_RANGE;
    if groupKey == 0 {
      var k := 0;
      while k < |t.shortOpts| && t.shortOpts[k] != opt
        invariant k <= |t.shortOpts|
        invariant forall j :: 0 <= j < k ==> t.shortOpts[j] != opt
      {
        k := k + 1;
      }
      IndexIs(t.shortOpts, opt, k);
      if k < |t.shortOpts| {
        var g := 0;
        while g < |t.groups|
          invariant g <= |t.groups|
          invariant forall j :: 0 <= j < g ==> t.groups[j].shortEnd <= k
        {
          if t.groups[g].shortEnd > k {
            EndingIs(t.groups, k, g);
            return Some((g, opt));
          }
          g := g + 1;
        }
        EndingIs(t.groups, k, g);
      }
      return None;
    }
    return Some((groupKey - 1, UserKey(opt)));
  }

  lemma IndexIs(s: seq<int>, c: int, k: nat)
    requires k <= |s| && (k < |s| ==> s[k] == c) && forall j :: 0 <= j < k ==> s[j] != c
    ensures IndexOf(s, c) == k
  {
  }

  lemma EndingIs(groups: seq<Group>, k: nat, g: nat)
    requires g <= |groups| && (g < |groups| ==> groups[g].shortEnd > k)
    requires forall j :: 0 <= j < g ==> groups[j].shortEnd <= k
    ensures FirstEnding(groups, k) == g
  {
  }

  /** The first node that declares c, or |nodes|. */
  function FirstDeclaring(nodes: seq<Argp>, c: int): (m: nat)
    ensures m <= |nodes| && (m < |nodes| ==> Declares(nodes[m], c))
    ensures forall j :: 0 <= j < m ==> !Declares(nodes[j], c)
  {
    if nodes == [] then 0 else if Declares(nodes[0], c) then 0 else 1 + FirstDeclaring(nodes[1..], c)
  }

  /** How many nodes have a group. */
  function GroupsIn(nodes: seq<Argp>): nat {
    if nodes == [] then 0 else (if Grouped(nodes[0]) then 1 else 0) + GroupsIn(nodes[1..])
  }

  /** Walking more nodes leaves the beginnings of the tables alone. */
  lemma {:induction false} WalkExtends(t: Tables, nodes: seq<Argp>)
    ensures t.shortOpts <= Walk(t, nodes).shortOpts && t.groups <= Walk(t, nodes).groups
    ensures |Walk(t, nodes).groups| == |t.groups| + GroupsIn(nodes)
    decreases |nodes|
  {
    if nodes != [] {
      WalkExtends(AddNode(t, nodes[0], None, 0), nodes[1..]);
    }
  }

  /** All groups so far end within the short options so far. */
  predicate Bounded(t: Tables) {
    forall g :: 0 <= g < |t.groups| ==> t.groups[g].shortEnd <= |t.shortOpts|
  }

  /** A short option that no earlier node declares is found at the first node that
      does, in that node's group. */
  lemma {:induction false} WalkSelects(t: Tables, nodes: seq<Argp>, c: int)
    requires Bounded(t) && c != COLON && c !in t.shortOpts
    ensures var m := FirstDeclaring(nodes, c);
            var w := Walk(t, nodes);
            if m == |nodes| then c !in w.shortOpts
            else
              var g := |t.groups| + GroupsIn(nodes[..m]);
              && c in w.shortOpts && g < |w.groups| && w.groups[g].node == nodes[m]
              && FirstEnding(w.groups, IndexOf(w.shortOpts, c)) == g
    decreases |nodes|
  {
    hide ShortOf, AddLongs, Declares, Opts;
    if nodes != [] {
      var s := ShortOf(Opts(nodes[0]), |Opts(nodes[0])|);
      var t' := AddNode(t, nodes[0], None, 0);
      DeclaresIsIn(nodes[0], c);
      if Declares(nodes[0], c) {
        FoundHere(t, nodes, c);
      } else {
        assert c !in t'.shortOpts;
        WalkSelects(t', nodes[1..], c);
        var m := FirstDeclaring(nodes[1..], c);
        assert FirstDeclaring(nodes, c) == m + 1;
        assert nodes[..m + 1][1..] == nodes[1..][..m] && nodes[..m + 1][0] == nodes[0];
        assert |t.groups| + GroupsIn(nodes[..m + 1]) == |t'.groups| + GroupsIn(nodes[1..][..m]);
      }
    }
  }

  lemma FoundHere(t: Tables, nodes: seq<Argp>, c: int)
    requires Bounded(t) && c != COLON && c !in t.shortOpts && nodes != [] && Declares(nodes[0], c)
    ensures var w := Walk(t, nodes);
            && c in w.shortOpts && |t.groups| < |w.groups| && w.groups[|t.groups|].node == nodes[0]
            && FirstEnding(w.groups, IndexOf(w.shortOpts, c)) == |t.groups|
  {
    assert Grouped(nodes[0]);
    var t' := AddNode(t, nodes[0], None, 0);
    hide ShortOf, AddLongs, Declares, Opts, FirstEnding;
    var s := ShortOf(Opts(nodes[0]), |Opts(nodes[0])|);
    DeclaresIsIn(nodes[0], c);
    var w := Walk(t', nodes[1..]);
    assert Walk(t, nodes) == w;
    WalkExtends(t', nodes[1..]);
    assert t'.shortOpts == t.shortOpts + s && t'.groups[|t.groups|].shortEnd == |t'.shortOpts|;
    FoundIn(t.shortOpts, s, w.shortOpts, c);
    EndsHere(t, w.groups, IndexOf(w.shortOpts, c));
  }

  lemma EndsHere(t: Tables, groups: seq<Group>, k: nat)
    requires Bounded(t) && |t.shortOpts| <= k && t.groups <= groups
    requires |t.groups| < |groups| && k < groups[|t.groups|].shortEnd
    ensures FirstEnding(groups, k) == |t.groups|
  {
    EndingIs(groups, k, |t.groups|);
  }

  /** A character that occurs in b but not in a is found inside b. */
  lemma FoundIn(a: seq<int>, b: seq<int>, all: seq<int>, c: int)
    requires c !in a && c in b && a + b <= all
    ensures c in all && |a| <= IndexOf(all, c) < |a| + |b|
  {
    hide IndexOf;
    IndexOfConcat(a, b, c);
    IndexOfConcat(a + b, all[|a + b|..], c);
    assert all == a + b + all[|a + b|..];
  }

  /** For every tree, flags and key that is not a getopt control character: the
      group parser_parse_opt selects for a short option is that of the first argp
      in preorder that declares it, and none is selected if none declares it. */
  lemma ShortOwner(flags: Flags, root: Argp, c: int)
    requires 0 < c < USER_RANGE && c != COLON && c !in Prefix(flags)
    ensures var t := Flatten(flags, root);
            var nodes := Preorder(root);
            var m := FirstDeclaring(nodes, c);
            if m == |nodes| then Choice(t, c) == None
            else
              var g := GroupsIn(nodes[..m]);
              Choice(t, c) == Some((g, c)) && g < |t.groups| && t.groups[g].node == nodes[m]
  {
    hide Convert, Walk, Preorder, FirstDeclaring, IndexOf, FirstEnding, GroupsIn;
    var start := Tables(Prefix(flags), [], [], 0);
    var nodes := Preorder(root);
    ConvertWalks(start, root, None, 0);
    assert Strip(start) == start;
    WalkSelects(start, nodes, c);
    var t := Flatten(flags, root);
    StripEnds(t, IndexOf(t.shortOpts, c));
  }

  lemma StripEnds(t: Tables, k: nat)
    ensures FirstEnding(Strip(t).groups, k) == FirstEnding(t.groups, k)
  {
    EndingIs(Strip(t).groups, k, FirstEnding(t.groups, k));
  }

  // ----- Long options -----

  predicate Distinct(ls: seq<LongOpt>) {
    forall i, j :: 0 <= i < j < |ls| ==> ls[i].name != ls[j].name
  }

  function LookupLong(ls: seq<LongOpt>, name: string): Option<LongOpt> {
    if ls == [] then None else if ls[0].name == name then Some(ls[0]) else LookupLong(ls[1..], name)
  }

  lemma {:induction false} LookupConcat(a: seq<LongOpt>, b: seq<LongOpt>, name: string)
    ensures LookupLong(a + b, name) == if LookupLong(a, name).Some? then LookupLong(a, name) else LookupLong(b, name)
  {
    if a == [] {
      assert a + b == b;
    } else {
      assert (a + b)[1..] == a[1..] + b;
      LookupConcat(a[1..], b, name);
    }
  }

  lemma {:induction false} LookupHas(ls: seq<LongOpt>, name: string)
    ensures LookupLong(ls, name).Some? <==> HasName(ls, name)
  {
    if ls != [] {
      LookupHas(ls[1..], name);
      if HasName(ls[1..], name) {
        var k :| 0 <= k < |ls[1..]| && ls[1..][k].name == name;
        assert ls[k + 1].name == name;
      }
      if HasName(ls, name) && ls[0].name != name {
        var k :| 0 <= k < |ls| && ls[k].name == name;
        assert ls[1..][k - 1].name == name;
      }
    }
  }

  predicate Names(opts: seq<Opt>, i: nat, name: string)
    requires i < |opts|
  {
    Usable(opts, i) && opts[i].name == Some(name)
  }

  /** The first of the first n options that is usable under a long name, or n. */
  function FirstNamed(opts: seq<Opt>, n: nat, name: string): (i: nat)
    requires n <= |opts|
    ensures i <= n && (i < n ==> Names(opts, i, name))
    ensures forall j :: 0 <= j < i ==> !Names(opts, j, name)
  {
    if n == 0 then 0
    else if FirstNamed(opts, n - 1, name) < n - 1 then FirstNamed(opts, n - 1, name)
    else if Names(opts, n - 1, name) then n - 1 else n
  }

  predicate NamedIn(node: Argp, name: string) {
    FirstNamed(Opts(node), |Opts(node)|, name) < |Opts(node)|
  }

  /** The first node that declares a long name, or |nodes|. */
  function FirstNaming(nodes: seq<Argp>, name: string): (m: nat)
    ensures m <= |nodes| && (m < |nodes| ==> NamedIn(nodes[m], name))
    ensures forall j :: 0 <= j < m ==> !NamedIn(nodes[j], name)
  {
    if nodes == [] then 0 else if NamedIn(nodes[0], name) then 0 else 1 + FirstNaming(nodes[1..], name)
  }

  lemma AddLongLooked(ls: seq<LongOpt>, opts: seq<Opt>, i: nat, group: nat, name: string)
    requires i < |opts|
    ensures Distinct(ls) ==> Distinct(AddLong(ls, opts, i, group))
    ensures LookupLong(AddLong(ls, opts, i, group), name)
         == if LookupLong(ls, name).Some? then LookupLong(ls, name)
            else if Names(opts, i, name) then Some(LongOf(opts, i, group)) else None
  {
    hide Usable, Real, Encode;
    LookupHas(ls, name);
    if Usable(opts, i) && opts[i].name.Some? && !HasName(ls, opts[i].name.value) {
      LookupConcat(ls, [LongOf(opts, i, group)], name);
      assert [LongOf(opts, i, group)][1..] == [];
    }
  }

  lemma {:induction false} AddLongsLooked(ls: seq<LongOpt>, opts: seq<Opt>, n: nat, group: nat, name: string)
    requires n <= |opts|
    ensures Distinct(ls) ==> Distinct(AddLongs(ls, opts, n, group))
    ensures LookupLong(AddLongs(ls, opts, n, group), name)
         == if LookupLong(ls, name).Some? then LookupLong(ls, name)
            else if FirstNamed(opts, n, name) < n then Some(LongOf(opts, FirstNamed(opts, n, name), group)) else None
  {
    hide AddLong, LongOf, Names, LookupLong, Distinct;
    if n > 0 {
      AddLongsLooked(ls, opts, n - 1, group, name);
      AddLongLooked(AddLongs(ls, opts, n - 1, group), opts, n - 1, group, name);
    }
  }

  /** Each long name is kept once, from its first declaration in preorder, and
      points at that declaration's group. */
  lemma {:induction false} WalkLong(t: Tables, nodes: seq<Argp>, name: string)
    requires Distinct(t.longOpts)
    ensures var m := FirstNaming(nodes, name);
            var w := Walk(t, nodes);
            && Distinct(w.longOpts)
            && LookupLong(w.longOpts, name)
               == if LookupLong(t.longOpts, name).Some? then LookupLong(t.longOpts, name)
                  else if m == |nodes| then None
                  else Some(LongOf(Opts(nodes[m]), FirstNamed(Opts(nodes[m]), |Opts(nodes[m])|, name),
                                   |t.groups| + GroupsIn(nodes[..m])))
    decreases |nodes|
  {
    hide ShortOf, AddLongs, LongOf, FirstNamed, LookupLong, Distinct;
    if nodes != [] {
      var t' := AddNode(t, nodes[0], None, 0);
      AddLongsLooked(t.longOpts, Opts(nodes[0]), |Opts(nodes[0])|, |t.groups|, name);
      WalkLong(t', nodes[1..], name);
      var m := FirstNaming(nodes[1..], name);
      if !NamedIn(nodes[0], name) {
        assert nodes[..m + 1][1..] == nodes[1..][..m] && nodes[..m + 1][0] == nodes[0];
      }
    }
  }

  lemma {:induction false} GroupAt(t: Tables, nodes: seq<Argp>, m: nat)
    requires m < |nodes| && Grouped(nodes[m])
    ensures |t.groups| + GroupsIn(nodes[..m]) < |Walk(t, nodes).groups|
    ensures Walk(t, nodes).groups[|t.groups| + GroupsIn(nodes[..m])].node == nodes[m]
    decreases |nodes|
  {
    hide ShortOf, AddLongs;
    var t' := AddNode(t, nodes[0], None, 0);
    WalkExtends(t', nodes[1..]);
    if m > 0 {
      GroupAt(t', nodes[1..], m - 1);
      assert nodes[..m][1..] == nodes[1..][..m - 1] && nodes[..m][0] == nodes[0];
    }
  }

  /** For every tree and long name: the table has one entry for the name, if any
      argp declares it; its value decodes to the group of the first argp in
      preorder that does, and to the option's key (or, for an alias without one,
      the key of the option it stands for) if that key fits 24 signed bits.  With
      at most 127 groups the value is a valid int. */
  lemma LongOwner(flags: Flags, root: Argp, name: string)
    ensures var t := Flatten(flags, root);
            var nodes := Preorder(root);
            var m := FirstNaming(nodes, name);
            && Distinct(t.longOpts)
            && if m == |nodes| then LookupLong(t.longOpts, name) == None
               else
                 var opts := Opts(nodes[m]);
                 var i := FirstNamed(opts, |opts|, name);
                 var key := if opts[i].key != 0 then opts[i].key else Real(opts, i).key;
                 var g := GroupsIn(nodes[..m]);
                 && LookupLong(t.longOpts, name).Some? && g < |t.groups| && t.groups[g].node == nodes[m]
                 && var val, hasArg :=
                    LookupLong(t.longOpts, name).value.val, LookupLong(t.longOpts, name).value.hasArg;
                    && (hasArg == NoArgument <==> !Real(opts, i).arg)
                    && (hasArg == OptionalArgument <==> Real(opts, i).arg && Real(opts, i).argOptional)
                    && Choice(t, val) == Some((g, UserKey(val)))
                    && (UserKey(val) == key <==> -(USER_RANGE / 2) <= key < USER_RANGE / 2)
                    && (|t.groups| <= 127 ==> 0 <= val < 0x8000_0000)
  {
    hide Convert, Walk, Preorder, FirstNaming, FirstNamed, GroupsIn, LookupLong, Distinct, Encode, UserKey, Real;
    var start := Tables(Prefix(flags), [], [], 0);
    var nodes := Preorder(root);
    ConvertWalks(start, root, None, 0);
    assert Strip(start) == start;
    NoLongs(name);
    WalkLong(start, nodes, name);
    var m := FirstNaming(nodes, name);
    if m < |nodes| {
      GroupAt(start, nodes, m);
      var opts := Opts(nodes[m]);
      var i := FirstNamed(opts, |opts|, name);
      EncodeDecodes(if opts[i].key != 0 then opts[i].key else Real(opts, i).key, GroupsIn(nodes[..m]));
    }
  }

  lemma NoLongs(name: string)
    ensures LookupLong([], name) == None && Distinct([])
  {
  }
}
