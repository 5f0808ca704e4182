/** What the flattened tables contain: they depend on the tree only through its
    nodes in preorder, they fit the space reserved for them, and they map options
    back to their owners. */
module ArgpTables {
  import opened Options
  import opened ArgpTree
  import opened ArgpConvert

  function Preorder(node: Argp): (ns: seq<Argp>)
    ensures |ns| >= 1 && ns[0] == node
    decreases node, 1
  {
    [node] + PreorderAll(node.children)
  }

  function PreorderAll(nodes: seq<Argp>): seq<Argp>
    decreases nodes, 0
  {
    if nodes == [] then [] else Preorder(nodes[0]) + PreorderAll(nodes[1..])
  }

  // ----- The conversion as a walk over the preorder -----

  function StripGroup(g: Group): Group {
    g.(parent := None, parentIndex := 0)
  }

  /** The tables without their parent links. */
  function Strip(t: Tables): Tables {
    t.(groups := seq(|t.groups|, k requires 0 <= k < |t.groups| => StripGroup(t.groups[k])))
  }

  function Walk(t: Tables, nodes: seq<Argp>): Tables
    decreases |nodes|
  {
    if nodes == [] then t else Walk(AddNode(t, nodes[0], None, 0), nodes[1..])
  }

  lemma {:induction false} WalkConcat(t: Tables, a: seq<Argp>, b: seq<Argp>)
    ensures Walk(t, a + b) == Walk(Walk(t, a), b)
    decreases |a|
  {
    hide AddNode;
    if a == [] {
      assert a + b == b;
    } else {
      assert (a + b)[1..] == a[1..] + b;
      WalkConcat(AddNode(t, a[0], None, 0), a[1..], b);
    }
  }

  lemma StripAdd(t: Tables, node: Argp, parent: Option<nat>, parentIndex: nat)
    ensures Strip(AddNode(t, node, parent, parentIndex)) == AddNode(Strip(t), node, None, 0)
  {
    var a, b := Strip(AddNode(t, node, parent, parentIndex)), AddNode(Strip(t), node, None, 0);
    assert a.groups == b.groups;
  }

  /** Apart from parent links, converting a tree is adding its nodes in preorder. */
  lemma {:induction false} ConvertWalks(t: Tables, node: Argp, parent: Option<nat>, parentIndex: nat)
    ensures Strip(Convert(t, node, parent, parentIndex)) == Walk(Strip(t), Preorder(node))
    decreases node, 1
  {
    hide AddNode, Strip;
    StripAdd(t, node, parent, parentIndex);
    ConvertAllWalks(AddNode(t, node, parent, parentIndex), node.children,
                    if Grouped(node) then Some(|t.groups|) else None, 0);
    assert Preorder(node)[1..] == PreorderAll(node.children);
  }

  lemma {:induction false} ConvertAllWalks(t: Tables, nodes: seq<Argp>, parent: Option<nat>, index: nat)
    ensures Strip(ConvertAll(t, nodes, parent, index)) == Walk(Strip(t), PreorderAll(nodes))
    decreases nodes, 0
  {
    hide AddNode, Strip;
    if nodes != [] {
      ConvertWalks(t, nodes[0], parent, index);
      ConvertAllWalks(Convert(t, nodes[0], parent, index), nodes[1..], parent, index + 1);
      WalkConcat(Strip(t), Preorder(nodes[0]), PreorderAll(nodes[1..]));
    }
  }

  // ----- Reserved sizes -----

  datatype Sizes = Sizes(shortLen: nat, longLen: nat, numGroups: nat, numChildInputs: nat)

  /** calc_sizes, as a function. */
  function Calc(s: Sizes, node: Argp): Sizes
    decreases node, 1
  {
    var own := if !Grouped(node) then s
               else Sizes(s.shortLen + 3 * |Opts(node)|, s.longLen + |Opts(node)|, s.numGroups + 1, s.numChildInputs);
    CalcAll(own, node.children)
  }

  function CalcAll(s: Sizes, nodes: seq<Argp>): Sizes
    decreases nodes, 0
  {
    if nodes == [] then s
    else
      var first := Calc(s, nodes[0]);
      CalcAll(first.(numChildInputs := first.numChildInputs + 1), nodes[1..])
  }

  method CalcSizes(s0: Sizes, node: Argp) returns (s: Sizes)
    ensures s == Calc(s0, node)
    decreases node, 1
  {
    s := s0;
    if node.options.Some? || node.hasParser {
      s := s.(numGroups := s.numGroups + 1);
      if node.options.Some? {
        var numOpts := |node.options.value|;
        s := s.(shortLen := s.shortLen + numOpts * 3, longLen := s.longLen + numOpts);
      }
    }
    ghost var own := s;
    assert node.children[0..] == node.children;
    for i := 0 to |node.children|
      invariant CalcAll(s, node.children[i..]) == CalcAll(own, node.children)
    {
      s := CalcSizes(s, node.children[i]);
      s := s.(numChildInputs := s.numChildInputs + 1);
      assert node.children[i..][1..] == node.children[i + 1..];
    }
    assert node.children[|node.children|..] == [];
  }

  /** What has been written stays within what has been reserved; `slack` counts
      child slots handed out before their reservation is counted. */
  predicate Within(t: Tables, s: Sizes, prefix: nat, slack: nat) {
    && |t.shortOpts| <= prefix + s.shortLen && |t.longOpts| <= s.longLen
    && |t.groups| == s.numGroups && t.childSlots <= s.numChildInputs + slack
  }

  lemma {:induction false} ConvertFits(t: Tables, s: Sizes, prefix: nat, slack: nat, node: Argp, parent: Option<nat>,
                                       parentIndex: nat)
    requires Within(t, s, prefix, slack)
    ensures Within(Convert(t, node, parent, parentIndex), Calc(s, node), prefix, slack)
    decreases node, 1
  {
    var own := if !Grouped(node) then s
               else Sizes(s.shortLen + 3 * |Opts(node)|, s.longLen + |Opts(node)|, s.numGroups + 1, s.numChildInputs);
    var t' := AddNode(t, node, parent, parentIndex);
    ConvertAllFit(t', own, prefix, slack, node.children, if Grouped(node) then Some(|t.groups|) else None, 0);
  }

  lemma {:induction false} ConvertAllFit(t: Tables, s: Sizes, prefix: nat, slack: nat, nodes: seq<Argp>,
                                         parent: Option<nat>, index: nat)
    requires Within(t, s, prefix, slack + |nodes|)
    ensures Within(ConvertAll(t, nodes, parent, index), CalcAll(s, nodes), prefix, slack)
    decreases nodes, 0
  {
    hide AddNode;
    if nodes != [] {
      ConvertFits(t, s, prefix, slack + |nodes|, nodes[0], parent, index);
      var t' := Convert(t, nodes[0], parent, index);
      var s' := Calc(s, nodes[0]);
      ConvertAllFit(t', s'.(numChildInputs := s'.numChildInputs + 1), prefix, slack, nodes[1..], parent, index + 1);
    }
  }

  // ----- parser_init's reservation and parser_convert -----

  datatype Flags = Flags(noArgs: bool, inOrder: bool)

  /** The leading character of the short options, and the room reserved for it:
      none when ARGP_NO_ARGS is given, although both flags make one. */
  function Prefix(flags: Flags): (p: seq<int>)
    ensures |p| <= 1
  {
    if flags.inOrder then ['-' as int] else if flags.noArgs then ['+' as int] else []
  }

  function Reserved(flags: Flags, root: Argp): Sizes {
    Calc(Sizes(if flags.noArgs then 0 else 1, 0, 0, 0), root)
  }

  function Flatten(flags: Flags, root: Argp): Tables {
    Convert(Tables(Prefix(flags), [], [], 0), root, None, 0)
  }

  method ParserConvert(root: Argp, flags: Flags) returns (t: Tables)
    ensures t == Flatten(flags, root)
  {
    var c := new Converter(Prefix(flags));
    c.ConvertOptions(root, None, 0);
    t := Tables(c.shortOpts, c.longOpts, c.groups, c.childSlots);
  }

  /** Without ARGP_NO_ARGS everything fits: short option characters, long options,
      groups (exactly) and child slots. */
  lemma FlattenFits(flags: Flags, root: Argp)
    requires !flags.noArgs
    ensures |Flatten(flags, root).shortOpts| <= Reserved(flags, root).shortLen
    ensures |Flatten(flags, root).longOpts| <= Reserved(flags, root).longLen
    ensures |Flatten(flags, root).groups| == Reserved(flags, root).numGroups
    ensures Flatten(flags, root).childSlots <= Reserved(flags, root).numChildInputs
  {
    hide Convert, Calc;
    ConvertFits(Tables(Prefix(flags), [], [], 0), Sizes(1, 0, 0, 0), 0, 0, root, None, 0);
  }

  // ----- Exactly when the short options fit -----

  function ShortAll(nodes: seq<Argp>): seq<int> {
    if nodes == [] then [] else ShortOf(Opts(nodes[0]), |Opts(nodes[0])|) + ShortAll(nodes[1..])
  }

  function OptCount(nodes: seq<Argp>): nat {
    if nodes == [] then 0 else |Opts(nodes[0])| + OptCount(nodes[1..])
  }

  lemma {:induction false} OptCountConcat(a: seq<Argp>, b: seq<Argp>)
    ensures OptCount(a + b) == OptCount(a) + OptCount(b)
  {
    if a == [] {
      assert a + b == b;
    } else {
      assert (a + b)[1..] == a[1..] + b;
      OptCountConcat(a[1..], b);
    }
  }

  lemma {:induction false} WalkShort(t: Tables, nodes: seq<Argp>)
    ensures Walk(t, nodes).shortOpts == t.shortOpts + ShortAll(nodes)
    decreases |nodes|
  {
    if nodes != [] {
      WalkShort(AddNode(t, nodes[0], None, 0), nodes[1..]);
      if !Grouped(nodes[0]) {
        assert ShortOf(Opts(nodes[0]), 0) == [];
      }
    }
  }

  lemma {:induction false} CalcShort(s: Sizes, node: Argp)
    ensures Calc(s, node).shortLen == s.shortLen + 3 * OptCount(Preorder(node))
    decreases node, 1
  {
    assert Preorder(node)[1..] == PreorderAll(node.children);
    CalcAllShort(if !Grouped(node) then s
                 else Sizes(s.shortLen + 3 * |Opts(node)|, s.longLen + |Opts(node)|, s.numGroups + 1, s.numChildInputs),
                 node.children);
  }

  lemma {:induction false} CalcAllShort(s: Sizes, nodes: seq<Argp>)
    ensures CalcAll(s, nodes).shortLen == s.shortLen + 3 * OptCount(PreorderAll(nodes))
    decreases nodes, 0
  {
    if nodes != [] {
      CalcShort(s, nodes[0]);
      var first := Calc(s, nodes[0]);
      CalcAllShort(first.(numChildInputs := first.numChildInputs + 1), nodes[1..]);
      OptCountConcat(Preorder(nodes[0]), PreorderAll(nodes[1..]));
    }
  }

  /** Every option is a short option whose argument is optional: only those take
      three characters. */
  predicate AllTriple(opts: seq<Opt>, n: nat)
    requires n <= |opts|
  {
    forall i :: 0 <= i < n ==>
      Usable(opts, i) && IsShort(opts[i]) && Real(opts, i).arg && Real(opts, i).argOptional
  }

  lemma {:induction false} TripleLength(opts: seq<Opt>, n: nat)
    requires n <= |opts|
    ensures |ShortOf(opts, n)| == 3 * n <==> AllTriple(opts, n)
  {
    if n > 0 {
      TripleLength(opts, n - 1);
    }
  }

  predicate AllTripleNodes(nodes: seq<Argp>) {
    forall k :: 0 <= k < |nodes| ==> AllTriple(Opts(nodes[k]), |Opts(nodes[k])|)
  }

  lemma {:induction false} TripleNodesLength(nodes: seq<Argp>)
    ensures |ShortAll(nodes)| <= 3 * OptCount(nodes)
    ensures |ShortAll(nodes)| == 3 * OptCount(nodes) <==> AllTripleNodes(nodes)
  {
    if nodes != [] {
      TripleLength(Opts(nodes[0]), |Opts(nodes[0])|);
      TripleNodesLength(nodes[1..]);
      assert forall k :: 0 < k < |nodes| ==> nodes[k] == nodes[1..][k - 1];
      assert AllTripleNodes(nodes) <==> AllTriple(Opts(nodes[0]), |Opts(nodes[0])|) && AllTripleNodes(nodes[1..]);
    }
  }

  /** The short option string fits the room reserved for it, for any flags, unless
      ARGP_NO_ARGS is given and every option in the tree takes three characters. */
  lemma ShortFitsIff(flags: Flags, root: Argp)
    ensures |Flatten(flags, root).shortOpts| <= Reserved(flags, root).shortLen
       <==> !(flags.noArgs && AllTripleNodes(Preorder(root)))
  {
    hide Convert, Walk, Preorder, AllTripleNodes, Calc;
    var start := Tables(Prefix(flags), [], [], 0);
    ConvertWalks(start, root, None, 0);
    assert Strip(start) == start;
    WalkShort(start, Preorder(root));
    CalcShort(Sizes(if flags.noArgs then 0 else 1, 0, 0, 0), root);
    TripleNodesLength(Preorder(root));
  }

  /** For instance, an argp with a parser and no options does not fit under
      ARGP_NO_ARGS: the `+` is written and no room was reserved. */
  lemma ShortOverflow()
    ensures var root, flags := Argp(Some([]), true, None, []), Flags(true, false);
            |Flatten(flags, root).shortOpts| > Reserved(flags, root).shortLen
  {
    var root, flags := Argp(Some([]), true, None, []), Flags(true, false);
    assert Preorder(root) == [root];
    ShortFitsIff(flags, root);
  }
}
