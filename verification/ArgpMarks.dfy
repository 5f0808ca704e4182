/** What getopt reads off the tables: the leading flag character, how many colons follow a
    short option, and whether a long option takes an argument. */
module ArgpMarks {
  import opened Options
  import opened ArgpTree
  import opened ArgpConvert
  import opened ArgpTables

  /** An alias stands for the nearest option before it that is none, or for the first. */
  lemma {:induction false} RealIs(opts: seq<Opt>, i: nat, j: nat)
    requires j <= i < |opts| && (j == 0 || !opts[j].alias) && forall k :: j < k <= i ==> opts[k].alias
    ensures Real(opts, i) == opts[j]
  {
    if j < i {
      RealIs(opts, i - 1, j);
    }
  }

  /** The colons from position p on, as getopt counts them. */
  function Colons(s: seq<int>, p: nat): nat
    requires p <= |s|
    decreases |s| - p
  {
    if p < |s| && s[p] == COLON then 1 + Colons(s, p + 1) else 0
  }

  lemma {:induction false} ColonsThen(a: seq<int>, marks: seq<int>, b: seq<int>)
    requires (forall k :: 0 <= k < |marks| ==> marks[k] == COLON) && (b == [] || b[0] != COLON)
    ensures Colons(a + marks + b, |a|) == |marks|
    decreases |marks|
  {
    var s := a + marks + b;
    if marks != [] {
      assert s == (a + [COLON]) + marks[1..] + b;
      ColonsThen(a + [COLON], marks[1..], b);
    }
  }

  /** No option is written as a colon. */
  predicate NoColonKeys(opts: seq<Opt>) {
    forall i :: 0 <= i < |opts| ==> opts[i].key != COLON
  }

  lemma NextShort(opts: seq<Opt>, i: nat)
    requires i < |opts| && NoColonKeys(opts)
    ensures ShortOf(opts, i + 1) == ShortOf(opts, i) + ShortChars(opts, i)
    ensures ShortChars(opts, i) == [] || ShortChars(opts, i)[0] != COLON
  {
    hide Real, IsShort;
  }

  /** What follows an option's characters does not start with a colon. */
  lemma {:induction false} ShortSplit(opts: seq<Opt>, i: nat, n: nat) returns (b: seq<int>)
    requires i <= n <= |opts| && NoColonKeys(opts)
    ensures ShortOf(opts, n) == ShortOf(opts, i) + b && (b == [] || b[0] != COLON)
    decreases n
  {
    hide ShortOf, ShortChars, NoColonKeys;
    if i == n {
      b := [];
    } else {
      var front := ShortSplit(opts, i, n - 1);
      NextShort(opts, n - 1);
      b := front + ShortChars(opts, n - 1);
    }
  }

  lemma {:induction false} AllSplit(nodes: seq<Argp>, j: nat, i: nat) returns (b: seq<int>)
    requires j < |nodes| && i <= |Opts(nodes[j])| && forall k :: 0 <= k < |nodes| ==> NoColonKeys(Opts(nodes[k]))
    ensures ShortAll(nodes) == ShortAll(nodes[..j]) + ShortOf(Opts(nodes[j]), i) + b && (b == [] || b[0] != COLON)
    decreases j
  {
    hide ShortOf, Opts, NoColonKeys;
    if j == 0 {
      var rest := ShortSplit(Opts(nodes[0]), i, |Opts(nodes[0])|);
      b := rest + ShortAll(nodes[1..]);
      StartsNoColon(nodes[1..]);
      assert ShortAll(nodes[..0]) == [];
      assert ShortAll(nodes) == ShortOf(Opts(nodes[0]), i) + rest + ShortAll(nodes[1..]);
    } else {
      b := AllSplit(nodes[1..], j - 1, i);
      assert nodes[..j][1..] == nodes[1..][..j - 1] && nodes[..j][0] == nodes[0];
      assert ShortAll(nodes[..j]) == ShortOf(Opts(nodes[0]), |Opts(nodes[0])|) + ShortAll(nodes[1..][..j - 1]);
    }
  }

  lemma {:induction false} StartsNoColon(nodes: seq<Argp>)
    requires forall k :: 0 <= k < |nodes| ==> NoColonKeys(Opts(nodes[k]))
    ensures ShortAll(nodes) == [] || ShortAll(nodes)[0] != COLON
  {
    hide NoColonKeys, Opts, ShortOf;
    if nodes != [] {
      var b := ShortSplit(Opts(nodes[0]), 0, |Opts(nodes[0])|);
      NoShorts(Opts(nodes[0]));
      StartsNoColon(nodes[1..]);
    }
  }

  lemma NoShorts(opts: seq<Opt>)
    ensures ShortOf(opts, 0) == []
  {
  }

  /** Where option i of node j is written in the short option string. */
  function Position(flags: Flags, nodes: seq<Argp>, j: nat, i: nat): nat
    requires j < |nodes| && i <= |Opts(nodes[j])|
  {
    |Prefix(flags) + ShortAll(nodes[..j]) + ShortOf(Opts(nodes[j]), i)|
  }

  /** The colons that say what argument an option takes: none, one for an argument it
      must have, two for one it may have. */
  function Wanted(base: Opt): nat {
    (if base.arg then 1 else 0) + if base.arg && base.argOptional then 1 else 0
  }

  lemma CharsAre(opts: seq<Opt>, i: nat)
    requires i < |opts| && Usable(opts, i) && IsShort(opts[i])
    ensures |ShortChars(opts, i)| == 1 + Wanted(Real(opts, i)) && ShortChars(opts, i)[0] == opts[i].key
    ensures forall k :: 1 <= k < |ShortChars(opts, i)| ==> ShortChars(opts, i)[k] == COLON
    ensures ShortOf(opts, i + 1) == ShortOf(opts, i) + ShortChars(opts, i)
  {
    hide Real;
  }

  /** For every tree and flags: the string starts with `-` or `+` as the flags say, and
      every usable short option stands in it, followed by as many colons as say what
      argument the option it stands for takes, if no key is a colon. */
  lemma ShortMarks(flags: Flags, root: Argp, j: nat, i: nat)
    requires var nodes := Preorder(root);
             && j < |nodes| && i < |Opts(nodes[j])| && Usable(Opts(nodes[j]), i) && IsShort(Opts(nodes[j])[i])
             && forall k :: 0 <= k < |nodes| ==> NoColonKeys(Opts(nodes[k]))
    ensures var s, nodes := Flatten(flags, root).shortOpts, Preorder(root);
            var p, opts := Position(flags, nodes, j, i), Opts(nodes[j]);
            && p < |s| && s[p] == opts[i].key && Colons(s, p + 1) == Wanted(Real(opts, i))
            && (flags.inOrder ==> s[0] == '-' as int) && (flags.noArgs && !flags.inOrder ==> s[0] == '+' as int)
            && (!flags.inOrder && !flags.noArgs ==> s == ShortAll(nodes))
  {
    hide Convert, Preorder, ShortAll, ShortOf, ShortChars, Opts, NoColonKeys, Usable, IsShort, Real, Colons, Wanted,
         Flatten;
    var nodes := Preorder(root);
    var opts := Opts(nodes[j]);
    StringOf(flags, root);
    var b := AllSplit(nodes, j, i + 1);
    CharsAre(opts, i);
    Assembled(Prefix(flags), ShortAll(nodes[..j]), ShortOf(opts, i), ShortChars(opts, i), b);
    assert Prefix(flags) + ShortAll(nodes)
        == Prefix(flags) + (ShortAll(nodes[..j]) + (ShortOf(opts, i) + ShortChars(opts, i)) + b);
  }

  lemma StringOf(flags: Flags, root: Argp)
    ensures Flatten(flags, root).shortOpts == Prefix(flags) + ShortAll(Preorder(root))
  {
    hide Convert, Walk, Preorder, ShortAll;
    var start := Tables(Prefix(flags), [], [], 0);
    ConvertWalks(start, root, None, 0);
    assert Strip(start) == start;
    WalkShort(start, Preorder(root));
  }

  lemma Assembled(prefix: seq<int>, front: seq<int>, short: seq<int>, cs: seq<int>, b: seq<int>)
    requires cs != [] && (forall k :: 1 <= k < |cs| ==> cs[k] == COLON) && (b == [] || b[0] != COLON)
    ensures var s, p := prefix + (front + (short + cs) + b), |prefix + front + short|;
            p < |s| && s[p] == cs[0] && Colons(s, p + 1) == |cs| - 1
  {
    hide Colons;
    var before := prefix + front + short;
    assert prefix + (front + (short + cs) + b) == (before + [cs[0]]) + cs[1..] + b;
    ColonsThen(before + [cs[0]], cs[1..], b);
  }
}
