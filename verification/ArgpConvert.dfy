/** argp-parse.c: flattening a tree of argps into getopt's tables. */
module ArgpConvert {
  import opened Options
  import opened ArgpTree

  const COLON := ':' as int

  datatype HasArg = NoArgument | RequiredArgument | OptionalArgument

  datatype LongOpt = LongOpt(name: string, hasArg: HasArg, val: int)

  /** The static part of struct group.  `shortEnd` is where the group's short
      options end in the short option string; `childInputs` is the first of its
      slots. */
  datatype Group = Group(node: Argp, shortEnd: nat, parent: Option<nat>, parentIndex: nat, childInputs: nat)

  datatype Tables = Tables(shortOpts: seq<int>, longOpts: seq<LongOpt>, groups: seq<Group>, childSlots: nat)

  // ----- Options -----

  /** __option_is_short, with the C locale's isprint. */
  predicate IsShort(o: Opt) {
    !o.doc && 32 <= o.key < 127
  }

  /** The most recent option that is not an alias, or the first one. */
  function Real(opts: seq<Opt>, i: nat): (o: Opt)
    requires i < |opts|
  {
    if !opts[i].alias || i == 0 then opts[i] else Real(opts, i - 1)
  }

  /** A real option, not just documentation. */
  predicate Usable(opts: seq<Opt>, i: nat)
    requires i < |opts|
  {
    !Real(opts, i).doc
  }

  /** The characters option i adds to the short option string. */
  function ShortChars(opts: seq<Opt>, i: nat): (s: seq<int>)
    requires i < |opts|
    ensures |s| <= 3
  {
    if !Usable(opts, i) || !IsShort(opts[i]) then []
    else if !Real(opts, i).arg then [opts[i].key]
    else if !Real(opts, i).argOptional then [opts[i].key, COLON]
    else [opts[i].key, COLON, COLON]
  }

  function ShortOf(opts: seq<Opt>, n: nat): (s: seq<int>)
    requires n <= |opts|
    ensures |s| <= 3 * n
  {
    if n == 0 then [] else ShortOf(opts, n - 1) + ShortChars(opts, n - 1)
  }

  const USER_RANGE := 0x100_0000

  /** The user's key in the low 24 bits, the group number plus one above it. */
  function Encode(key: int, group: nat): int {
    key % USER_RANGE + (group + 1) * USER_RANGE
  }

  function GroupKey(val: int): int {
    val / USER_RANGE
  }

  /** (val << GROUP_BITS) >> GROUP_BITS: the low 24 bits, sign extended. */
  function UserKey(val: int): int {
    if val % USER_RANGE < USER_RANGE / 2 then val % USER_RANGE else val % USER_RANGE - USER_RANGE
  }

  /** Decoding gives back the group, for up to 127 groups within a 32-bit int, and
      the key exactly when the key fits 24 signed bits. */
  lemma EncodeDecodes(key: int, group: nat)
    ensures GroupKey(Encode(key, group)) == group + 1
    ensures UserKey(Encode(key, group)) == key <==> -(USER_RANGE / 2) <= key < USER_RANGE / 2
    ensures Encode(key, group) < 0x8000_0000 <==> group < 127
    ensures Encode(key, group) >= USER_RANGE
  {
    assert Encode(key, group) % USER_RANGE == key % USER_RANGE;
  }

  function LongOf(opts: seq<Opt>, i: nat, group: nat): LongOpt
    requires i < |opts| && opts[i].name.Some?
  {
    var base := Real(opts, i);
    LongOpt(opts[i].name.value,
            if !base.arg then NoArgument else if base.argOptional then OptionalArgument else RequiredArgument,
            Encode(if opts[i].key != 0 then opts[i].key else base.key, group))
  }

  predicate HasName(ls: seq<LongOpt>, name: string) {
    exists k :: 0 <= k < |ls| && ls[k].name == name
  }

  /** The long options after option i: one more, if it has a new name. */
  function AddLong(ls: seq<LongOpt>, opts: seq<Opt>, i: nat, group: nat): (r: seq<LongOpt>)
    requires i < |opts|
    ensures |r| <= |ls| + 1
  {
    if Usable(opts, i) && opts[i].name.Some? && !HasName(ls, opts[i].name.value) then ls + [LongOf(opts, i, group)]
    else ls
  }

  function AddLongs(ls: seq<LongOpt>, opts: seq<Opt>, n: nat, group: nat): (r: seq<LongOpt>)
    requires n <= |opts|
    ensures |r| <= |ls| + n
  {
    if n == 0 then ls else AddLong(AddLongs(ls, opts, n - 1, group), opts, n - 1, group)
  }

  // ----- Argps -----

  predicate Grouped(node: Argp) {
    node.options.Some? || node.hasParser
  }

  function Opts(node: Argp): seq<Opt> {
    match node.options case Some(os) => os case None => []
  }

  /** One argp's own contribution: its options and its group. */
  function AddNode(t: Tables, node: Argp, parent: Option<nat>, parentIndex: nat): Tables {
    if !Grouped(node) then t
    else
      var os := Opts(node);
      var s := t.shortOpts + ShortOf(os, |os|);
      Tables(s, AddLongs(t.longOpts, os, |os|, |t.groups|),
             t.groups + [Group(node, |s|, parent, parentIndex, t.childSlots)], t.childSlots + |node.children|)
  }

  /** convert_options. */
  function Convert(t: Tables, node: Argp, parent: Option<nat>, parentIndex: nat): Tables
    decreases node, 1
  {
    ConvertAll(AddNode(t, node, parent, parentIndex), node.children,
               if Grouped(node) then Some(|t.groups|) else None, 0)
  }

  function ConvertAll(t: Tables, nodes: seq<Argp>, parent: Option<nat>, index: nat): Tables
    decreases nodes, 0
  {
    if nodes == [] then t else ConvertAll(Convert(t, nodes[0], parent, index), nodes[1..], parent, index + 1)
  }

  // ----- The code -----

  /** The tables under construction; write pointers are the ends of the
      sequences. */
  class Converter {
    var shortOpts: seq<int>
    var longOpts: seq<LongOpt>
    var groups: seq<Group>
    var childSlots: nat

    ghost function All(): Tables
      reads this
    {
      Tables(shortOpts, longOpts, groups, childSlots)
    }

    constructor (prefix: seq<int>)
      ensures All() == Tables(prefix, [], [], 0)
    {
      shortOpts, longOpts, groups, childSlots := prefix, [], [], 0;
    }

    /** find_long_option. */
    method FindLongOption(name: string) returns (k: int)
      ensures k == -1 || (0 <= k < |longOpts| && longOpts[k].name == name)
      ensures k == -1 <==> !HasName(longOpts, name)
    {
      k := 0;
      while k < |longOpts|
        invariant 0 <= k <= |longOpts|
        invariant forall j :: 0 <= j < k ==> longOpts[j].name != name
      {
        if longOpts[k].name == name {
          return;
        }
        k := k + 1;
      }
      k := -1;
    }

    method AddShort(key: int, base: Opt)
      modifies this`shortOpts
      ensures shortOpts == old(shortOpts)
                         + if !base.arg then [key] else if !base.argOptional then [key, COLON] else [key, COLON, COLON]
    {
      shortOpts := shortOpts + [key];
      if base.arg {
        shortOpts := shortOpts + [COLON];
        if base.argOptional {
          shortOpts := shortOpts + [COLON];
        }
      }
    }

    method AddOptions(opts: seq<Opt>)
      modifies this`shortOpts, this`longOpts
      ensures shortOpts == old(shortOpts) + ShortOf(opts, |opts|)
      ensures longOpts == AddLongs(old(longOpts), opts, |opts|, |groups|)
    {
      var base := 0;
      for i := 0 to |opts|
        invariant i > 0 ==> base < |opts| && opts[base] == Real(opts, i - 1)
        invariant i == 0 ==> base == 0
        invariant shortOpts == old(shortOpts) + ShortOf(opts, i)
        invariant longOpts == AddLongs(old(longOpts), opts, i, |groups|)
      {
        if !opts[i].alias {
          base := i;
        }
        if !opts[base].doc {
          if IsShort(opts[i]) {
            AddShort(opts[i].key, opts[base]);
          }
          if opts[i].name.Some? {
            var k := FindLongOption(opts[i].name.value);
            if k < 0 {
              longOpts := longOpts + [LongOf(opts, i, |groups|)];
            }
          }
        }
      }
    }

    method ConvertOptions(node: Argp, parent: Option<nat>, parentIndex: nat)
      modifies this
      ensures All() == Convert(old(All()), node, parent, parentIndex)
      decreases node, 1
    {
      var own := None;
      if node.options.Some? || node.hasParser {
        if node.options.Some? {
          AddOptions(node.options.value);
        }
        own := Some(|groups|);
        groups := groups + [Group(node, |shortOpts|, parent, parentIndex, childSlots)];
        childSlots := childSlots + |node.children|;
      }
      ghost var mine := All();
      assert Opts(node) == [] ==> shortOpts == old(shortOpts) + ShortOf([], 0);
      assert mine == AddNode(old(All()), node, parent, parentIndex);
      assert node.children[0..] == node.children;
      for index := 0 to |node.children|
        invariant ConvertAll(All(), node.children[index..], own, index) == ConvertAll(mine, node.children, own, 0)
      {
        ConvertOptions(node.children[index], own, index);
        assert node.children[index..][1..] == node.children[index + 1..];
      }
      assert node.children[|node.children|..] == [];
    }
  }
}
