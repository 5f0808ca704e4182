/** Where parsers get their input from: the slots their parents fill in. */
module ArgpInputs {
  import opened Options
  import opened ArgpTree
  import opened ArgpConvert
  import opened ArgpTables
  import opened ArgpTrace

  // ----- The parent links of the flattened tables -----

  /** Parents come before their children, and no two groups share a child slot. */
  ghost predicate Linked(t: Tables) {
    && (forall g :: 0 <= g < |t.groups| ==> ParentBefore(t.groups, g))
    && (forall g :: 0 <= g < |t.groups| ==> SlotsEnd(t.groups[g]) <= t.childSlots)
    && (forall g, h :: 0 <= g < h < |t.groups| ==> SlotsEnd(t.groups[g]) <= t.groups[h].childInputs)
  }

  function SlotsEnd(g: Group): nat {
    g.childInputs + |g.node.children|
  }

  predicate ParentBefore(groups: seq<Group>, g: nat)
    requires g < |groups|
  {
    var p := groups[g].parent;
    p.Some? ==> p.value < g && groups[g].parentIndex < |groups[p.value].node.children|
  }

  /** A place for a child below group p. */
  predicate ChildPlace(t: Tables, parent: Option<nat>, index: nat) {
    parent.Some? ==> parent.value < |t.groups| && index < |t.groups[parent.value].node.children|
  }

  lemma AddLinked(t: Tables, node: Argp, parent: Option<nat>, index: nat)
    requires Linked(t) && ChildPlace(t, parent, index)
    ensures Linked(AddNode(t, node, parent, index))
    ensures t.groups <= AddNode(t, node, parent, index).groups
  {
    hide ShortOf, AddLongs;
    var t' := AddNode(t, node, parent, index);
    forall g | 0 <= g < |t'.groups|
      ensures ParentBefore(t'.groups, g)
    {
      if g < |t.groups| {
        assert ParentBefore(t.groups, g);
      }
    }
  }

  lemma {:induction false} ConvertLinked(t: Tables, node: Argp, parent: Option<nat>, index: nat)
    requires Linked(t) && ChildPlace(t, parent, index)
    ensures Linked(Convert(t, node, parent, index))
    ensures t.groups <= Convert(t, node, parent, index).groups
    decreases node, 1
  {
    hide Linked;
    AddLinked(t, node, parent, index);
    var own := if Grouped(node) then Some(|t.groups|) else None;
    ConvertAllLinked(AddNode(t, node, parent, index), node.children, own, 0);
  }

  lemma {:induction false} ConvertAllLinked(t: Tables, nodes: seq<Argp>, parent: Option<nat>, index: nat)
    requires Linked(t)
    requires parent.Some? ==> parent.value < |t.groups| && index + |nodes| <= |t.groups[parent.value].node.children|
    ensures Linked(ConvertAll(t, nodes, parent, index))
    ensures t.groups <= ConvertAll(t, nodes, parent, index).groups
    decreases nodes, 0
  {
    hide Linked, AddNode;
    if nodes != [] {
      ConvertLinked(t, nodes[0], parent, index);
      ConvertAllLinked(Convert(t, nodes[0], parent, index), nodes[1..], parent, index + 1);
    }
  }

  /** The tables of every tree are linked properly. */
  lemma FlattenLinked(flags: Flags, root: Argp)
    ensures Linked(Flatten(flags, root))
  {
    hide Convert;
    ConvertLinked(Tables(Prefix(flags), [], [], 0), root, None, 0);
  }

  // ----- Inputs -----

  const SILENT := Reaction(0, 0, 0, 0, false, 0, map[])

  /** The first call to group p: INIT, in any run. */
  function FirstCall(log: seq<Event>, p: nat): Reaction {
    if log == [] then SILENT else if log[0].group == p then log[0].reaction else FirstCall(log[1..], p)
  }

  ghost predicate Called(log: seq<Event>, p: nat) {
    exists k :: 0 <= k < |log| && log[k].group == p
  }

  lemma {:induction false} FirstCallStays(log: seq<Event>, e: Event, p: nat)
    requires Called(log, p)
    ensures FirstCall(log + [e], p) == FirstCall(log, p)
  {
    var k :| 0 <= k < |log| && log[k].group == p;
    assert (log + [e])[0] == log[0];
    if log[0].group != p {
      assert (log + [e])[1..] == log[1..] + [e];
      assert log[1..][k - 1].group == p;
      FirstCallStays(log[1..], e, p);
    }
  }

  lemma {:induction false} FirstCallNew(log: seq<Event>, e: Event)
    requires !Called(log, e.group)
    ensures FirstCall(log + [e], e.group) == e.reaction
  {
    if log == [] {
      assert log + [e] == [e];
    } else {
      assert log[0].group != e.group;
      assert (log + [e])[1..] == log[1..] + [e];
      assert forall k :: 0 <= k < |log[1..]| ==> log[1..][k] == log[k + 1];
      FirstCallNew(log[1..], e);
    }
  }

  /** What a parser left in child slot i. */
  function Written(r: Reaction, i: nat): Value {
    if i in r.writes then r.writes[i] else 0
  }

  /** The input a group should get: the caller's for the first group; what the
      parent's parser stored for the child at INIT; a parent without parser passes
      its own on to its first child. */
  ghost function Given(groups: seq<Group>, log: seq<Event>, input: Value, g: nat): Value
    decreases g
  {
    if g >= |groups| then 0
    else match groups[g].parent
      case None => if g == 0 then input else 0
      case Some(p) =>
        if p >= g then 0
        else if HasParser(groups, p) then Written(FirstCall(log, p), groups[g].parentIndex)
        else if groups[g].parentIndex == 0 then Given(groups, log, input, p)
        else 0
  }

  /** All parsers below i have been called. */
  ghost predicate Started(groups: seq<Group>, log: seq<Event>, i: nat) {
    forall g :: 0 <= g < i && HasParser(groups, g) ==> Called(log, g)
  }

  lemma {:induction false} GivenStays(groups: seq<Group>, log: seq<Event>, e: Event, input: Value, i: nat, g: nat)
    requires Started(groups, log, i) && g <= i
    ensures Given(groups, log + [e], input, g) == Given(groups, log, input, g)
    decreases g
  {
    if g < |groups| && groups[g].parent.Some? && groups[g].parent.value < g {
      var p := groups[g].parent.value;
      if HasParser(groups, p) {
        FirstCallStays(log, e, p);
      } else {
        GivenStays(groups, log, e, input, i, p);
      }
    }
  }

  lemma CalledStays(log: seq<Event>, e: Event, p: nat)
    requires Called(log, p)
    ensures Called(log + [e], p)
  {
    var k :| 0 <= k < |log| && log[k].group == p;
    assert (log + [e])[k].group == p;
  }

  lemma CalledNow(log: seq<Event>, e: Event)
    ensures Called(log + [e], e.group)
  {
    assert (log + [e])[|log|] == e;
  }

  // ----- What every log has to satisfy -----

  /** The hook group g left behind when it was last called; 0 before that. */
  function LastHook(log: seq<Event>, g: nat): Value {
    if log == [] then 0 else if log[|log| - 1].group == g then log[|log| - 1].reaction.hook
      else LastHook(log[..|log| - 1], g)
  }

  ghost predicate InputRight(groups: seq<Group>, log: seq<Event>, input: Value, k: nat)
    requires k < |log|
  {
    && HasParser(groups, log[k].group)
    && log[k].input == Given(groups, log, input, log[k].group)
    && log[k].hook == LastHook(log[..k], log[k].group)
  }

  /** Every call went to a parser with the input its parent gave it and the hook it
      left behind itself. */
  ghost predicate RightlyCalled(groups: seq<Group>, log: seq<Event>, input: Value) {
    forall k :: 0 <= k < |log| ==> InputRight(groups, log, input, k)
  }

  lemma NextRight(groups: seq<Group>, log: seq<Event>, e: Event, input: Value, i: nat)
    requires RightlyCalled(groups, log, input) && Started(groups, log, i)
    requires forall k :: 0 <= k < |log| ==> log[k].group <= i
    requires e.group <= i && HasParser(groups, e.group)
    requires e.input == Given(groups, log, input, e.group) && e.hook == LastHook(log, e.group)
    ensures RightlyCalled(groups, log + [e], input)
    ensures Started(groups, log + [e], i)
  {
    hide Given, LastHook, Called, HasParser;
    var log' := log + [e];
    forall k | 0 <= k < |log'|
      ensures InputRight(groups, log', input, k)
    {
      GivenStays(groups, log, e, input, i, log'[k].group);
      if k < |log| {
        assert InputRight(groups, log, input, k);
        assert log'[..k] == log[..k];
      } else {
        assert log'[..k] == log;
      }
    }
    forall g | 0 <= g < i && HasParser(groups, g)
      ensures Called(log', g)
    {
      CalledStays(log, e, g);
    }
  }

  /** A parser that processed an argument returned success for one. */
  ghost predicate Handled(log: seq<Event>, g: nat) {
    exists k :: 0 <= k < |log| && log[k].group == g && log[k].key in [KEY_ARG, KEY_ARGS] && log[k].reaction.err == 0
  }
}
