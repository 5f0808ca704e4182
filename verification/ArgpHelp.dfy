/** The code of argp-help.c that prints usage patterns, on its buffer of level
    bytes, against the odometer. */
module ArgpHelp {
  import opened ArgpTree
  import opened ArgpUsage

  /** __strchrnul (cp, '\n'). */
  method FindNewline(doc: string, cp: nat) returns (nl: nat)
    requires cp <= |doc|
    ensures cp <= nl <= |doc| && (nl < |doc| ==> doc[nl] == '\n')
    ensures forall k :: cp <= k < nl ==> doc[k] != '\n'
  {
    nl := cp;
    while nl < |doc| && doc[nl] != '\n'
      invariant cp <= nl <= |doc|
      invariant forall k :: cp <= k < nl ==> doc[k] != '\n'
    {
      nl := nl + 1;
    }
  }

  /** The text up to the next newline is the first alternative, and the others
      follow it. */
  lemma {:induction false} FirstAlternative(doc: string, n: nat)
    requires n <= |doc| && (n < |doc| ==> doc[n] == '\n') && forall k :: 0 <= k < n ==> doc[k] != '\n'
    ensures Alternatives(doc)[0] == doc[..n]
    ensures n == |doc| ==> |Alternatives(doc)| == 1
    ensures n < |doc| ==> Alternatives(doc)[1..] == Alternatives(doc[n + 1..])
  {
    if n == 0 {
      assert doc[..0] == "";
      if doc != "" {
        assert doc[0] == '\n';
      }
    } else {
      FirstAlternative(doc[1..], n - 1);
      assert doc[1..][..n - 1] == doc[1..n];
      assert [doc[0]] + doc[1..n] == doc[..n];
      if n < |doc| {
        assert doc[1..][n..] == doc[n + 1..];
      }
    }
  }

  /** Skips `level` alternatives, as the loop on cp and nl does, and says whether
      more follow the selected one. */
  method SelectAlternative(doc: string, level: int) returns (text: string, more: bool)
    requires level < |Alternatives(doc)|
    ensures text == Alternatives(doc)[Selected(level)]
    ensures more <==> Selected(level) + 1 < |Alternatives(doc)|
  {
    hide Alternatives;
    var cp := 0;
    var nl := FindNewline(doc, cp);
    assert doc[0..] == doc;
    var i := 0;
    while i < level
      invariant 0 <= i <= Selected(level)
      invariant cp <= nl <= |doc| && (nl < |doc| ==> doc[nl] == '\n')
      invariant forall k :: cp <= k < nl ==> doc[k] != '\n'
      invariant Alternatives(doc[cp..]) == Alternatives(doc)[i..]
    {
      FirstAlternative(doc[cp..], nl - cp);
      assert nl < |doc|;
      assert doc[cp..][nl - cp + 1..] == doc[nl + 1..];
      cp := nl + 1;
      nl := FindNewline(doc, cp);
      i := i + 1;
    }
    FirstAlternative(doc[cp..], nl - cp);
    text := doc[cp..nl];
    more := nl < |doc|;
    assert doc[cp..][..nl - cp] == doc[cp..nl];
    assert Alternatives(doc)[i..][0] == Alternatives(doc)[i];
  }

  /** argp_args_levels. */
  method ArgsLevels(node: Argp) returns (levels: nat)
    ensures levels == Levels(node)
    decreases node
  {
    levels := 0;
    if node.argsDoc.Some? {
      var nl := FindNewline(node.argsDoc.value, 0);
      FirstAlternative(node.argsDoc.value, nl);
      if nl < |node.argsDoc.value| {
        levels := levels + 1;
      }
    }
    for i := 0 to |node.children|
      invariant levels + LevelsOf(node.children[i..]) == Levels(node)
    {
      var below := ArgsLevels(node.children[i]);
      levels := levels + below;
      assert node.children[i..][1..] == node.children[i + 1..];
    }
  }

  /** The bytes of a subtree within the whole buffer. */
  function Part(buffer: seq<int>, pos: nat, n: nat): (ls: seq<int>)
    requires pos + n <= |buffer|
    ensures |ls| == n
  {
    buffer[pos..pos + n]
  }

  /** Only the bytes of one subtree differ, and they have become `now`. */
  ghost predicate Became(after: seq<int>, before: seq<int>, pos: nat, now: seq<int>) {
    pos + |now| <= |before| && after == before[..pos] + now + before[pos + |now|..]
  }

  lemma BecameBelow(after: seq<int>, before: seq<int>, pos: nat, own: nat, now: seq<int>, x: int)
    requires own <= 1 && Became(after, before, pos + own, now)
    ensures own == 0 ==> Became(after, before, pos, now)
    ensures own == 1 ==> Became(after, before, pos, [before[pos]] + now)
    ensures own == 1 ==> Became(after[pos := x], before, pos, [x] + now)
  {
    if own == 1 {
      assert before[..pos + 1] == before[..pos] + [before[pos]];
    }
  }

  lemma BecameNext(last: seq<int>, mid: seq<int>, before: seq<int>, pos: nat, first: seq<int>, second: seq<int>)
    requires Became(mid, before, pos, first) && Became(last, mid, pos + |first|, second)
    ensures Became(last, before, pos, first + second)
  {
    assert mid[..pos + |first|] == before[..pos] + first;
    assert mid[pos + |first| + |second|..] == before[pos + |first| + |second|..];
  }

  /** argp_args_usage: prints this subtree's selected alternatives and moves its
      level bytes, which start at `pos`.  Returns the position after them and
      whether more patterns remain. */
  method ArgsUsage(node: Argp, levels: array<int>, pos: nat, advance0: bool)
    returns (end: nat, more: bool, shown: seq<string>)
    requires pos + Levels(node) <= levels.Length
    requires Safe(node, Part(levels[..], pos, Levels(node)))
    modifies levels
    ensures end == pos + Levels(node)
    ensures Became(levels[..], old(levels[..]), pos, Step(node, Part(old(levels[..]), pos, Levels(node)), advance0).0)
    ensures more == !Step(node, Part(old(levels[..]), pos, Levels(node)), advance0).1
    ensures shown == Shown(node, Part(old(levels[..]), pos, Levels(node)))
    decreases node, 1
  {
    hide Alternatives, StepAll, ShownAll, SafeAll, Became, LevelsOf;
    ghost var before := levels[..];
    var multiple, after, rest := false, false, pos;
    shown := [];
    if node.argsDoc.Some? {
      var nl := FindNewline(node.argsDoc.value, 0);
      FirstAlternative(node.argsDoc.value, nl);
      multiple := nl < |node.argsDoc.value|;
      var text;
      text, after := SelectAlternative(node.argsDoc.value, if multiple then levels[pos] else 0);
      shown := [text];
      if multiple {
        rest := pos + 1;
      }
    }
    var own := if multiple then levels[pos] else 0;
    var advance, below;
    assert Part(before, rest, LevelsOf(node.children)) == Part(before, pos, Levels(node))[Own(node)..];
    end, advance, below := ChildrenUsage(node.children, levels, rest, advance0);
    shown := shown + below;
    ghost var now := StepAll(node.children, Part(before, rest, LevelsOf(node.children)), advance0).0;
    BecameBelow(levels[..], before, pos, Own(node), now, if after then IncChar(own) else 0);
    ghost var mid := levels[..];
    if advance && multiple {
      if after {
        levels[pos] := IncChar(own);
        advance := false;
        assert levels[..] == mid[pos := IncChar(own)];
      } else if own > 0 {
        levels[pos] := 0;
        assert levels[..] == mid[pos := 0];
      }
    }
    more := !advance;
  }

  /** The loop over the children: `advance = !argp_args_usage (...)`. */
  method ChildrenUsage(nodes: seq<Argp>, levels: array<int>, pos: nat, advance0: bool)
    returns (end: nat, advance: bool, shown: seq<string>)
    requires pos + LevelsOf(nodes) <= levels.Length
    requires SafeAll(nodes, Part(levels[..], pos, LevelsOf(nodes)))
    modifies levels
    ensures end == pos + LevelsOf(nodes)
    ensures Became(levels[..], old(levels[..]), pos,
                   StepAll(nodes, Part(old(levels[..]), pos, LevelsOf(nodes)), advance0).0)
    ensures advance == StepAll(nodes, Part(old(levels[..]), pos, LevelsOf(nodes)), advance0).1
    ensures shown == ShownAll(nodes, Part(old(levels[..]), pos, LevelsOf(nodes)))
    decreases nodes, 0
  {
    hide StepAll, ShownAll, SafeAll, Step, Shown, Safe, Became, Levels, LevelsOf, Part;
    ghost var before := levels[..];
    ghost var mine := Part(before, pos, LevelsOf(nodes));
    ghost var done := [];
    end, advance, shown := pos, advance0, [];
    StartWalk(nodes, before, pos, advance0);
    for i := 0 to |nodes|
      invariant end == pos + |done| && end + LevelsOf(nodes[i..]) == pos + LevelsOf(nodes)
      invariant Walked(levels[..], nodes, i, before, pos, done, advance, shown, advance0)
    {
      UnfoldWalk(levels[..], nodes, i, before, pos, done, advance, shown, advance0);
      ghost var mid := levels[..];
      ghost var was := advance;
      var more, first;
      end, more, first := ArgsUsage(nodes[i], levels, end, advance);
      advance := !more;
      shown := shown + first;
      ghost var now := Step(nodes[i], Part(mid, pos + |done|, Levels(nodes[i])), was).0;
      NextWalk(levels[..], mid, nodes, i, before, pos, done, was, shown[..|shown| - |first|], first, now, advance,
               advance0);
      done := done + now;
    }
    EndWalk(levels[..], nodes, before, pos, done, advance, shown, advance0);
  }

  /** After i children: `done` are their new bytes, and what the remaining ones
      will do completes the whole step. */
  ghost predicate Walked(buffer: seq<int>, nodes: seq<Argp>, i: nat, before: seq<int>, pos: nat, done: seq<int>,
                         advance: bool, shown: seq<string>, advance0: bool)
    requires i <= |nodes|
  {
    var n, left := LevelsOf(nodes), LevelsOf(nodes[i..]);
    && |done| + left == n && pos + n <= |before|
    && Became(buffer, before, pos, done)
    && SafeAll(nodes, Part(before, pos, n)) && SafeAll(nodes[i..], Part(before, pos + |done|, left))
    && StepAll(nodes, Part(before, pos, n), advance0)
       == (done + StepAll(nodes[i..], Part(before, pos + |done|, left), advance).0,
           StepAll(nodes[i..], Part(before, pos + |done|, left), advance).1)
    && ShownAll(nodes, Part(before, pos, n)) == shown + ShownAll(nodes[i..], Part(before, pos + |done|, left))
  }

  lemma StartWalk(nodes: seq<Argp>, before: seq<int>, pos: nat, advance: bool)
    requires pos + LevelsOf(nodes) <= |before| && SafeAll(nodes, Part(before, pos, LevelsOf(nodes)))
    ensures nodes[0..] == nodes && Walked(before, nodes, 0, before, pos, [], advance, [], advance)
  {
    hide StepAll, ShownAll, SafeAll, LevelsOf;
    assert nodes[0..] == nodes;
    assert Became(before, before, pos, []);
    var step := StepAll(nodes, Part(before, pos, LevelsOf(nodes)), advance);
    var all := ShownAll(nodes, Part(before, pos, LevelsOf(nodes)));
    assert [] + step.0 == step.0 && [] + all == all;
  }

  lemma UnfoldWalk(buffer: seq<int>, nodes: seq<Argp>, i: nat, before: seq<int>, pos: nat, done: seq<int>,
                   advance: bool, shown: seq<string>, advance0: bool)
    requires i < |nodes| && Walked(buffer, nodes, i, before, pos, done, advance, shown, advance0)
    ensures |buffer| == |before| && pos + |done| + Levels(nodes[i]) <= |buffer|
    ensures LevelsOf(nodes[i..]) == Levels(nodes[i]) + LevelsOf(nodes[i + 1..])
    ensures Part(buffer, pos + |done|, Levels(nodes[i])) == Part(before, pos + |done|, Levels(nodes[i]))
    ensures Safe(nodes[i], Part(buffer, pos + |done|, Levels(nodes[i])))
  {
    hide Step, StepAll, Shown, ShownAll, Safe, Levels;
    assert nodes[i..][1..] == nodes[i + 1..];
    var part := Part(before, pos + |done|, LevelsOf(nodes[i..]));
    assert part[..Levels(nodes[i])] == Part(before, pos + |done|, Levels(nodes[i]));
  }

  lemma NextWalk(after: seq<int>, buffer: seq<int>, nodes: seq<Argp>, i: nat, before: seq<int>, pos: nat,
                 done: seq<int>,
                 advance: bool, shown: seq<string>, first: seq<string>, now: seq<int>, advance': bool, advance0: bool)
    requires i < |nodes| && Walked(buffer, nodes, i, before, pos, done, advance, shown, advance0)
    requires pos + |done| + Levels(nodes[i]) <= |buffer| == |before|
    requires Safe(nodes[i], Part(before, pos + |done|, Levels(nodes[i])))
    requires (now, advance') == Step(nodes[i], Part(before, pos + |done|, Levels(nodes[i])), advance)
    requires first == Shown(nodes[i], Part(before, pos + |done|, Levels(nodes[i])))
    requires Became(after, buffer, pos + |done|, now)
    ensures Walked(after, nodes, i + 1, before, pos, done + now, advance', shown + first, advance0)
  {
    hide Step, Shown, Safe, Levels, Became;
    assert nodes[i..][1..] == nodes[i + 1..];
    var k := Levels(nodes[i]);
    var part := Part(before, pos + |done|, LevelsOf(nodes[i..]));
    assert part[..k] == Part(before, pos + |done|, k);
    assert part[k..] == Part(before, pos + |done + now|, LevelsOf(nodes[i + 1..]));
    BecameNext(after, buffer, before, pos, done, now);
    var rest := StepAll(nodes[i + 1..], part[k..], advance');
    var others := ShownAll(nodes[i + 1..], part[k..]);
    assert done + (now + rest.0) == done + now + rest.0;
    assert shown + (first + others) == shown + first + others;
  }

  lemma EndWalk(buffer: seq<int>, nodes: seq<Argp>, before: seq<int>, pos: nat, done: seq<int>,
                advance: bool, shown: seq<string>, advance0: bool)
    requires Walked(buffer, nodes, |nodes|, before, pos, done, advance, shown, advance0)
    ensures LevelsOf(nodes[|nodes|..]) == 0 && |done| == LevelsOf(nodes)
    ensures Became(buffer, before, pos, StepAll(nodes, Part(before, pos, LevelsOf(nodes)), advance0).0)
    ensures advance == StepAll(nodes, Part(before, pos, LevelsOf(nodes)), advance0).1
    ensures shown == ShownAll(nodes, Part(before, pos, LevelsOf(nodes)))
  {
    assert nodes[|nodes|..] == [];
  }

  /** Pattern n shows the levels that spell n. */
  ghost predicate Printed(node: Argp, n: nat, pattern: seq<string>) {
    && InRange(node, After(node, n)) && Safe(node, After(node, n)) && Value(node, After(node, n)) == n
    && pattern == Shown(node, After(node, n))
  }

  /** The printing loop of _help.  The result lists the patterns in the order
      printed: pattern n shows the combination that spells n, the number of
      patterns is the product of the counts, and the bytes end as they began. */
  method PrintPatterns(node: Argp) returns (patterns: seq<seq<string>>, bytes: seq<int>)
    requires Small(node)
    ensures |patterns| == Total(node)
    ensures forall n :: 0 <= n < Total(node) ==> Printed(node, n, patterns[n])
    ensures bytes == Zero(Levels(node))
  {
    hide Step, Shown, Safe, InRange, Value, After, Total, Levels, Small, Became, StopsAt;
    var count := ArgsLevels(node);
    var levels := new int[count](_ => 0);
    patterns := [];
    AfterZero(node);
    assert levels[..] == Zero(count);
    var more := true;
    while more
      invariant levels.Length == Levels(node) == count
      invariant levels[..] == After(node, |patterns|)
      invariant more ==> |patterns| < Total(node)
      invariant !more ==> |patterns| == Total(node) && levels[..] == Zero(Levels(node))
      invariant forall n :: 0 <= n < |patterns| ==> Printed(node, n, patterns[n])
      decreases Total(node) - |patterns|, if more then 1 else 0
    {
      ghost var n := |patterns|;
      AfterSpells(node, n);
      InRangeIsSafe(node, After(node, n));
      assert Part(levels[..], 0, count) == After(node, n);
      var end, shown;
      end, more, shown := ArgsUsage(node, levels, 0, true);
      StopsAfterTotal(node, n);
      NextCall(node, n);
      WholeBuffer(levels[..], After(node, n), After(node, n + 1));
      patterns := patterns + [shown];
    }
    bytes := levels[..];
  }

  lemma AfterZero(node: Argp)
    ensures After(node, 0) == Zero(Levels(node))
  {
  }

  lemma NextCall(node: Argp, n: nat)
    ensures After(node, n + 1) == Step(node, After(node, n), true).0
    ensures StopsAt(node, n) == Step(node, After(node, n), true).1
  {
  }

  lemma WholeBuffer(after: seq<int>, before: seq<int>, now: seq<int>)
    requires Became(after, before, 0, now) && |now| == |before|
    ensures after == now
  {
  }
}
