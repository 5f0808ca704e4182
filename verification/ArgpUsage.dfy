/** The usage odometer of argp-help.c.  Every argp whose args_doc holds several
    newline-separated alternatives is a digit; each printed pattern advances the
    digits by one, children before parents, and printing stops at the carry out. */
module ArgpUsage {
  import opened Options
  import opened ArgpTree

  // ----- Alternatives of one args_doc -----

  /** The alternatives of a documentation string, in order. */
  function Alternatives(doc: string): (alts: seq<string>)
    ensures |alts| >= 1
  {
    if doc == "" then [""]
    else
      var rest := Alternatives(doc[1..]);
      if doc[0] == '\n' then [""] + rest else [[doc[0]] + rest[0]] + rest[1..]
  }

  function Count(node: Argp): (n: nat)
    ensures n >= 1
  {
    match node.argsDoc
    case None => 1
    case Some(doc) => |Alternatives(doc)|
  }

  /** Only a documentation string with a newline has a level of its own. */
  predicate Multiple(node: Argp) {
    Count(node) > 1
  }

  function Own(node: Argp): (n: nat)
    ensures n <= 1
  {
    if Multiple(node) then 1 else 0
  }

  /** argp_args_levels: how many levels there are below and at a node. */
  function Levels(node: Argp): nat
    decreases node, 1
  {
    Own(node) + LevelsOf(node.children)
  }

  function LevelsOf(nodes: seq<Argp>): nat
    decreases nodes, 0
  {
    if nodes == [] then 0 else Levels(nodes[0]) + LevelsOf(nodes[1..])
  }

  // ----- One call, as a function on the level bytes -----

  const CHAR_MAX := 127
  const CHAR_MIN := -128

  /** `(*our_level)++` on a signed char. */
  function IncChar(v: int): int {
    if v == CHAR_MAX then CHAR_MIN else v + 1
  }

  /** The alternative a level byte selects; a negative one skips nothing. */
  function Selected(level: int): nat {
    if level < 0 then 0 else level
  }

  predicate More(node: Argp, level: int) {
    Selected(level) + 1 < Count(node)
  }

  /** The levels after a call, and whether the caller should advance as well. */
  function Step(node: Argp, ls: seq<int>, advance: bool): (r: (seq<int>, bool))
    requires |ls| == Levels(node)
    ensures |r.0| == |ls|
    decreases node, 1
  {
    var below := StepAll(node.children, ls[Own(node)..], advance);
    if !Multiple(node) then below
    else if below.1 && More(node, ls[0]) then ([IncChar(ls[0])] + below.0, false)
    else if below.1 && ls[0] > 0 then ([0] + below.0, true)
    else ([ls[0]] + below.0, below.1)
  }

  function StepAll(nodes: seq<Argp>, ls: seq<int>, advance: bool): (r: (seq<int>, bool))
    requires |ls| == LevelsOf(nodes)
    ensures |r.0| == |ls|
    decreases nodes, 0
  {
    if nodes == [] then ([], advance)
    else
      var first := Step(nodes[0], ls[..Levels(nodes[0])], advance);
      var rest := StepAll(nodes[1..], ls[Levels(nodes[0])..], first.1);
      (first.0 + rest.0, rest.1)
  }

  /** What a call prints: the selected alternative of every documented node. */
  function Shown(node: Argp, ls: seq<int>): seq<string>
    requires |ls| == Levels(node) && Safe(node, ls)
    decreases node, 1
  {
    (match node.argsDoc
     case None => []
     case Some(doc) => [Alternatives(doc)[if Multiple(node) then Selected(ls[0]) else 0]])
    + ShownAll(node.children, ls[Own(node)..])
  }

  function ShownAll(nodes: seq<Argp>, ls: seq<int>): seq<string>
    requires |ls| == LevelsOf(nodes) && SafeAll(nodes, ls)
    decreases nodes, 0
  {
    if nodes == [] then []
    else Shown(nodes[0], ls[..Levels(nodes[0])]) + ShownAll(nodes[1..], ls[Levels(nodes[0])..])
  }

  /** No level byte points past its last alternative. */
  predicate Safe(node: Argp, ls: seq<int>)
    requires |ls| == Levels(node)
    decreases node, 1
  {
    (Multiple(node) ==> ls[0] < Count(node)) && SafeAll(node.children, ls[Own(node)..])
  }

  predicate SafeAll(nodes: seq<Argp>, ls: seq<int>)
    requires |ls| == LevelsOf(nodes)
    decreases nodes, 0
  {
    nodes == [] || (Safe(nodes[0], ls[..Levels(nodes[0])]) && SafeAll(nodes[1..], ls[Levels(nodes[0])..]))
  }

  // ----- The levels as a mixed-radix number -----

  /** How many patterns a subtree has: the product of its counts. */
  function Total(node: Argp): (t: nat)
    ensures t >= 1
    decreases node, 1
  {
    Product(TotalOf(node.children), Count(node))
  }

  function TotalOf(nodes: seq<Argp>): (t: nat)
    ensures t >= 1
    decreases nodes, 0
  {
    if nodes == [] then 1 else Product(Total(nodes[0]), TotalOf(nodes[1..]))
  }

  function Product(a: nat, b: nat): (p: nat)
    ensures a >= 1 && b >= 1 ==> p >= 1
  {
    a * b
  }

  /** Levels within range: no negative byte, none past the last alternative. */
  predicate InRange(node: Argp, ls: seq<int>)
    requires |ls| == Levels(node)
    decreases node, 1
  {
    (Multiple(node) ==> 0 <= ls[0] < Count(node)) && InRangeAll(node.children, ls[Own(node)..])
  }

  predicate InRangeAll(nodes: seq<Argp>, ls: seq<int>)
    requires |ls| == LevelsOf(nodes)
    decreases nodes, 0
  {
    nodes == [] || (InRange(nodes[0], ls[..Levels(nodes[0])]) && InRangeAll(nodes[1..], ls[Levels(nodes[0])..]))
  }

  /** The number the levels spell: earlier children are less significant, and a
      node is more significant than its children. */
  function Value(node: Argp, ls: seq<int>): (v: nat)
    requires |ls| == Levels(node) && InRange(node, ls)
    decreases node, 1
  {
    ValueOf(node.children, ls[Own(node)..])
    + Product(TotalOf(node.children), if Multiple(node) then ls[0] else 0)
  }

  function ValueOf(nodes: seq<Argp>, ls: seq<int>): (v: nat)
    requires |ls| == LevelsOf(nodes) && InRangeAll(nodes, ls)
    decreases nodes, 0
  {
    if nodes == [] then 0
    else Value(nodes[0], ls[..Levels(nodes[0])])
         + Product(Total(nodes[0]), ValueOf(nodes[1..], ls[Levels(nodes[0])..]))
  }

  // ----- A call adds one -----

  /** Level bytes are signed chars: no digit may need a value above CHAR_MAX. */
  predicate Small(node: Argp)
    decreases node, 1
  {
    Count(node) <= CHAR_MAX + 1 && SmallAll(node.children)
  }

  predicate SmallAll(nodes: seq<Argp>)
    decreases nodes, 0
  {
    nodes == [] || (Small(nodes[0]) && SmallAll(nodes[1..]))
  }

  function Zero(n: nat): (z: seq<int>)
    ensures |z| == n
  {
    seq(n, _ => 0)
  }

  lemma {:induction false} ValueBound(node: Argp, ls: seq<int>)
    requires |ls| == Levels(node) && InRange(node, ls)
    ensures Value(node, ls) < Total(node)
    decreases node, 1
  {
    ValueOfBound(node.children, ls[Own(node)..]);
    MixedBound(ValueOf(node.children, ls[Own(node)..]), TotalOf(node.children),
               if Multiple(node) then ls[0] else 0, Count(node));
  }

  lemma {:induction false} ValueOfBound(nodes: seq<Argp>, ls: seq<int>)
    requires |ls| == LevelsOf(nodes) && InRangeAll(nodes, ls)
    ensures ValueOf(nodes, ls) < TotalOf(nodes)
    decreases nodes, 0
  {
    if nodes != [] {
      var k := Levels(nodes[0]);
      ValueBound(nodes[0], ls[..k]);
      ValueOfBound(nodes[1..], ls[k..]);
      MixedBound(Value(nodes[0], ls[..k]), Total(nodes[0]), ValueOf(nodes[1..], ls[k..]), TotalOf(nodes[1..]));
    }
  }

  /** Two-digit numbers: low digit below a, high digit below b. */
  lemma MixedBound(low: nat, a: nat, high: nat, b: nat)
    requires low < a && high < b
    ensures low + Product(a, high) < Product(a, b)
  {
    ProductNext(a, high);
    ProductMono(a, high + 1, b);
  }

  lemma ProductNext(a: nat, k: nat)
    ensures Product(a, k + 1) == Product(a, k) + a
  {
  }

  lemma ProductMono(a: nat, k: nat, l: nat)
    requires k <= l
    ensures Product(a, k) <= Product(a, l)
  {
  }

  lemma MixedUnique(low: nat, low': nat, a: nat, high: nat, high': nat)
    requires low < a && low' < a && low + Product(a, high) == low' + Product(a, high')
    ensures low == low' && high == high'
  {
    if high < high' {
      ProductNext(a, high);
      ProductMono(a, high + 1, high');
    } else if high' < high {
      ProductNext(a, high');
      ProductMono(a, high' + 1, high);
    }
  }

  /** Different levels spell different numbers. */
  lemma {:induction false} ValueInjective(node: Argp, ls: seq<int>, ms: seq<int>)
    requires |ls| == Levels(node) && InRange(node, ls)
    requires |ms| == Levels(node) && InRange(node, ms)
    requires Value(node, ls) == Value(node, ms)
    ensures ls == ms
    decreases node, 1
  {
    var o := Own(node);
    ValueOfBound(node.children, ls[o..]);
    ValueOfBound(node.children, ms[o..]);
    MixedUnique(ValueOf(node.children, ls[o..]), ValueOf(node.children, ms[o..]), TotalOf(node.children),
                if Multiple(node) then ls[0] else 0, if Multiple(node) then ms[0] else 0);
    ValueOfInjective(node.children, ls[o..], ms[o..]);
    if Multiple(node) {
      assert ls == [ls[0]] + ls[1..] && ms == [ms[0]] + ms[1..];
    }
  }

  lemma {:induction false} ValueOfInjective(nodes: seq<Argp>, ls: seq<int>, ms: seq<int>)
    requires |ls| == LevelsOf(nodes) && InRangeAll(nodes, ls)
    requires |ms| == LevelsOf(nodes) && InRangeAll(nodes, ms)
    requires ValueOf(nodes, ls) == ValueOf(nodes, ms)
    ensures ls == ms
    decreases nodes, 0
  {
    if nodes != [] {
      var k := Levels(nodes[0]);
      ValueBound(nodes[0], ls[..k]);
      ValueBound(nodes[0], ms[..k]);
      MixedUnique(Value(nodes[0], ls[..k]), Value(nodes[0], ms[..k]), Total(nodes[0]),
                  ValueOf(nodes[1..], ls[k..]), ValueOf(nodes[1..], ms[k..]));
      ValueInjective(nodes[0], ls[..k], ms[..k]);
      ValueOfInjective(nodes[1..], ls[k..], ms[k..]);
      assert ls == ls[..k] + ls[k..] && ms == ms[..k] + ms[k..];
    }
  }

  /** Without a carry coming in nothing moves. */
  lemma {:induction false} StepKeeps(node: Argp, ls: seq<int>)
    requires |ls| == Levels(node)
    ensures Step(node, ls, false) == (ls, false)
    decreases node, 1
  {
    StepAllKeeps(node.children, ls[Own(node)..]);
    if Multiple(node) {
      assert [ls[0]] + ls[1..] == ls;
    }
  }

  lemma {:induction false} StepAllKeeps(nodes: seq<Argp>, ls: seq<int>)
    requires |ls| == LevelsOf(nodes)
    ensures StepAll(nodes, ls, false) == (ls, false)
    decreases nodes, 0
  {
    if nodes != [] {
      var k := Levels(nodes[0]);
      StepKeeps(nodes[0], ls[..k]);
      StepAllKeeps(nodes[1..], ls[k..]);
      assert ls[..k] + ls[k..] == ls;
    }
  }

  /** A step with the carry in adds one, or wraps to all zeros and carries out. */
  ghost predicate Adds(node: Argp, ls: seq<int>, r: (seq<int>, bool))
    requires |ls| == Levels(node) && InRange(node, ls) && |r.0| == |ls|
  {
    && InRange(node, r.0)
    && if Value(node, ls) + 1 < Total(node) then !r.1 && Value(node, r.0) == Value(node, ls) + 1
       else r.1 && Value(node, r.0) == 0 && r.0 == Zero(|ls|)
  }

  ghost predicate AddsAll(nodes: seq<Argp>, ls: seq<int>, r: (seq<int>, bool))
    requires |ls| == LevelsOf(nodes) && InRangeAll(nodes, ls) && |r.0| == |ls|
  {
    && InRangeAll(nodes, r.0)
    && if ValueOf(nodes, ls) + 1 < TotalOf(nodes) then !r.1 && ValueOf(nodes, r.0) == ValueOf(nodes, ls) + 1
       else r.1 && ValueOf(nodes, r.0) == 0 && r.0 == Zero(|ls|)
  }

  lemma {:induction false} StepAdds(node: Argp, ls: seq<int>)
    requires Small(node) && |ls| == Levels(node) && InRange(node, ls)
    ensures Adds(node, ls, Step(node, ls, true))
    decreases node, 1
  {
    var o := Own(node);
    var below := StepAll(node.children, ls[o..], true);
    StepAllAdds(node.children, ls[o..]);
    var low, a, high, b :=
      ValueOf(node.children, ls[o..]), TotalOf(node.children), if Multiple(node) then ls[0] else 0, Count(node);
    ValueOfBound(node.children, ls[o..]);
    ProductNext(a, high);
    var r := Step(node, ls, true);
    assert r.0[o..] == below.0;
    if low + 1 < a {
      MixedBound(low + 1, a, high, b);
    } else if high + 1 < b {
      MixedBound(0, a, high + 1, b);
    } else {
      assert Product(a, b) == Product(a, high) + a;
    }
  }

  lemma {:induction false} StepAllAdds(nodes: seq<Argp>, ls: seq<int>)
    requires SmallAll(nodes) && |ls| == LevelsOf(nodes) && InRangeAll(nodes, ls)
    ensures AddsAll(nodes, ls, StepAll(nodes, ls, true))
    decreases nodes, 0
  {
    if nodes != [] {
      var k := Levels(nodes[0]);
      var first := Step(nodes[0], ls[..k], true);
      StepAdds(nodes[0], ls[..k]);
      var rest := StepAll(nodes[1..], ls[k..], first.1);
      if first.1 {
        StepAllAdds(nodes[1..], ls[k..]);
      } else {
        StepAllKeeps(nodes[1..], ls[k..]);
      }
      var r := StepAll(nodes, ls, true);
      assert r.0[..k] == first.0 && r.0[k..] == rest.0;
      AddsJoined(nodes, ls, first, rest);
    }
  }

  lemma ProductEnds(a: nat, high: nat, b: nat)
    ensures Product(a, 0) == 0
    ensures high + 1 == b ==> Product(a, b) == Product(a, high) + a
  {
    ProductNext(a, high);
  }

  /** The first node and the rest, of the value spelled and of the range. */
  lemma Joined(nodes: seq<Argp>, ls: seq<int>)
    requires nodes != [] && |ls| == LevelsOf(nodes)
    ensures Levels(nodes[0]) + LevelsOf(nodes[1..]) == |ls|
    ensures InRangeAll(nodes, ls)
       <==> InRange(nodes[0], ls[..Levels(nodes[0])]) && InRangeAll(nodes[1..], ls[Levels(nodes[0])..])
    ensures InRangeAll(nodes, ls) ==>
              var low, high := Value(nodes[0], ls[..Levels(nodes[0])]), ValueOf(nodes[1..], ls[Levels(nodes[0])..]);
              ValueOf(nodes, ls) == low + Product(Total(nodes[0]), high)
    ensures TotalOf(nodes) == Product(Total(nodes[0]), TotalOf(nodes[1..]))
  {
    hide Product, Value, Total, InRange;
  }

  lemma AddsJoined(nodes: seq<Argp>, ls: seq<int>, first: (seq<int>, bool), rest: (seq<int>, bool))
    requires nodes != [] && |ls| == LevelsOf(nodes) && InRangeAll(nodes, ls)
    requires |first.0| == Levels(nodes[0]) && |rest.0| == LevelsOf(nodes[1..])
    requires Adds(nodes[0], ls[..Levels(nodes[0])], first)
    requires if first.1 then AddsAll(nodes[1..], ls[Levels(nodes[0])..], rest)
             else rest == (ls[Levels(nodes[0])..], false)
    requires StepAll(nodes, ls, true) == (first.0 + rest.0, rest.1)
    ensures AddsAll(nodes, ls, StepAll(nodes, ls, true))
  {
    hide Product, Value, Total, Step, StepAll, InRange, ValueOf, TotalOf, InRangeAll, LevelsOf, Levels;
    var k, joined := Levels(nodes[0]), first.0 + rest.0;
    Joined(nodes, ls);
    var low, a := Value(nodes[0], ls[..k]), Total(nodes[0]);
    var high, b := ValueOf(nodes[1..], ls[k..]), TotalOf(nodes[1..]);
    ValueBound(nodes[0], ls[..k]);
    ValueOfBound(nodes[1..], ls[k..]);
    ProductNext(a, high);
    ProductEnds(a, high, b);
    assert joined[..k] == first.0 && joined[k..] == rest.0;
    Joined(nodes, joined);
    if low + 1 < a {
      MixedBound(low + 1, a, high, b);
    } else if high + 1 < b {
      MixedBound(0, a, high + 1, b);
    } else {
      assert Zero(k) + Zero(|ls| - k) == Zero(|ls|);
    }
  }

  // ----- A level with too many alternatives -----

  predicate Chars(ls: seq<int>) {
    forall k :: 0 <= k < |ls| ==> CHAR_MIN <= ls[k] <= CHAR_MAX
  }

  /** If some args_doc has more alternatives than a char can count, no call ever
      carries out: the byte wraps round before the last alternative is reached. */
  lemma {:induction false} BigNeverCarries(node: Argp, ls: seq<int>)
    requires !Small(node) && |ls| == Levels(node) && Chars(ls)
    ensures !Step(node, ls, true).1
    decreases node, 1
  {
    if !SmallAll(node.children) {
      BigAllNeverCarry(node.children, ls[Own(node)..]);
    }
  }

  lemma {:induction false} BigAllNeverCarry(nodes: seq<Argp>, ls: seq<int>)
    requires !SmallAll(nodes) && |ls| == LevelsOf(nodes) && Chars(ls)
    ensures !StepAll(nodes, ls, true).1
    decreases nodes, 0
  {
    var k := Levels(nodes[0]);
    var first := Step(nodes[0], ls[..k], true);
    if !Small(nodes[0]) {
      BigNeverCarries(nodes[0], ls[..k]);
      StepAllKeeps(nodes[1..], ls[k..]);
    } else if first.1 {
      BigAllNeverCarry(nodes[1..], ls[k..]);
    } else {
      StepAllKeeps(nodes[1..], ls[k..]);
    }
  }

  lemma {:induction false} StepChars(node: Argp, ls: seq<int>, advance: bool)
    requires |ls| == Levels(node) && Chars(ls)
    ensures Chars(Step(node, ls, advance).0)
    decreases node, 1
  {
    StepAllChars(node.children, ls[Own(node)..], advance);
  }

  lemma {:induction false} StepAllChars(nodes: seq<Argp>, ls: seq<int>, advance: bool)
    requires |ls| == LevelsOf(nodes) && Chars(ls)
    ensures Chars(StepAll(nodes, ls, advance).0)
    decreases nodes, 0
  {
    if nodes != [] {
      var k := Levels(nodes[0]);
      StepChars(nodes[0], ls[..k], advance);
      StepAllChars(nodes[1..], ls[k..], Step(nodes[0], ls[..k], advance).1);
    }
  }

  /** The level bytes before the n-th call of the printing loop. */
  function After(node: Argp, n: nat): (ls: seq<int>)
    ensures |ls| == Levels(node)
  {
    if n == 0 then Zero(Levels(node)) else Step(node, After(node, n - 1), true).0
  }

  /** Call n (from 0) of the printing loop is its last. */
  predicate StopsAt(node: Argp, n: nat) {
    Step(node, After(node, n), true).1
  }

  lemma {:induction false} AfterChars(node: Argp, n: nat)
    ensures Chars(After(node, n))
  {
    if n > 0 {
      AfterChars(node, n - 1);
      StepChars(node, After(node, n - 1), true);
    }
  }

  lemma {:induction false} ZeroInRange(node: Argp)
    ensures InRange(node, Zero(Levels(node))) && Value(node, Zero(Levels(node))) == 0
    decreases node, 1
  {
    ZeroAllInRange(node.children);
    assert Zero(Levels(node))[Own(node)..] == Zero(LevelsOf(node.children));
  }

  lemma {:induction false} ZeroAllInRange(nodes: seq<Argp>)
    ensures InRangeAll(nodes, Zero(LevelsOf(nodes))) && ValueOf(nodes, Zero(LevelsOf(nodes))) == 0
    decreases nodes, 0
  {
    if nodes != [] {
      var k := Levels(nodes[0]);
      ZeroInRange(nodes[0]);
      ZeroAllInRange(nodes[1..]);
      assert Zero(LevelsOf(nodes))[..k] == Zero(k);
      assert Zero(LevelsOf(nodes))[k..] == Zero(LevelsOf(nodes[1..]));
    }
  }

  /** Call n sees the levels that spell n. */
  lemma {:induction false} AfterSpells(node: Argp, n: nat)
    requires Small(node) && n < Total(node)
    ensures InRange(node, After(node, n)) && Value(node, After(node, n)) == n
  {
    if n == 0 {
      ZeroInRange(node);
    } else {
      AfterSpells(node, n - 1);
      StepAdds(node, After(node, n - 1));
    }
  }

  /** The loop prints exactly as many patterns as there are combinations, and is
      back at all zeros after the last. */
  lemma StopsAfterTotal(node: Argp, n: nat)
    requires Small(node) && n < Total(node)
    ensures StopsAt(node, n) <==> n == Total(node) - 1
    ensures n == Total(node) - 1 ==> After(node, n + 1) == Zero(Levels(node))
  {
    AfterSpells(node, n);
    StepAdds(node, After(node, n));
  }

  /** Printing stops if and only if every args_doc has at most CHAR_MAX + 1
      alternatives. */
  lemma StopsIffSmall(node: Argp)
    ensures (exists n: nat :: StopsAt(node, n)) <==> Small(node)
  {
    if Small(node) {
      StopsAfterTotal(node, Total(node) - 1);
    } else {
      forall n: nat
        ensures !StopsAt(node, n)
      {
        AfterChars(node, n);
        BigNeverCarries(node, After(node, n));
      }
    }
  }

  lemma {:induction false} NewlineAlternatives(n: nat)
    ensures |Alternatives(seq(n, _ => '\n'))| == n + 1
  {
    if n > 0 {
      assert seq(n, _ => '\n')[1..] == seq(n - 1, _ => '\n');
      NewlineAlternatives(n - 1);
    }
  }

  /** For instance, 128 newlines make one alternative too many. */
  lemma NeverStops(n: nat)
    ensures !StopsAt(Argp(None, false, Some(seq(128, _ => '\n')), []), n)
  {
    var node := Argp(None, false, Some(seq(128, _ => '\n')), []);
    NewlineAlternatives(128);
    assert !Small(node);
    StopsIffSmall(node);
  }

  /** Every combination of alternatives is printed, at exactly one call. */
  lemma EveryCombinationOnce(node: Argp, combination: seq<int>)
    requires Small(node) && |combination| == Levels(node) && InRange(node, combination)
    ensures Value(node, combination) < Total(node)
    ensures forall n: nat :: n < Total(node) ==> (After(node, n) == combination <==> n == Value(node, combination))
  {
    ValueBound(node, combination);
    forall n: nat | n < Total(node)
      ensures After(node, n) == combination <==> n == Value(node, combination)
    {
      AfterSpells(node, n);
      if n == Value(node, combination) {
        ValueInjective(node, After(node, n), combination);
      }
    }
  }

  lemma {:induction false} InRangeIsSafe(node: Argp, ls: seq<int>)
    requires |ls| == Levels(node) && InRange(node, ls)
    ensures Safe(node, ls)
    decreases node, 1
  {
    InRangeAllIsSafe(node.children, ls[Own(node)..]);
  }

  lemma {:induction false} InRangeAllIsSafe(nodes: seq<Argp>, ls: seq<int>)
    requires |ls| == LevelsOf(nodes) && InRangeAll(nodes, ls)
    ensures SafeAll(nodes, ls)
    decreases nodes, 0
  {
    if nodes != [] {
      InRangeIsSafe(nodes[0], ls[..Levels(nodes[0])]);
      InRangeAllIsSafe(nodes[1..], ls[Levels(nodes[0])..]);
    }
  }
}
