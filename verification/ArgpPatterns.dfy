/** The order in which usage patterns come: which alternatives change fastest. */
module ArgpPatterns {
  import opened ArgpTree
  import opened ArgpUsage

  /** An argp with alternatives and no children. */
  predicate Leaf(node: Argp) {
    node.children == [] && Multiple(node)
  }

  lemma LeafValue(node: Argp, x: int)
    requires Leaf(node) && 0 <= x < Count(node)
    ensures Levels(node) == 1 && InRange(node, [x]) && Value(node, [x]) == x && Total(node) == Count(node)
  {
    hide Count;
    assert [x][1..] == [];
  }

  /** A parent with alternatives and one such child. */
  lemma ParentValue(node: Argp, a: Argp, x: int, y: int)
    requires node.children == [a] && Multiple(node) && Leaf(a) && 0 <= x < Count(node) && 0 <= y < Count(a)
    ensures Levels(node) == 2 && InRange(node, [x, y]) && Value(node, [x, y]) == Count(a) * x + y
    ensures Total(node) == Count(a) * Count(node)
  {
    LeafValue(a, y);
    hide Count, Alternatives;
    var ls := [x, y];
    assert ls[1..] == [y] && [y][..1] == [y] && [y][1..] == [] && node.children[1..] == [];
    assert Levels(node) == 2;
    assert LevelsOf([]) == 0 && TotalOf([]) == 1 && ValueOf([], []) == 0;
  }

  /** Two such children of a parent without alternatives. */
  lemma ChildrenValue(node: Argp, a: Argp, b: Argp, x: int, y: int)
    requires node.children == [a, b] && !Multiple(node) && Leaf(a) && Leaf(b) && 0 <= x < Count(a) && 0 <= y < Count(b)
    ensures Levels(node) == 2 && InRange(node, [x, y]) && Value(node, [x, y]) == x + Count(a) * y
    ensures Total(node) == Count(a) * Count(b)
  {
    LeafValue(a, x);
    LeafValue(b, y);
    hide Alternatives, Levels, Value, InRange, Total;
    var ls := [x, y];
    assert ls[..1] == [x] && ls[1..] == [y] && [y][..1] == [y] && [y][1..] == [] && ls[0..] == ls;
    assert node.children[1..] == [b] && [b][1..] == [];
    assert TotalOf([]) == 1 && ValueOf([], []) == 0;
    NodeIs(node, ls);
    assert TotalOf([b]) == Count(b);
    assert ValueOf([b], [y]) == y;
  }

  lemma NodeIs(node: Argp, ls: seq<int>)
    requires !Multiple(node)
    ensures Levels(node) == LevelsOf(node.children) && Total(node) == TotalOf(node.children)
    ensures |ls| == Levels(node) ==> (InRange(node, ls) <==> InRangeAll(node.children, ls))
    ensures |ls| == Levels(node) && InRange(node, ls) ==> Value(node, ls) == ValueOf(node.children, ls)
  {
    assert ls[0..] == ls;
    hide LevelsOf, TotalOf, ValueOf, InRangeAll, Alternatives;
  }

  /** Pattern n of a parent and a child shows alternative n / c of the parent and n % c of
      the child, c being how many the child has: the child's change fastest. */
  lemma ChildFastest(node: Argp, a: Argp, n: nat)
    requires node.children == [a] && Multiple(node) && Leaf(a) && Small(node) && n < Total(node)
    ensures After(node, n) == [n / Count(a), n % Count(a)]
  {
    hide After, InRange, Value, Small, Total, Alternatives;
    var c := Count(a);
    ParentValue(node, a, 0, 0);
    Split(n, c, Count(node));
    ParentValue(node, a, n / c, n % c);
    AfterSpells(node, n);
    ValueInjective(node, After(node, n), [n / c, n % c]);
  }

  /** Pattern n of two children shows alternative n % c of the first and n / c of the
      second: the first one's change fastest. */
  lemma FirstChildFastest(node: Argp, a: Argp, b: Argp, n: nat)
    requires node.children == [a, b] && !Multiple(node) && Leaf(a) && Leaf(b) && Small(node) && n < Total(node)
    ensures After(node, n) == [n % Count(a), n / Count(a)]
  {
    hide After, InRange, Value, Small, Total, Alternatives;
    var c := Count(a);
    ChildrenValue(node, a, b, 0, 0);
    Split(n, c, Count(b));
    ChildrenValue(node, a, b, n % c, n / c);
    AfterSpells(node, n);
    ValueInjective(node, After(node, n), [n % c, n / c]);
  }

  lemma Split(n: nat, c: nat, d: nat)
    requires c >= 1 && n < c * d
    ensures 0 <= n / c < d && 0 <= n % c < c && n == c * (n / c) + n % c
  {
    Grows(c, n / c, d);
  }

  lemma Grows(c: nat, q: nat, d: nat)
    ensures q >= d ==> c * q >= c * d
  {
    if q >= d {
      assert c * (q - d) == c * q - c * d;
    }
  }
}
