/** What gencat's input lines mean, without lists: every set maps message numbers to
    texts, and a line changes that mapping. */
module GencatMeaning {
  import opened Options
  import opened MessageLists

  /** symbol is Some for a message whose number was assigned automatically. */
  datatype Item = Item(text: Text, symbol: Option<string>)

  /** One set: its messages by number, and the highest number given out. */
  datatype Block = Block(items: map<int, Item>, last: int, symbol: Option<string>)

  /** Set numbers are stored one higher than users write them. */
  datatype Said = Said(blocks: map<int, Block>, current: int, total: nat, lastSet: int)

  datatype Line =
    | SetNumber(setNumber: nat)
    | SetName(name: string)
    | DelSet(delNumber: nat)
    | NumberLine(n: nat, text: Text, convertible: bool)
    | SymbolLine(ident: string, symText: Text, symConvertible: bool)
    | Other

  const NL_SETD := 1

  const EMPTY_BLOCK := Block(map[], 0, None)

  /** Before the first line: the default set, empty and current. */
  const NOTHING_SAID := Said(map[NL_SETD + 1 := EMPTY_BLOCK], NL_SETD + 1, 0, 0)

  /** The set with this number exists from now on. */
  function Opened(blocks: map<int, Block>, number: nat): map<int, Block> {
    if number + 1 in blocks then blocks else blocks[number + 1 := EMPTY_BLOCK]
  }

  /** `$set`: the set becomes current, under this symbol or none. */
  function Entered(s: Said, number: nat, symbol: Option<string>): Said {
    var blocks := Opened(s.blocks, number);
    s.(blocks := blocks[number + 1 := blocks[number + 1].(symbol := symbol)], current := number + 1)
  }

  predicate NameUsed(blocks: map<int, Block>, name: string) {
    exists k :: k in blocks && blocks[k].symbol == Some(name)
  }

  predicate SymbolUsed(items: map<int, Item>, ident: string) {
    exists k :: k in items && items[k].symbol == Some(ident)
  }

  /** The user has given this number before, in this set. */
  predicate UserGave(items: map<int, Item>, n: int) {
    n in items && items[n].symbol == None
  }

  /** An automatically numbered message with number n gives it up for the next
      unused one. */
  function Displaced(b: Block, n: int): Block {
    if n in b.items then b.(items := (b.items - {n})[b.last + 1 := b.items[n]], last := b.last + 1) else b
  }

  /** A message with a number, and whether it counts.  A line that is refused counts;
      one that does not convert does not, but it has displaced a message and raised
      the highest number. */
  function GaveNumber(b: Block, n: nat, text: Text, convertible: bool): (Block, bool) {
    if n == 0 || UserGave(b.items, n) then (b, true)
    else
      var moved := Displaced(b, n);
      var raised := moved.(last := if n > moved.last then n else moved.last);
      if convertible then (raised.(items := raised.items[n := Item(text, None)]), true) else (raised, false)
  }

  /** A message with a symbol takes the next unused number. */
  function GaveSymbol(b: Block, ident: string, text: Text, convertible: bool): (Block, bool) {
    if SymbolUsed(b.items, ident) then (b, true)
    else
      var raised := b.(last := b.last + 1);
      if convertible then (raised.(items := raised.items[raised.last := Item(text, Some(ident))]), true)
      else (raised, false)
  }

  /** A message line's effect on the current set. */
  function WithCurrent(s: Said, r: (Block, bool)): Said {
    s.(blocks := s.blocks[s.current := r.0], total := s.total + if r.1 then 1 else 0)
  }

  function Take(s: Said, line: Line): Said
    requires s.current in s.blocks && s.lastSet >= 0
  {
    match line
    case SetNumber(number) =>
      var raised := s.(lastSet := if number > s.lastSet then number else s.lastSet);
      if number == 0 then raised else Entered(raised, number, None)
    case SetName(name) =>
      if NameUsed(s.blocks, name) then s else Entered(s.(lastSet := s.lastSet + 1), s.lastSet + 1, Some(name))
    case DelSet(number) => s.(blocks := Opened(s.blocks, number))
    case NumberLine(n, text, convertible) =>
      WithCurrent(s, GaveNumber(s.blocks[s.current], n, text, convertible))
    case SymbolLine(ident, text, convertible) =>
      WithCurrent(s, GaveSymbol(s.blocks[s.current], ident, text, convertible))
    case Other => s
  }

  /** All lines in turn. */
  function TakeAll(s: Said, lines: seq<Line>): (r: Said)
    requires s.current in s.blocks && s.lastSet >= 0
    ensures r.current in r.blocks && r.lastSet >= 0
    ensures s.total <= r.total <= s.total + |lines|
  {
    if lines == [] then s else Take(TakeAll(s, lines[..|lines| - 1]), lines[|lines| - 1])
  }

  /** The text said for message n of set s. */
  function Says(s: Said, k: int, n: int): Option<Text> {
    if k in s.blocks && n in s.blocks[k].items then Some(s.blocks[k].items[n].text) else None
  }

  // ----- What is said in the end -----

  /** The set has this message, under some number. */
  ghost predicate Has(items: map<int, Item>, item: Item) {
    exists n :: n in items && items[n] == item
  }

  ghost predicate Lists(s: Said, k: int, item: Item) {
    k in s.blocks && Has(s.blocks[k].items, item)
  }

  /** Numbers above the last one of a set are unused. */
  ghost predicate UpToLast(items: map<int, Item>, last: int) {
    forall n :: n in items ==> n <= last
  }

  ghost predicate Bounded(s: Said) {
    forall k :: k in s.blocks ==> UpToLast(s.blocks[k].items, s.blocks[k].last)
  }

  /** The line is accepted and gives set k this message. */
  predicate Gives(s: Said, line: Line, k: int, item: Item)
    requires s.current in s.blocks
  {
    && k == s.current
    && match line
       case NumberLine(n, text, convertible) => NumberGives(s.blocks[k], n, text, convertible, item)
       case SymbolLine(ident, text, convertible) => SymbolGives(s.blocks[k], ident, text, convertible, item)
       case _ => false
  }

  predicate NumberGives(b: Block, n: nat, text: Text, convertible: bool, item: Item) {
    n != 0 && !UserGave(b.items, n) && convertible && item == Item(text, None)
  }

  predicate SymbolGives(b: Block, ident: string, text: Text, convertible: bool, item: Item) {
    !SymbolUsed(b.items, ident) && convertible && item == Item(text, Some(ident))
  }

  lemma HasAt(items: map<int, Item>, n: int)
    requires n in items
    ensures Has(items, items[n])
  {
  }

  /** A new number adds a message. */
  lemma HasMore(items: map<int, Item>, n: int, new': Item, item: Item)
    requires n !in items
    ensures Has(items[n := new'], item) <==> Has(items, item) || item == new'
  {
    var more := items[n := new'];
    if q :| q in items && items[q] == item {
      assert more[q] == item;
    }
    HasAt(more, n);
  }

  /** A message under another number is still there. */
  lemma HasMoved(items: map<int, Item>, n: int, to: int, item: Item)
    requires n in items && to !in items
    ensures Has((items - {n})[to := items[n]], item) <==> Has(items, item)
  {
    var now := (items - {n})[to := items[n]];
    if q :| q in items && items[q] == item {
      assert now[if q == n then to else q] == item;
    }
    if q :| q in now && now[q] == item {
      assert items[if q == to then n else q] == item;
    }
  }

  lemma NumberAdds(b: Block, n: nat, text: Text, convertible: bool, item: Item)
    requires UpToLast(b.items, b.last)
    ensures var now := GaveNumber(b, n, text, convertible).0;
            && UpToLast(now.items, now.last)
            && (Has(now.items, item) <==> Has(b.items, item) || NumberGives(b, n, text, convertible, item))
  {
    hide Has;
    if n != 0 && !UserGave(b.items, n) {
      var moved := Displaced(b, n);
      if n in b.items {
        HasMoved(b.items, n, b.last + 1, item);
      }
      assert n !in moved.items;
      HasMore(moved.items, n, Item(text, None), item);
    }
  }

  lemma SymbolAdds(b: Block, ident: string, text: Text, convertible: bool, item: Item)
    requires UpToLast(b.items, b.last)
    ensures var now := GaveSymbol(b, ident, text, convertible).0;
            && UpToLast(now.items, now.last)
            && (Has(now.items, item) <==> Has(b.items, item) || SymbolGives(b, ident, text, convertible, item))
  {
    hide Has;
    HasMore(b.items, b.last + 1, Item(text, Some(ident)), item);
  }

  lemma NothingHas(item: Item)
    ensures !Has(map[], item) && UpToLast(map[], 0)
  {
  }

  /** One line adds to a set the message it gives, and takes nothing away. */
  lemma OneLineMore(s: Said, line: Line, k: int, item: Item)
    requires s.current in s.blocks && s.lastSet >= 0 && Bounded(s)
    ensures Bounded(Take(s, line))
    ensures Lists(Take(s, line), k, item) <==> Lists(s, k, item) || Gives(s, line, k, item)
  {
    hide Has, UpToLast, GaveNumber, GaveSymbol, NumberGives, SymbolGives, NameUsed;
    NothingHas(item);
    match line
    case NumberLine(n, text, convertible) => NumberAdds(s.blocks[s.current], n, text, convertible, item);
    case SymbolLine(ident, text, convertible) => SymbolAdds(s.blocks[s.current], ident, text, convertible, item);
    case _ =>
  }

  /** Line i gives set k this message, after the lines before it. */
  predicate GivenAt(lines: seq<Line>, i: nat, k: int, item: Item)
    requires i < |lines|
  {
    Gives(TakeAll(NOTHING_SAID, lines[..i]), lines[i], k, item)
  }

  lemma GivenBefore(lines: seq<Line>, i: nat, k: int, item: Item)
    requires i < |lines| - 1
    ensures GivenAt(lines[..|lines| - 1], i, k, item) <==> GivenAt(lines, i, k, item)
  {
    assert lines[..|lines| - 1][..i] == lines[..i];
  }

  lemma NothingListed(k: int, item: Item)
    ensures Bounded(NOTHING_SAID) && !Lists(NOTHING_SAID, k, item)
  {
  }

  /** After any lines a set has exactly the messages that accepted lines have given
      it: none is lost or changed later, and nothing else is there. */
  lemma {:induction false} ExactlyAccepted(lines: seq<Line>, k: int, item: Item)
    ensures Bounded(TakeAll(NOTHING_SAID, lines))
    ensures Lists(TakeAll(NOTHING_SAID, lines), k, item)
       <==> exists i :: 0 <= i < |lines| && GivenAt(lines, i, k, item)
  {
    hide Lists, Gives, Take, Bounded;
    if lines == [] {
      NothingListed(k, item);
    } else {
      var front, n := lines[..|lines| - 1], |lines| - 1;
      ExactlyAccepted(front, k, item);
      OneLineMore(TakeAll(NOTHING_SAID, front), lines[n], k, item);
      assert GivenAt(lines, n, k, item) <==> Gives(TakeAll(NOTHING_SAID, front), lines[n], k, item);
      hide TakeAll, GivenAt;
      if i :| 0 <= i < n && GivenAt(front, i, k, item) {
        GivenBefore(lines, i, k, item);
      }
      if i :| 0 <= i < n && GivenAt(lines, i, k, item) {
        GivenBefore(lines, i, k, item);
      }
    }
  }

  lemma NumberStays(s: Said, line: Line, k: int, n: int)
    requires s.current in s.blocks && s.lastSet >= 0 && k in s.blocks && UserGave(s.blocks[k].items, n)
    requires UpToLast(s.blocks[s.current].items, s.blocks[s.current].last)
    ensures var r := Take(s, line);
            k in r.blocks && n in r.blocks[k].items && r.blocks[k].items[n] == s.blocks[k].items[n]
  {
    hide NameUsed, SymbolUsed;
  }

  /** A number given by the user keeps its message, whatever lines follow. */
  lemma {:induction false} NumberKept(s: Said, lines: seq<Line>, k: int, n: int)
    requires s.current in s.blocks && s.lastSet >= 0 && k in s.blocks && UserGave(s.blocks[k].items, n)
    requires Bounded(s)
    ensures var r := TakeAll(s, lines);
            Bounded(r) && k in r.blocks && n in r.blocks[k].items && r.blocks[k].items[n] == s.blocks[k].items[n]
  {
    if lines != [] {
      hide Take, UpToLast;
      var before, line := TakeAll(s, lines[..|lines| - 1]), lines[|lines| - 1];
      NumberKept(s, lines[..|lines| - 1], k, n);
      NumberStays(before, line, k, n);
      OneLineMore(before, line, k, s.blocks[k].items[n]);
    }
  }

  // ----- The lists as such a mapping -----

  function Items(ms: seq<Message>): map<int, Item> {
    if ms == [] then map[] else Items(ms[1..])[ms[0].number := Item(ms[0].text, ms[0].symbol)]
  }

  function BlockOf(s: MsgSet): Block {
    Block(Items(s.messages), s.lastMessage, s.symbol)
  }

  function Blocks(sets: seq<MsgSet>): map<int, Block> {
    if sets == [] then map[] else Blocks(sets[1..])[sets[0].number := BlockOf(sets[0])]
  }

  lemma {:induction false} ItemsFind(ms: seq<Message>, n: int)
    ensures FindMsg(ms, n) == if n in Items(ms) then Some(Items(ms)[n].text) else None
  {
    if ms != [] {
      ItemsFind(ms[1..], n);
    }
  }

  /** What is listed is what the mapping says. */
  lemma {:induction false} BlocksFind(sets: seq<MsgSet>, s: int, n: int)
    ensures FindIn(sets, s, n)
         == if s in Blocks(sets) && n in Blocks(sets)[s].items then Some(Blocks(sets)[s].items[n].text) else None
  {
    if sets != [] {
      ItemsFind(sets[0].messages, n);
      BlocksFind(sets[1..], s, n);
    }
  }

  /** A strictly increasing list is determined by the mapping. */
  lemma {:induction false} ItemsAre(ms: seq<Message>)
    requires Increasing(ms)
    ensures forall m :: m in ms ==> m.number in Items(ms) && Items(ms)[m.number] == Item(m.text, m.symbol)
    ensures forall k :: k in Items(ms) ==> Message(k, Items(ms)[k].text, Items(ms)[k].symbol) in ms
  {
    if ms != [] {
      ItemsAre(ms[1..]);
      assert forall m :: m in ms ==> m == ms[0] || m in ms[1..];
      assert forall m :: m in ms[1..] ==> m.number > ms[0].number;
    }
  }

  lemma {:induction false} BlocksKeys(sets: seq<MsgSet>, k: int)
    ensures k in Blocks(sets) <==> exists i :: 0 <= i < |sets| && sets[i].number == k
  {
    if sets != [] {
      BlocksKeys(sets[1..], k);
      assert forall i :: 1 <= i < |sets| ==> sets[i] == sets[1..][i - 1];
      if k in Blocks(sets[1..]) {
        var i :| 0 <= i < |sets[1..]| && sets[1..][i].number == k;
        assert sets[i + 1].number == k;
      }
    }
  }

  lemma {:induction false} BlocksAt(sets: seq<MsgSet>, i: nat)
    requires i < |sets| && DistinctSets(sets)
    ensures sets[i].number in Blocks(sets) && Blocks(sets)[sets[i].number] == BlockOf(sets[i])
  {
    if i > 0 {
      assert sets[0].number != sets[i].number;
      BlocksAt(sets[1..], i - 1);
    }
  }

  lemma {:induction false} BlocksUpdated(sets: seq<MsgSet>, i: nat, set': MsgSet)
    requires i < |sets| && DistinctSets(sets) && set'.number == sets[i].number
    ensures Blocks(sets[i := set']) == Blocks(sets)[set'.number := BlockOf(set')]
  {
    var sets' := sets[i := set'];
    if i == 0 {
      assert sets'[1..] == sets[1..];
    } else {
      assert sets'[0] == sets[0] && sets'[1..] == sets[1..][i - 1 := set'];
      assert sets[0].number != sets[i].number;
      BlocksUpdated(sets[1..], i - 1, set');
    }
  }

  lemma BlocksPrepended(sets: seq<MsgSet>, made: MsgSet)
    ensures Blocks([made] + sets) == Blocks(sets)[made.number := BlockOf(made)]
  {
    assert ([made] + sets)[1..] == sets;
  }

  lemma NamesAgree(sets: seq<MsgSet>, name: string)
    requires DistinctSets(sets)
    ensures NameUsed(Blocks(sets), name) <==> exists i :: 0 <= i < |sets| && sets[i].symbol == Some(name)
  {
    hide Blocks;
    if NameUsed(Blocks(sets), name) {
      var k :| k in Blocks(sets) && Blocks(sets)[k].symbol == Some(name);
      BlocksKeys(sets, k);
      var i :| 0 <= i < |sets| && sets[i].number == k;
      BlocksAt(sets, i);
    }
    if i :| 0 <= i < |sets| && sets[i].symbol == Some(name) {
      BlocksAt(sets, i);
    }
  }
}
