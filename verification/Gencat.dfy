/** gencat's reading of input lines: message numbering and insertion. */
module Gencat {
  import opened Options
  import opened MessageLists
  import opened GencatMeaning
  import opened CatalogTable
  import opened CatalogMerge

  /** The members of a message list, in no order. */
  function Members(ms: seq<Message>): (s: set<Message>)
    ensures forall m :: m in s <==> m in ms
  {
    set m | m in ms
  }

  lemma FindIsMember(ms: seq<Message>, n: int, t: Text)
    requires Increasing(ms)
    ensures FindMsg(ms, n) == Some(t) <==> exists m :: m in ms && m.number == n && m.text == t
  {
    if FindMsg(ms, n) == Some(t) {
      FindMsgSome(ms, n);
    }
    if exists m :: m in ms && m.number == n && m.text == t {
      var m :| m in ms && m.number == n && m.text == t;
      var k :| 0 <= k < |ms| && ms[k] == m;
      FindMsgAt(ms, k);
    }
  }

  // ----- Inserting a message in order -----

  /** The insertion loop: after the last message whose number is not larger. */
  method InsertSorted(ms: seq<Message>, m: Message) returns (r: seq<Message>, ghost k: nat)
    requires Increasing(ms) && forall j :: 0 <= j < |ms| ==> ms[j].number != m.number
    ensures k <= |ms| && r == ms[..k] + [m] + ms[k..]
    ensures Increasing(r) && Members(r) == Members(ms) + {m}
  {
    if ms == [] || ms[0].number > m.number {
      r, k := [m] + ms, 0;
    } else {
      var run := 0;
      while run + 1 < |ms| && !(ms[run + 1].number > m.number)
        invariant run < |ms| && ms[run].number < m.number
      {
        run := run + 1;
      }
      r, k := ms[..run + 1] + [m] + ms[run + 1..], run + 1;
    }
    InsertedMembers(ms, m, k);
    InsertedIncreasing(ms, m, k);
    hide Increasing, Members;
  }

  lemma InsertedIncreasing(ms: seq<Message>, m: Message, k: nat)
    requires k <= |ms| && Increasing(ms)
    requires (k > 0 ==> ms[k - 1].number < m.number) && (k < |ms| ==> m.number < ms[k].number)
    ensures Increasing(ms[..k] + [m] + ms[k..])
  {
    var r := ms[..k] + [m] + ms[k..];
    forall i, j | 0 <= i < j < |r|
      ensures r[i].number < r[j].number
    {
      assert r[i] == if i < k then ms[i] else if i == k then m else ms[i - 1];
      assert r[j] == if j < k then ms[j] else if j == k then m else ms[j - 1];
    }
  }

  lemma InsertedMembers(ms: seq<Message>, m: Message, k: nat)
    requires k <= |ms|
    ensures Members(ms[..k] + [m] + ms[k..]) == Members(ms) + {m}
  {
    assert ms == ms[..k] + ms[k..];
    assert forall x :: x in ms[..k] + [m] + ms[k..] <==> x in ms[..k] || x == m || x in ms[k..];
    assert forall x :: x in ms <==> x in ms[..k] || x in ms[k..];
  }

  // ----- A message with a number given by the user -----

  /** The first message with this number, or |ms|. */
  method FindNumber(ms: seq<Message>, n: int) returns (k: nat)
    ensures k <= |ms| && (k < |ms| ==> ms[k].number == n)
    ensures forall j :: 0 <= j < k ==> ms[j].number != n
  {
    k := 0;
    while k < |ms| && ms[k].number != n
      invariant k <= |ms|
      invariant forall j :: 0 <= j < k ==> ms[j].number != n
    {
      k := k + 1;
    }
  }

  /** The user's number is free once any automatically numbered message that
      holds it has moved on; a number the user gave before is not. */
  predicate Duplicate(ms: seq<Message>, n: int) {
    exists m :: m in ms && m.number == n && m.symbol == None
  }

  ghost predicate InSequence(set': MsgSet) {
    && set'.lastMessage >= 0 && Increasing(set'.messages) && Positive(set'.messages)
    && AtMost(set'.messages, set'.lastMessage)
  }

  function Renumber(m: Message, from: int, to: int): Message {
    if m.number == from then m.(number := to) else m
  }

  predicate HasNumber(ms: seq<Message>, n: int) {
    exists m :: m in ms && m.number == n
  }

  /** An automatically numbered message with this number takes the next unused
      one and moves to the end of the list. */
  method MoveClash(before: MsgSet, n: int) returns (after: MsgSet)
    requires InSequence(before) && !Duplicate(before.messages, n)
    ensures InSequence(after) && !HasNumber(after.messages, n)
    ensures !HasNumber(before.messages, n) ==> after == before
    ensures after.number == before.number && after.symbol == before.symbol
    ensures after.lastMessage == before.lastMessage + if HasNumber(before.messages, n) then 1 else 0
    ensures Members(after.messages) == set m | m in before.messages :: Renumber(m, n, before.lastMessage + 1)
  {
    var ms := before.messages;
    var k := FindNumber(ms, n);
    if k == |ms| {
      assert forall m :: m in ms ==> Renumber(m, n, before.lastMessage + 1) == m;
      return before;
    }
    var moved := ms[k].(number := before.lastMessage + 1);
    var rest := ms[..k] + ms[k + 1..];
    after := before.(messages := rest + [moved], lastMessage := before.lastMessage + 1);
    MovedMembers(ms, k, before.lastMessage + 1);
    assert ms[k] in ms;
  }

  lemma MovedMembers(ms: seq<Message>, k: nat, to: int)
    requires k < |ms| && Increasing(ms)
    ensures Members(ms[..k] + ms[k + 1..] + [ms[k].(number := to)])
         == set m | m in ms :: Renumber(m, ms[k].number, to)
  {
    var n, rest := ms[k].number, ms[..k] + ms[k + 1..];
    var all := set m | m in ms :: Renumber(m, n, to);
    assert ms == ms[..k] + [ms[k]] + ms[k + 1..];
    forall m | m in rest
      ensures m in all
    {
      assert m in ms && Renumber(m, n, to) == m;
    }
    forall m | m in ms
      ensures Renumber(m, n, to) in rest + [ms[k].(number := to)]
    {
      if m != ms[k] {
        assert m in rest && m.number != n;
      }
    }
    assert Renumber(ms[k], n, to) in all;
  }

  lemma OneWithNumber(ms: seq<Message>, k: nat)
    requires k < |ms| && Increasing(ms)
    ensures HasNumber(ms, ms[k].number)
    ensures Duplicate(ms, ms[k].number) <==> ms[k].symbol == None
  {
    assert ms[k] in ms;
  }

  lemma MembersBound(ms: seq<Message>, r: seq<Message>, m: Message, last: int)
    requires Members(r) == Members(ms) + {m}
    requires Positive(ms) && AtMost(ms, last) && 1 <= m.number <= last
    ensures Positive(r) && AtMost(r, last)
  {
    forall j | 0 <= j < |r|
      ensures 1 <= r[j].number <= last
    {
      assert r[j] in Members(r);
    }
  }

  /** The members after a numbered line has been accepted. */
  function AfterNumbered(before: MsgSet, n: int, text: Text, convertible: bool): set<Message> {
    (set m | m in before.messages :: Renumber(m, n, before.lastMessage + 1))
    + if convertible then {Message(n, text, None)} else {}
  }

  ghost predicate NumberedStep(before: MsgSet, n: nat, text: Text, convertible: bool, after: MsgSet, counted: bool) {
    && InSequence(after) && after.number == before.number && after.symbol == before.symbol
    && if n == 0 || Duplicate(before.messages, n) then after == before && counted
       else
         && after.lastMessage == LastAfter(before, n) && counted == convertible
         && Members(after.messages) == AfterNumbered(before, n, text, convertible)
  }

  /** The highest number in use: a clashing message has taken the next one, and n
      itself may be higher still. */
  function LastAfter(before: MsgSet, n: int): int {
    var moved := before.lastMessage + if HasNumber(before.messages, n) then 1 else 0;
    if n > moved then n else moved
  }

  /** A numbered line.  `convertible` says whether the text survives character
      set conversion; a line that does not is dropped, but only after a clashing
      message has already moved.  `counted` says whether total_messages grows. */
  method AddNumbered(before: MsgSet, n: nat, text: Text, convertible: bool) returns (after: MsgSet, counted: bool)
    requires InSequence(before)
    ensures NumberedStep(before, n, text, convertible, after, counted)
  {
    var number := n;
    after := before;
    var k := FindNumber(before.messages, n);
    if k < |before.messages| {
      OneWithNumber(before.messages, k);
      if before.messages[k].symbol == None {
        number := 0;
      } else {
        after := MoveClash(before, n);
      }
    } else {
      assert forall m :: m in before.messages ==> Renumber(m, n, before.lastMessage + 1) == m;
    }
    if number != 0 && number > after.lastMessage {
      after := after.(lastMessage := number);
    }
    if number == 0 {
      return after, true;
    }
    if !convertible {
      return after, false;
    }
    var r, at := InsertSorted(after.messages, Message(n, text, None));
    MembersBound(after.messages, r, Message(n, text, None), after.lastMessage);
    after := after.(messages := r);
    return after, true;
  }

  // ----- A message with a symbolic name -----

  predicate HasSymbol(ms: seq<Message>, ident: string) {
    exists m :: m in ms && m.symbol == Some(ident)
  }

  method FindSymbol(ms: seq<Message>, ident: string) returns (found: bool)
    ensures found == HasSymbol(ms, ident)
  {
    var k := 0;
    while k < |ms| && ms[k].symbol != Some(ident)
      invariant k <= |ms|
      invariant forall j :: 0 <= j < k ==> ms[j].symbol != Some(ident)
    {
      k := k + 1;
    }
    found := k < |ms|;
  }

  ghost predicate SymbolicStep(before: MsgSet, ident: string, text: Text, convertible: bool, after: MsgSet,
                               counted: bool) {
    && InSequence(after) && after.number == before.number && after.symbol == before.symbol
    && if HasSymbol(before.messages, ident) then after == before && counted
       else
         && after.lastMessage == before.lastMessage + 1 && counted == convertible
         && Members(after.messages)
            == Members(before.messages)
               + if convertible then {Message(before.lastMessage + 1, text, Some(ident))} else {}
  }

  /** A symbolic line: the next unused number, if the name is new. */
  method AddSymbolic(before: MsgSet, ident: string, text: Text, convertible: bool)
    returns (after: MsgSet, counted: bool)
    requires InSequence(before)
    ensures SymbolicStep(before, ident, text, convertible, after, counted)
  {
    var found := FindSymbol(before.messages, ident);
    if found {
      return before, true;
    }
    var number := before.lastMessage + 1;
    after := before.(lastMessage := number);
    if !convertible {
      return after, false;
    }
    var m := Message(number, text, Some(ident));
    var r, at := InsertSorted(after.messages, m);
    MembersBound(after.messages, r, m, number);
    after := after.(messages := r);
    return after, true;
  }

  // ----- What a line makes of a set, seen through lookups -----

  /** An accepted numbered line defines its number, sends a clashing automatic
      message to the next unused number with its text intact, and leaves every
      other number alone. */
  lemma NumberedMeaning(before: MsgSet, n: nat, text: Text, after: MsgSet, q: int)
    requires InSequence(before) && n > 0 && !Duplicate(before.messages, n)
    requires NumberedStep(before, n, text, true, after, true)
    ensures FindMsg(after.messages, q)
         == if q == n then Some(text)
            else if q == before.lastMessage + 1 && HasNumber(before.messages, n) then FindMsg(before.messages, n)
            else FindMsg(before.messages, q)
  {
    var was, now := before.messages, after.messages;
    var source := if q == before.lastMessage + 1 && HasNumber(was, n) then n else q;
    forall t
      ensures FindMsg(now, q) == Some(t) <==> (if q == n then t == text else FindMsg(was, source) == Some(t))
    {
      FindIsMember(now, q, t);
      FindIsMember(was, source, t);
      if q == n {
        assert Message(n, text, None) in Members(now);
        FindIsMember(now, n, text);
      } else if exists m :: m in was && m.number == source && m.text == t {
        var m :| m in was && m.number == source && m.text == t;
        assert Renumber(m, n, before.lastMessage + 1) in Members(now);
        assert Renumber(m, n, before.lastMessage + 1).number == q;
      }
    }
  }

  /** An accepted symbolic line adds the next unused number. */
  lemma SymbolicMeaning(before: MsgSet, ident: string, text: Text, after: MsgSet, q: int)
    requires InSequence(before) && !HasSymbol(before.messages, ident)
    requires SymbolicStep(before, ident, text, true, after, true)
    ensures FindMsg(after.messages, q) == if q == before.lastMessage + 1 then Some(text)
            else FindMsg(before.messages, q)
  {
    var was, now, m := before.messages, after.messages, Message(before.lastMessage + 1, text, Some(ident));
    forall t
      ensures FindMsg(now, q) == Some(t) <==> (if q == m.number then t == text else FindMsg(was, q) == Some(t))
    {
      FindIsMember(now, q, t);
      FindIsMember(was, q, t);
      assert m in Members(now);
      FindIsMember(now, m.number, text);
      assert forall x :: x in now <==> x in was || x == m by {
        assert forall x :: x in now <==> x in Members(now);
      }
    }
  }

  // ----- Lines as the meaning has them -----

  lemma NumberUsed(ms: seq<Message>, n: int)
    requires Increasing(ms)
    ensures HasNumber(ms, n) <==> n in Items(ms)
    ensures Duplicate(ms, n) <==> UserGave(Items(ms), n)
  {
    hide Items, Increasing;
    ItemsAre(ms);
  }

  /** The list operation for a numbered line is the meaning of that line. */
  lemma NumberedIsMeant(before: MsgSet, n: nat, text: Text, convertible: bool, after: MsgSet, counted: bool)
    requires InSequence(before) && NumberedStep(before, n, text, convertible, after, counted)
    ensures (BlockOf(after), counted) == GaveNumber(BlockOf(before), n, text, convertible)
  {
    hide Items, Increasing, Positive, AtMost, Members, AfterNumbered, HasNumber, Duplicate, UserGave;
    NumberUsed(before.messages, n);
    var now := Items(after.messages);
    if n != 0 && !Duplicate(before.messages, n) {
      var meant := GaveNumber(BlockOf(before), n, text, convertible).0.items;
      forall k
        ensures k in now <==> k in meant
        ensures k in now ==> now[k] == meant[k]
      {
        NumberedItem(before, n, text, convertible, after, k);
      }
      assert now == meant;
    }
  }

  /** The same for one number. */
  lemma NumberedItem(before: MsgSet, n: nat, text: Text, convertible: bool, after: MsgSet, k: int)
    requires InSequence(before) && InSequence(after) && n != 0 && !Duplicate(before.messages, n)
    requires Members(after.messages) == AfterNumbered(before, n, text, convertible)
    ensures var now, meant := Items(after.messages), GaveNumber(BlockOf(before), n, text, convertible).0.items;
            (k in now <==> k in meant) && (k in now ==> now[k] == meant[k])
  {
    hide Items, Increasing, Positive, AtMost, FindMsg;
    ItemsAre(before.messages);
    ItemsAre(after.messages);
    NumberUsed(before.messages, n);
    var was, now := Items(before.messages), Items(after.messages);
    var last := before.lastMessage;
    var meant := GaveNumber(BlockOf(before), n, text, convertible).0.items;
    if k in now {
      var m := Message(k, now[k].text, now[k].symbol);
      assert m in Members(after.messages);
      if m != Message(n, text, None) || !convertible {
        var x :| x in before.messages && Renumber(x, n, last + 1) == m;
        assert x.number in was && was[x.number] == Item(x.text, x.symbol);
      }
    }
    if k in meant {
      var m := Message(k, meant[k].text, meant[k].symbol);
      if k == n && convertible {
        assert Message(n, text, None) in Members(after.messages);
      } else {
        var source := if k == last + 1 && n in was then n else k;
        var x := Message(source, was[source].text, was[source].symbol);
        assert x in before.messages;
        assert Renumber(x, n, last + 1) in Members(after.messages);
        assert Renumber(x, n, last + 1) == m;
      }
    }
  }

  lemma SymbolicIsMeant(before: MsgSet, ident: string, text: Text, convertible: bool, after: MsgSet, counted: bool)
    requires InSequence(before) && SymbolicStep(before, ident, text, convertible, after, counted)
    ensures (BlockOf(after), counted) == GaveSymbol(BlockOf(before), ident, text, convertible)
  {
    hide Items, HasSymbol, SymbolUsed, Increasing, Positive, AtMost, Members;
    HasSymbolIs(before.messages, ident);
    if !HasSymbol(before.messages, ident) {
      var now := Items(after.messages);
      var meant := GaveSymbol(BlockOf(before), ident, text, convertible).0.items;
      forall k
        ensures k in now <==> k in meant
        ensures k in now ==> now[k] == meant[k]
      {
        SymbolicItem(before, ident, text, convertible, after, k);
      }
      assert now == meant;
    }
  }

  lemma HasSymbolIs(ms: seq<Message>, ident: string)
    requires Increasing(ms)
    ensures HasSymbol(ms, ident) <==> SymbolUsed(Items(ms), ident)
  {
    hide Items;
    ItemsAre(ms);
    var was := Items(ms);
    if m :| m in ms && m.symbol == Some(ident) {
      assert was[m.number].symbol == Some(ident);
    }
    if k :| k in was && was[k].symbol == Some(ident) {
      assert Message(k, was[k].text, was[k].symbol) in ms;
    }
  }

  /** The same for one number. */
  lemma SymbolicItem(before: MsgSet, ident: string, text: Text, convertible: bool, after: MsgSet, k: int)
    requires Increasing(before.messages) && Increasing(after.messages)
    requires !SymbolUsed(Items(before.messages), ident)
    requires Members(after.messages)
          == Members(before.messages)
             + if convertible then {Message(before.lastMessage + 1, text, Some(ident))} else {}
    requires AtMost(before.messages, before.lastMessage)
    ensures var now, meant := Items(after.messages), GaveSymbol(BlockOf(before), ident, text, convertible).0.items;
            (k in now <==> k in meant) && (k in now ==> now[k] == meant[k])
  {
    hide Items, SymbolUsed, Increasing;
    ItemsAre(before.messages);
    ItemsAre(after.messages);
    var was, now := Items(before.messages), Items(after.messages);
    if k in now {
      assert Message(k, now[k].text, now[k].symbol) in Members(after.messages);
    }
    if k in was {
      assert Message(k, was[k].text, was[k].symbol) in Members(after.messages);
    }
    if convertible {
      assert Message(before.lastMessage + 1, text, Some(ident)) in Members(after.messages);
    }
  }

  // ----- The catalog under construction -----

  lemma NumberedOrdered(sets: seq<MsgSet>)
    requires Numbered(sets)
    ensures Ordered(sets)
  {
  }

  class Catalog {
    var allSets: seq<MsgSet>
    /** The number of the set current_set points to. */
    var currentSet: int
    var totalMessages: nat
    var lastSet: int

    ghost predicate Valid()
      reads this
    {
      && Numbered(allSets) && lastSet >= 0
      && exists k :: 0 <= k < |allSets| && allSets[k].number == currentSet
    }

    /** What has been said so far. */
    ghost function Abs(): Said
      reads this
    {
      Said(Blocks(allSets), currentSet, totalMessages, lastSet)
    }

    /** The current set is among those said. */
    lemma CurrentSaid()
      requires Valid()
      ensures Abs().current in Abs().blocks && Abs().lastSet >= 0
      ensures Abs().blocks[currentSet] == BlockOf(CurrentMessages())
    {
      var k :| 0 <= k < |allSets| && allSets[k].number == currentSet;
      BlocksAt(allSets, k);
    }

    ghost function CurrentMessages(): MsgSet
      requires Valid()
      reads this
    {
      var k :| 0 <= k < |allSets| && allSets[k].number == currentSet;
      allSets[k]
    }

    constructor ()
      ensures Valid() && allSets == [MsgSet(NL_SETD + 1, [], 0, None)] && Abs() == NOTHING_SAID
    {
      allSets := [MsgSet(NL_SETD + 1, [], 0, None)];
      currentSet := NL_SETD + 1;
      totalMessages := 0;
      lastSet := 0;
      new;
      assert allSets[0].number == currentSet;
      BlocksPrepended([], allSets[0]);
      assert [allSets[0]] + [] == allSets;
    }

    /** find_set: the set with this number (stored one higher), made on demand. */
    method FindSet(number: nat) returns (k: nat)
      requires Ordered(allSets)
      modifies this`allSets
      ensures Ordered(allSets) && (old(Numbered(allSets)) ==> Numbered(allSets))
      ensures k < |allSets| && allSets[k].number == number + 1
      ensures allSets == old(allSets) || (k == 0 && allSets == [MsgSet(number + 1, [], 0, None)] + old(allSets))
      ensures Blocks(allSets) == Opened(Blocks(old(allSets)), number)
      ensures forall s, n :: FindIn(allSets, s, n) == FindIn(old(allSets), s, n)
    {
      k := 0;
      while k < |allSets|
        invariant k <= |allSets|
        invariant forall i :: 0 <= i < k ==> allSets[i].number != number + 1
      {
        if allSets[k].number == number + 1 {
          BlocksAt(allSets, k);
          return;
        }
        k := k + 1;
      }
      var made := MsgSet(number + 1, [], 0, None);
      forall s, n
        ensures FindIn([made] + allSets, s, n) == FindIn(allSets, s, n)
      {
        FindInPrepended(allSets, made, s, n);
      }
      PrependOrdered(allSets, made);
      BlocksPrepended(allSets, made);
      BlocksKeys(allSets, number + 1);
      allSets := [made] + allSets;
      k := 0;
    }

    /** `$set`: enter a set, recording its symbolic name. */
    method EnterSet(number: nat, symbol: Option<string>)
      requires Valid()
      modifies this`allSets, this`currentSet
      ensures Valid() && Abs() == Entered(old(Abs()), number, symbol)
      ensures currentSet == number + 1
      ensures forall s, n :: FindIn(allSets, s, n) == FindIn(old(allSets), s, n)
    {
      hide FindIn, Increasing, AtMost, Positive, Blocks, Items;
      var k := FindSet(number);
      var after := allSets[k].(symbol := symbol);
      RenamedFind(allSets, k, after);
      BlocksAt(allSets, k);
      BlocksUpdated(allSets, k, after);
      allSets := allSets[k := after];
      currentSet := number + 1;
      assert allSets[k].number == currentSet;
    }

    /** Follows current_set. */
    method Current() returns (k: nat)
      requires Valid()
      ensures k < |allSets| && allSets[k].number == currentSet && allSets[k] == CurrentMessages()
    {
      k := 0;
      while allSets[k].number != currentSet
        invariant k < |allSets|
        invariant exists i :: k <= i < |allSets| && allSets[i].number == currentSet
        decreases |allSets| - k
      {
        k := k + 1;
      }
    }

    method Store(k: nat, after: MsgSet, counted: bool)
      requires Valid() && k < |allSets| && allSets[k].number == currentSet == after.number && InSequence(after)
      modifies this`allSets, this`totalMessages
      ensures Valid() && CurrentMessages() == after
      ensures forall s, n :: s != currentSet ==> FindIn(allSets, s, n) == FindIn(old(allSets), s, n)
      ensures forall n :: FindIn(allSets, currentSet, n) == FindMsg(after.messages, n)
      ensures Abs() == WithCurrent(old(Abs()), (BlockOf(after), counted))
    {
      hide FindIn, FindMsg, Increasing, AtMost, Positive, Blocks, BlockOf;
      BlocksUpdated(allSets, k, after);
      forall n
        ensures FindIn(allSets[k := after], currentSet, n) == FindMsg(after.messages, n)
      {
        FindInUpdated(allSets, k, after, currentSet, n);
      }
      forall s, n | s != currentSet
        ensures FindIn(allSets[k := after], s, n) == FindIn(allSets, s, n)
      {
        FindInUpdated(allSets, k, after, s, n);
      }
      allSets := allSets[k := after];
      assert allSets[k].number == currentSet;
      if counted {
        totalMessages := totalMessages + 1;
      }
    }

    /** One line of an input file: the lists keep their order and bounds, and what
        they say changes as the line means. */
    method ReadLine(line: Line)
      requires Valid()
      modifies this
      ensures Valid()
      ensures old(Abs()).current in old(Abs()).blocks && old(Abs()).lastSet >= 0
      ensures Abs() == Take(old(Abs()), line)
      ensures currentSet == match line
                            case SetNumber(n) => if n != 0 then n + 1 else old(currentSet)
                            case SetName(name) =>
                              if exists known <- old(allSets) :: known.symbol == Some(name) then old(currentSet)
                              else old(lastSet) + 2
                            case _ => old(currentSet)
    {
      hide FindIn, Increasing, AtMost, Positive, Blocks, BlockOf, NameUsed, Opened, GaveNumber, GaveSymbol;
      CurrentSaid();
      match line
      case SetNumber(number) =>
        if number > lastSet {
          lastSet := number;
        }
        if number != 0 {
          EnterSet(number, None);
        }
      case SetName(name) =>
        NamesAgree(allSets, name);
        var used := exists known <- allSets :: known.symbol == Some(name);
        if !used {
          lastSet := lastSet + 1;
          EnterSet(lastSet, Some(name));
        }
      case DelSet(number) => DeleteSet(number);
      case NumberLine(n, text, convertible) => AddNumberLine(n, text, convertible);
      case SymbolLine(ident, text, convertible) => AddSymbolLine(ident, text, convertible);
      case Other =>
    }

    /** `$delset` marks a set, which is made if need be; nothing reads the mark. */
    method DeleteSet(number: nat)
      requires Valid()
      modifies this`allSets
      ensures Valid() && Blocks(allSets) == Opened(old(Abs()).blocks, number)
    {
      hide FindIn, Numbered, Ordered, Blocks, Opened;
      ghost var i :| 0 <= i < |allSets| && allSets[i].number == currentSet;
      NumberedOrdered(allSets);
      var k := FindSet(number);
      assert allSets[if allSets == old(allSets) then i else i + 1].number == currentSet;
    }

    method AddNumberLine(n: nat, text: Text, convertible: bool)
      requires Valid()
      modifies this`allSets, this`totalMessages
      ensures Valid() && currentSet in Blocks(old(allSets))
      ensures Abs() == WithCurrent(old(Abs()), GaveNumber(Blocks(old(allSets))[currentSet], n, text, convertible))
    {
      hide FindIn, Increasing, AtMost, Positive, Blocks, BlockOf, GaveNumber, Members, AfterNumbered;
      CurrentSaid();
      var k := Current();
      var after, counted := AddNumbered(allSets[k], n, text, convertible);
      NumberedIsMeant(allSets[k], n, text, convertible, after, counted);
      Store(k, after, counted);
    }

    method AddSymbolLine(ident: string, text: Text, convertible: bool)
      requires Valid()
      modifies this`allSets, this`totalMessages
      ensures Valid() && currentSet in Blocks(old(allSets))
      ensures Abs() == WithCurrent(old(Abs()), GaveSymbol(Blocks(old(allSets))[currentSet], ident, text, convertible))
    {
      hide FindIn, Increasing, AtMost, Positive, Blocks, BlockOf, GaveSymbol, Members;
      CurrentSaid();
      var k := Current();
      var after, counted := AddSymbolic(allSets[k], ident, text, convertible);
      SymbolicIsMeant(allSets[k], ident, text, convertible, after, counted);
      Store(k, after, counted);
    }

    /** Whole input files: what the lists say in the end is what the lines mean. */
    method ReadLines(lines: seq<Line>)
      requires Valid()
      modifies this
      ensures Valid()
      ensures old(Abs()).current in old(Abs()).blocks && old(Abs()).lastSet >= 0
      ensures Abs() == TakeAll(old(Abs()), lines)
    {
      hide Take, Blocks;
      CurrentSaid();
      for i := 0 to |lines|
        invariant Valid() && Abs() == TakeAll(old(Abs()), lines[..i])
      {
        ReadLine(lines[i]);
        assert lines[..i + 1][..i] == lines[..i];
      }
      assert lines[..|lines|] == lines;
    }

    /** read_old: merges the catalog already on disk, slot by slot. */
    method ReadOld(info: Info, ghost es: seq<Entry>)
      requires Ordered(allSets) && Indexed(info, es) && Keyed(es) && OncePerKey(info)
      modifies this`allSets, this`totalMessages
      ensures Ordered(allSets) && totalMessages == old(totalMessages) + |NewKeys(old(allSets), es)|
      ensures forall s, n :: FindIn(allSets, s, n) == Merged(FindIn(old(allSets), s, n), FindEntry(es, s, n))
      ensures forall s, n :: FindIn(old(allSets), s, n).Some? && FindIn(old(allSets), s, n) != Some(EMPTY_TEXT) ==>
                FindIn(allSets, s, n) == FindIn(old(allSets), s, n)
      ensures forall s, n :: FindIn(old(allSets), s, n) == Some(EMPTY_TEXT) ==>
                FindIn(allSets, s, n) == if FindEntry(es, s, n).Some? then None else Some(EMPTY_TEXT)
      ensures forall s, n :: FindIn(old(allSets), s, n) == None ==> FindIn(allSets, s, n) == FindEntry(es, s, n)
    {
      hide FindIn, FindEntry, Seen, Keyed, Indexed, OncePerKey, MergedTo, NewSeen, NewKeys;
      ghost var was := allSets;
      IndexedShape(info, es);
      var lastSet: int, k: int := -1, 0;
      NothingSeen(was, info, es);
      NoneSeen(was, info);
      for cnt := 0 to info.planeSize * info.planeDepth
        invariant Ordered(allSets) && totalMessages == old(totalMessages) + |NewSeen(was, info, cnt)|
        invariant lastSet >= 0 ==> 0 <= k < |allSets| && allSets[k].number == lastSet + 1
        invariant MergedTo(was, allSets, info, es, cnt)
      {
        NewSeenNext(was, info, cnt);
        if info.namePtr[3 * cnt] == 0 {
          EmptySlotSeen(was, allSets, info, es, cnt);
          continue;
        }
        if info.namePtr[3 * cnt] - 1 != lastSet {
          lastSet := info.namePtr[3 * cnt] - 1;
          ghost var before := allSets;
          k := FindSet(lastSet);
          SameFound(was, before, allSets, info, es, cnt);
        }
        var added := MergeSlot(info, es, cnt, k, was);
        if added {
          totalMessages := totalMessages + 1;
        }
      }
      AllMerged(was, allSets, info, es);
      NewSeenAll(was, info, es);
    }

    /** One occupied slot, its set already found at position k. */
    method MergeSlot(info: Info, ghost es: seq<Entry>, cnt: nat, k: nat, ghost was: seq<MsgSet>) returns (added: bool)
      requires Ordered(allSets) && info.Shaped() && Indexed(info, es) && Keyed(es) && OncePerKey(info)
      requires cnt < info.planeSize * info.planeDepth && k < |allSets|
      requires allSets[k].number == info.namePtr[3 * cnt] >= 1
      requires MergedTo(was, allSets, info, es, cnt)
      modifies this`allSets
      ensures Ordered(allSets) && |allSets| == |old(allSets)| && allSets[k].number == old(allSets[k].number)
      ensures MergedTo(was, allSets, info, es, cnt + 1)
      ensures added <==> FindIn(was, info.namePtr[3 * cnt], info.namePtr[3 * cnt + 1]) == None
    {
      hide FindIn, FindEntry, Seen, Keyed, Indexed, OncePerKey, MergedTo;
      ghost var t := MatchIsListed(info, es, cnt, info.namePtr[3 * cnt], info.namePtr[3 * cnt + 1]);
      KeyPositive(info, es, cnt);
      var text := ReadString(info.strings, info.namePtr[3 * cnt + 2], t);
      var r;
      r, added := MergeMessage(allSets[k].messages, info.namePtr[3 * cnt + 1], text);
      SlotMerged(was, allSets, info, es, cnt, k, r, text);
      NotYetChanged(was, allSets, info, es, cnt, k);
      allSets := allSets[k := allSets[k].(messages := r)];
    }
  }

  lemma IndexedShape(info: Info, es: seq<Entry>)
    requires Indexed(info, es)
    ensures info.Shaped()
  {
  }

  lemma KeyPositive(info: Info, es: seq<Entry>, c: nat)
    requires Indexed(info, es) && Keyed(es) && c < info.planeSize * info.planeDepth && info.namePtr[3 * c] != 0
    ensures info.namePtr[3 * c + 1] >= 1
  {
    var i := Occupant(info, es, c);
  }

  lemma NothingSeen(was: seq<MsgSet>, info: Info, es: seq<Entry>)
    requires info.Shaped()
    ensures MergedTo(was, was, info, es, 0)
  {
  }

  lemma EmptySlotSeen(was: seq<MsgSet>, now: seq<MsgSet>, info: Info, es: seq<Entry>, cnt: nat)
    requires info.Shaped() && cnt < info.planeSize * info.planeDepth && info.namePtr[3 * cnt] == 0
    requires MergedTo(was, now, info, es, cnt)
    ensures MergedTo(was, now, info, es, cnt + 1)
  {
    hide FindIn, FindEntry, Seen;
    forall s, n
      ensures FindIn(now, s, n) == Want(was, info, es, cnt + 1, s, n)
    {
      SeenNext(info, cnt, s, n);
    }
  }

  lemma SameFound(was: seq<MsgSet>, before: seq<MsgSet>, now: seq<MsgSet>, info: Info, es: seq<Entry>, cnt: nat)
    requires info.Shaped() && cnt <= info.planeSize * info.planeDepth
    requires MergedTo(was, before, info, es, cnt)
    requires forall s, n :: FindIn(now, s, n) == FindIn(before, s, n)
    ensures MergedTo(was, now, info, es, cnt)
  {
    hide FindIn, Want;
  }

  lemma NotSeenYet(info: Info, cnt: nat)
    requires info.Shaped() && OncePerKey(info) && cnt < info.planeSize * info.planeDepth && info.namePtr[3 * cnt] != 0
    ensures !Seen(info, cnt, info.namePtr[3 * cnt], info.namePtr[3 * cnt + 1])
  {
  }

  /** A key not seen yet is listed as it was. */
  lemma NotYetChanged(was: seq<MsgSet>, now: seq<MsgSet>, info: Info, es: seq<Entry>, cnt: nat, k: nat)
    requires Ordered(now) && info.Shaped() && OncePerKey(info)
    requires cnt < info.planeSize * info.planeDepth && k < |now| && now[k].number == info.namePtr[3 * cnt] >= 1
    requires MergedTo(was, now, info, es, cnt)
    ensures FindMsg(now[k].messages, info.namePtr[3 * cnt + 1])
         == FindIn(was, info.namePtr[3 * cnt], info.namePtr[3 * cnt + 1])
  {
    NotSeenYet(info, cnt);
    hide FindIn, FindEntry, Seen, FindMsg, Increasing, Positive, OncePerKey;
    FindInAt(now, k, info.namePtr[3 * cnt + 1]);
    assert FindIn(now, info.namePtr[3 * cnt], info.namePtr[3 * cnt + 1])
        == Want(was, info, es, cnt, info.namePtr[3 * cnt], info.namePtr[3 * cnt + 1]);
  }

  lemma SlotMerged(was: seq<MsgSet>, now: seq<MsgSet>, info: Info, es: seq<Entry>, cnt: nat, k: nat, r: seq<Message>,
                   text: Text)
    requires Ordered(now) && info.Shaped() && OncePerKey(info)
    requires cnt < info.planeSize * info.planeDepth && k < |now|
    requires now[k].number == info.namePtr[3 * cnt] >= 1 && info.namePtr[3 * cnt + 1] >= 1
    requires FindEntry(es, info.namePtr[3 * cnt], info.namePtr[3 * cnt + 1]) == Some(text)
    requires MergedTo(was, now, info, es, cnt)
    requires Increasing(r) && Positive(r)
    requires forall q ::
             FindMsg(r, q) ==
             if q == info.namePtr[3 * cnt + 1] then Merged(FindMsg(now[k].messages, q), Some(text))
             else FindMsg(now[k].messages, q)
    ensures Ordered(now[k := now[k].(messages := r)])
    ensures MergedTo(was, now[k := now[k].(messages := r)], info, es, cnt + 1)
  {
    var after := now[k].(messages := r);
    var updated := now[k := after];
    NotSeenYet(info, cnt);
    forall s, n
      ensures FindIn(updated, s, n) == Want(was, info, es, cnt + 1, s, n)
    {
      hide FindIn, FindEntry, Seen, FindMsg, Increasing, Positive, OncePerKey;
      SeenNext(info, cnt, s, n);
      FindInUpdated(now, k, after, s, n);
      FindInAt(now, k, n);
      assert FindIn(now, s, n) == Want(was, info, es, cnt, s, n);
    }
  }

  lemma AllMerged(was: seq<MsgSet>, now: seq<MsgSet>, info: Info, es: seq<Entry>)
    requires Indexed(info, es) && Keyed(es) && MergedTo(was, now, info, es, info.planeSize * info.planeDepth)
    ensures forall s, n :: FindIn(now, s, n) == Merged(FindIn(was, s, n), FindEntry(es, s, n))
  {
    hide FindIn, FindEntry, Seen, Keyed, Indexed;
    IndexedShape(info, es);
    forall s, n
      ensures FindIn(now, s, n) == Merged(FindIn(was, s, n), FindEntry(es, s, n))
    {
      SeenAll(info, es, s, n);
      assert FindIn(now, s, n) == Want(was, info, es, info.planeSize * info.planeDepth, s, n);
    }
  }

  lemma PrependOrdered(sets: seq<MsgSet>, made: MsgSet)
    requires Ordered(sets) && made.number >= 1 && made.messages == [] && made.lastMessage == 0
    requires forall i :: 0 <= i < |sets| ==> sets[i].number != made.number
    ensures Ordered([made] + sets)
    ensures Numbered(sets) ==> Numbered([made] + sets)
  {
  }
}
