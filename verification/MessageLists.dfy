/** gencat's in-memory catalog: a list of message sets, each with a sorted list of
    messages, and what the two searches through them find. */
module MessageLists {
  import opened Options

  type Byte = n: nat | n < 256
  /** Message text: a C string without its terminating NUL. */
  type Text = s: seq<Byte> | forall i :: 0 <= i < |s| ==> s[i] != 0

  const EMPTY_TEXT: Text := []

  /** symbol is Some for a message whose number was assigned automatically. */
  datatype Message = Message(number: int, text: Text, symbol: Option<string>)

  datatype MsgSet = MsgSet(number: int, messages: seq<Message>, lastMessage: int, symbol: Option<string>)

  // ----- What a catalog says -----

  function FindMsg(ms: seq<Message>, n: int): Option<Text> {
    if ms == [] then None else if ms[0].number == n then Some(ms[0].text) else FindMsg(ms[1..], n)
  }

  /** The text listed for message n of set s. */
  function FindIn(sets: seq<MsgSet>, s: int, n: int): Option<Text> {
    if sets == [] then None
    else if sets[0].number == s then FindMsg(sets[0].messages, n)
    else FindIn(sets[1..], s, n)
  }

  // ----- Invariants -----

  predicate Increasing(ms: seq<Message>) {
    forall i, j :: 0 <= i < j < |ms| ==> ms[i].number < ms[j].number
  }

  predicate DistinctSets(sets: seq<MsgSet>) {
    forall i, j :: 0 <= i < j < |sets| ==> sets[i].number != sets[j].number
  }

  /** Set numbers are positive and distinct, and every message list is strictly
      increasing with positive numbers. */
  ghost predicate Ordered(sets: seq<MsgSet>) {
    && DistinctSets(sets)
    && forall i :: 0 <= i < |sets| ==>
         sets[i].number >= 1 && Increasing(sets[i].messages) && Positive(sets[i].messages)
  }

  predicate Positive(ms: seq<Message>) {
    forall j :: 0 <= j < |ms| ==> ms[j].number >= 1
  }

  predicate AtMost(ms: seq<Message>, last: int) {
    forall j :: 0 <= j < |ms| ==> ms[j].number <= last
  }

  /** Ordered, and no message number exceeds its set's last_message. */
  ghost predicate Numbered(sets: seq<MsgSet>) {
    Ordered(sets) && forall i :: 0 <= i < |sets| ==>
      sets[i].lastMessage >= 0 && AtMost(sets[i].messages, sets[i].lastMessage)
  }

  // ----- Searching a message list -----

  lemma {:induction false} FindMsgAbsent(ms: seq<Message>, n: int)
    requires forall j :: 0 <= j < |ms| ==> ms[j].number != n
    ensures FindMsg(ms, n) == None
  {
    if ms != [] {
      FindMsgAbsent(ms[1..], n);
    }
  }

  lemma {:induction false} FindMsgAt(ms: seq<Message>, k: nat)
    requires k < |ms| && forall j :: 0 <= j < k ==> ms[j].number != ms[k].number
    ensures FindMsg(ms, ms[k].number) == Some(ms[k].text)
  {
    if k > 0 {
      FindMsgAt(ms[1..], k - 1);
    }
  }

  lemma {:induction false} FindMsgSome(ms: seq<Message>, n: int)
    requires FindMsg(ms, n).Some?
    ensures exists k :: 0 <= k < |ms| && ms[k].number == n && FindMsg(ms, n) == Some(ms[k].text)
  {
    if ms[0].number != n {
      FindMsgSome(ms[1..], n);
      var k :| 0 <= k < |ms[1..]| && ms[1..][k].number == n && FindMsg(ms[1..], n) == Some(ms[1..][k].text);
      assert ms[k + 1] == ms[1..][k];
    }
  }

  lemma {:induction false} FindMsgConcat(a: seq<Message>, b: seq<Message>, n: int)
    ensures FindMsg(a + b, n) == if FindMsg(a, n).Some? then FindMsg(a, n) else FindMsg(b, n)
  {
    if a == [] {
      assert a + b == b;
    } else {
      assert (a + b)[1..] == a[1..] + b;
      FindMsgConcat(a[1..], b, n);
    }
  }

  /** Inserting a message with a new number adds it and changes nothing else. */
  lemma FindMsgInserted(a: seq<Message>, m: Message, b: seq<Message>, n: int)
    requires forall j :: 0 <= j < |a| ==> a[j].number != m.number
    ensures FindMsg(a + [m] + b, n) == if n == m.number then Some(m.text) else FindMsg(a + b, n)
  {
    FindMsgConcat(a + [m], b, n);
    FindMsgConcat(a, [m], n);
    FindMsgConcat(a, b, n);
    if n == m.number {
      FindMsgAbsent(a, n);
    }
  }

  /** Removing the only message with its number removes it and nothing else. */
  lemma FindMsgRemoved(a: seq<Message>, m: Message, b: seq<Message>, n: int)
    requires forall j :: 0 <= j < |a| ==> a[j].number != m.number
    requires forall j :: 0 <= j < |b| ==> b[j].number != m.number
    ensures FindMsg(a + b, n) == if n == m.number then None else FindMsg(a + [m] + b, n)
  {
    FindMsgInserted(a, m, b, n);
    if n == m.number {
      FindMsgConcat(a, b, n);
      FindMsgAbsent(a, n);
      FindMsgAbsent(b, n);
    }
  }

  // ----- Searching the sets -----

  lemma {:induction false} FindInAbsent(sets: seq<MsgSet>, s: int, n: int)
    requires forall i :: 0 <= i < |sets| ==> sets[i].number != s
    ensures FindIn(sets, s, n) == None
  {
    if sets != [] {
      FindInAbsent(sets[1..], s, n);
    }
  }

  lemma {:induction false} FindInAt(sets: seq<MsgSet>, k: nat, n: int)
    requires k < |sets| && DistinctSets(sets)
    ensures FindIn(sets, sets[k].number, n) == FindMsg(sets[k].messages, n)
  {
    if k > 0 {
      assert sets[0].number != sets[k].number;
      FindInAt(sets[1..], k - 1, n);
    }
  }

  /** Replacing a set's messages changes what is found in that set only. */
  lemma {:induction false} FindInUpdated(sets: seq<MsgSet>, k: nat, set': MsgSet, s: int, n: int)
    requires k < |sets| && DistinctSets(sets) && set'.number == sets[k].number
    ensures FindIn(sets[k := set'], s, n)
         == if s == sets[k].number then FindMsg(set'.messages, n) else FindIn(sets, s, n)
  {
    var sets' := sets[k := set'];
    if k == 0 {
      assert sets'[1..] == sets[1..];
    } else {
      assert sets'[0] == sets[0] && sets'[1..] == sets[1..][k - 1 := set'];
      assert sets[0].number != sets[k].number;
      FindInUpdated(sets[1..], k - 1, set', s, n);
    }
  }

  /** A new symbol changes nothing that is found. */
  lemma RenamedFind(sets: seq<MsgSet>, k: nat, set': MsgSet)
    requires k < |sets| && DistinctSets(sets)
    requires set'.number == sets[k].number && set'.messages == sets[k].messages
    ensures forall s, n :: FindIn(sets[k := set'], s, n) == FindIn(sets, s, n)
  {
    hide FindIn, FindMsg;
    forall s, n
      ensures FindIn(sets[k := set'], s, n) == FindIn(sets, s, n)
    {
      FindInUpdated(sets, k, set', s, n);
      FindInAt(sets, k, n);
    }
  }

  /** A new set without messages says nothing. */
  lemma FindInPrepended(sets: seq<MsgSet>, set': MsgSet, s: int, n: int)
    requires set'.messages == [] && forall i :: 0 <= i < |sets| ==> sets[i].number != set'.number
    ensures FindIn([set'] + sets, s, n) == FindIn(sets, s, n)
  {
    var all := [set'] + sets;
    assert all[1..] == sets;
    if s == set'.number {
      FindInAbsent(sets, s, n);
    }
  }
}
