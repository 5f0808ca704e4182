/** How an old catalog's message joins a list of new ones. */
module CatalogMerge {
  import opened Options
  import opened MessageLists
  import opened CatalogTable

  /** The merge rule for one key: a new message wins, except that a new empty
      message clashing with an old one deletes it. */
  function Merged(mine: Option<Text>, theirs: Option<Text>): Option<Text> {
    match mine
    case None => theirs
    case Some(t) => if t == [] && theirs.Some? then None else mine
  }

  lemma InsertedInOrder(ms: seq<Message>, k: nat, m: Message)
    requires Increasing(ms) && Positive(ms) && m.number >= 1 && k <= |ms|
    requires forall j :: 0 <= j < k ==> ms[j].number < m.number
    requires k < |ms| ==> ms[k].number > m.number
    ensures Increasing(ms[..k] + [m] + ms[k..]) && Positive(ms[..k] + [m] + ms[k..])
    ensures forall j :: 0 <= j < |ms| ==> ms[j].number != m.number
  {
    forall j | k < j < |ms|
      ensures ms[j].number > m.number
    {
      assert ms[k].number < ms[j].number;
    }
    var r := ms[..k] + [m] + ms[k..];
    forall i, j | 0 <= i < j < |r|
      ensures r[i].number < r[j].number
    {
      assert i < k ==> r[i] == ms[i];
      assert i > k ==> r[i] == ms[i - 1];
      assert j < k ==> r[j] == ms[j];
      assert j > k ==> r[j] == ms[j - 1];
    }
  }

  lemma InsertedFind(ms: seq<Message>, k: nat, m: Message, q: int)
    requires k <= |ms| && forall j :: 0 <= j < |ms| ==> ms[j].number != m.number
    ensures FindMsg(ms, m.number) == None
    ensures FindMsg(ms[..k] + [m] + ms[k..], q) == if q == m.number then Some(m.text) else FindMsg(ms, q)
  {
    hide FindMsg;
    FindMsgAbsent(ms, m.number);
    assert ms == ms[..k] + ms[k..];
    FindMsgInserted(ms[..k], m, ms[k..], q);
  }

  lemma RemovedInOrder(ms: seq<Message>, k: nat)
    requires Increasing(ms) && Positive(ms) && k < |ms|
    ensures Increasing(ms[..k] + ms[k + 1..]) && Positive(ms[..k] + ms[k + 1..])
  {
  }

  lemma RemovedFind(ms: seq<Message>, k: nat, q: int)
    requires Increasing(ms) && k < |ms|
    ensures FindMsg(ms[..k] + ms[k + 1..], q) == if q == ms[k].number then None else FindMsg(ms, q)
  {
    hide FindMsg;
    assert ms == ms[..k] + [ms[k]] + ms[k + 1..];
    FindMsgRemoved(ms[..k], ms[k], ms[k + 1..], q);
  }

  /** One old message against one set's list. */
  method MergeMessage(ms: seq<Message>, n: nat, text: Text) returns (r: seq<Message>, added: bool)
    requires Increasing(ms) && Positive(ms) && n >= 1
    ensures Increasing(r) && Positive(r)
    ensures forall q :: FindMsg(r, q) == if q == n then Merged(FindMsg(ms, n), Some(text)) else FindMsg(ms, q)
    ensures FindMsg(ms, n) == None ==> FindMsg(r, n) == Some(text)
    ensures FindMsg(ms, n) == Some(EMPTY_TEXT) ==> FindMsg(r, n) == None
    ensures FindMsg(ms, n).Some? && FindMsg(ms, n) != Some(EMPTY_TEXT) ==> FindMsg(r, n) == FindMsg(ms, n)
    ensures added <==> FindMsg(ms, n) == None
  {
    hide FindMsg;
    var k := 0;
    while k < |ms| && !(ms[k].number >= n)
      invariant k <= |ms|
      invariant forall j :: 0 <= j < k ==> ms[j].number < n
    {
      k := k + 1;
    }
    if k == |ms| || ms[k].number > n {
      var m := Message(n, text, None);
      InsertedInOrder(ms, k, m);
      r := ms[..k] + [m] + ms[k..];
      forall q
        ensures FindMsg(r, q) == if q == n then Some(text) else FindMsg(ms, q)
      {
        InsertedFind(ms, k, m, q);
      }
      InsertedFind(ms, k, m, n);
      return r, true;
    }
    FindMsgAt(ms, k);
    if ms[k].text == [] {
      RemovedInOrder(ms, k);
      r := ms[..k] + ms[k + 1..];
      forall q
        ensures FindMsg(r, q) == if q == n then None else FindMsg(ms, q)
      {
        RemovedFind(ms, k, q);
      }
      return r, false;
    }
    return ms, false;
  }

  /** The key is in one of the first cnt slots. */
  ghost predicate Seen(info: Info, cnt: nat, s: int, n: int)
    requires info.Shaped() && cnt <= info.planeSize * info.planeDepth
  {
    s != 0 && exists c :: 0 <= c < cnt && info.namePtr[3 * c] == s && info.namePtr[3 * c + 1] == n
  }

  /** What must be listed for a key once the first cnt slots have been merged. */
  ghost function Want(was: seq<MsgSet>, info: Info, es: seq<Entry>, cnt: nat, s: int, n: int): Option<Text>
    requires info.Shaped() && cnt <= info.planeSize * info.planeDepth
  {
    if Seen(info, cnt, s, n) then Merged(FindIn(was, s, n), FindEntry(es, s, n)) else FindIn(was, s, n)
  }

  ghost predicate MergedTo(was: seq<MsgSet>, now: seq<MsgSet>, info: Info, es: seq<Entry>, cnt: nat)
    requires info.Shaped() && cnt <= info.planeSize * info.planeDepth
  {
    forall s, n :: FindIn(now, s, n) == Want(was, info, es, cnt, s, n)
  }

  lemma SeenNext(info: Info, cnt: nat, s: int, n: int)
    requires info.Shaped() && cnt < info.planeSize * info.planeDepth
    ensures Seen(info, cnt + 1, s, n)
       <==> Seen(info, cnt, s, n) || (s != 0 && info.namePtr[3 * cnt] == s && info.namePtr[3 * cnt + 1] == n)
  {
  }

  /** In the end exactly the old catalog's keys have been seen. */
  lemma SeenAll(info: Info, es: seq<Entry>, s: int, n: int)
    requires Indexed(info, es) && Keyed(es)
    ensures Seen(info, info.planeSize * info.planeDepth, s, n) <==> FindEntry(es, s, n).Some?
  {
    var all := info.planeSize * info.planeDepth;
    if Seen(info, all, s, n) {
      var c :| 0 <= c < all && info.namePtr[3 * c] == s && info.namePtr[3 * c + 1] == n;
      var t := MatchIsListed(info, es, c, s, n);
    }
    if FindEntry(es, s, n).Some? {
      FindEntrySome(es, s, n);
      var i :| 0 <= i < |es| && es[i] == Entry(s, n, FindEntry(es, s, n).value);
      var c := SlotFor(info, es, i);
    }
  }

  lemma SlotFor(info: Info, es: seq<Entry>, i: nat) returns (c: nat)
    requires Indexed(info, es) && i < |es|
    ensures c < info.planeSize * info.planeDepth && SlotHolds(info.namePtr, info.strings, c, es[i])
  {
    hide SlotHolds, SlotOf, Hash;
    assert Found(info, es[i]);
    var p :| 0 <= p < info.planeDepth && InPlane(info, es[i], p);
    c := SlotOf(info.planeSize, p, Hash(es[i], info.planeSize));
    SlotInRange(info.planeSize, info.planeDepth, p, Hash(es[i], info.planeSize));
  }

  // ----- How many messages the old catalog adds -----

  /** The old catalog's keys that are not listed. */
  ghost function NewKeys(was: seq<MsgSet>, es: seq<Entry>): set<(int, int)> {
    set e | e in es && FindIn(was, e.set_, e.number) == None :: (e.set_, e.number)
  }

  /** Those in the first cnt slots. */
  ghost function NewSeen(was: seq<MsgSet>, info: Info, cnt: nat): set<(int, int)>
    requires info.Shaped() && cnt <= info.planeSize * info.planeDepth
  {
    set c | 0 <= c < cnt && info.namePtr[3 * c] != 0
            && FindIn(was, info.namePtr[3 * c], info.namePtr[3 * c + 1]) == None
      :: (info.namePtr[3 * c], info.namePtr[3 * c + 1])
  }

  lemma NoneSeen(was: seq<MsgSet>, info: Info)
    requires info.Shaped()
    ensures NewSeen(was, info, 0) == {}
  {
  }

  lemma NewSeenNext(was: seq<MsgSet>, info: Info, cnt: nat)
    requires info.Shaped() && OncePerKey(info) && cnt < info.planeSize * info.planeDepth
    ensures |NewSeen(was, info, cnt + 1)|
         == |NewSeen(was, info, cnt)|
            + if info.namePtr[3 * cnt] != 0
                 && FindIn(was, info.namePtr[3 * cnt], info.namePtr[3 * cnt + 1]) == None then 1 else 0
  {
    hide FindIn;
    var s, n := info.namePtr[3 * cnt], info.namePtr[3 * cnt + 1];
    if s != 0 && FindIn(was, s, n) == None {
      assert (s, n) !in NewSeen(was, info, cnt);
      assert NewSeen(was, info, cnt + 1) == NewSeen(was, info, cnt) + {(s, n)};
    } else {
      assert NewSeen(was, info, cnt + 1) == NewSeen(was, info, cnt);
    }
  }

  lemma NewSeenAll(was: seq<MsgSet>, info: Info, es: seq<Entry>)
    requires Indexed(info, es) && Keyed(es)
    ensures NewSeen(was, info, info.planeSize * info.planeDepth) == NewKeys(was, es)
  {
    var all := info.planeSize * info.planeDepth;
    var seen, keys := NewSeen(was, info, all), NewKeys(was, es);
    forall s: int, n: int
      ensures (s, n) in seen <==> (s, n) in keys
    {
      SeenAll(info, es, s, n);
      NewSeenIs(was, info, all, s, n);
      NewKeysIs(was, es, s, n);
    }
    assert forall p :: p in seen <==> (p.0, p.1) in seen;
    hide NewSeen, NewKeys;
    forall p
      ensures p in seen <==> p in keys
    {
      assert (p.0, p.1) in seen <==> (p.0, p.1) in keys;
    }
  }

  lemma NewSeenIs(was: seq<MsgSet>, info: Info, cnt: nat, s: int, n: int)
    requires info.Shaped() && cnt <= info.planeSize * info.planeDepth
    ensures (s, n) in NewSeen(was, info, cnt) <==> Seen(info, cnt, s, n) && FindIn(was, s, n) == None
  {
    hide FindIn;
  }

  lemma NewKeysIs(was: seq<MsgSet>, es: seq<Entry>, s: int, n: int)
    requires Keyed(es)
    ensures (s, n) in NewKeys(was, es) <==> FindEntry(es, s, n).Some? && FindIn(was, s, n) == None
  {
    hide FindIn, FindEntry;
    if FindEntry(es, s, n).Some? {
      FindEntrySome(es, s, n);
    }
    if e :| e in es && e.set_ == s && e.number == n {
      var i :| 0 <= i < |es| && es[i] == e;
      FindEntryAt(es, i);
    }
  }
}
