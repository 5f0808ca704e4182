/** What argp's parsers get to see: the log of calls made to them, and the order
    those calls must come in. */
module ArgpTrace {
  import opened ArgpConvert

  /** Pointers handed to parsers; 0 is the null pointer. */
  type Value = int

  const EBADKEY := 7
  const EINVAL := 22

  const KEY_ARG := 0
  const KEY_END := 0x100_0001
  const KEY_NO_ARGS := 0x100_0002
  const KEY_INIT := 0x100_0003
  const KEY_SUCCESS := 0x100_0004
  const KEY_ERROR := 0x100_0005
  const KEY_ARGS := 0x100_0006
  const KEY_FINI := 0x100_0007

  /** What a call to a parser did: the error it returned and the fields of struct
      argp_state it left behind.  `writes` are its stores into child_inputs. */
  datatype Reaction = Reaction(err: int, next: int, argc: int, quoted: int, noArgs: bool, hook: Value,
                               writes: map<nat, Value>)

  /** A call: the fields swapped in for the group, the position, and the reaction. */
  datatype Event = Event(group: nat, key: int, input: Value, hook: Value, argNum: nat, next: int, reaction: Reaction)

  datatype Call = Call(group: nat, key: int)

  function Calls(log: seq<Event>): (cs: seq<Call>) {
    seq(|log|, k requires 0 <= k < |log| => Call(log[k].group, log[k].key))
  }

  /** The keys of the calls to group g, in order. */
  function KeysOf(calls: seq<Call>, g: nat): seq<int> {
    if calls == [] then []
    else (if calls[0].group == g then [calls[0].key] else []) + KeysOf(calls[1..], g)
  }

  lemma {:induction false} KeysOfConcat(a: seq<Call>, b: seq<Call>, g: nat)
    ensures KeysOf(a + b, g) == KeysOf(a, g) + KeysOf(b, g)
  {
    if a == [] {
      assert a + b == b;
    } else {
      assert (a + b)[1..] == a[1..] + b;
      KeysOfConcat(a[1..], b, g);
      var own := if a[0].group == g then [a[0].key] else [];
      assert own + (KeysOf(a[1..], g) + KeysOf(b, g)) == own + KeysOf(a[1..], g) + KeysOf(b, g);
    }
  }

  /** An error that stops a round of calls. */
  predicate Fatal(err: int) {
    err != 0 && err != EBADKEY
  }

  // ----- Rounds of calls -----

  predicate HasParser(groups: seq<Group>, g: nat) {
    g < |groups| && groups[g].node.hasParser
  }

  /** The groups from lo up to hi that have a parser, in order. */
  function Up(groups: seq<Group>, lo: nat, hi: nat): seq<nat>
    decreases hi
  {
    if hi <= lo then [] else Up(groups, lo, hi - 1) + if HasParser(groups, hi - 1) then [hi - 1] else []
  }

  /** The same groups in reverse. */
  function Down(groups: seq<Group>, lo: nat, hi: nat): seq<nat>
    decreases hi - lo
  {
    if hi <= lo then [] else Down(groups, lo + 1, hi) + if HasParser(groups, lo) then [lo] else []
  }

  /** The groups below hi that have a parser and have processed no argument. */
  function Idle(groups: seq<Group>, processed: seq<nat>, hi: nat): seq<nat> {
    if hi == 0 then []
    else Idle(groups, processed, hi - 1)
         + if HasParser(groups, hi - 1) && hi <= |processed| && processed[hi - 1] == 0 then [hi - 1] else []
  }

  function Each(ids: seq<nat>, key: int): seq<Call> {
    seq(|ids|, k requires 0 <= k < |ids| => Call(ids[k], key))
  }

  predicate InUp(groups: seq<Group>, lo: nat, hi: nat, g: nat) {
    lo <= g < hi && HasParser(groups, g)
  }

  lemma EachConcat(a: seq<nat>, b: seq<nat>, key: int)
    ensures Each(a + b, key) == Each(a, key) + Each(b, key)
  {
  }

  lemma KeysOfEach(ids: seq<nat>, key: int, last: nat, g: nat)
    ensures KeysOf(Each(ids + [last], key), g) == KeysOf(Each(ids, key), g) + if last == g then [key] else []
  {
    EachConcat(ids, [last], key);
    KeysOfConcat(Each(ids, key), Each([last], key), g);
  }

  lemma NoKeys(key: int, g: nat)
    ensures KeysOf(Each([], key), g) == []
  {
  }

  lemma {:induction false} UpOnce(groups: seq<Group>, lo: nat, hi: nat, key: int, g: nat)
    ensures KeysOf(Each(Up(groups, lo, hi), key), g) == if InUp(groups, lo, hi, g) then [key] else []
    decreases hi
  {
    NoKeys(key, g);
    hide KeysOf, Each;
    if hi > lo {
      UpOnce(groups, lo, hi - 1, key, g);
      KeysOfEach(Up(groups, lo, hi - 1), key, hi - 1, g);
      assert Up(groups, lo, hi - 1) + [] == Up(groups, lo, hi - 1);
    }
  }

  lemma {:induction false} DownOnce(groups: seq<Group>, lo: nat, hi: nat, key: int, g: nat)
    ensures KeysOf(Each(Down(groups, lo, hi), key), g) == if InUp(groups, lo, hi, g) then [key] else []
    decreases hi - lo
  {
    NoKeys(key, g);
    hide KeysOf, Each;
    if hi > lo {
      DownOnce(groups, lo + 1, hi, key, g);
      KeysOfEach(Down(groups, lo + 1, hi), key, lo, g);
      assert Down(groups, lo + 1, hi) + [] == Down(groups, lo + 1, hi);
    }
  }

  lemma {:induction false} IdleOnce(groups: seq<Group>, processed: seq<nat>, hi: nat, key: int, g: nat)
    ensures KeysOf(Each(Idle(groups, processed, hi), key), g)
         == if g < hi && HasParser(groups, g) && g < |processed| && processed[g] == 0 then [key] else []
  {
    NoKeys(key, g);
    hide KeysOf, Each;
    if hi > 0 {
      IdleOnce(groups, processed, hi - 1, key, g);
      KeysOfEach(Idle(groups, processed, hi - 1), key, hi - 1, g);
      assert Idle(groups, processed, hi - 1) + [] == Idle(groups, processed, hi - 1);
    }
  }

  // ----- The order of calls in a whole run -----

  /** A key that stands for an option or an argument, not for a stage of the run. */
  predicate Ordinary(key: int) {
    key !in [KEY_END, KEY_NO_ARGS, KEY_INIT, KEY_SUCCESS, KEY_ERROR, KEY_FINI]
  }

  predicate Outcome(key: int) {
    key in [KEY_SUCCESS, KEY_ERROR]
  }

  ghost predicate OrdinaryCalls(calls: seq<Call>) {
    forall k :: 0 <= k < |calls| ==> Ordinary(calls[k].key)
  }

  /** How a run ended: the options and arguments handled (`middle`), how far the
      rounds of NO_ARGS, END and SUCCESS got, and whether it failed. */
  datatype Course = Course(middle: seq<Call>, noArgsTo: nat, endFrom: nat, failed: bool, successFrom: nat)

  ghost predicate Followed(groups: seq<Group>, processed: seq<nat>, calls: seq<Call>, err: int, c: Course) {
    var n := |groups|;
    && OrdinaryCalls(c.middle) && c.noArgsTo <= n && c.endFrom <= n && c.successFrom <= n
    && calls == Each(Up(groups, 0, n), KEY_INIT) + c.middle + Each(Idle(groups, processed, c.noArgsTo), KEY_NO_ARGS)
              + Each(Down(groups, c.endFrom, n), KEY_END)
              + (if c.failed then Each(Up(groups, 0, n), KEY_ERROR)
                 else Each(Down(groups, c.successFrom, n), KEY_SUCCESS))
              + Each(Down(groups, 0, n), KEY_FINI)
    // END follows the whole round of NO_ARGS, SUCCESS the whole round of END or no END at all.
    && (c.endFrom < n ==> c.noArgsTo == n)
    && (!c.failed ==> (c.noArgsTo == n && c.endFrom == 0) || (c.noArgsTo == 0 && c.endFrom == n))
    && (err == 0 ==> !c.failed && c.successFrom == 0)
  }

  /** All calls of a run that has returned `err`. */
  ghost predicate Complete(groups: seq<Group>, processed: seq<nat>, calls: seq<Call>, err: int) {
    exists c: Course :: Followed(groups, processed, calls, err, c)
  }

  /** What one parser may see over a run. */
  ghost predicate LifeCycle(keys: seq<int>, m: seq<int>, noArgs: bool, end: bool, success: bool, error: bool) {
    && (forall k :: 0 <= k < |m| ==> Ordinary(m[k])) && !(success && error)
    && keys == [KEY_INIT] + m + (if noArgs then [KEY_NO_ARGS] else []) + (if end then [KEY_END] else [])
             + (if success then [KEY_SUCCESS] else []) + (if error then [KEY_ERROR] else []) + [KEY_FINI]
  }

  lemma {:induction false} OrdinaryKeys(calls: seq<Call>, g: nat)
    requires OrdinaryCalls(calls)
    ensures forall k :: 0 <= k < |KeysOf(calls, g)| ==> Ordinary(KeysOf(calls, g)[k])
  {
    if calls != [] {
      OrdinaryKeys(calls[1..], g);
    }
  }

  lemma KeysOfSix(a: seq<Call>, b: seq<Call>, c: seq<Call>, d: seq<Call>, e: seq<Call>, f: seq<Call>, g: nat)
    ensures KeysOf(a + b + c + d + e + f, g)
         == KeysOf(a, g) + KeysOf(b, g) + KeysOf(c, g) + KeysOf(d, g) + KeysOf(e, g) + KeysOf(f, g)
  {
    KeysOfConcat(a, b, g);
    KeysOfConcat(a + b, c, g);
    KeysOfConcat(a + b + c, d, g);
    KeysOfConcat(a + b + c + d, e, g);
    KeysOfConcat(a + b + c + d + e, f, g);
  }

  /** Every group with a parser lives one life: INIT once and first, FINI once and
      last, NO_ARGS only if it processed no argument, END before SUCCESS, never
      both SUCCESS and ERROR, and SUCCESS or ERROR in any run that returns 0 or
      that failed before the round of SUCCESS. */
  lemma OneLife(groups: seq<Group>, processed: seq<nat>, calls: seq<Call>, err: int, c: Course, g: nat)
    requires Followed(groups, processed, calls, err, c) && HasParser(groups, g)
    ensures LifeCycle(KeysOf(calls, g), KeysOf(c.middle, g),
                      g < c.noArgsTo && g < |processed| && processed[g] == 0, c.endFrom <= g,
                      !c.failed && c.successFrom <= g, c.failed)
    ensures err == 0 ==> KEY_SUCCESS in KeysOf(calls, g)
  {
    hide Up, Down, Idle, Each, KeysOf;
    var n := |groups|;
    var outcome :=
      if c.failed then Each(Up(groups, 0, n), KEY_ERROR) else Each(Down(groups, c.successFrom, n), KEY_SUCCESS);
    KeysOfSix(Each(Up(groups, 0, n), KEY_INIT), c.middle, Each(Idle(groups, processed, c.noArgsTo), KEY_NO_ARGS),
              Each(Down(groups, c.endFrom, n), KEY_END), outcome, Each(Down(groups, 0, n), KEY_FINI), g);
    UpOnce(groups, 0, n, KEY_INIT, g);
    UpOnce(groups, 0, n, KEY_ERROR, g);
    IdleOnce(groups, processed, c.noArgsTo, KEY_NO_ARGS, g);
    DownOnce(groups, c.endFrom, n, KEY_END, g);
    DownOnce(groups, c.successFrom, n, KEY_SUCCESS, g);
    DownOnce(groups, 0, n, KEY_FINI, g);
    OrdinaryKeys(c.middle, g);
  }

  /** The same, said of positions in what the parser sees. */
  lemma LifeOrder(groups: seq<Group>, processed: seq<nat>, calls: seq<Call>, err: int, g: nat)
    requires Complete(groups, processed, calls, err) && HasParser(groups, g)
    ensures var ks := KeysOf(calls, g);
            && |ks| >= 2
            && (forall k :: 0 <= k < |ks| ==> (ks[k] == KEY_INIT <==> k == 0))
            && (forall k :: 0 <= k < |ks| ==> (ks[k] == KEY_FINI <==> k == |ks| - 1))
            && !(KEY_SUCCESS in ks && KEY_ERROR in ks)
            && (forall i, j :: 0 <= i < |ks| && 0 <= j < |ks| && ks[i] == KEY_END && ks[j] == KEY_SUCCESS ==> i < j)
            && (forall i, j :: 0 <= i < |ks| && 0 <= j < |ks| && Outcome(ks[i]) && Outcome(ks[j]) ==> i == j)
            && (KEY_NO_ARGS in ks ==> g < |processed| && processed[g] == 0)
            && (KEY_END in ks && g < |processed| ==> (KEY_NO_ARGS in ks <==> processed[g] == 0))
  {
    hide KeysOf, Each, Up, Down, Idle;
    var c :| Followed(groups, processed, calls, err, c);
    OneLife(groups, processed, calls, err, c, g);
    LifeFacts(KeysOf(calls, g), KeysOf(c.middle, g), g < c.noArgsTo && g < |processed| && processed[g] == 0,
              c.endFrom <= g, !c.failed && c.successFrom <= g, c.failed);
  }

  /** What stands at position k of a parser's life, m being its ordinary keys. */
  ghost function KeyAt(m: seq<int>, noArgs: bool, end: bool, success: bool, error: bool, k: nat): int {
    var a := 1 + |m| + if noArgs then 1 else 0;
    var b := a + if end then 1 else 0;
    if k == 0 then KEY_INIT
    else if k <= |m| then m[k - 1]
    else if k < a then KEY_NO_ARGS
    else if k < b then KEY_END
    else if k == b && success then KEY_SUCCESS
    else if k == b && error then KEY_ERROR
    else KEY_FINI
  }

  lemma LifeAt(ks: seq<int>, m: seq<int>, noArgs: bool, end: bool, success: bool, error: bool)
    requires LifeCycle(ks, m, noArgs, end, success, error)
    ensures |ks| == 2 + |m| + (if noArgs then 1 else 0) + (if end then 1 else 0) + if success || error then 1 else 0
    ensures forall k :: 0 <= k < |ks| ==> ks[k] == KeyAt(m, noArgs, end, success, error, k)
  {
  }

  lemma LifeFacts(ks: seq<int>, m: seq<int>, noArgs: bool, end: bool, success: bool, error: bool)
    requires LifeCycle(ks, m, noArgs, end, success, error)
    ensures |ks| >= 2
    ensures forall k :: 0 <= k < |ks| ==> (ks[k] == KEY_INIT <==> k == 0)
    ensures forall k :: 0 <= k < |ks| ==> (ks[k] == KEY_FINI <==> k == |ks| - 1)
    ensures !(KEY_SUCCESS in ks && KEY_ERROR in ks)
    ensures forall i, j :: 0 <= i < |ks| && 0 <= j < |ks| && ks[i] == KEY_END && ks[j] == KEY_SUCCESS ==> i < j
    ensures forall i, j :: 0 <= i < |ks| && 0 <= j < |ks| && Outcome(ks[i]) && Outcome(ks[j]) ==> i == j
    ensures (KEY_NO_ARGS in ks <==> noArgs) && (KEY_END in ks ==> end)
  {
    LifeAt(ks, m, noArgs, end, success, error);
    assert forall k :: 0 <= k < |m| ==> Ordinary(m[k]);
    hide LifeCycle;
    assert noArgs ==> ks[1 + |m|] == KEY_NO_ARGS;
  }

  /** The last calls of a complete run: FINI to every parser, in reverse order. */
  lemma FiniLast(groups: seq<Group>, processed: seq<nat>, calls: seq<Call>, err: int)
    requires Complete(groups, processed, calls, err)
    ensures var fini := Down(groups, 0, |groups|);
            |calls| >= |fini| && calls[|calls| - |fini|..] == Each(fini, KEY_FINI)
    ensures forall i, j :: 0 <= i < j < |Down(groups, 0, |groups|)| ==>
            Down(groups, 0, |groups|)[i] > Down(groups, 0, |groups|)[j]
  {
    hide Up, Down, Idle;
    DownDescends(groups, 0, |groups|);
    var c :| Followed(groups, processed, calls, err, c);
  }

  lemma {:induction false} DownDescends(groups: seq<Group>, lo: nat, hi: nat)
    ensures forall i :: 0 <= i < |Down(groups, lo, hi)| ==> lo <= Down(groups, lo, hi)[i] < hi
    ensures forall i, j :: 0 <= i < j < |Down(groups, lo, hi)| ==> Down(groups, lo, hi)[i] > Down(groups, lo, hi)[j]
    decreases hi - lo
  {
    if hi > lo {
      DownDescends(groups, lo + 1, hi);
    }
  }

  // ----- The order of each round -----

  /** The groups called with this key, in the order of the calls. */
  function GroupsTold(calls: seq<Call>, key: int): seq<nat> {
    if calls == [] then []
    else GroupsTold(calls[..|calls| - 1], key) + if calls[|calls| - 1].key == key then [calls[|calls| - 1].group]
      else []
  }

  lemma {:induction false} ToldConcat(a: seq<Call>, b: seq<Call>, key: int)
    ensures GroupsTold(a + b, key) == GroupsTold(a, key) + GroupsTold(b, key)
  {
    if b == [] {
      assert a + b == a;
    } else {
      var n := |b| - 1;
      assert (a + b)[..|a| + n] == a + b[..n];
      ToldConcat(a, b[..n], key);
    }
  }

  lemma {:induction false} ToldEach(ids: seq<nat>, key: int, other: int)
    ensures GroupsTold(Each(ids, key), other) == if key == other then ids else []
  {
    if ids != [] {
      var n := |ids| - 1;
      assert Each(ids, key)[..n] == Each(ids[..n], key);
      ToldEach(ids[..n], key, other);
    }
  }

  lemma {:induction false} ToldOrdinary(calls: seq<Call>, key: int)
    requires OrdinaryCalls(calls) && !Ordinary(key)
    ensures GroupsTold(calls, key) == []
  {
    if calls != [] {
      ToldOrdinary(calls[..|calls| - 1], key);
    }
  }

  predicate Rising(ids: seq<nat>) {
    forall i, j :: 0 <= i < j < |ids| ==> ids[i] < ids[j]
  }

  predicate Falling(ids: seq<nat>) {
    forall i, j :: 0 <= i < j < |ids| ==> ids[i] > ids[j]
  }

  lemma {:induction false} UpRises(groups: seq<Group>, lo: nat, hi: nat)
    ensures Rising(Up(groups, lo, hi)) && forall i :: 0 <= i < |Up(groups, lo, hi)| ==> Up(groups, lo, hi)[i] < hi
    decreases hi
  {
    if hi > lo {
      UpRises(groups, lo, hi - 1);
    }
  }

  lemma {:induction false} IdleRises(groups: seq<Group>, processed: seq<nat>, hi: nat)
    ensures Rising(Idle(groups, processed, hi))
    ensures forall i :: 0 <= i < |Idle(groups, processed, hi)| ==> Idle(groups, processed, hi)[i] < hi
  {
    if hi > 0 {
      IdleRises(groups, processed, hi - 1);
    }
  }

  /** INIT, NO_ARGS and ERROR go to parents before their children, END, SUCCESS and FINI
      to children before their parents. */
  lemma StageOrder(groups: seq<Group>, processed: seq<nat>, calls: seq<Call>, err: int)
    requires Complete(groups, processed, calls, err)
    ensures Rising(GroupsTold(calls, KEY_INIT)) && Rising(GroupsTold(calls, KEY_NO_ARGS))
            && Rising(GroupsTold(calls, KEY_ERROR))
    ensures Falling(GroupsTold(calls, KEY_END)) && Falling(GroupsTold(calls, KEY_SUCCESS))
            && Falling(GroupsTold(calls, KEY_FINI))
  {
    hide GroupsTold, Each, Up, Down, Idle, OrdinaryCalls, Rising, Falling;
    var c :| Followed(groups, processed, calls, err, c);
    var n := |groups|;
    ToldAre(groups, processed, calls, err, c, KEY_INIT);
    ToldAre(groups, processed, calls, err, c, KEY_NO_ARGS);
    ToldAre(groups, processed, calls, err, c, KEY_END);
    ToldAre(groups, processed, calls, err, c, KEY_ERROR);
    ToldAre(groups, processed, calls, err, c, KEY_SUCCESS);
    ToldAre(groups, processed, calls, err, c, KEY_FINI);
    UpRises(groups, 0, n);
    IdleRises(groups, processed, c.noArgsTo);
    DownFalls(groups, c.endFrom, n);
    DownFalls(groups, c.successFrom, n);
    DownFalls(groups, 0, n);
    NobodyInOrder();
  }

  lemma NobodyInOrder()
    ensures Rising([]) && Falling([])
  {
  }

  lemma DownFalls(groups: seq<Group>, lo: nat, hi: nat)
    ensures Falling(Down(groups, lo, hi))
  {
    hide Down;
    DownDescends(groups, lo, hi);
  }

  lemma ToldParts(a: seq<Call>, b: seq<Call>, c: seq<Call>, d: seq<Call>, e: seq<Call>, f: seq<Call>, key: int)
    ensures GroupsTold(a + b + c + d + e + f, key)
         == GroupsTold(a, key) + GroupsTold(b, key) + GroupsTold(c, key) + GroupsTold(d, key) + GroupsTold(e, key)
            + GroupsTold(f, key)
  {
    hide GroupsTold;
    ToldConcat(a + b + c + d + e, f, key);
    ToldConcat(a + b + c + d, e, key);
    ToldConcat(a + b + c, d, key);
    ToldConcat(a + b, c, key);
    ToldConcat(a, b, key);
  }

  lemma Picked(init: seq<nat>, none: seq<nat>, end: seq<nat>, last: seq<nat>, fini: seq<nat>, lastKey: int, key: int)
    requires lastKey == KEY_ERROR || lastKey == KEY_SUCCESS
    ensures (if key == KEY_INIT then init else []) + [] + (if key == KEY_NO_ARGS then none else [])
            + (if key == KEY_END then end else []) + (if key == lastKey then last else [])
            + (if key == KEY_FINI then fini else [])
         == if key == KEY_INIT then init else if key == KEY_NO_ARGS then none else if key == KEY_END then end
            else if key == lastKey then last else if key == KEY_FINI then fini else []
  {
  }

  /** Which groups a run calls with each stage key. */
  lemma ToldAre(groups: seq<Group>, processed: seq<nat>, calls: seq<Call>, err: int, c: Course, key: int)
    requires Followed(groups, processed, calls, err, c) && !Ordinary(key)
    ensures GroupsTold(calls, key)
         == if key == KEY_INIT then Up(groups, 0, |groups|)
            else if key == KEY_NO_ARGS then Idle(groups, processed, c.noArgsTo)
            else if key == KEY_END then Down(groups, c.endFrom, |groups|)
            else if key == (if c.failed then KEY_ERROR else KEY_SUCCESS)
                 then if c.failed then Up(groups, 0, |groups|) else Down(groups, c.successFrom, |groups|)
            else if key == KEY_FINI then Down(groups, 0, |groups|) else []
  {
    hide GroupsTold, Each, Up, Down, Idle, OrdinaryCalls;
    var n := |groups|;
    var all, none, end := Up(groups, 0, n), Idle(groups, processed, c.noArgsTo), Down(groups, c.endFrom, n);
    var last, fini := if c.failed then all else Down(groups, c.successFrom, n), Down(groups, 0, n);
    var lastKey := if c.failed then KEY_ERROR else KEY_SUCCESS;
    ToldParts(Each(all, KEY_INIT), c.middle, Each(none, KEY_NO_ARGS), Each(end, KEY_END), Each(last, lastKey),
              Each(fini, KEY_FINI), key);
    ToldEach(all, KEY_INIT, key);
    ToldOrdinary(c.middle, key);
    ToldEach(none, KEY_NO_ARGS, key);
    ToldEach(end, KEY_END, key);
    ToldEach(last, lastKey, key);
    ToldEach(fini, KEY_FINI, key);
    Picked(all, none, end, last, fini, lastKey, key);
  }
}
