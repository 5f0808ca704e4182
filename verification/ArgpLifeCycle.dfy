/** argp-parse.c: the parse driver.  Parsers and getopt are arbitrary: `user(k)` is
    what the k-th call to any parser does, `getopt(k)` what the k-th call to getopt
    finds. */
module ArgpLifeCycle {
  import opened Options
  import opened ArgpTree
  import opened ArgpConvert
  import opened ArgpTables
  import opened ArgpOwners
  import opened ArgpTrace
  import opened ArgpInputs
  import opened ArgpOffer
  import opened ArgpTurns

  /** getopt returns its special values, a short option character, or the value of
      one of the long options it was given. */
  ghost predicate ProperScan(t: Tables, s: Scan) {
    s.opt == END_OF_OPTIONS || 0 <= GroupKey(s.opt) <= |t.groups|
  }

  /** Stores through child_inputs. */
  function Stored(slots: seq<Value>, first: nat, n: nat, writes: map<nat, Value>): (r: seq<Value>)
    ensures |r| == |slots|
  {
    seq(|slots|, k requires 0 <= k < |slots| =>
        if first <= k < first + n && k - first in writes then writes[k - first] else slots[k])
  }

  /** What slot c of group g holds once the group has been initialized. */
  ghost function FirstSlot(groups: seq<Group>, log: seq<Event>, inputs: seq<Value>, g: nat, c: nat): Value
    requires g < |inputs|
  {
    if HasParser(groups, g) then Written(FirstCall(log, g), c) else if c == 0 then inputs[g] else 0
  }

  ghost predicate SlotKnown(t: Tables, log: seq<Event>, inputs: seq<Value>, slots: seq<Value>, i: nat, g: nat)
    requires g < |t.groups| == |inputs| && |slots| == t.childSlots && Linked(t)
  {
    forall c :: 0 <= c < |t.groups[g].node.children| ==> CellKnown(t, log, inputs, slots, i, g, c)
  }

  ghost predicate CellKnown(t: Tables, log: seq<Event>, inputs: seq<Value>, slots: seq<Value>, i: nat, g: nat, c: nat)
    requires g < |t.groups| == |inputs| && |slots| == t.childSlots && Linked(t) && c < |t.groups[g].node.children|
  {
    assert SlotsEnd(t.groups[g]) <= t.childSlots;
    slots[t.groups[g].childInputs + c] == if g < i then FirstSlot(t.groups, log, inputs, g, c) else 0
  }

  ghost predicate SlotsKnown(t: Tables, log: seq<Event>, inputs: seq<Value>, slots: seq<Value>, i: nat)
    requires |t.groups| == |inputs| && |slots| == t.childSlots && Linked(t)
  {
    forall g :: 0 <= g < |t.groups| ==> SlotKnown(t, log, inputs, slots, i, g)
  }

  /** The log up to now, with the first i groups initialized. */
  ghost predicate Traced(groups: seq<Group>, log: seq<Event>, input: Value, inputs: seq<Value>, hooks: seq<Value>,
                         processed: seq<nat>, i: nat)
    requires i <= |groups| == |inputs| == |hooks| == |processed|
  {
    && RightlyCalled(groups, log, input) && Started(groups, log, i)
    && (forall k :: 0 <= k < |log| ==> log[k].group < i)
    && (forall g :: 0 <= g < i ==> inputs[g] == Given(groups, log, input, g))
    && (forall g :: 0 <= g < |groups| ==> hooks[g] == LastHook(log, g))
    && (forall g :: 0 <= g < |groups| && processed[g] > 0 ==> Handled(log, g))
  }

  lemma HandledStays(log: seq<Event>, e: Event, g: nat)
    requires Handled(log, g)
    ensures Handled(log + [e], g)
  {
    var k :| 0 <= k < |log| && log[k].group == g && log[k].key in [KEY_ARG, KEY_ARGS] && log[k].reaction.err == 0;
    assert (log + [e])[k] == log[k];
  }

  /** A call to group g, which may be the one being initialized. */
  lemma TracedNext(groups: seq<Group>, log: seq<Event>, input: Value, inputs: seq<Value>, hooks: seq<Value>,
                   processed: seq<nat>, i: nat, e: Event, i': nat)
    requires i <= |groups| == |inputs| == |hooks| == |processed|
    requires Traced(groups, log, input, inputs, hooks, processed, i)
    requires e.group < i' <= |groups| && (i' == i || (i' == i + 1 && e.group == i))
    requires HasParser(groups, e.group) && e.hook == hooks[e.group]
    requires e.input == inputs[e.group] == Given(groups, log, input, e.group)
    ensures Traced(groups, log + [e], input, inputs, hooks[e.group := e.reaction.hook], processed, i')
  {
    hide Given, HasParser, Called, Handled, RightlyCalled;
    var log' := log + [e];
    NextRight(groups, log, e, input, i);
    CalledNow(log, e);
    forall g | 0 <= g < i'
      ensures inputs[g] == Given(groups, log', input, g)
    {
      GivenStays(groups, log, e, input, i, g);
    }
    assert log'[..|log|] == log;
    forall g | 0 <= g < |groups| && processed[g] > 0
      ensures Handled(log', g)
    {
      HandledStays(log, e, g);
    }
  }

  lemma InputKnown(groups: seq<Group>, log: seq<Event>, input: Value, inputs: seq<Value>, hooks: seq<Value>,
                   processed: seq<nat>, i: nat, g: nat)
    requires g < i <= |groups| == |inputs| == |hooks| == |processed|
    requires Traced(groups, log, input, inputs, hooks, processed, i)
    ensures inputs[g] == Given(groups, log, input, g)
  {
  }

  lemma CallsNext(log: seq<Event>, e: Event)
    ensures Calls(log + [e]) == Calls(log) + [Call(e.group, e.key)]
    ensures Sights(log + [e]) == Sights(log) + [Sight(Call(e.group, e.key), e.next, e.argNum)]
  {
  }

  lemma AnsweredNext(log: seq<Event>, e: Event, user: nat -> Reaction)
    requires Answered(log, user) && e.reaction == user(|log|)
    ensures Answered(log + [e], user)
  {
  }

  /** How far a run got: it failed in parser_init, was cut off while parsing, or
      returned. */
  datatype Run = InitFailed | CutOff | Returned

  /** Only calls for options and arguments have been added. */
  ghost predicate Grew(before: seq<Call>, after: seq<Call>) {
    before <= after && OrdinaryCalls(after[|before|..])
  }

  lemma GrewNothing(cs: seq<Call>)
    ensures Grew(cs, cs)
  {
  }

  lemma GrewNext(before: seq<Call>, cs: seq<Call>, g: nat, key: int)
    requires Grew(before, cs) && Ordinary(key)
    ensures Grew(before, cs + [Call(g, key)]) && Grew(before, cs + [])
  {
    assert cs + [] == cs;
    assert (cs + [Call(g, key)])[|before|..] == cs[|before|..] + [Call(g, key)];
  }

  lemma GrewTwice(before: seq<Call>, cs: seq<Call>)
    requires Grew(before, cs)
    ensures forall after | Grew(cs, after) :: Grew(before, after)
  {
    forall after | Grew(cs, after)
      ensures Grew(before, after)
    {
      assert after[|before|..] == cs[|before|..] + after[|cs|..];
    }
  }

  /** The reactions in the log are those of the parsers. */
  ghost predicate Answered(log: seq<Event>, user: nat -> Reaction) {
    forall k :: 0 <= k < |log| ==> log[k].reaction == user(k)
  }

  /** From position `from` on, every call saw its group's count as it is now. */
  ghost predicate Counted(log: seq<Event>, from: nat, processed: seq<nat>) {
    forall k :: from <= k < |log| ==> log[k].argNum == Count(processed, log[k].group)
  }

  /** What the log of a run says besides the order of its calls: while groups are
      initialized nothing has been processed, then come the sights of the parse loop,
      and afterwards every call sees the final counts. */
  ghost predicate Witnessed(groups: seq<Group>, log: seq<Event>, sights: seq<Sight>, processed: seq<nat>) {
    var n := |Up(groups, 0, |groups|)|;
    && n + |sights| <= |log| && Sights(log)[n..n + |sights|] == sights
    && (forall k :: 0 <= k < n ==> log[k].argNum == 0)
    && Counted(log, n + |sights|, processed)
  }

  lemma CountedNone(processed: seq<nat>)
    ensures Counted([], 0, processed)
  {
  }

  lemma CountedMore(was: seq<Event>, log: seq<Event>, processed: seq<nat>)
    requires Counted(was, 0, processed) && was <= log && Counted(log, |was|, processed)
    ensures Counted(log, 0, processed)
  {
  }

  lemma BrokeOrCalm(user: nat -> Reaction, lo: nat, h: nat, h': nat, err: int)
    requires h <= h'
    ensures Broke(user, lo, h, err) ==> !Calm(user, lo, h')
  {
    if Broke(user, lo, h, err) && Calm(user, lo, h') {
      CalmToTheEnd(user, lo, h, h', err);
    }
  }

  lemma CallsSeen(log: seq<Event>)
    ensures Calls(log) == Made(Sights(log))
  {
  }

  /** The offering ended with a call to group g that did not refuse. */
  ghost predicate TookIt(o: Offering, sights: seq<Sight>, g: nat, key: int, err: int) {
    o.sights == sights && o.taker.Some? && o.taker.value.group == g && o.taker.value.key == key
      && o.taker.value.reaction.err == err
  }

  lemma OfferNobody(groups: seq<Group>, user: nat -> Reaction, processed: seq<nat>, tick: nat, pos: int, g: nat)
    requires g >= |groups|
    ensures Offer(groups, user, processed, tick, pos, g) == Offering([], None)
  {
  }

  /** The keys parser_parse_opt passes on are never those of a stage. */
  lemma ChoiceOrdinary(t: Tables, opt: int)
    ensures Choice(t, opt).Some? ==> Choice(t, opt).value.0 < |t.groups| && Ordinary(Choice(t, opt).value.1)
  {
  }

  lemma ScanKey(t: Tables, s: Scan)
    requires ProperScan(t, s)
    ensures s.opt != END_OF_OPTIONS ==> 0 <= GroupKey(s.opt) <= |t.groups|
  {
  }

  lemma NoCallsYet(groups: seq<Group>, processed: seq<nat>)
    ensures Each(Idle(groups, processed, 0), KEY_NO_ARGS) == []
    ensures Each(Down(groups, |groups|, |groups|), KEY_END) == []
    ensures Each(Down(groups, |groups|, |groups|), KEY_SUCCESS) == []
  {
  }

  /** As many calls in the log as in the rounds. */
  lemma CallsMade(groups: seq<Group>, processed: seq<nat>, before: seq<Event>, after: seq<Event>, noArgsTo: nat,
                  endFrom: nat)
    requires Calls(after) == Calls(before) + Each(Idle(groups, processed, noArgsTo), KEY_NO_ARGS)
                             + Each(Down(groups, endFrom, |groups|), KEY_END)
    ensures |after| == ToldTo(groups, processed, |before|, noArgsTo, endFrom)
  {
    hide Idle, Down;
    assert |Calls(after)| == |after|;
  }

  lemma CallsRound(groups: seq<Group>, before: seq<Event>, after: seq<Event>, from: nat)
    requires Calls(after) == Calls(before) + Each(Down(groups, from, |groups|), KEY_SUCCESS)
    ensures |after| == |before| + |Down(groups, from, |groups|)|
  {
    hide Down;
    assert |Calls(after)| == |after|;
  }

  lemma RoundIs(user: nat -> Reaction, before: Control, now: Control, err: int)
    requires ToldRound(user, before, now, err)
    ensures before.tick <= now.tick && now == Heard(before, user, now.tick - before.tick)
    ensures if Fatal(err) then Broke(user, before.tick, now.tick, err) else Calm(user, before.tick, now.tick)
  {
  }

  /** SUCCESS follows either the whole round of END or none of it. */
  lemma RoundsFollow(groups: seq<Group>, user: nat -> Reaction, last: Turned, wantEnd: bool, noArgsTo: nat,
                     endFrom: nat, err: int, endIndex: Option<int>)
    requires Closed(groups, user, last, wantEnd, noArgsTo, endFrom, err, endIndex)
    ensures endFrom < |groups| ==> noArgsTo == |groups|
    ensures err == 0 ==> (noArgsTo == |groups| && endFrom == 0) || (noArgsTo == 0 && endFrom == |groups|)
  {
  }

  /** A group that handled an argument may be credited with it. */
  lemma TracedCredit(groups: seq<Group>, log: seq<Event>, input: Value, inputs: seq<Value>, hooks: seq<Value>,
                     processed: seq<nat>, g: nat, n: nat)
    requires g < |groups| == |inputs| == |hooks| == |processed| && Handled(log, g)
    requires Traced(groups, log, input, inputs, hooks, processed, |groups|)
    ensures Traced(groups, log, input, inputs, hooks, processed[g := n], |groups|)
  {
    hide RightlyCalled, Started, Given, LastHook, Handled;
  }

  /** struct parser. */
  class Parser {
    const tables: Tables
    const input: Value
    const user: nat -> Reaction
    const getopt: nat -> Scan
    var inputs: seq<Value>
    var hooks: seq<Value>
    var slots: seq<Value>
    var argsProcessed: seq<nat>
    var next: int
    var argc: int
    var quoted: int
    var noArgs: bool
    var tryGetopt: bool
    var scans: nat
    var log: seq<Event>

    ghost predicate Valid()
      reads this
    {
      && Linked(tables) && (forall k :: ProperScan(tables, getopt(k)))
      && |inputs| == |hooks| == |argsProcessed| == |tables.groups| && |slots| == tables.childSlots
      && Answered(log, user)
    }

    /** The steering fields and the counts. */
    ghost function Ctl(): Control
      reads this
    {
      Control(next, argc, quoted, noArgs, tryGetopt, scans, |log|, argsProcessed)
    }

    /** Initialized, with a proper log. */
    ghost predicate Running()
      reads this
    {
      Valid() && Traced(tables.groups, log, input, inputs, hooks, argsProcessed, |tables.groups|)
    }

    /** The storage parser_init sets up. */
    constructor (tables: Tables, input: Value, argc: int, noArgs: bool, user: nat -> Reaction, getopt: nat -> Scan)
      requires Linked(tables) && forall k :: ProperScan(tables, getopt(k))
      ensures Valid() && log == [] && this.tables == tables && this.input == input && this.user == user
              && this.getopt == getopt
      ensures inputs == seq(|tables.groups|, _ => 0) && hooks == seq(|tables.groups|, _ => 0)
      ensures argsProcessed == seq(|tables.groups|, _ => 0) && slots == seq(tables.childSlots, _ => 0)
      ensures Ctl() == StartOf(tables, argc, noArgs)
    {
      this.tables, this.input, this.user, this.getopt := tables, input, user, getopt;
      inputs, hooks := seq(|tables.groups|, _ => 0), seq(|tables.groups|, _ => 0);
      argsProcessed, slots := seq(|tables.groups|, _ => 0), seq(tables.childSlots, _ => 0);
      next, this.argc, quoted, this.noArgs, tryGetopt := 0, argc, 0, noArgs, true;
      scans, log := 0, [];
    }

    /** The number of calls made when group g is to be called. */
    function Asked(g: nat): nat {
      if HasParser(tables.groups, g) then 1 else 0
    }

    /** group_parse. */
    method GroupParse(g: nat, key: int) returns (err: int)
      requires Valid() && g < |tables.groups|
      modifies this`hooks, this`slots, this`next, this`argc, this`quoted, this`noArgs, this`log
      ensures Valid()
      ensures !HasParser(tables.groups, g) ==>
                err == EBADKEY && log == old(log) && hooks == old(hooks) && slots == old(slots)
      ensures HasParser(tables.groups, g) ==>
                var r := user(|old(log)|);
                && err == r.err && hooks == old(hooks)[g := r.hook]
                && log == old(log) + [Event(g, key, inputs[g], old(hooks[g]), argsProcessed[g], old(next), r)]
                && slots == Stored(old(slots), tables.groups[g].childInputs, |tables.groups[g].node.children|, r.writes)
      ensures Ctl() == Heard(old(Ctl()), user, Asked(g))
      ensures old(Running()) ==> Running()
      ensures old(log) <= log
              && Calls(log) == Calls(old(log)) + if HasParser(tables.groups, g) then [Call(g, key)] else []
      ensures Sights(log) == Sights(old(log)) + if HasParser(tables.groups, g) then
                [Sight(Call(g, key), old(next), Count(argsProcessed, g))]
              else []
    {
      hide Traced, Linked, ProperScan, Answered, Calls, Sights, Given, Stored;
      if tables.groups[g].node.hasParser {
        var r := user(|log|);
        var e := Event(g, key, inputs[g], hooks[g], argsProcessed[g], next, r);
        CallsNext(log, e);
        AnsweredNext(log, e, user);
        if Running() {
          InputKnown(tables.groups, log, input, inputs, hooks, argsProcessed, |tables.groups|, g);
          TracedNext(tables.groups, log, input, inputs, hooks, argsProcessed, |tables.groups|, e, |tables.groups|);
        }
        log := log + [e];
        hooks := hooks[g := r.hook];
        slots := Stored(slots, tables.groups[g].childInputs, |tables.groups[g].node.children|, r.writes);
        next, argc, quoted, noArgs := r.next, r.argc, r.quoted, r.noArgs;
        err := r.err;
      } else {
        err := EBADKEY;
      }
    }

    /** The first g groups have been initialized. */
    ghost predicate Starting(g: nat)
      reads this
    {
      && Valid() && g <= |tables.groups| && Traced(tables.groups, log, input, inputs, hooks, argsProcessed, g)
      && SlotsKnown(tables, log, inputs, slots, g)
      && (forall q :: g <= q < |inputs| ==> inputs[q] == if q == 0 then input else 0)
      && Calls(log) == Each(Up(tables.groups, 0, g), KEY_INIT)
    }

    /** One turn of the loop of parser_init: a child takes its input from its
        parent's slot; a group without parser passes its own on to its first child. */
    method InitGroup(g: nat) returns (err: int)
      requires Starting(g) && g < |tables.groups|
      modifies this`inputs, this`hooks, this`slots, this`next, this`argc, this`quoted, this`noArgs, this`log
      ensures Starting(g + 1)
      ensures Ctl() == Heard(old(Ctl()), user, Asked(g))
      ensures err == if HasParser(tables.groups, g) then user(|old(log)|).err else EBADKEY
      ensures old(log) <= log && Counted(log, |old(log)|, argsProcessed)
    {
      hide RightlyCalled, Started, Given, LastHook, Handled, ProperScan, SlotsKnown, Up, Calls, Linked, Traced;
      var groups := tables.groups;
      LinkedAt(tables, g);
      ghost var was, wasInputs := log, inputs;
      if groups[g].parent.Some? {
        var p := groups[g].parent.value;
        inputs := inputs[g := slots[groups[p].childInputs + groups[g].parentIndex]];
      }
      InputIsGiven(tables, log, input, wasInputs, hooks, slots, argsProcessed, g, inputs);
      ghost var wasHooks, wasSlots := hooks, slots;
      if !groups[g].node.hasParser && |groups[g].node.children| > 0 {
        slots := slots[groups[g].childInputs := inputs[g]];
      }
      err := GroupParse(g, KEY_INIT);
      InitStep(tables, was, input, wasInputs, inputs, wasHooks, hooks, wasSlots, slots, argsProcessed, g, log);
      CallsUp(groups, g);
    }

    /** The loop of parser_init that calls every parser for the first time.  A run
        passes initialization exactly if no INIT call fails; otherwise the error is
        that of the last call, and no parser sees anything else. */
    method ParserInit() returns (err: int)
      requires Valid() && log == []
      requires inputs == hooks == seq(|tables.groups|, _ => 0) && slots == seq(tables.childSlots, _ => 0)
      requires argsProcessed == seq(|tables.groups|, _ => 0)
      modifies this`inputs, this`hooks, this`slots, this`next, this`argc, this`quoted, this`noArgs, this`log
      ensures Valid() && Ctl() == Heard(old(Ctl()), user, |log|) && Counted(log, 0, argsProcessed)
      ensures err == 0 <==> Calm(user, 0, |Up(tables.groups, 0, |tables.groups|)|)
      ensures err == 0 ==> Running() && Calls(log) == Each(Up(tables.groups, 0, |tables.groups|), KEY_INIT)
      ensures err != 0 ==>
              Broke(user, 0, |log|, err) && Calls(log) <= Each(Up(tables.groups, 0, |tables.groups|), KEY_INIT)
    {
      hide RightlyCalled, Started, Given, LastHook, Handled, ProperScan, SlotsKnown, Up, Calls, Linked, Traced, Each;
      hide ToldRound, Heard, Calm, Broke, Counted;
      err := 0;
      if 0 < |tables.groups| {
        inputs := inputs[0 := input];
      }
      StartTraced(tables, input, inputs, hooks, slots, argsProcessed);
      RoundStarts(user, Ctl(), err);
      CountedNone(argsProcessed);
      var g := 0;
      while g < |tables.groups| && !Fatal(err)
        invariant Starting(g) && ToldRound(user, old(Ctl()), Ctl(), err) && Counted(log, 0, argsProcessed)
      {
        RoundGoesOn(user, old(Ctl()), Ctl(), err, Asked(g),
                    if HasParser(tables.groups, g) then user(|log|).err else EBADKEY);
        ghost var was := log;
        err := InitGroup(g);
        CountedMore(was, log, argsProcessed);
        g := g + 1;
      }
      InitCalls(tables.groups, g, log);
      RoundIs(user, old(Ctl()), Ctl(), err);
      BrokeOrCalm(user, 0, |log|, |Up(tables.groups, 0, |tables.groups|)|, err);
      if err == EBADKEY {
        err := 0;
      }
    }

    /** parser_parse_arg.  The calls are those of the offering.  The taker's group is
        credited with what it consumed, all that is left if it took ARGS, unless it
        moved `next` back; then getopt gets another try. */
    method ParseArg() returns (err: int)
      requires Running()
      modifies this`hooks, this`slots, this`next, this`argc, this`quoted, this`noArgs, this`log, this`argsProcessed,
               this`tryGetopt
      ensures Running() && Grew(Calls(old(log)), Calls(log))
      ensures (Ctl(), err) == AfterArgument(tables.groups, user, old(Ctl()))
      ensures var taker := Offered(tables.groups, user, old(Ctl())).taker;
              && err == (match taker case None => EBADKEY case Some(t) => t.reaction.err)
              && (err == 0 ==>
                    next == if taker.value.key == KEY_ARGS then taker.value.reaction.argc
                      else taker.value.reaction.next)
              && tryGetopt == (old(tryGetopt) || (err == 0 && next <= old(next) - 1))
      ensures var o, consumed := Offered(tables.groups, user, old(Ctl())), next - (old(next) - 1);
              && Sights(log) == Sights(old(log)) + o.sights
              && (err == 0 ==> o.taker.Some? && o.taker.value.group < |old(argsProcessed)|)
              && argsProcessed == if err == 0 && consumed > 0
                                  then var g := o.taker.value.group;
                                       old(argsProcessed)[g := old(argsProcessed)[g] + consumed]
                                  else old(argsProcessed)
    {
      hide Traced, Calls, OrdinaryCalls, Linked, ProperScan, Answered, Handled, Offer, Sights, Heard, Grew;
      TakerHeard(tables.groups, user, Ctl());
      next := next - 1;
      var index := next;
      var g, key;
      err, g, key := OfferAll();
      if err == 0 {
        if key == KEY_ARGS {
          next := argc;
        }
        if next > index {
          TracedCredit(tables.groups, log, input, inputs, hooks, argsProcessed, g, argsProcessed[g] + (next - index));
          argsProcessed := argsProcessed[g := argsProcessed[g] + (next - index)];
        } else {
          tryGetopt := true;
        }
      }
    }

    /** The loop over the groups: `g` and `key` are those of the last call. */
    method OfferAll() returns (err: int, g: nat, key: int)
      requires Running()
      modifies this`hooks, this`slots, this`next, this`argc, this`quoted, this`noArgs, this`log
      ensures Running() && Grew(Calls(old(log)), Calls(log))
      ensures var o := Offer(tables.groups, user, argsProcessed, |old(log)|, old(next), 0);
              && Sights(log) == Sights(old(log)) + o.sights && Ctl() == Heard(old(Ctl()), user, |o.sights|)
              && if err == EBADKEY then o.taker.None? else TookIt(o, o.sights, g, key, err)
      ensures err == 0 ==> g < |tables.groups| && Handled(log, g)
    {
      hide Traced, Calls, OrdinaryCalls, Linked, ProperScan, Answered, Handled, Offer, Sights, Heard, Grew;
      err, g, key := EBADKEY, 0, 0;
      var next' := 0;
      GrewNothing(Calls(log));
      ghost var o, seen := Offer(tables.groups, user, argsProcessed, |log|, next, 0), [];
      HeardNothing(Ctl(), user);
      while next' < |tables.groups| && err == EBADKEY
        invariant Running() && next' <= |tables.groups| && Grew(Calls(old(log)), Calls(log))
        invariant Sights(log) == Sights(old(log)) + seen && Ctl() == Heard(old(Ctl()), user, |seen|)
        invariant if err == EBADKEY then
                    o == Prepend(seen, Offer(tables.groups, user, argsProcessed, |log|, next, next'))
                  else TookIt(o, seen, g, key, err)
        invariant err == 0 ==> g < |tables.groups| && Handled(log, g)
      {
        ghost var more;
        GrewTwice(Calls(old(log)), Calls(log));
        g := next';
        err, key, more := OfferTo(g);
        HeardMore(old(Ctl()), user, |seen|, |more|);
        seen := seen + more;
        next' := next' + 1;
      }
      if err == EBADKEY {
        OfferNobody(tables.groups, user, argsProcessed, |log|, next, next');
      }
    }

    /** The loop body: the argument is put forward as ARG, then put back for ARGS. */
    method OfferTo(g: nat) returns (err: int, key: int, ghost more: seq<Sight>)
      requires Running() && g < |tables.groups|
      modifies this`hooks, this`slots, this`next, this`argc, this`quoted, this`noArgs, this`log
      ensures Running() && Grew(Calls(old(log)), Calls(log)) && Sights(log) == Sights(old(log)) + more
      ensures var o := Offer(tables.groups, user, argsProcessed, |old(log)|, old(next), g);
              if err == EBADKEY then o == Prepend(more, Offer(tables.groups, user, argsProcessed, |log|, next, g + 1))
              else TookIt(o, more, g, key, err)
      ensures Ctl() == Heard(old(Ctl()), user, |more|)
      ensures err == 0 ==> Handled(log, g)
    {
      hide Traced, Calls, OrdinaryCalls, Linked, ProperScan, Handled, Sights, Answered, Count, Grew;
      GrewNothing(Calls(log));
      more := [];
      next := next + 1;
      key := KEY_ARG;
      err := TryArg(g, key, Calls(old(log)));
      if HasParser(tables.groups, g) {
        more := [Sight(Call(g, KEY_ARG), old(next) + 1, Count(argsProcessed, g))];
      }
      if err == EBADKEY {
        next := next - 1;
        key := KEY_ARGS;
        ghost var was := next;
        err := TryArg(g, key, Calls(old(log)));
        if HasParser(tables.groups, g) {
          more := more + [Sight(Call(g, KEY_ARGS), was, Count(argsProcessed, g))];
        }
      }
    }

    method TryArg(g: nat, key: int, ghost before: seq<Call>) returns (err: int)
      requires Running() && g < |tables.groups| && Grew(before, Calls(log)) && key in [KEY_ARG, KEY_ARGS]
      modifies this`hooks, this`slots, this`next, this`argc, this`quoted, this`noArgs, this`log
      ensures Running() && Grew(before, Calls(log))
      ensures Sights(log) == Sights(old(log)) + if HasParser(tables.groups, g) then
                [Sight(Call(g, key), old(next), Count(argsProcessed, g))]
              else []
      ensures if HasParser(tables.groups, g) then
                |log| == |old(log)| + 1 && err == user(|old(log)|).err
              else err == EBADKEY && log == old(log)
      ensures Ctl() == Heard(old(Ctl()), user, |log| - |old(log)|)
      ensures err == 0 ==> Handled(log, g)
    {
      hide Traced, Calls, Linked, ProperScan;
      GrewNext(before, Calls(log), g, key);
      err := GroupParse(g, key);
      if err == 0 {
        assert log[|log| - 1].group == g;
      }
    }

    /** parser_parse_opt: one call, to the group chosen, with the key chosen. */
    method ParseOpt(opt: int) returns (err: int)
      requires Running() && 0 <= GroupKey(opt) <= |tables.groups|
      modifies this`hooks, this`slots, this`next, this`argc, this`quoted, this`noArgs, this`log
      ensures Running() && Grew(Calls(old(log)), Calls(log))
      ensures Sights(log) == Sights(old(log)) + OptionSights(tables, old(Ctl()), opt)
      ensures (Ctl(), err) == AfterOption(tables, user, old(Ctl()), opt)
    {
      hide Traced, Calls, OrdinaryCalls, Linked, ProperScan, Choice;
      GrewNothing(Calls(log));
      var choice := SelectGroup(tables, opt);
      if choice.Some? {
        ChoiceOrdinary(tables, opt);
        GrewNext(Calls(log), Calls(log), choice.value.0, choice.value.1);
        err := GroupParse(choice.value.0, choice.value.1);
      } else {
        err := EBADKEY;
      }
    }

    /** The first half of parser_parse_next: getopt's answer, if it is asked. */
    method AskGetopt() returns (opt: int, failed: bool)
      requires Running()
      modifies this`next, this`quoted, this`tryGetopt, this`scans
      ensures Running()
      ensures if Asks(old(tryGetopt), old(quoted), old(next)) then
                var s := getopt(old(scans));
                ProperScan(tables, s) && opt == s.opt && failed == (opt == OPTION_ERROR && s.failed)
              else opt == END_OF_OPTIONS && !failed
      ensures Ctl() == AfterAsking(old(Ctl()), getopt(old(scans)))
    {
      hide Traced, Linked, ProperScan;
      opt, failed := END_OF_OPTIONS, false;
      if quoted != 0 && next < quoted {
        quoted := 0;
      }
      if tryGetopt && quoted == 0 {
        var s := getopt(scans);
        scans := scans + 1;
        opt, next := s.opt, s.optind;
        if opt == END_OF_OPTIONS {
          tryGetopt := false;
          if next > 1 && s.dashes {
            quoted := next;
          }
        } else {
          failed := opt == OPTION_ERROR && s.failed;
        }
      }
    }

    /** parser_parse_next: does what the state and getopt's answer decide.  EBADKEY
        comes with a flag saying whether it is about an argument. */
    method ParseNext(argEbadkey: bool) returns (err: int, argEbadkey': bool)
      requires Running()
      modifies this
      ensures Running() && Grew(Calls(old(log)), Calls(log))
      ensures var r := NextTurn(tables, user, getopt, old(Ctl()));
              && Ctl() == r.after && err == r.err && (err == EBADKEY ==> argEbadkey' == r.argument)
              && Sights(log) == Sights(old(log)) + r.sights
    {
      hide Traced, Calls, OrdinaryCalls, Linked, ProperScan, Offered, Sights, OptionSights, Grew, AfterArgument,
           AfterOption;
      GrewNothing(Calls(log));
      err, argEbadkey' := 0, argEbadkey;
      var opt, failed := AskGetopt();
      if failed {
        return EBADKEY, false;
      }
      if opt == END_OF_OPTIONS {
        if next >= argc || noArgs {
          return EBADKEY, true;
        }
        opt := NON_OPTION;
        next := next + 1;
      }
      if opt == NON_OPTION {
        err := ParseArg();
      } else {
        ScanKey(tables, getopt(old(scans)));
        err := ParseOpt(opt);
      }
      if err == EBADKEY {
        argEbadkey' := opt == END_OF_OPTIONS || opt == NON_OPTION;
      }
    }

    // ----- parser_finalize -----

    method TellIdle() returns (err: int, ghost to: nat)
      requires Running()
      modifies this`hooks, this`slots, this`next, this`argc, this`quoted, this`noArgs, this`log
      ensures Running() && to <= |tables.groups|
      ensures Calls(log) == Calls(old(log)) + Each(Idle(tables.groups, argsProcessed, to), KEY_NO_ARGS)
      ensures !Fatal(err) ==> to == |tables.groups|
      ensures ToldRound(user, old(Ctl()), Ctl(), err)
      ensures old(log) <= log && Counted(log, |old(log)|, argsProcessed)
    {
      hide Traced, Linked, ProperScan, Answered, Calls, ToldRound, Heard, Sights;
      var g := 0;
      err := 0;
      RoundStarts(user, Ctl(), 0);
      while g < |tables.groups| && !Fatal(err)
        invariant old(log) <= log && Counted(log, |old(log)|, argsProcessed)
        invariant Running() && g <= |tables.groups|
        invariant ToldRound(user, old(Ctl()), Ctl(), err)
        invariant Calls(log) == Calls(old(log)) + Each(Idle(tables.groups, argsProcessed, g), KEY_NO_ARGS)
      {
        if argsProcessed[g] == 0 {
          RoundGoesOn(user, old(Ctl()), Ctl(), err, Asked(g),
                      if HasParser(tables.groups, g) then user(|log|).err else EBADKEY);
          err := GroupParse(g, KEY_NO_ARGS);
        }
        g := g + 1;
      }
      to := g;
    }

    /** The rounds of END and SUCCESS: in reverse, until an error. */
    method TellDown(key: int, err0: int) returns (err: int, ghost from: nat)
      requires Running() && !Fatal(err0)
      modifies this`hooks, this`slots, this`next, this`argc, this`quoted, this`noArgs, this`log
      ensures Running() && from <= |tables.groups|
      ensures Calls(log) == Calls(old(log)) + Each(Down(tables.groups, from, |tables.groups|), key)
      ensures !Fatal(err) ==> from == 0
      ensures ToldRound(user, old(Ctl()), Ctl(), err)
      ensures old(log) <= log && Counted(log, |old(log)|, argsProcessed)
    {
      hide Traced, Linked, ProperScan, Answered, Calls, ToldRound, Heard, Sights;
      err := err0;
      RoundStarts(user, Ctl(), err0);
      var g := |tables.groups| - 1;
      while g >= 0 && !Fatal(err)
        invariant old(log) <= log && Counted(log, |old(log)|, argsProcessed)
        invariant Running() && -1 <= g < |tables.groups|
        invariant ToldRound(user, old(Ctl()), Ctl(), err)
        invariant Calls(log) == Calls(old(log)) + Each(Down(tables.groups, g + 1, |tables.groups|), key)
      {
        RoundGoesOn(user, old(Ctl()), Ctl(), err, Asked(g),
                    if HasParser(tables.groups, g) then user(|log|).err else EBADKEY);
        err := GroupParse(g, key);
        g := g - 1;
      }
      from := g + 1;
    }

    method TellErrors()
      requires Running()
      modifies this`hooks, this`slots, this`next, this`argc, this`quoted, this`noArgs, this`log
      ensures Running()
      ensures Calls(log) == Calls(old(log)) + Each(Up(tables.groups, 0, |tables.groups|), KEY_ERROR)
      ensures old(log) <= log && Counted(log, |old(log)|, argsProcessed)
    {
      hide Traced, Calls, Linked, ProperScan;
      for g := 0 to |tables.groups|
        invariant old(log) <= log && Counted(log, |old(log)|, argsProcessed)
        invariant Running()
        invariant Calls(log) == Calls(old(log)) + Each(Up(tables.groups, 0, g), KEY_ERROR)
      {
        var _ := GroupParse(g, KEY_ERROR);
      }
    }

    method TellFini()
      requires Running()
      modifies this`hooks, this`slots, this`next, this`argc, this`quoted, this`noArgs, this`log
      ensures Running()
      ensures Calls(log) == Calls(old(log)) + Each(Down(tables.groups, 0, |tables.groups|), KEY_FINI)
      ensures old(log) <= log && Counted(log, |old(log)|, argsProcessed)
    {
      hide Traced, Calls, Linked, ProperScan;
      for g := |tables.groups| downto 0
        invariant old(log) <= log && Counted(log, |old(log)|, argsProcessed)
        invariant Running()
        invariant Calls(log) == Calls(old(log)) + Each(Down(tables.groups, g, |tables.groups|), KEY_FINI)
      {
        var _ := GroupParse(g, KEY_FINI);
      }
    }

    /** The first half of parser_finalize. */
    method Close(err0: int, argEbadkey: bool, wantEnd: bool)
      returns (err: int, endIndex: Option<int>, ghost noArgsTo: nat, ghost endFrom: nat)
      requires Running()
      modifies this`hooks, this`slots, this`next, this`argc, this`quoted, this`noArgs, this`log
      ensures Running() && noArgsTo <= |tables.groups| && endFrom <= |tables.groups|
      ensures Calls(log) == Calls(old(log)) + Each(Idle(tables.groups, argsProcessed, noArgsTo), KEY_NO_ARGS)
                            + Each(Down(tables.groups, endFrom, |tables.groups|), KEY_END)
      ensures Closed(tables.groups, user, Turned(old(Ctl()), err0, argEbadkey, []), wantEnd, noArgsTo, endFrom, err,
                     endIndex)
      ensures old(log) <= log && Counted(log, |old(log)|, argsProcessed)
    {
      hide Traced, Calls, Linked, ProperScan, Answered, Each, Up, Down, Idle, ToldRound, Heard;
      noArgsTo, endFrom := 0, |tables.groups|;
      NoCallsYet(tables.groups, argsProcessed);
      endIndex := None;
      err := if err0 == EBADKEY && argEbadkey then 0 else err0;
      if err == 0 {
        if next == argc {
          ghost var was := Ctl();
          err, noArgsTo := TellIdle();
          ghost var mid := Ctl();
          if !Fatal(err) {
            ghost var err1 := err;
            err, endFrom := TellDown(KEY_END, err);
            RoundsJoin(user, was, mid, Ctl(), err1, err);
          }
          CallsMade(tables.groups, argsProcessed, old(log), log, noArgsTo, endFrom);
          RoundIs(user, was, Ctl(), err);
          if err == EBADKEY {
            err := 0;
          }
          if wantEnd {
            endIndex := Some(next);
          }
        } else if wantEnd {
          endIndex := Some(next);
        } else {
          err := EBADKEY;
        }
      }
    }

    /** parser_finalize, after a parse loop that ended with err0. */
    method Finalize(err0: int, argEbadkey: bool, wantEnd: bool, ghost middle: seq<Call>)
      returns (err: int, endIndex: Option<int>, ghost c: Course)
      requires Running() && OrdinaryCalls(middle)
      requires Calls(log) == Each(Up(tables.groups, 0, |tables.groups|), KEY_INIT) + middle
      modifies this`hooks, this`slots, this`next, this`argc, this`quoted, this`noArgs, this`log
      ensures Running() && err != EBADKEY
      ensures Followed(tables.groups, argsProcessed, Calls(log), err, c) && c.middle == middle
      ensures Settled(tables.groups, user, Turned(old(Ctl()), err0, argEbadkey, []), wantEnd, c, err, endIndex)
      ensures old(log) <= log && Counted(log, |old(log)|, argsProcessed)
    {
      hide Traced, Calls, OrdinaryCalls, Linked, ProperScan, Answered, Each, Up, Down, Idle, ToldRound, Heard, Closed;
      var n := |tables.groups|;
      ghost var noArgsTo, endFrom;
      err, endIndex, noArgsTo, endFrom := Close(err0, argEbadkey, wantEnd);
      ghost var remaining, was, start := err, log, Ctl();
      c := Course(middle, noArgsTo, endFrom, err != 0, n);
      CallsMade(tables.groups, argsProcessed, old(log), log, noArgsTo, endFrom);
      RoundsFollow(tables.groups, user, Turned(old(Ctl()), err0, argEbadkey, []), wantEnd, noArgsTo, endFrom, err,
                   endIndex);
      if err != 0 {
        TellErrors();
      } else {
        ghost var from;
        err, from := TellDown(KEY_SUCCESS, err);
        c := c.(successFrom := from);
        CallsRound(tables.groups, was, log, from);
        RoundIs(user, start, Ctl(), err);
        if err == EBADKEY {
          err := 0;
        }
      }
      ghost var ended := err;
      NoCallsYet(tables.groups, argsProcessed);
      TellFini();
      if err == EBADKEY {
        err := EINVAL;
      }
      assert Followed(tables.groups, argsProcessed, Calls(log), err, c);
      assert SettledFrom(tables.groups, user, Turned(old(Ctl()), err0, argEbadkey, []), wantEnd, c, err, endIndex,
                         remaining);
    }

    /** __argp_parse.  The parse loop is cut off after `rounds` turns, any number.
        Which way a run goes is settled by the parsers and getopt: it fails in
        parser_init exactly if some INIT call fails, and is cut off exactly if that
        many turns pass without error. */
    method Parse(wantEnd: bool, rounds: nat) returns (err: int, endIndex: Option<int>, run: Run, ghost c: Course)
      requires Valid() && log == []
      requires inputs == hooks == seq(|tables.groups|, _ => 0) && slots == seq(tables.childSlots, _ => 0)
      requires argsProcessed == seq(|tables.groups|, _ => 0)
      modifies this
      ensures Valid() && run == RunOf(tables, user, getopt, old(Ctl()), rounds)
      ensures run == InitFailed ==>
                && Broke(user, 0, |log|, err) && endIndex == None
                && Calls(log) <= Each(Up(tables.groups, 0, |tables.groups|), KEY_INIT)
      ensures run != InitFailed ==> Running()
      ensures run == CutOff ==>
                && err == 0 && endIndex == None
                && Grew(Each(Up(tables.groups, 0, |tables.groups|), KEY_INIT), Calls(log))
                && var looped := Looped(tables, user, getopt, old(Ctl()), rounds);
                   looped.now == Ctl() && Witnessed(tables.groups, log, looped.sights, argsProcessed)
      ensures run == Returned ==>
                var looped := Looped(tables, user, getopt, old(Ctl()), rounds);
                && Followed(tables.groups, argsProcessed, Calls(log), err, c) && err != EBADKEY
                && c.middle == Made(looped.sights) && argsProcessed == looped.last.after.processed
                && Witnessed(tables.groups, log, looped.sights, argsProcessed)
                && Settled(tables.groups, user, looped.last, wantEnd, c, err, endIndex)
    {
      hide Traced, Calls, OrdinaryCalls, Linked, ProperScan, Answered, Each, Up, Calm, Broke, Heard, NextTurn, Settled,
           Followed, Sights, Witnessed, Made;
      endIndex, c := None, Course([], 0, 0, false, 0);
      err := ParserInit();
      if err != 0 {
        return err, None, InitFailed, c;
      }
      ghost var began, start := log, Ctl();
      InitLength(tables.groups, log);
      GrewNothing(Calls(began));
      ghost var last, seen := Turned(start, 0, false, []), [];
      var argEbadkey := false;
      var round := 0;
      while err == 0 && round < rounds
        invariant Running() && Grew(Calls(began), Calls(log)) && round <= rounds
        invariant Sights(log) == Sights(began) + seen
        invariant Turns(tables, user, getopt, start, round) ==
                  if err == 0 then Going(Ctl(), seen) else Ended(last, seen)
        invariant err != 0 ==>
                  last.after == Ctl() && last.err == err && (err == EBADKEY ==> argEbadkey == last.argument)
        decreases rounds - round
      {
        GrewTwice(Calls(began), Calls(log));
        last := NextTurn(tables, user, getopt, Ctl());
        err, argEbadkey := ParseNext(argEbadkey);
        seen := seen + last.sights;
        round := round + 1;
      }
      ghost var looped := log;
      if err == 0 {
        LoopWitnessed(tables.groups, began, looped, seen, log, argsProcessed);
        return err, None, CutOff, c;
      }
      EndedStays(tables, user, getopt, start, round, rounds);
      MiddleMade(began, log, seen);
      err, endIndex, c := Finalize(err, argEbadkey, wantEnd, Made(seen));
      LoopWitnessed(tables.groups, began, looped, seen, log, argsProcessed);
      FlagMatters(tables.groups, user, last, argEbadkey, wantEnd, c, err, endIndex);
      run := Returned;
    }
  }

  /** The state argp_parse starts in. */
  function StartOf(t: Tables, argc: int, noArgs: bool): Control {
    Control(0, argc, 0, noArgs, true, 0, 0, seq(|t.groups|, _ => 0))
  }

  /** Where the loop stands after so many turns, for a run that passes
      initialization. */
  function Looped(t: Tables, user: nat -> Reaction, getopt: nat -> Scan, c: Control, rounds: nat): Progress {
    Turns(t, user, getopt, Heard(c, user, |Up(t.groups, 0, |t.groups|)|), rounds)
  }

  ghost function RunOf(t: Tables, user: nat -> Reaction, getopt: nat -> Scan, c: Control, rounds: nat): Run {
    if !Calm(user, 0, |Up(t.groups, 0, |t.groups|)|) then InitFailed
    else if Looped(t, user, getopt, c, rounds).Going? then CutOff
    else Returned
  }

  lemma InitLength(groups: seq<Group>, log: seq<Event>)
    requires Calls(log) == Each(Up(groups, 0, |groups|), KEY_INIT)
    ensures |log| == |Up(groups, 0, |groups|)|
  {
    hide Up;
    assert |Calls(log)| == |log|;
  }

  lemma MiddleMade(began: seq<Event>, log: seq<Event>, seen: seq<Sight>)
    requires Sights(log) == Sights(began) + seen
    ensures Calls(log) == Calls(began) + Made(seen)
  {
    hide Sights, Calls, Made;
    CallsSeen(log);
    CallsSeen(began);
    MadeJoined(Sights(began), seen);
  }

  lemma MadeJoined(a: seq<Sight>, b: seq<Sight>)
    ensures Made(a + b) == Made(a) + Made(b)
  {
  }

  /** The log after initialization, after the loop, and at the end. */
  lemma LoopWitnessed(groups: seq<Group>, began: seq<Event>, looped: seq<Event>, seen: seq<Sight>, log: seq<Event>,
                      processed: seq<nat>)
    requires |began| == |Up(groups, 0, |groups|)| && forall k :: 0 <= k < |began| ==> began[k].argNum == 0
    requires Sights(looped) == Sights(began) + seen && looped <= log && Counted(log, |looped|, processed)
    ensures Witnessed(groups, log, seen, processed)
  {
    hide Up;
    var n := |began|;
    assert |looped| == |Sights(looped)| == n + |seen|;
    assert Sights(log)[n..n + |seen|] == seen by {
      forall k | 0 <= k < |seen|
        ensures Sights(log)[n + k] == seen[k]
      {
        assert Sights(looped)[n + k] == seen[k];
      }
    }
    forall k | 0 <= k < n
      ensures log[k].argNum == 0
    {
      assert Sights(looped)[k] == Sights(began)[k];
    }
  }

  /** The flag is looked at for EBADKEY only. */
  lemma FlagMatters(groups: seq<Group>, user: nat -> Reaction, last: Turned, flag: bool, wantEnd: bool, c: Course,
                    err: int, endIndex: Option<int>)
    requires Settled(groups, user, Turned(last.after, last.err, flag, []), wantEnd, c, err, endIndex)
    requires last.err == EBADKEY ==> flag == last.argument
    ensures Settled(groups, user, last, wantEnd, c, err, endIndex)
  {
    hide Heard, Idle, Down, Calm, Broke;
    var other := Turned(last.after, last.err, flag, []);
    var remaining :| SettledFrom(groups, user, other, wantEnd, c, err, endIndex, remaining);
    assert SettledFrom(groups, user, last, wantEnd, c, err, endIndex, remaining);
  }

  lemma {:induction false} UpPrefix(groups: seq<Group>, g: nat, n: nat)
    requires g <= n
    ensures Up(groups, 0, g) <= Up(groups, 0, n)
    decreases n
  {
    if g < n {
      UpPrefix(groups, g, n - 1);
    }
  }

  lemma InitCalls(groups: seq<Group>, g: nat, log: seq<Event>)
    requires g <= |groups| && Calls(log) == Each(Up(groups, 0, g), KEY_INIT)
    ensures Calls(log) <= Each(Up(groups, 0, |groups|), KEY_INIT)
    ensures |log| <= |Up(groups, 0, |groups|)| && (g == |groups| ==> |log| == |Up(groups, 0, |groups|)|)
  {
    hide Up;
    UpPrefix(groups, g, |groups|);
    assert |Calls(log)| == |log| == |Up(groups, 0, g)|;
  }

  lemma CallsUp(groups: seq<Group>, g: nat)
    requires g < |groups|
    ensures Each(Up(groups, 0, g + 1), KEY_INIT)
         == Each(Up(groups, 0, g), KEY_INIT) + if HasParser(groups, g) then [Call(g, KEY_INIT)] else []
  {
  }

  lemma LinkedAt(t: Tables, g: nat)
    requires Linked(t) && g < |t.groups|
    ensures ParentBefore(t.groups, g) && SlotsEnd(t.groups[g]) <= t.childSlots
    ensures t.groups[g].parent.Some? ==>
              && t.groups[g].parent.value < g
              && t.groups[t.groups[g].parent.value].childInputs + t.groups[g].parentIndex < t.childSlots
  {
    assert ParentBefore(t.groups, g);
    if t.groups[g].parent.Some? {
      assert SlotsEnd(t.groups[t.groups[g].parent.value]) <= t.childSlots;
    }
  }

  lemma StartTraced(t: Tables, input: Value, inputs: seq<Value>, hooks: seq<Value>, slots: seq<Value>,
                    processed: seq<nat>)
    requires Linked(t) && |inputs| == |hooks| == |processed| == |t.groups| && |slots| == t.childSlots
    requires forall k :: 0 <= k < |hooks| ==> hooks[k] == 0
    requires forall k :: 0 <= k < |processed| ==> processed[k] == 0
    requires forall k :: 0 <= k < |slots| ==> slots[k] == 0
    ensures Traced(t.groups, [], input, inputs, hooks, processed, 0)
    ensures SlotsKnown(t, [], inputs, slots, 0)
    ensures Calls([]) == Each(Up(t.groups, 0, 0), KEY_INIT)
  {
  }

  /** The input the loop takes from the parent's slot is the one it should be. */
  lemma InputIsGiven(t: Tables, log: seq<Event>, input: Value, inputs: seq<Value>, hooks: seq<Value>, slots: seq<Value>,
                     processed: seq<nat>, g: nat, inputs': seq<Value>)
    requires Linked(t) && g < |t.groups| == |inputs| == |hooks| == |processed| && |slots| == t.childSlots
    requires Traced(t.groups, log, input, inputs, hooks, processed, g) && SlotsKnown(t, log, inputs, slots, g)
    requires inputs[g] == if g == 0 then input else 0
    requires |inputs'| == |inputs| && forall q :: 0 <= q < |inputs| && q != g ==> inputs'[q] == inputs[q]
    requires ParentBefore(t.groups, g)
    requires t.groups[g].parent == None ==> inputs'[g] == inputs[g]
    requires t.groups[g].parent.Some? ==>
               var p := t.groups[g].parent.value;
               t.groups[p].childInputs + t.groups[g].parentIndex < |slots|
               && inputs'[g] == slots[t.groups[p].childInputs + t.groups[g].parentIndex]
    ensures inputs'[g] == Given(t.groups, log, input, g)
  {
    hide RightlyCalled, Started, LastHook, Handled;
    if t.groups[g].parent.Some? {
      var p, c := t.groups[g].parent.value, t.groups[g].parentIndex;
      assert SlotKnown(t, log, inputs, slots, g, p);
      assert CellKnown(t, log, inputs, slots, g, p, c);
      assert inputs[p] == Given(t.groups, log, input, p);
    }
  }

  /** What the loop of parser_init does to the slots and the log for group g. */
  ghost predicate Initialized(t: Tables, inputs': seq<Value>, slots: seq<Value>, slots': seq<Value>, g: nat,
                              log: seq<Event>, log': seq<Event>)
    requires Linked(t) && g < |t.groups| == |inputs'| && |slots| == |slots'| == t.childSlots
  {
    if HasParser(t.groups, g) then
      && |log'| == |log| + 1 && log' == log + [log'[|log|]] && log'[|log|].group == g
      && slots' == Stored(slots, t.groups[g].childInputs, |t.groups[g].node.children|, log'[|log|].reaction.writes)
    else
      && log' == log
      && slots' == if |t.groups[g].node.children| > 0 then Passed(t, slots, g, inputs'[g]) else slots
  }

  /** The slots after a group without parser has passed its input on. */
  function Passed(t: Tables, slots: seq<Value>, g: nat, v: Value): seq<Value>
    requires g < |t.groups| && t.groups[g].childInputs < |slots|
  {
    slots[t.groups[g].childInputs := v]
  }

  lemma InitStep(t: Tables, log: seq<Event>, input: Value, inputs: seq<Value>, inputs': seq<Value>, hooks: seq<Value>,
                 hooks': seq<Value>, slots: seq<Value>, slots': seq<Value>, processed: seq<nat>, g: nat,
                   log': seq<Event>)
    requires Linked(t) && g < |t.groups| == |inputs| == |inputs'| == |hooks| == |hooks'| == |processed|
    requires |slots| == |slots'| == t.childSlots
    requires Traced(t.groups, log, input, inputs, hooks, processed, g) && SlotsKnown(t, log, inputs, slots, g)
    requires forall q :: 0 <= q < |inputs| && q != g ==> inputs'[q] == inputs[q]
    requires inputs'[g] == Given(t.groups, log, input, g)
    requires Initialized(t, inputs', slots, slots', g, log, log')
    requires if log' == log then hooks' == hooks
             else var e := log'[|log|];
               e.hook == hooks[g] && e.input == inputs'[g] && hooks' == hooks[g := e.reaction.hook]
    ensures Traced(t.groups, log', input, inputs', hooks', processed, g + 1)
    ensures SlotsKnown(t, log', inputs', slots', g + 1)
  {
    hide RightlyCalled, Started, LastHook, Handled, Given;
    assert Traced(t.groups, log, input, inputs', hooks, processed, g);
    if HasParser(t.groups, g) {
      TracedNext(t.groups, log, input, inputs', hooks, processed, g, log'[|log|], g + 1);
    } else {
      StartedSkips(t.groups, log, g);
    }
    var i := g + 1;
    forall h | 0 <= h < |t.groups|
      ensures SlotKnown(t, log', inputs', slots', i, h)
    {
      SlotStep(t, log, inputs, inputs', slots, slots', g, log', h);
    }
  }

  lemma SlotStep(t: Tables, log: seq<Event>, inputs: seq<Value>, inputs': seq<Value>, slots: seq<Value>,
                 slots': seq<Value>, g: nat, log': seq<Event>, h: nat)
    requires Linked(t) && g < |t.groups| == |inputs| == |inputs'| && |slots| == |slots'| == t.childSlots
    requires Initialized(t, inputs', slots, slots', g, log, log')
    requires Started(t.groups, log, g) && forall k :: 0 <= k < |log| ==> log[k].group < g
    requires forall q :: 0 <= q < |inputs| && q != g ==> inputs'[q] == inputs[q]
    requires h < |t.groups| && SlotKnown(t, log, inputs, slots, g, h)
    ensures SlotKnown(t, log', inputs', slots', g + 1, h)
  {
    hide Started;
    var i := g + 1;
    if h < g {
      assert SlotsEnd(t.groups[h]) <= t.groups[g].childInputs;
      if HasParser(t.groups, h) && HasParser(t.groups, g) {
        StartedAt(t.groups, log, g, h);
        FirstCallStays(log, log'[|log|], h);
      }
    } else if h == g {
      if HasParser(t.groups, g) {
        FirstCallNew(log, log'[|log|]);
      }
    } else {
      assert SlotsEnd(t.groups[g]) <= t.groups[h].childInputs;
    }
    forall c | 0 <= c < |t.groups[h].node.children|
      ensures CellKnown(t, log', inputs', slots', i, h, c)
    {
      assert CellKnown(t, log, inputs, slots, g, h, c);
    }
  }

  lemma StartedAt(groups: seq<Group>, log: seq<Event>, g: nat, h: nat)
    requires Started(groups, log, g) && h < g && HasParser(groups, h)
    ensures Called(log, h)
  {
  }

  lemma StartedSkips(groups: seq<Group>, log: seq<Event>, g: nat)
    requires Started(groups, log, g) && !HasParser(groups, g)
    ensures Started(groups, log, g + 1)
  {
  }

  /** A whole call of argp_parse on any tree.  Whether it fails to start, is cut off
      or returns is settled by the parsers and getopt, and so are the error and the
      end index.  If it returns, every parser has lived one life and got the input
      and hooks due to it; a group that has processed an argument has returned
      success for one. */
  method ArgpParse(root: Argp, flags: Flags, input: Value, argc: int, user: nat -> Reaction, getopt: nat -> Scan,
                   wantEnd: bool, rounds: nat)
    returns (p: Parser, err: int, endIndex: Option<int>, run: Run, ghost c: Course)
    requires forall k :: ProperScan(Flatten(flags, root), getopt(k))
    ensures p.tables == Flatten(flags, root) && p.input == input && p.user == user && p.getopt == getopt
    ensures var start := StartOf(p.tables, argc, flags.noArgs);
            var gs, looped := p.tables.groups, Looped(p.tables, user, getopt, start, rounds);
            && run == RunOf(p.tables, user, getopt, start, rounds)
            && (run == InitFailed ==>
                  && Broke(user, 0, |p.log|, err) && endIndex == None
                  && Calls(p.log) <= Each(Up(gs, 0, |gs|), KEY_INIT))
            && (run == CutOff ==>
                  && err == 0 && endIndex == None && looped.now == p.Ctl()
                  && Witnessed(gs, p.log, looped.sights, p.argsProcessed))
            && (run == Returned ==>
                  && Followed(gs, p.argsProcessed, Calls(p.log), err, c)
                  && c.middle == Made(looped.sights) && p.argsProcessed == looped.last.after.processed
                  && Witnessed(gs, p.log, looped.sights, p.argsProcessed)
                  && Settled(gs, user, looped.last, wantEnd, c, err, endIndex)
                  && RightlyCalled(gs, p.log, input)
                  && |p.argsProcessed| == |gs|
                  && (forall g: nat :: HasParser(gs, g) && p.argsProcessed[g] > 0 ==> Handled(p.log, g)))
  {
    hide Flatten, Linked, Followed, RightlyCalled, Calls, Handled, ProperScan, RunOf, Looped, Settled, Broke, Heard;
    hide Witnessed;
    FlattenLinked(flags, root);
    var tables := ParserConvert(root, flags);
    p := new Parser(tables, input, argc, flags.noArgs, user, getopt);
    err, endIndex, run, c := p.Parse(wantEnd, rounds);
  }
}
