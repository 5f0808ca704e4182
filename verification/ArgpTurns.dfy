/** What the parse driver does, given what the parsers and getopt do: the part of the
    parser's state that steers it, and how each turn of the parse loop changes it. */
module ArgpTurns {
  import opened Options
  import opened ArgpConvert
  import opened ArgpOwners
  import opened ArgpTrace
  import opened ArgpOffer

  /** The steering fields and how many arguments each group has processed; `tick`
      calls have been made to parsers and `scans` to getopt. */
  datatype Control = Control(next: int, argc: int, quoted: int, noArgs: bool, tryGetopt: bool, scans: nat, tick: nat,
                             processed: seq<nat>)

  /** After so many more calls to parsers: the last one had the last word. */
  function Heard(c: Control, user: nat -> Reaction, calls: nat): Control {
    if calls == 0 then c
    else
      var r := user(c.tick + calls - 1);
      c.(next := r.next, argc := r.argc, quoted := r.quoted, noArgs := r.noArgs, tick := c.tick + calls)
  }

  lemma HeardMore(c: Control, user: nat -> Reaction, a: nat, b: nat)
    ensures Heard(Heard(c, user, a), user, b) == Heard(c, user, a + b)
  {
  }

  lemma HeardNothing(c: Control, user: nat -> Reaction)
    ensures Heard(c, user, 0) == c
  {
  }

  /** No call in this stretch returned an error that stops a round. */
  ghost predicate Calm(user: nat -> Reaction, lo: nat, hi: nat) {
    forall k: nat :: lo <= k < hi ==> !Fatal(user(k).err)
  }

  /** The stretch was calm but for its last call, which returned this error. */
  ghost predicate Broke(user: nat -> Reaction, lo: nat, hi: nat, err: int) {
    lo < hi && Calm(user, lo, hi - 1) && Fatal(err) && err == user(hi - 1).err
  }

  /** A round of calls since `before`: calm, or broken by its last call. */
  ghost predicate ToldRound(user: nat -> Reaction, before: Control, now: Control, err: int) {
    && before.tick <= now.tick && now == Heard(before, user, now.tick - before.tick)
    && if Fatal(err) then Broke(user, before.tick, now.tick, err) else Calm(user, before.tick, now.tick)
  }

  lemma RoundStarts(user: nat -> Reaction, c: Control, err: int)
    requires !Fatal(err)
    ensures ToldRound(user, c, c, err)
  {
  }

  /** One more call, if any, to a round that has been calm so far. */
  lemma RoundGoesOn(user: nat -> Reaction, before: Control, now: Control, err: int, calls: nat, err': int)
    requires ToldRound(user, before, now, err) && !Fatal(err) && calls <= 1
    requires err' == if calls == 1 then user(now.tick).err else EBADKEY
    ensures ToldRound(user, before, Heard(now, user, calls), err')
  {
    HeardMore(before, user, now.tick - before.tick, calls);
  }

  // ----- One turn -----

  /** What is offered when the argument before `next` is to be parsed. */
  function Offered(groups: seq<Group>, user: nat -> Reaction, c: Control): Offering {
    Offer(groups, user, c.processed, c.tick, c.next - 1, 0)
  }

  /** parser_parse_arg, the argument being the one before `next`: the taker's group
      is credited with what it consumed. */
  function AfterArgument(groups: seq<Group>, user: nat -> Reaction, c: Control): (Control, int) {
    var index := c.next - 1;
    var o := Offered(groups, user, c);
    var heard := Heard(c.(next := index), user, |o.sights|);
    match o.taker
    case None => (heard, EBADKEY)
    case Some(t) =>
      if t.reaction.err != 0 then (heard, t.reaction.err)
      else
        var all := if t.key == KEY_ARGS then heard.(next := heard.argc) else heard;
        (if all.next > index then all.(processed := Credited(all.processed, t.group, all.next - index))
         else all.(tryGetopt := true), 0)
  }

  /** The same from the taker's reaction: after ARG the loop goes on where the parser left
      `next`, after ARGS at the end of the arguments. */
  lemma TakerHeard(groups: seq<Group>, user: nat -> Reaction, c: Control)
    ensures var o, after := Offered(groups, user, c), AfterArgument(groups, user, c).0;
            var err := AfterArgument(groups, user, c).1;
            && err == (match o.taker case None => EBADKEY case Some(t) => t.reaction.err)
            && (err == 0 ==>
                  && after.next == (if o.taker.value.key == KEY_ARGS then o.taker.value.reaction.argc
                                    else o.taker.value.reaction.next)
                  && after.argc == o.taker.value.reaction.argc && after.noArgs == o.taker.value.reaction.noArgs
                  && after.quoted == o.taker.value.reaction.quoted
                  && after.processed == if after.next > c.next - 1
                                        then Credited(c.processed, o.taker.value.group, after.next - (c.next - 1))
                                        else c.processed)
            && after.tryGetopt == (c.tryGetopt || (err == 0 && after.next <= c.next - 1))
  {
    OfferInOrder(groups, user, c.processed, c.tick, c.next - 1, 0);
    hide Offer, InOrder, Credited;
  }

  /** parser_parse_opt. */
  function AfterOption(t: Tables, user: nat -> Reaction, c: Control, opt: int): (Control, int) {
    match Choice(t, opt)
    case Some(choice) =>
      if HasParser(t.groups, choice.0) then (Heard(c, user, 1), user(c.tick).err) else (c, EBADKEY)
    case None => (c, EBADKEY)
  }

  /** The call made for an option: one to its owner, if that has a parser. */
  function OptionSights(t: Tables, c: Control, opt: int): seq<Sight> {
    match Choice(t, opt)
    case Some(choice) =>
      if HasParser(t.groups, choice.0) then
        [Sight(Call(choice.0, choice.1), c.next, Count(c.processed, choice.0))]
      else []
    case None => []
  }

  /** The first half of parser_parse_next. */
  function AfterAsking(c: Control, s: Scan): Control {
    if Asks(c.tryGetopt, c.quoted, c.next) then
      var ended := s.opt == END_OF_OPTIONS;
      c.(scans := c.scans + 1, next := s.optind, tryGetopt := !ended,
         quoted := if ended && s.optind > 1 && s.dashes then s.optind else 0)
    else c.(quoted := if c.next < c.quoted then 0 else c.quoted)
  }

  /** The state after a turn, its error, whether EBADKEY would be about an argument,
      and what the parsers have seen during the turn. */
  datatype Turned = Turned(after: Control, err: int, argument: bool, sights: seq<Sight>)

  /** parser_parse_next. */
  function NextTurn(t: Tables, user: nat -> Reaction, getopt: nat -> Scan, c: Control): Turned {
    var s := getopt(c.scans);
    var asked := AfterAsking(c, s);
    match Decide(c.tryGetopt, c.quoted, c.next, c.argc, c.noArgs, s)
    case Stop(flag) => Turned(asked, EBADKEY, flag, [])
    case Argument(index) =>
      var c' := asked.(next := index + 1);
      var r := AfterArgument(t.groups, user, c');
      Turned(r.0, r.1, true, Offered(t.groups, user, c').sights)
    case Opted(opt) =>
      var r := AfterOption(t, user, asked, opt);
      Turned(r.0, r.1, false, OptionSights(t, asked, opt))
  }

  // ----- The loop -----

  /** After at most so many turns: still going, or ended by an error; and all that
      the parsers have seen in these turns. */
  datatype Progress = Going(now: Control, sights: seq<Sight>) | Ended(last: Turned, sights: seq<Sight>)

  function Turns(t: Tables, user: nat -> Reaction, getopt: nat -> Scan, c: Control, rounds: nat): Progress {
    if rounds == 0 then Going(c, [])
    else match Turns(t, user, getopt, c, rounds - 1)
      case Ended(last, sights) => Ended(last, sights)
      case Going(now, sights) =>
        var r := NextTurn(t, user, getopt, now);
        if r.err == 0 then Going(r.after, sights + r.sights) else Ended(r, sights + r.sights)
  }

  /** A loop that has ended stays ended: how many turns are allowed does not matter
      once there are enough. */
  lemma {:induction false} EndedStays(t: Tables, user: nat -> Reaction, getopt: nat -> Scan, c: Control, m: nat, n: nat)
    requires m <= n && Turns(t, user, getopt, c, m).Ended?
    ensures Turns(t, user, getopt, c, n) == Turns(t, user, getopt, c, m)
    decreases n
  {
    if m < n {
      EndedStays(t, user, getopt, c, m, n - 1);
    }
  }

  /** A loop that has not ended has had a turn without error for every round. */
  lemma {:induction false} GoingGoesOn(t: Tables, user: nat -> Reaction, getopt: nat -> Scan, c: Control, n: nat,
                                       k: nat)
    requires Turns(t, user, getopt, c, n).Going? && k < n
    ensures Turns(t, user, getopt, c, k).Going? && Turns(t, user, getopt, c, k + 1).Going?
    ensures var before, after := Turns(t, user, getopt, c, k), Turns(t, user, getopt, c, k + 1);
            var turn := NextTurn(t, user, getopt, before.now);
            turn.err == 0 && turn.after == after.now && after.sights == before.sights + turn.sights
    decreases n
  {
    hide NextTurn;
    if k < n - 1 {
      GoingGoesOn(t, user, getopt, c, n - 1, k);
    }
  }

  // ----- The end -----

  /** The number of the next call once so many NO_ARGS and END calls have been made. */
  function ToldTo(groups: seq<Group>, processed: seq<nat>, start: nat, noArgsTo: nat, endFrom: nat): nat {
    start + |Idle(groups, processed, noArgsTo)| + |Down(groups, endFrom, |groups|)|
  }

  /** The first half of parser_finalize: whether NO_ARGS and END go out, the error
      that remains, and the end index.  `last` is how the loop ended. */
  ghost predicate Closed(groups: seq<Group>, user: nat -> Reaction, last: Turned, wantEnd: bool, noArgsTo: nat,
                         endFrom: nat, err: int, endIndex: Option<int>)
  {
    var n, start := |groups|, last.after.tick;
    var told := ToldTo(groups, last.after.processed, start, noArgsTo, endFrom);
    var fine := last.err == 0 || (last.err == EBADKEY && last.argument);
    if !fine then
      // An error other than that of an argument nobody took is final.
      noArgsTo == 0 && endFrom == n && err == last.err && endIndex == None
    else if last.after.next != last.after.argc then
      // Remaining arguments are an error unless the caller wants to know where they start.
      && noArgsTo == 0 && endFrom == n && err == (if wantEnd then 0 else EBADKEY)
      && endIndex == if wantEnd then Some(last.after.next) else None
    else
      // With all arguments parsed, NO_ARGS and then END go out until a parser fails.
      && (endFrom < n ==> noArgsTo == n)
      && (if err == 0 then noArgsTo == n && endFrom == 0 && Calm(user, start, told) else Broke(user, start, told, err))
      && endIndex == if wantEnd then Some(Heard(last.after, user, told - start).next) else None
  }

  /** All of parser_finalize: an error that remains makes the run fail; otherwise
      SUCCESS goes out until a parser fails. */
  ghost predicate Settled(groups: seq<Group>, user: nat -> Reaction, last: Turned, wantEnd: bool, c: Course, err: int,
                          endIndex: Option<int>)
  {
    exists remaining :: SettledFrom(groups, user, last, wantEnd, c, err, endIndex, remaining)
  }

  /** `remaining` is the error after NO_ARGS and END. */
  ghost predicate SettledFrom(groups: seq<Group>, user: nat -> Reaction, last: Turned, wantEnd: bool, c: Course,
                              err: int, endIndex: Option<int>, remaining: int)
  {
    var told := ToldTo(groups, last.after.processed, last.after.tick, c.noArgsTo, c.endFrom);
    var succeeded := told + |Down(groups, c.successFrom, |groups|)|;
    && Closed(groups, user, last, wantEnd, c.noArgsTo, c.endFrom, remaining, endIndex)
    && c.failed == (remaining != 0)
    && if c.failed then err == Told(remaining)
       else if err == 0 then c.successFrom == 0 && Calm(user, told, succeeded)
       else Broke(user, told, succeeded, err)
  }

  /** EBADKEY is not for the caller of argp_parse. */
  function Told(err: int): int {
    if err == EBADKEY then EINVAL else err
  }

  lemma RoundsJoin(user: nat -> Reaction, a: Control, b: Control, c: Control, err: int, err': int)
    requires ToldRound(user, a, b, err) && !Fatal(err) && ToldRound(user, b, c, err')
    ensures ToldRound(user, a, c, err')
  {
    HeardMore(a, user, b.tick - a.tick, c.tick - b.tick);
  }

  // ----- There is one outcome -----

  lemma {:induction false} IdlePrefix(groups: seq<Group>, processed: seq<nat>, a: nat, b: nat)
    requires a <= b
    ensures Idle(groups, processed, a) <= Idle(groups, processed, b)
    decreases b
  {
    if a < b {
      IdlePrefix(groups, processed, a, b - 1);
    }
  }

  lemma {:induction false} DownPrefix(groups: seq<Group>, a: nat, b: nat)
    requires a <= b <= |groups|
    ensures Down(groups, b, |groups|) <= Down(groups, a, |groups|)
    decreases b - a
  {
    if a < b {
      DownPrefix(groups, a + 1, b);
    }
  }

  /** A round broken off at some place cannot be broken off at another. */
  lemma BrokeOnce(user: nat -> Reaction, lo: nat, h: nat, h': nat, err: int, err': int)
    requires Broke(user, lo, h, err) && Broke(user, lo, h', err')
    ensures h == h' && err == err'
  {
    assert Fatal(user(h - 1).err) && Fatal(user(h' - 1).err);
  }

  lemma CalmToTheEnd(user: nat -> Reaction, lo: nat, h: nat, h': nat, err: int)
    requires Broke(user, lo, h, err) && Calm(user, lo, h')
    ensures h' < h
  {
    assert Fatal(user(h - 1).err);
  }

  /** As many calls are the same calls. */
  lemma SameRounds(groups: seq<Group>, processed: seq<nat>, a: nat, b: nat, a': nat, b': nat)
    requires a <= |groups| && b <= |groups| && a' <= |groups| && b' <= |groups|
    requires (b < |groups| ==> a == |groups|) && (b' < |groups| ==> a' == |groups|)
    requires ToldTo(groups, processed, 0, a, b) == ToldTo(groups, processed, 0, a', b')
    ensures Idle(groups, processed, a) == Idle(groups, processed, a')
    ensures Down(groups, b, |groups|) == Down(groups, b', |groups|)
    decreases b > b'
  {
    if b > b' {
      SameRounds(groups, processed, a', b', a, b);
    } else {
      DownPrefix(groups, b, b');
      IdlePrefix(groups, processed, a, |groups|);
      IdlePrefix(groups, processed, a', |groups|);
      if a <= a' {
        IdlePrefix(groups, processed, a, a');
      } else {
        IdlePrefix(groups, processed, a', a);
      }
    }
  }

  lemma AtMostAll(groups: seq<Group>, processed: seq<nat>, start: nat, a: nat, b: nat)
    requires a <= |groups| && b <= |groups|
    ensures ToldTo(groups, processed, start, a, b) <= ToldTo(groups, processed, start, |groups|, 0)
  {
    IdlePrefix(groups, processed, a, |groups|);
    DownPrefix(groups, 0, b);
  }

  lemma OneClosing(groups: seq<Group>, user: nat -> Reaction, last: Turned, wantEnd: bool, a: nat, b: nat, err: int,
                   endIndex: Option<int>, a': nat, b': nat, err': int, endIndex': Option<int>)
    requires a <= |groups| && b <= |groups| && a' <= |groups| && b' <= |groups|
    requires Closed(groups, user, last, wantEnd, a, b, err, endIndex)
    requires Closed(groups, user, last, wantEnd, a', b', err', endIndex')
    ensures err == err' && endIndex == endIndex'
    ensures Idle(groups, last.after.processed, a) == Idle(groups, last.after.processed, a')
    ensures Down(groups, b, |groups|) == Down(groups, b', |groups|)
  {
    hide Idle, Down, Calm, Broke, Heard;
    var processed, start := last.after.processed, last.after.tick;
    var fine := last.err == 0 || (last.err == EBADKEY && last.argument);
    if fine && last.after.next == last.after.argc {
      var told, told' := ToldTo(groups, processed, start, a, b), ToldTo(groups, processed, start, a', b');
      AtMostAll(groups, processed, start, a, b);
      AtMostAll(groups, processed, start, a', b');
      if err != 0 && err' != 0 {
        BrokeOnce(user, start, told, told', err, err');
        SameRounds(groups, processed, a, b, a', b');
      } else if err != 0 {
        CalmToTheEnd(user, start, told, told', err);
      } else if err' != 0 {
        CalmToTheEnd(user, start, told', told, err');
      }
    }
  }

  lemma OneRound(groups: seq<Group>, user: nat -> Reaction, told: nat, from: nat, err: int, from': nat, err': int)
    requires from <= |groups| && from' <= |groups|
    requires if err == 0 then from == 0 && Calm(user, told, told + |Down(groups, from, |groups|)|)
             else Broke(user, told, told + |Down(groups, from, |groups|)|, err)
    requires if err' == 0 then from' == 0 && Calm(user, told, told + |Down(groups, from', |groups|)|)
             else Broke(user, told, told + |Down(groups, from', |groups|)|, err')
    ensures err == err' && Down(groups, from, |groups|) == Down(groups, from', |groups|)
  {
    hide Calm, Broke;
    var h, h' := told + |Down(groups, from, |groups|)|, told + |Down(groups, from', |groups|)|;
    DownPrefix(groups, 0, from);
    DownPrefix(groups, 0, from');
    if from <= from' {
      DownPrefix(groups, from, from');
    } else {
      DownPrefix(groups, from', from);
    }
    if err != 0 && err' != 0 {
      BrokeOnce(user, told, h, h', err, err');
    } else if err != 0 {
      CalmToTheEnd(user, told, h, h', err);
    } else if err' != 0 {
      CalmToTheEnd(user, told, h', h, err');
    }
  }

  /** How the loop ended and what was seen in it leave one possibility only for all
      the calls of the run, its error and its end index. */
  lemma OneOutcome(groups: seq<Group>, user: nat -> Reaction, last: Turned, wantEnd: bool,
                   calls: seq<Call>, c: Course, err: int, endIndex: Option<int>,
                   calls': seq<Call>, c': Course, err': int, endIndex': Option<int>)
    requires Followed(groups, last.after.processed, calls, err, c)
    requires Followed(groups, last.after.processed, calls', err', c')
    requires Settled(groups, user, last, wantEnd, c, err, endIndex)
    requires Settled(groups, user, last, wantEnd, c', err', endIndex')
    requires c.middle == c'.middle
    ensures calls == calls' && err == err' && endIndex == endIndex'
  {
    hide Closed, Idle, Down, Up, Each, Calm, Broke;
    var remaining :| SettledFrom(groups, user, last, wantEnd, c, err, endIndex, remaining);
    var remaining' :| SettledFrom(groups, user, last, wantEnd, c', err', endIndex', remaining');
    OneClosing(groups, user, last, wantEnd, c.noArgsTo, c.endFrom, remaining, endIndex,
               c'.noArgsTo, c'.endFrom, remaining', endIndex');
    if !c.failed {
      var told := ToldTo(groups, last.after.processed, last.after.tick, c.noArgsTo, c.endFrom);
      OneRound(groups, user, told, c.successFrom, err, c'.successFrom, err');
    }
  }
}
