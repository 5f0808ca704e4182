/** Where the parse loop goes after an argument, told from the reaction of the parser that
    took it, and whole runs over arguments that are taken in order. */
module ArgpArguments {
  import opened Options
  import opened ArgpConvert
  import opened ArgpOwners
  import opened ArgpTrace
  import opened ArgpOffer
  import opened ArgpTurns

  /** This turn offers the argument at an index. */
  predicate OffersAt(getopt: nat -> Scan, c: Control, index: int) {
    Decide(c.tryGetopt, c.quoted, c.next, c.argc, c.noArgs, getopt(c.scans)) == Argument(index)
  }

  /** The parsers of the groups from f on in which this turn finds a taker. */
  predicate TakenBy(t: Tables, user: nat -> Reaction, c: Control, index: int, taker: Taker) {
    Offer(t.groups, user, c.processed, c.tick, index, 0).taker == Some(taker)
  }

  lemma OfferedAs(t: Tables, user: nat -> Reaction, getopt: nat -> Scan, c: Control, index: int)
    requires OffersAt(getopt, c, index)
    ensures var asked := AfterAsking(c, getopt(c.scans)).(next := index + 1);
            var o := Offer(t.groups, user, c.processed, c.tick, index, 0);
            && Offered(t.groups, user, asked) == o
            && NextTurn(t, user, getopt, c)
            == Turned(AfterArgument(t.groups, user, asked).0, AfterArgument(t.groups, user, asked).1, true, o.sights)
  {
    hide Offer, AfterArgument;
  }

  /** A parser that takes the argument decides where the loop goes on: at its `next` if it
      took ARG, at the end of the arguments if it took ARGS, wherever it left `next`.  Its
      group is credited with the distance; getopt gets another try if that is not positive. */
  lemma TakerDecides(t: Tables, user: nat -> Reaction, getopt: nat -> Scan, c: Control, index: int, taker: Taker)
    requires OffersAt(getopt, c, index) && TakenBy(t, user, c, index, taker) && taker.reaction.err == 0
    ensures var turn := NextTurn(t, user, getopt, c);
            var after, r := turn.after, taker.reaction;
            && turn.err == 0
            && after.next == (if taker.key == KEY_ARGS then r.argc else r.next)
            && after.argc == r.argc && after.noArgs == r.noArgs && after.quoted == r.quoted
            && after.processed == (if after.next > index then Credited(c.processed, taker.group, after.next - index)
                                   else c.processed)
            && after.tryGetopt == (after.next <= index || AfterAsking(c, getopt(c.scans)).tryGetopt)
  {
    OfferedAs(t, user, getopt, c, index);
    TakerHeard(t.groups, user, AfterAsking(c, getopt(c.scans)).(next := index + 1));
    hide Offer, AfterAsking, Decide, NextTurn, AfterArgument;
  }

  /** argp.h says that a parser may take some of the remaining arguments as ARGS by moving
      `next` past those.  It is so only if it moved `next` to the end. */
  lemma ArgsHonoursNext(t: Tables, user: nat -> Reaction, getopt: nat -> Scan, c: Control, index: int, taker: Taker)
    requires OffersAt(getopt, c, index) && TakenBy(t, user, c, index, taker) && taker.reaction.err == 0
    requires taker.key == KEY_ARGS
    ensures var r := taker.reaction;
            && var asTold := if r.next == index then r.argc else r.next;
            NextTurn(t, user, getopt, c).after.next == asTold <==> r.next == index || r.next == r.argc
  {
    TakerDecides(t, user, getopt, c, index, taker);
    hide NextTurn, Offer, Decide;
  }

  /** getopt has nothing more: it is not asked, or says so with no argument left. */
  predicate NothingMore(getopt: nat -> Scan, c: Control) {
    !Asks(c.tryGetopt, c.quoted, c.next)
    || (getopt(c.scans).opt == END_OF_OPTIONS && getopt(c.scans).optind == c.next)
  }

  /** Once ARGS is taken the loop ends at the next turn, with every argument parsed, unless
      getopt has more. */
  lemma ArgsEndTheLoop(t: Tables, user: nat -> Reaction, getopt: nat -> Scan, c: Control, index: int, taker: Taker)
    requires OffersAt(getopt, c, index) && TakenBy(t, user, c, index, taker) && taker.reaction.err == 0
    requires taker.key == KEY_ARGS
    requires NothingMore(getopt, NextTurn(t, user, getopt, c).after)
    ensures var end := Turns(t, user, getopt, c, 2);
            && end.Ended? && end.last.err == EBADKEY && end.last.argument
            && end.last.after.next == end.last.after.argc == taker.reaction.argc
            && end.sights == Offer(t.groups, user, c.processed, c.tick, index, 0).sights
  {
    TakerDecides(t, user, getopt, c, index, taker);
    OfferedAs(t, user, getopt, c, index);
    StopsAtEnd(t, user, getopt, NextTurn(t, user, getopt, c).after);
    TwoTurns(t, user, getopt, c);
    hide NextTurn, Offer, Decide;
  }

  lemma TwoTurns(t: Tables, user: nat -> Reaction, getopt: nat -> Scan, c: Control)
    requires NextTurn(t, user, getopt, c).err == 0
    ensures var first := NextTurn(t, user, getopt, c);
            var second := NextTurn(t, user, getopt, first.after);
            second.err != 0 ==> Turns(t, user, getopt, c, 2) == Ended(second, first.sights + second.sights)
  {
    hide NextTurn;
    assert Turns(t, user, getopt, c, 0) == Going(c, []);
    assert Turns(t, user, getopt, c, 1)
        == Going(NextTurn(t, user, getopt, c).after, [] + NextTurn(t, user, getopt, c).sights);
  }

  /** With no argument left and nothing more from getopt, the loop ends without a call. */
  lemma StopsAtEnd(t: Tables, user: nat -> Reaction, getopt: nat -> Scan, c: Control)
    requires NothingMore(getopt, c) && c.next == c.argc
    ensures var turn := NextTurn(t, user, getopt, c);
            && turn.err == EBADKEY && turn.argument && turn.sights == []
            && turn.after.next == turn.after.argc == c.argc && turn.after.processed == c.processed
            && turn.after.tick == c.tick
  {
    hide AfterArgument, AfterOption;
  }

  /** The first group that has a parser. */
  predicate FirstParser(groups: seq<Group>, f: nat) {
    HasParser(groups, f) && forall g :: 0 <= g < f ==> !HasParser(groups, g)
  }

  lemma {:induction false} FirstAsked(groups: seq<Group>, user: nat -> Reaction, processed: seq<nat>, tick: nat,
                                      pos: int,
                                      f: nat, g: nat)
    requires FirstParser(groups, f) && g <= f
    ensures Offer(groups, user, processed, tick, pos, g) == Offer(groups, user, processed, tick, pos, f)
    decreases f - g
  {
    if g < f {
      FirstAsked(groups, user, processed, tick, pos, f, g + 1);
    }
  }

  /** The parser takes one argument as ARG, in its n-th call from now, and moves nothing. */
  predicate TakesOne(user: nat -> Reaction, c: Control, n: nat) {
    var r := user(c.tick + n);
    r.err == 0 && r.next == c.next + n + 1 && r.argc == c.argc && r.quoted == c.quoted && !r.noArgs
  }

  /** What the first parser sees: every argument in order, once, with the count so far. */
  function EachSeen(c: Control, f: nat, n: nat): (s: seq<Sight>) {
    seq(n, k requires 0 <= k < n => Sight(Call(f, KEY_ARG), c.next + k + 1, Count(c.processed, f) + k))
  }

  lemma OneTaken(t: Tables, user: nat -> Reaction, getopt: nat -> Scan, c: Control, f: nat)
    requires FirstParser(t.groups, f) && f < |c.processed| && !c.tryGetopt && !c.noArgs && c.next < c.argc
    requires user(c.tick).err == 0 && user(c.tick).next == c.next + 1 && user(c.tick).argc == c.argc
    requires !user(c.tick).noArgs
    ensures NextTurn(t, user, getopt, c)
         == Turned(c.(next := c.next + 1, tick := c.tick + 1, quoted := user(c.tick).quoted,
                      processed := c.processed[f := c.processed[f] + 1]), 0, true,
                   [Sight(Call(f, KEY_ARG), c.next + 1, c.processed[f])])
  {
    FirstAsked(t.groups, user, c.processed, c.tick, c.next, f, 0);
  }

  /** With the options over, the first parser takes every argument in order if it takes
      each one it is offered: n turns later it has seen n arguments, each once, and is
      credited with n. */
  lemma {:induction false} EveryArgumentTaken(t: Tables, user: nat -> Reaction, getopt: nat -> Scan, c: Control, f: nat,
                                              n: nat)
    requires FirstParser(t.groups, f) && f < |c.processed| && !c.tryGetopt && !c.noArgs && c.next + n <= c.argc
    requires forall k: nat :: k < n ==> TakesOne(user, c, k)
    requires c.quoted == 0
    ensures Turns(t, user, getopt, c, n)
         == Going(c.(next := c.next + n, tick := c.tick + n, processed := Credited(c.processed, f, n)),
                  EachSeen(c, f, n))
  {
    hide NextTurn;
    if n > 0 {
      EveryArgumentTaken(t, user, getopt, c, f, n - 1);
      assert TakesOne(user, c, n - 1);
      var now := Turns(t, user, getopt, c, n - 1).now;
      OneTaken(t, user, getopt, now, f);
      assert now.processed[f] == Count(c.processed, f) + n - 1;
      assert NextTurn(t, user, getopt, now).sights
          == [Sight(Call(f, KEY_ARG), c.next + (n - 1) + 1, Count(c.processed, f) + (n - 1))];
      assert EachSeen(c, f, n) == EachSeen(c, f, n - 1) + NextTurn(t, user, getopt, now).sights;
    } else {
      assert Credited(c.processed, f, 0) == c.processed;
    }
  }

  /** And when these were all, the loop ends there. */
  lemma AllArgumentsTaken(t: Tables, user: nat -> Reaction, getopt: nat -> Scan, c: Control, f: nat)
    requires FirstParser(t.groups, f) && f < |c.processed| && !c.tryGetopt && !c.noArgs && c.quoted == 0
    requires c.next <= c.argc && forall k: nat :: k < c.argc - c.next ==> TakesOne(user, c, k)
    ensures var n: nat := c.argc - c.next;
            var end := Turns(t, user, getopt, c, n + 1);
            && end.Ended? && end.last.err == EBADKEY && end.last.argument && end.sights == EachSeen(c, f, n)
            && end.last.after.next == end.last.after.argc == c.argc
            && end.last.after.processed == Credited(c.processed, f, n)
  {
    hide NextTurn, EachSeen, Credited, TakesOne, FirstParser;
    var n: nat := c.argc - c.next;
    EveryArgumentTaken(t, user, getopt, c, f, n);
    var now := Turns(t, user, getopt, c, n).now;
    StopsAtEnd(t, user, getopt, now);
    assert Turns(t, user, getopt, c, n + 1)
        == Ended(NextTurn(t, user, getopt, now), EachSeen(c, f, n) + NextTurn(t, user, getopt, now).sights);
  }

  /** A parser that refuses every ARG and takes ARGS gets all that is left at once: it is
      called twice, credited with all, and the loop ends. */
  lemma AllAtOnce(t: Tables, user: nat -> Reaction, getopt: nat -> Scan, c: Control, f: nat)
    requires FirstParser(t.groups, f) && f < |c.processed| && !c.tryGetopt && !c.noArgs && c.next < c.argc
    requires var r := user(c.tick); r.err == EBADKEY && r.next == c.next + 1
    requires user(c.tick + 1).err == 0 && user(c.tick + 1).argc == c.argc
    ensures var end := Turns(t, user, getopt, c, 2);
            && end.Ended? && end.last.err == EBADKEY && end.last.argument
            && end.last.after.next == end.last.after.argc == c.argc && end.last.after.tick == c.tick + 2
            && end.last.after.processed == Credited(c.processed, f, c.argc - c.next)
            && end.sights == [Sight(Call(f, KEY_ARG), c.next + 1, c.processed[f]),
                              Sight(Call(f, KEY_ARGS), c.next, c.processed[f])]
  {
    FirstAsked(t.groups, user, c.processed, c.tick, c.next, f, 0);
    var taker := Taker(f, KEY_ARGS, user(c.tick + 1));
    assert Offer(t.groups, user, c.processed, c.tick, c.next, f)
        == Offering([Sight(Call(f, KEY_ARG), c.next + 1, c.processed[f]),
                     Sight(Call(f, KEY_ARGS), c.next, c.processed[f])], Some(taker));
    hide Offer, Credited;
    TakerDecides(t, user, getopt, c, c.next, taker);
    ArgsEndTheLoop(t, user, getopt, c, c.next, taker);
    OfferedAs(t, user, getopt, c, c.next);
    StopsAtEnd(t, user, getopt, NextTurn(t, user, getopt, c).after);
    TwoTurns(t, user, getopt, c);
  }

  // ----- What getopt's answers lead to -----

  /** An option that getopt finds goes to the group its value selects, as one call that
      decides where the loop goes on. */
  lemma OptionTaken(t: Tables, user: nat -> Reaction, getopt: nat -> Scan, c: Control, g: nat, key: int)
    requires Asks(c.tryGetopt, c.quoted, c.next)
    requires var s := getopt(c.scans);
             s.opt != END_OF_OPTIONS && s.opt != NON_OPTION && !(s.opt == OPTION_ERROR && s.failed)
    requires Choice(t, getopt(c.scans).opt) == Some((g, key)) && HasParser(t.groups, g)
    ensures var turn, r := NextTurn(t, user, getopt, c), user(c.tick);
            && turn.err == r.err && !turn.argument
            && turn.sights == [Sight(Call(g, key), getopt(c.scans).optind, Count(c.processed, g))]
            && turn.after.next == r.next && turn.after.argc == r.argc && turn.after.noArgs == r.noArgs
            && turn.after.tick == c.tick + 1 && turn.after.scans == c.scans + 1 && turn.after.tryGetopt
            && turn.after.processed == c.processed
  {
    hide Choice;
  }

  /** An option nobody declares, and one getopt complains about, end the loop. */
  lemma OptionUnknown(t: Tables, user: nat -> Reaction, getopt: nat -> Scan, c: Control)
    requires Asks(c.tryGetopt, c.quoted, c.next)
    requires var s := getopt(c.scans);
             && s.opt != END_OF_OPTIONS && s.opt != NON_OPTION
             && ((s.opt == OPTION_ERROR && s.failed) || Choice(t, s.opt) == None)
    ensures var turn := NextTurn(t, user, getopt, c);
            turn.err == EBADKEY && !turn.argument && turn.sights == [] && turn.after.tick == c.tick
  {
    hide Choice;
  }

  /** An argument that getopt hands out in order is the one before its new position, and
      getopt is asked again later. */
  lemma ArgumentInOrder(getopt: nat -> Scan, c: Control)
    requires Asks(c.tryGetopt, c.quoted, c.next) && getopt(c.scans).opt == NON_OPTION
    ensures OffersAt(getopt, c, getopt(c.scans).optind - 1) && AfterAsking(c, getopt(c.scans)).tryGetopt
  {
  }

  /** After the last option the first argument left is offered, unless there is none or
      arguments are not wanted; and getopt is not asked again. */
  lemma OptionsOver(t: Tables, user: nat -> Reaction, getopt: nat -> Scan, c: Control)
    requires Asks(c.tryGetopt, c.quoted, c.next) && getopt(c.scans).opt == END_OF_OPTIONS
    ensures var s := getopt(c.scans);
            && (s.optind < c.argc && !c.noArgs <==> OffersAt(getopt, c, s.optind))
            && (s.optind >= c.argc || c.noArgs ==>
                  var turn := NextTurn(t, user, getopt, c);
                  turn.err == EBADKEY && turn.argument && turn.sights == [] && turn.after.next == s.optind)
            && !AfterAsking(c, s).tryGetopt
  {
    hide AfterArgument, AfterOption;
  }

  /** What follows a "--" is never shown to getopt: from its place on every turn offers
      the next argument, even if a parser has moved back and wants another try. */
  lemma QuotedIsNotScanned(t: Tables, user: nat -> Reaction, getopt: nat -> Scan, c: Control)
    requires c.quoted != 0 && c.next >= c.quoted
    ensures AfterAsking(c, getopt(c.scans)) == c
    ensures OffersAt(getopt, c, c.next) <==> c.next < c.argc && !c.noArgs
    ensures c.next >= c.argc || c.noArgs ==>
              NextTurn(t, user, getopt, c) == Turned(c, EBADKEY, true, [])
  {
    hide AfterArgument, AfterOption;
  }

  /** That place is where getopt stood when it met the "--". */
  lemma DashesQuote(getopt: nat -> Scan, c: Control)
    requires Asks(c.tryGetopt, c.quoted, c.next) && getopt(c.scans).opt == END_OF_OPTIONS
    requires getopt(c.scans).optind > 1 && getopt(c.scans).dashes
    ensures AfterAsking(c, getopt(c.scans)).quoted == getopt(c.scans).optind
  {
  }

  // ----- How a run ends -----

  /** Arguments that nobody took: an error for the caller, without NO_ARGS or END, unless
      the caller asked where they start; then it is told, and the parsers hear SUCCESS. */
  lemma LeftOver(groups: seq<Group>, user: nat -> Reaction, last: Turned, wantEnd: bool, c: Course, err: int,
                 endIndex: Option<int>)
    requires Settled(groups, user, last, wantEnd, c, err, endIndex)
    requires last.err == EBADKEY && last.argument && last.after.next != last.after.argc
    ensures c.noArgsTo == 0 && c.endFrom == |groups| && (c.failed <==> !wantEnd)
    ensures !wantEnd ==> err == EINVAL && endIndex == None
    ensures wantEnd ==> endIndex == Some(last.after.next)
  {
    hide Calm, Broke;
  }

  /** An error of a parser in the loop is the caller's, except that EBADKEY reads EINVAL. */
  lemma LoopFailed(groups: seq<Group>, user: nat -> Reaction, last: Turned, wantEnd: bool, c: Course, err: int,
                   endIndex: Option<int>)
    requires Settled(groups, user, last, wantEnd, c, err, endIndex)
    requires last.err != 0 && !(last.err == EBADKEY && last.argument)
    ensures c.failed && c.noArgsTo == 0 && c.endFrom == |groups| && endIndex == None
    ensures err == if last.err == EBADKEY then EINVAL else last.err
  {
    hide Calm, Broke;
  }

  /** With every argument taken and no parser failing at the end, the run succeeds: every
      parser hears END and SUCCESS, and those that processed nothing hear NO_ARGS. */
  lemma AllWell(groups: seq<Group>, user: nat -> Reaction, last: Turned, wantEnd: bool, c: Course, err: int,
                endIndex: Option<int>)
    requires Settled(groups, user, last, wantEnd, c, err, endIndex)
    requires last.err == EBADKEY && last.argument && last.after.next == last.after.argc
    requires forall k :: k >= last.after.tick ==> !Fatal(user(k).err)
    ensures err == 0 && !c.failed && c.noArgsTo == |groups| && c.endFrom == 0 && c.successFrom == 0
    ensures !wantEnd ==> endIndex == None
  {
    var remaining :| SettledFrom(groups, user, last, wantEnd, c, err, endIndex, remaining);
  }
}
