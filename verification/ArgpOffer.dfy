/** How argp offers a non-option argument to its parsers, and what it does next at
    each turn of the parse loop. */
module ArgpOffer {
  import opened Options
  import opened ArgpConvert
  import opened ArgpTrace

  // ----- parser_parse_arg -----

  /** A call and the values of state->next and state->arg_num the parser sees. */
  datatype Sight = Sight(call: Call, next: int, argNum: nat)

  function Sights(log: seq<Event>): (s: seq<Sight>)
    ensures |s| == |log|
  {
    seq(|log|, k requires 0 <= k < |log| => Sight(Call(log[k].group, log[k].key), log[k].next, log[k].argNum))
  }

  /** The calls of some sights. */
  function Made(s: seq<Sight>): (cs: seq<Call>)
    ensures |cs| == |s|
  {
    seq(|s|, k requires 0 <= k < |s| => s[k].call)
  }

  /** How many arguments a group has processed. */
  function Count(processed: seq<nat>, g: nat): nat {
    if g < |processed| then processed[g] else 0
  }

  function Credited(processed: seq<nat>, g: nat, n: nat): (r: seq<nat>)
    ensures |r| == |processed|
  {
    if g < |processed| then processed[g := processed[g] + n] else processed
  }

  /** The call that did not refuse the argument. */
  datatype Taker = Taker(group: nat, key: int, reaction: Reaction)

  /** The calls made for one argument, and who took it. */
  datatype Offering = Offering(sights: seq<Sight>, taker: Option<Taker>)

  function Prepend(s: seq<Sight>, o: Offering): Offering {
    o.(sights := s + o.sights)
  }

  /** Offers the argument at `pos` to the groups from g on; `tick` calls have been
      made to parsers before. */
  function Offer(groups: seq<Group>, user: nat -> Reaction, processed: seq<nat>, tick: nat, pos: int, g: nat): Offering
    decreases |groups| - g
  {
    if g >= |groups| then Offering([], None)
    else if !HasParser(groups, g) then Offer(groups, user, processed, tick, pos, g + 1)
    else
      var first := Sight(Call(g, KEY_ARG), pos + 1, Count(processed, g));
      var r := user(tick);
      if r.err != EBADKEY then Offering([first], Some(Taker(g, KEY_ARG, r)))
      else
        var second := Sight(Call(g, KEY_ARGS), r.next - 1, Count(processed, g));
        var r2 := user(tick + 1);
        if r2.err != EBADKEY then Offering([first, second], Some(Taker(g, KEY_ARGS, r2)))
        else Prepend([first, second], Offer(groups, user, processed, tick + 2, r2.next, g + 1))
  }

  predicate Refuses(user: nat -> Reaction, k: nat) {
    user(k).err == EBADKEY
  }

  /** What is seen in the k-th call of an offering. */
  ghost predicate InOrder(s: seq<Sight>, user: nat -> Reaction, processed: seq<nat>, tick: nat, pos: int, g: nat,
                          k: nat)
    requires k < |s|
  {
    && s[k].call.group >= g && s[k].argNum == Count(processed, s[k].call.group)
    && if s[k].call.key == KEY_ARG then
         // The argument counts as consumed, and no group comes twice.
         && s[k].next == (if k == 0 then pos else user(tick + k - 1).next) + 1
         && (k > 0 ==> s[k - 1].call.group < s[k].call.group && s[k - 1].call.key == KEY_ARGS)
       else
         // It has been put back, after the same group has refused ARG.
         && s[k].call.key == KEY_ARGS && k > 0 && s[k - 1].call == Call(s[k].call.group, KEY_ARG)
         && s[k].next == user(tick + k - 1).next - 1
  }

  ghost predicate WellOffered(groups: seq<Group>, user: nat -> Reaction, processed: seq<nat>, tick: nat, pos: int,
                              g: nat, o: Offering)
  {
    var n := |o.sights|;
    && (forall k :: 0 <= k < n ==> InOrder(o.sights, user, processed, tick, pos, g, k))
    && (forall k :: tick <= k < tick + n - 1 ==> Refuses(user, k))
    && if o.taker.Some? then
         && n > 0 && !Refuses(user, tick + n - 1) && o.taker.value.reaction == user(tick + n - 1)
         && o.sights[n - 1].call == Call(o.taker.value.group, o.taker.value.key)
       else
         (forall k :: tick <= k < tick + n ==> Refuses(user, k)) && n == 2 * |Up(groups, g, |groups|)|
  }

  /** An argument goes to the parsers in order, to each as ARG and then as ARGS, and
      stops at the first call that does not refuse it; if all refuse, every parser
      was asked twice. */
  lemma {:induction false} OfferInOrder(groups: seq<Group>, user: nat -> Reaction, processed: seq<nat>, tick: nat,
                                        pos: int, g: nat)
    ensures WellOffered(groups, user, processed, tick, pos, g, Offer(groups, user, processed, tick, pos, g))
    decreases |groups| - g
  {
    UpFirst(groups, g, |groups|);
    if g < |groups| {
      hide Up;
      if !HasParser(groups, g) {
        OfferInOrder(groups, user, processed, tick, pos, g + 1);
        LaterGroup(groups, user, processed, tick, pos, g, Offer(groups, user, processed, tick, pos, g + 1));
      } else if user(tick).err == EBADKEY && user(tick + 1).err == EBADKEY {
        var pos2 := user(tick + 1).next;
        OfferInOrder(groups, user, processed, tick + 2, pos2, g + 1);
        TwiceRefused(groups, user, processed, tick, pos, g, Offer(groups, user, processed, tick + 2, pos2, g + 1));
      }
    }
  }

  lemma LaterGroup(groups: seq<Group>, user: nat -> Reaction, processed: seq<nat>, tick: nat, pos: int, g: nat,
                   o: Offering)
    requires WellOffered(groups, user, processed, tick, pos, g + 1, o)
             && |Up(groups, g, |groups|)| == |Up(groups, g + 1, |groups|)|
    ensures WellOffered(groups, user, processed, tick, pos, g, o)
  {
    hide Up;
    forall k | 0 <= k < |o.sights|
      ensures InOrder(o.sights, user, processed, tick, pos, g, k)
    {
      assert InOrder(o.sights, user, processed, tick, pos, g + 1, k);
    }
  }

  lemma TwiceRefused(groups: seq<Group>, user: nat -> Reaction, processed: seq<nat>, tick: nat, pos: int, g: nat,
                     rest: Offering)
    requires WellOffered(groups, user, processed, tick + 2, user(tick + 1).next, g + 1, rest)
    requires Refuses(user, tick) && Refuses(user, tick + 1)
    requires |Up(groups, g, |groups|)| == |Up(groups, g + 1, |groups|)| + 1
    ensures var first := Sight(Call(g, KEY_ARG), pos + 1, Count(processed, g));
            var second := Sight(Call(g, KEY_ARGS), user(tick).next - 1, Count(processed, g));
            WellOffered(groups, user, processed, tick, pos, g, Prepend([first, second], rest))
  {
    hide Up;
    var first := Sight(Call(g, KEY_ARG), pos + 1, Count(processed, g));
    var second := Sight(Call(g, KEY_ARGS), user(tick).next - 1, Count(processed, g));
    var o := Prepend([first, second], rest);
    forall k | 0 <= k < |o.sights|
      ensures InOrder(o.sights, user, processed, tick, pos, g, k)
    {
      if k >= 2 {
        assert InOrder(rest.sights, user, processed, tick + 2, user(tick + 1).next, g + 1, k - 2);
      }
    }
  }

  lemma {:induction false} UpFirst(groups: seq<Group>, lo: nat, hi: nat)
    ensures |Up(groups, lo, hi)| == if lo >= hi then 0
            else |Up(groups, lo + 1, hi)| + if HasParser(groups, lo) then 1 else 0
    decreases hi
  {
    if lo < hi {
      UpFirst(groups, lo, hi - 1);
    }
  }

  // ----- parser_parse_next -----

  const END_OF_OPTIONS := -1
  const NON_OPTION := 1
  const OPTION_ERROR := '?' as int

  /** A call to getopt: its result, the new optind, whether optopt tells of an
      error, and whether the argument before optind is "--". */
  datatype Scan = Scan(opt: int, optind: int, failed: bool, dashes: bool)

  /** What one turn of the loop does: stop, offer the argument at an index, or
      handle an option. */
  datatype Turn = Stop(argEbadkey: bool) | Argument(index: int) | Opted(opt: int)

  /** Past the options: the next argument, if there is one and it may be taken. */
  function AtEnd(next: int, argc: int, noArgs: bool): Turn {
    if next >= argc || noArgs then Stop(true) else Argument(next)
  }

  /** getopt is asked unless it has said there are no more options, or the position
      is past a "--". */
  predicate Asks(tryGetopt: bool, quoted: int, next: int) {
    tryGetopt && (quoted == 0 || next < quoted)
  }

  function Decide(tryGetopt: bool, quoted: int, next: int, argc: int, noArgs: bool, s: Scan): Turn {
    if !Asks(tryGetopt, quoted, next) then AtEnd(next, argc, noArgs)
    else if s.opt == END_OF_OPTIONS then AtEnd(s.optind, argc, noArgs)
    else if s.opt == OPTION_ERROR && s.failed then Stop(false)
    else if s.opt == NON_OPTION then Argument(s.optind - 1)
    else Opted(s.opt)
  }
}
