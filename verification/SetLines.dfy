/** Which set messages go to: what `$set` and `$delset` lines do to the current set, told
    without the operation that enters one. */
module SetLines {
  import opened Options
  import opened MessageLists
  import opened GencatMeaning

  ghost predicate Proper(s: Said) {
    s.current in s.blocks && s.lastSet >= 0 && Bounded(s)
  }

  /** `$set` with a number, or with a name no set has yet. */
  predicate Enters(s: Said, line: Line) {
    match line
    case SetNumber(number) => number != 0
    case SetName(name) => !NameUsed(s.blocks, name)
    case _ => false
  }

  lemma TakeOne(s: Said, line: Line)
    requires Proper(s)
    ensures TakeAll(s, [line]) == Take(s, line) && Proper(Take(s, line))
  {
    hide Take, Bounded;
    OneLineMore(s, line, s.current, Item([], None));
    assert [line][..0] == [];
    assert TakeAll(s, [line][..0]) == s;
  }

  lemma {:induction false} TakeMore(s: Said, lines: seq<Line>, more: seq<Line>)
    requires Proper(s)
    ensures TakeAll(s, lines + more) == TakeAll(TakeAll(s, lines), more)
    decreases |more|
  {
    hide Take, Bounded;
    if more == [] {
      assert lines + more == lines;
    } else {
      var all := lines + more;
      assert all[..|all| - 1] == lines + more[..|more| - 1];
      TakeMore(s, lines, more[..|more| - 1]);
    }
  }

  lemma {:induction false} TakeAllProper(s: Said, lines: seq<Line>)
    requires Proper(s)
    ensures Proper(TakeAll(s, lines))
  {
    hide Take, Bounded;
    if lines != [] {
      TakeAllProper(s, lines[..|lines| - 1]);
      TakeOne(TakeAll(s, lines[..|lines| - 1]), lines[|lines| - 1]);
    }
  }

  /** `$set n` makes user set n current, which is stored as set n + 1 and has no name from then
      on, and says nothing yet. */
  lemma NumberEnters(s: Said, n: nat)
    requires Proper(s) && n > 0
    ensures var r := TakeAll(s, [SetNumber(n)]);
            && r.current == n + 1 && r.lastSet == (if n > s.lastSet then n else s.lastSet)
            && r.current in r.blocks && r.blocks[r.current].symbol == None
            && forall k, q :: Says(r, k, q) == Says(s, k, q)
  {
    TakeOne(s, SetNumber(n));
  }

  /** `$set` with a new name makes current the set one above the highest number used. */
  lemma NameEnters(s: Said, name: string)
    requires Proper(s) && !NameUsed(s.blocks, name)
    ensures var r := TakeAll(s, [SetName(name)]);
            && r.current == s.lastSet + 2 && r.lastSet == s.lastSet + 1
            && r.current in r.blocks && r.blocks[r.current].symbol == Some(name)
            && forall k, q :: Says(r, k, q) == Says(s, k, q)
  {
    TakeOne(s, SetName(name));
  }

  /** Any other line leaves the current set current: `$set 0`, `$set` with a name that is
      taken, `$delset` and messages. */
  lemma OthersStay(s: Said, line: Line)
    requires Proper(s) && !Enters(s, line)
    ensures TakeAll(s, [line]).current == s.current
  {
    TakeOne(s, line);
    hide Bounded, GaveNumber, GaveSymbol;
  }

  /** A line that is no message says nothing new and takes nothing back. */
  lemma DirectivesSayNothing(s: Said, line: Line)
    requires Proper(s) && !line.NumberLine? && !line.SymbolLine?
    ensures forall k, q :: Says(TakeAll(s, [line]), k, q) == Says(s, k, q)
  {
    TakeOne(s, line);
    hide Bounded, NameUsed;
  }

  /** Messages change what the current set says and nothing else. */
  lemma OnlyCurrent(s: Said, line: Line, k: int, q: int)
    requires Proper(s) && (line.NumberLine? || line.SymbolLine?) && k != s.current
    ensures Says(TakeAll(s, [line]), k, q) == Says(s, k, q)
  {
    TakeOne(s, line);
    hide Bounded, GaveNumber, GaveSymbol;
  }

  /** A message with a number the user has not given in the current set is said there. */
  lemma MessageSaid(s: Said, m: nat, text: Text)
    requires Proper(s) && m > 0 && !UserGave(s.blocks[s.current].items, m)
    ensures Says(TakeAll(s, [NumberLine(m, text, true)]), s.current, m) == Some(text)
  {
    TakeOne(s, NumberLine(m, text, true));
  }

  /** A message with a new symbol takes the number after the last one given out, and an
      automatic number gives way to the user's. */
  lemma SymbolSaid(s: Said, ident: string, text: Text)
    requires Proper(s) && !SymbolUsed(s.blocks[s.current].items, ident)
    ensures var r, last := TakeAll(s, [SymbolLine(ident, text, true)]), s.blocks[s.current].last;
            && Says(r, s.current, last + 1) == Some(text) && Says(s, s.current, last + 1) == None
            && s.current in r.blocks && r.blocks[s.current].last == last + 1
  {
    TakeOne(s, SymbolLine(ident, text, true));
  }

  lemma AutomaticMoves(s: Said, m: nat, text: Text)
    requires Proper(s) && m > 0 && m in s.blocks[s.current].items && !UserGave(s.blocks[s.current].items, m)
    ensures var r := TakeAll(s, [NumberLine(m, text, true)]);
            Says(r, s.current, s.blocks[s.current].last + 1) == Says(s, s.current, m)
  {
    TakeOne(s, NumberLine(m, text, true));
  }

  /** Every message line counts that converts or is refused. */
  lemma Counted(s: Said, line: Line)
    requires Proper(s)
    ensures TakeAll(s, [line]).total == s.total + match line
              case NumberLine(n, _, convertible) =>
                if n == 0 || UserGave(s.blocks[s.current].items, n) || convertible then 1 else 0
              case SymbolLine(ident, _, convertible) =>
                if SymbolUsed(s.blocks[s.current].items, ident) || convertible then 1 else 0
              case _ => 0
  {
    TakeOne(s, line);
  }

  /** `$set n` and a message: said in user set n, with every other set as before. */
  lemma SetThenMessage(s: Said, n: nat, m: nat, text: Text)
    requires Proper(s) && n > 0 && m > 0
    requires n + 1 in s.blocks ==> !UserGave(s.blocks[n + 1].items, m)
    ensures var r := TakeAll(s, [SetNumber(n), NumberLine(m, text, true)]);
            Says(r, n + 1, m) == Some(text) && forall k, q :: k != n + 1 ==> Says(r, k, q) == Says(s, k, q)
  {
    hide Says, Bounded, UserGave;
    var mid := TakeAll(s, [SetNumber(n)]);
    NumberEnters(s, n);
    TakeAllProper(s, [SetNumber(n)]);
    EnteredNotGiven(s, SetNumber(n), m);
    TwoLines(s, SetNumber(n), NumberLine(m, text, true));
    MessageSaid(mid, m, text);
    forall k, q | k != n + 1
      ensures Says(TakeAll(mid, [NumberLine(m, text, true)]), k, q) == Says(s, k, q)
    {
      OnlyCurrent(mid, NumberLine(m, text, true), k, q);
    }
  }

  /** `$set` with a new name and a message: said in the set above all that `$set` has used. */
  lemma NameThenMessage(s: Said, name: string, m: nat, text: Text)
    requires Proper(s) && m > 0 && !NameUsed(s.blocks, name)
    requires s.lastSet + 2 in s.blocks ==> !UserGave(s.blocks[s.lastSet + 2].items, m)
    ensures var r := TakeAll(s, [SetName(name), NumberLine(m, text, true)]);
            && Says(r, s.lastSet + 2, m) == Some(text)
            && forall k, q :: k != s.lastSet + 2 ==> Says(r, k, q) == Says(s, k, q)
  {
    hide Says, Bounded, NameUsed, UserGave;
    var mid := TakeAll(s, [SetName(name)]);
    NameEnters(s, name);
    TakeAllProper(s, [SetName(name)]);
    EnteredNotGiven(s, SetName(name), m);
    TwoLines(s, SetName(name), NumberLine(m, text, true));
    MessageSaid(mid, m, text);
    forall k, q | k != s.lastSet + 2
      ensures Says(TakeAll(mid, [NumberLine(m, text, true)]), k, q) == Says(s, k, q)
    {
      OnlyCurrent(mid, NumberLine(m, text, true), k, q);
    }
  }

  lemma TwoLines(s: Said, line: Line, next: Line)
    requires Proper(s)
    ensures TakeAll(s, [line, next]) == TakeAll(TakeAll(s, [line]), [next])
  {
    hide Bounded, TakeAll;
    TakeMore(s, [line], [next]);
    assert [line] + [next] == [line, next];
  }

  lemma EnteredNotGiven(s: Said, line: Line, m: int)
    requires Proper(s) && Enters(s, line)
    requires var k := if line.SetNumber? then line.setNumber + 1 else s.lastSet + 2;
             k in s.blocks ==> !UserGave(s.blocks[k].items, m)
    ensures var r := TakeAll(s, [line]);
            r.current in r.blocks && !UserGave(r.blocks[r.current].items, m)
  {
    TakeOne(s, line);
  }

  /** Up to the next line that enters a set, every message goes to the set entered. */
  lemma {:induction false} SectionOfSet(s: Said, n: nat, lines: seq<Line>, k: int, q: int)
    requires Proper(s) && n > 0 && k != n + 1
    requires forall i :: 0 <= i < |lines| ==> !lines[i].SetNumber? && !lines[i].SetName?
    ensures var r := TakeAll(s, [SetNumber(n)] + lines);
            r.current == n + 1 && Says(r, k, q) == Says(s, k, q)
  {
    hide Bounded, Says;
    TakeMore(s, [SetNumber(n)], lines);
    NumberEnters(s, n);
    if lines == [] {
      assert [SetNumber(n)] + lines == [SetNumber(n)];
    } else {
      var front, last := lines[..|lines| - 1], lines[|lines| - 1];
      SectionOfSet(s, n, front, k, q);
      var before := TakeAll(s, [SetNumber(n)] + front);
      TakeAllProper(s, [SetNumber(n)] + front);
      TakeMore(s, [SetNumber(n)] + front, [last]);
      assert [SetNumber(n)] + front + [last] == [SetNumber(n)] + lines;
      OthersStay(before, last);
      if last.NumberLine? || last.SymbolLine? {
        OnlyCurrent(before, last, k, q);
      } else {
        DirectivesSayNothing(before, last);
      }
    }
  }

  /** Line i enters a set, and this is its user number. */
  ghost predicate UsesAt(lines: seq<Line>, i: nat, number: int)
    requires i < |lines|
  {
    && Enters(TakeAll(NOTHING_SAID, lines[..i]), lines[i])
    && number == TakeAll(NOTHING_SAID, lines[..i + 1]).current - 1
  }

  lemma NothingProper()
    ensures Proper(NOTHING_SAID)
  {
  }

  lemma UsesBefore(lines: seq<Line>, i: nat, number: int)
    requires i < |lines| - 1
    ensures UsesAt(lines[..|lines| - 1], i, number) <==> UsesAt(lines, i, number)
  {
    assert lines[..|lines| - 1][..i] == lines[..i] && lines[..|lines| - 1][..i + 1] == lines[..i + 1];
  }

  lemma HighestNext(s: Said, line: Line)
    requires Proper(s)
    ensures var r := TakeAll(s, [line]);
            if Enters(s, line) then r.lastSet == (if r.current - 1 > s.lastSet then r.current - 1 else s.lastSet)
            else r.lastSet == s.lastSet
  {
    TakeOne(s, line);
    hide Bounded, GaveNumber, GaveSymbol;
  }

  /** After any lines the last set number is the highest that a `$set` line has used, or 0
      if there was none. */
  lemma {:induction false} HighestUsed(lines: seq<Line>)
    ensures var last := TakeAll(NOTHING_SAID, lines).lastSet;
            && (forall i, number :: 0 <= i < |lines| && UsesAt(lines, i, number) ==> number <= last)
            && (last == 0 || exists i :: 0 <= i < |lines| && UsesAt(lines, i, last))
  {
    hide Bounded, Take, Enters;
    if lines != [] {
      var n := |lines| - 1;
      var front := lines[..n];
      var before := TakeAll(NOTHING_SAID, front);
      HighestUsed(front);
      NothingProper();
      TakeAllProper(NOTHING_SAID, front);
      assert front + [lines[n]] == lines == lines[..n + 1];
      TakeMore(NOTHING_SAID, front, [lines[n]]);
      HighestNext(before, lines[n]);
      var last := TakeAll(NOTHING_SAID, lines).lastSet;
      forall i, number | 0 <= i < |lines| && UsesAt(lines, i, number)
        ensures number <= last
      {
        if i < n {
          UsesBefore(lines, i, number);
        }
      }
      if last == before.lastSet {
        if last != 0 {
          var i :| 0 <= i < n && UsesAt(front, i, last);
          UsesBefore(lines, i, last);
        }
      } else {
        assert UsesAt(lines, n, last);
      }
    }
  }
}
