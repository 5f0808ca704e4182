/** linknamespace.py: which symbols a header's functions drag in at link time. */
module LinkClosure {

  type Symbol = string
  type File = string

  /** A line of the symbol listing: a symbol that an object file defines or uses. */
  datatype Entry = Entry(file: File, name: Symbol, strong: bool, defined: bool)

  // ----- What the listing says -----

  predicate Listed(es: seq<Entry>, f: File, s: Symbol, strong: bool, defined: bool) {
    Entry(f, s, strong, defined) in es
  }

  /** File f defines s, strongly or weakly. */
  predicate Defines(es: seq<Entry>, f: File, s: Symbol) {
    Listed(es, f, s, true, true) || Listed(es, f, s, false, true)
  }

  /** Linking f brings s in, unless s is weakly defined. */
  predicate Mentions(es: seq<Entry>, f: File, s: Symbol) {
    Listed(es, f, s, true, true) || Listed(es, f, s, true, false) || Listed(es, f, s, false, false)
  }

  /** Linking f makes the linker look for s. */
  predicate Needs(es: seq<Entry>, f: File, s: Symbol) {
    Listed(es, f, s, true, false)
  }

  /** The three relations as the script's comments give them: a file is recorded with all
      its symbols except weakly defined ones, with its strong undefined symbols, and under
      the symbols it defines, strongly or weakly. */
  lemma ListingSays(es: seq<Entry>, f: File, s: Symbol)
    ensures Mentions(es, f, s) <==> exists e :: e in es && e.file == f && e.name == s && !(e.defined && !e.strong)
    ensures Needs(es, f, s) <==> exists e :: e in es && e.file == f && e.name == s && e.strong && !e.defined
    ensures Defines(es, f, s) <==> exists e :: e in es && e.file == f && e.name == s && e.defined
  {
    if e :| e in es && e.file == f && e.name == s {
      assert e == Entry(f, s, e.strong, e.defined);
    }
    if e :| e in es && e.file == f && e.name == s && !(e.defined && !e.strong) {
      assert e == Entry(f, s, e.strong, e.defined);
    }
    if e :| e in es && e.file == f && e.name == s && e.strong && !e.defined {
      assert e == Entry(f, s, e.strong, e.defined);
    }
    if e :| e in es && e.file == f && e.name == s && e.defined {
      assert e == Entry(f, s, e.strong, e.defined);
    }
  }

  // ----- Chains of dependencies -----

  /** The value recorded for a symbol: how it came in. */
  datatype Chain = Initial(name: Symbol) | Via(prev: Chain, file: File, name: Symbol)

  function Length(c: Chain): nat {
    match c
    case Initial(_) => 0
    case Via(prev, _, _) => 1 + Length(prev)
  }

  /** The text the script stores and prints. */
  function Text(c: Chain): string {
    match c
    case Initial(name) => "[initial] " + name
    case Via(prev, file, name) => Text(prev) + " -> [" + file + "] " + name
  }

  /** For instance. */
  lemma ChainText()
    ensures Text(Via(Via(Initial("f"), "a.o", "g"), "b.o", "h")) == "[initial] f -> [a.o] g -> [b.o] h"
  {
    assert Text(Initial("f")) == "[initial] f";
    assert Text(Via(Initial("f"), "a.o", "g")) == "[initial] f -> [a.o] g";
  }

  /** Every link is real: each file defines the symbol before it and needs the one
      after it. */
  predicate Wanted(es: seq<Entry>, start: set<Symbol>, c: Chain) {
    match c
    case Initial(name) => name in start
    case Via(prev, file, name) => Wanted(es, start, prev) && Defines(es, file, prev.name) && Needs(es, file, name)
  }

  /** Likewise, but the last file need only mention the last symbol. */
  predicate Real(es: seq<Entry>, start: set<Symbol>, c: Chain) {
    match c
    case Initial(name) => name in start
    case Via(prev, file, name) => Wanted(es, start, prev) && Defines(es, file, prev.name) && Mentions(es, file, name)
  }

  // ----- The closure -----

  /** Closed under "defines an initial symbol or one that a member needs". */
  ghost predicate Closed(es: seq<Entry>, start: set<Symbol>, files: set<File>) {
    && (forall f, s :: s in start && Defines(es, f, s) ==> f in files)
    && (forall f, g, s :: g in files && Needs(es, g, s) && Defines(es, f, s) ==> f in files)
  }

  /** Whatever a real chain ends in is in every closed set. */
  lemma {:induction false} ChainInside(es: seq<Entry>, start: set<Symbol>, files: set<File>, c: Chain, f: File)
    requires Closed(es, start, files) && Wanted(es, start, c) && Defines(es, f, c.name)
    ensures f in files
  {
    if c.Via? {
      ChainInside(es, start, files, c.prev, c.file);
    }
  }

  /** f is in every closed set. */
  ghost predicate Reached(es: seq<Entry>, start: set<Symbol>, f: File) {
    exists c :: Wanted(es, start, c) && Defines(es, f, c.name)
  }

  // ----- The dictionaries built from the listing -----

  datatype Lib = Lib(seenSyms: map<File, seq<Symbol>>, strongUndef: map<File, seq<Symbol>>,
                     symObjs: map<Symbol, seq<File>>)

  /** Reading a defaultdict(list). */
  function Get(m: map<string, seq<string>>, key: string): seq<string> {
    if key in m then m[key] else []
  }

  function Append(m: map<string, seq<string>>, key: string, v: string): map<string, seq<string>> {
    m[key := Get(m, key) + [v]]
  }

  ghost predicate Loaded(es: seq<Entry>, lib: Lib) {
    && (forall f, s :: s in Get(lib.seenSyms, f) <==> Mentions(es, f, s))
    && (forall f, s :: s in Get(lib.strongUndef, f) <==> Needs(es, f, s))
    && (forall f, s :: f in Get(lib.symObjs, s) <==> Defines(es, f, s))
  }

  lemma ListedNext(es: seq<Entry>, e: Entry, f: File, s: Symbol, strong: bool, defined: bool)
    ensures Listed(es + [e], f, s, strong, defined) <==>
            Listed(es, f, s, strong, defined) || e == Entry(f, s, strong, defined)
  {
  }

  lemma AppendGet(m: map<string, seq<string>>, key: string, v: string, k: string, x: string)
    ensures x in Get(Append(m, key, v), k) <==> x in Get(m, k) || (k == key && x == v)
  {
  }

  /** The effect of one line on the dictionaries. */
  function AddEntry(lib: Lib, e: Entry): Lib {
    Lib(if e.strong || !e.defined then Append(lib.seenSyms, e.file, e.name) else lib.seenSyms,
        if e.strong && !e.defined then Append(lib.strongUndef, e.file, e.name) else lib.strongUndef,
        if e.defined then Append(lib.symObjs, e.name, e.file) else lib.symObjs)
  }

  lemma LoadedNext(es: seq<Entry>, e: Entry, lib: Lib)
    requires Loaded(es, lib)
    ensures Loaded(es + [e], AddEntry(lib, e))
  {
    hide Listed, Append, Get;
    var lib' := AddEntry(lib, e);
    forall f: File, s: Symbol
      ensures s in Get(lib'.seenSyms, f) <==> Mentions(es + [e], f, s)
      ensures s in Get(lib'.strongUndef, f) <==> Needs(es + [e], f, s)
      ensures f in Get(lib'.symObjs, s) <==> Defines(es + [e], f, s)
    {
      ListedNext(es, e, f, s, true, true);
      ListedNext(es, e, f, s, true, false);
      ListedNext(es, e, f, s, false, true);
      ListedNext(es, e, f, s, false, false);
      AppendGet(lib.seenSyms, e.file, e.name, f, s);
      AppendGet(lib.strongUndef, e.file, e.name, f, s);
      AppendGet(lib.symObjs, e.name, e.file, s, f);
    }
  }

  method Load(es: seq<Entry>) returns (lib: Lib)
    ensures Loaded(es, lib)
  {
    hide Loaded;
    lib := Lib(map[], map[], map[]);
    NothingLoaded(lib);
    for i := 0 to |es|
      invariant Loaded(es[..i], lib)
    {
      var e := es[i];
      assert es[..i + 1] == es[..i] + [e];
      LoadedNext(es[..i], e, lib);
      if e.defined {
        lib := lib.(symObjs := Append(lib.symObjs, e.name, e.file));
      }
      if e.strong || !e.defined {
        lib := lib.(seenSyms := Append(lib.seenSyms, e.file, e.name));
      }
      if e.strong && !e.defined {
        lib := lib.(strongUndef := Append(lib.strongUndef, e.file, e.name));
      }
    }
    assert es[..|es|] == es;
  }

  lemma NothingLoaded(lib: Lib)
    requires lib == Lib(map[], map[], map[])
    ensures Loaded([], lib)
  {
  }

  // ----- Invariants of the search -----

  /** Every recorded chain is real and ends in the symbol it is recorded for. */
  ghost predicate Honest(es: seq<Entry>, start: set<Symbol>, seen: map<Symbol, Chain>, files: set<File>,
                         undef: map<Symbol, Chain>) {
    && (forall s :: s in undef ==> undef[s].name == s && Wanted(es, start, undef[s]))
    && (forall s :: s in seen ==>
        seen[s].name == s && Real(es, start, seen[s]) && (seen[s].Via? ==> seen[s].file in files))
    && (forall f :: f in files ==> Reached(es, start, f))
  }

  /** Initial symbols and those of the files seen have been recorded. */
  ghost predicate Recorded(es: seq<Entry>, start: set<Symbol>, seen: map<Symbol, Chain>, files: set<File>,
                           undef: map<Symbol, Chain>) {
    && start <= undef.Keys && start <= seen.Keys
    && (forall f, s :: f in files && Mentions(es, f, s) ==> s in seen)
    && (forall f, s :: f in files && Needs(es, f, s) ==> s in undef)
  }

  ghost predicate Short(m: map<Symbol, Chain>, k: nat) {
    forall s :: s in m ==> Length(m[s]) <= k
  }

  /** All chains of up to k links have been matched by recorded ones. */
  ghost predicate Matched(es: seq<Entry>, start: set<Symbol>, seen: map<Symbol, Chain>, undef: map<Symbol, Chain>,
                          k: nat) {
    && (forall c :: Wanted(es, start, c) && Length(c) <= k ==> c.name in undef && Length(undef[c.name]) <= Length(c))
    && (forall c :: Real(es, start, c) && Length(c) <= k ==> c.name in seen && Length(seen[c.name]) <= Length(c))
  }

  /** The files defining these symbols have been visited. */
  ghost predicate Visited(es: seq<Entry>, syms: set<Symbol>, files: set<File>) {
    forall f, s :: s in syms && Defines(es, f, s) ==> f in files
  }

  ghost predicate Extends(m: map<Symbol, Chain>, m': map<Symbol, Chain>) {
    m.Keys <= m'.Keys && forall s :: s in m ==> m'[s] == m[s]
  }

  /** New names get a chain through this file; known ones keep theirs. */
  function Grown(m: map<Symbol, Chain>, cu: Chain, file: File, names: seq<Symbol>): (m': map<Symbol, Chain>)
    ensures forall s :: s in m' <==> s in m || s in names
    ensures forall s :: s in m' ==> m'[s] == if s in m then m[s] else Via(cu, file, s)
  {
    map s | s in m.Keys + (set n | n in names) :: if s in m then m[s] else Via(cu, file, s)
  }

  lemma GrownNext(m: map<Symbol, Chain>, cu: Chain, file: File, names: seq<Symbol>, name: Symbol)
    ensures var now := Grown(m, cu, file, names);
            Grown(m, cu, file, names + [name]) == if name in now then now else now[name := Via(cu, file, name)]
  {
  }

  // ----- Sorting -----

  /** The order of strings: the first differing character decides. */
  predicate Less(a: string, b: string) {
    b != "" && (a == "" || a[0] < b[0] || (a[0] == b[0] && Less(a[1..], b[1..])))
  }

  lemma {:induction false} LessTotal(a: string, b: string)
    ensures Less(a, b) || a == b || Less(b, a)
    ensures !(Less(a, b) && Less(b, a)) && !Less(a, a)
  {
    if a != "" && b != "" {
      LessTotal(a[1..], b[1..]);
      assert a == [a[0]] + a[1..] && b == [b[0]] + b[1..];
    }
    if a != "" {
      LessTotal(a[1..], a[1..]);
    }
  }

  lemma {:induction false} LessTransitive(a: string, b: string, c: string)
    requires Less(a, b) && Less(b, c)
    ensures Less(a, c)
  {
    if a != "" && a[0] == b[0] == c[0] {
      LessTransitive(a[1..], b[1..], c[1..]);
    }
  }

  /** The next symbol in sorted order. */
  method Least(syms: set<Symbol>) returns (m: Symbol)
    requires syms != {}
    ensures m in syms && forall s :: s in syms && s != m ==> Less(m, s)
  {
    hide Less;
    m :| m in syms;
    var todo := syms - {m};
    while todo != {}
      invariant m in syms && todo <= syms
      invariant forall s :: s in syms - todo && s != m ==> Less(m, s)
      decreases |todo|
    {
      var s :| s in todo;
      todo := todo - {s};
      LessTotal(m, s);
      if Less(s, m) {
        forall x | x in syms - todo && x != s
          ensures Less(s, x)
        {
          if x != m {
            LessTransitive(s, m, x);
          }
        }
        m := s;
      }
    }
  }

  // ----- The search -----

  /** The dictionaries the main loop updates.  `base` is what all_undef held when the
      current round began. */
  class Search {
    const lib: Lib
    ghost const es: seq<Entry>
    ghost const start: set<Symbol>
    var seenWhere: map<Symbol, Chain>
    var filesSeen: set<File>
    var allUndef: map<Symbol, Chain>
    var newUndef: map<Symbol, Chain>

    ghost predicate Valid()
      reads this
    {
      && Loaded(es, lib)
      && Honest(es, start, seenWhere, filesSeen, allUndef)
      && Recorded(es, start, seenWhere, filesSeen, allUndef)
    }

    /** In a round that began with chains of up to k links. */
    ghost predicate InRound(base: map<Symbol, Chain>, k: nat)
      reads this
    {
      && Valid() && Extends(base, allUndef) && Short(base, k) && Short(allUndef, k + 1) && Short(seenWhere, k + 1)
      && newUndef == allUndef - base.Keys
      && Matched(es, start, seenWhere, base, k)
    }

    constructor (lib: Lib, initial: seq<Symbol>, ghost es: seq<Entry>)
      requires Loaded(es, lib)
      ensures Valid() && this.es == es && start == (set s | s in initial)
      ensures allUndef.Keys == start && filesSeen == {}
      ensures Short(allUndef, 0) && Short(seenWhere, 0) && Matched(es, start, seenWhere, allUndef, 0)
    {
      var first := map s | s in initial :: Initial(s);
      this.lib, this.es, this.start := lib, es, set s | s in initial;
      seenWhere, filesSeen, allUndef, newUndef := first, {}, first, map[];
      new;
      StartValid(es, start, allUndef);
    }

    /** The two inner loops: the symbols of one file. */
    method VisitFile(cu: Chain, file: File)
      modifies this
      ensures filesSeen == old(filesSeen) + {file}
      ensures seenWhere == Grown(old(seenWhere), cu, file, Get(lib.seenSyms, file))
      ensures allUndef == Grown(old(allUndef), cu, file, Get(lib.strongUndef, file))
      ensures newUndef == old(newUndef) + (allUndef - old(allUndef).Keys)
    {
      hide Grown, Get;
      filesSeen := filesSeen + {file};
      ReadSeen(cu, file, Get(lib.seenSyms, file));
      ReadUndef(cu, file, Get(lib.strongUndef, file));
    }

    method ReadSeen(cu: Chain, file: File, names: seq<Symbol>)
      modifies this`seenWhere
      ensures seenWhere == Grown(old(seenWhere), cu, file, names)
    {
      hide Grown;
      GrownNothing(seenWhere, cu, file);
      for i := 0 to |names|
        invariant seenWhere == Grown(old(seenWhere), cu, file, names[..i])
      {
        var ssym := names[i];
        GrownNext(old(seenWhere), cu, file, names[..i], ssym);
        assert names[..i + 1] == names[..i] + [ssym];
        if ssym !in seenWhere {
          seenWhere := seenWhere[ssym := Via(cu, file, ssym)];
        }
      }
      assert names[..|names|] == names;
    }

    method ReadUndef(cu: Chain, file: File, undefs: seq<Symbol>)
      modifies this`allUndef, this`newUndef
      ensures allUndef == Grown(old(allUndef), cu, file, undefs)
      ensures newUndef == old(newUndef) + (allUndef - old(allUndef).Keys)
    {
      hide Grown;
      GrownNothing(allUndef, cu, file);
      for i := 0 to |undefs|
        invariant allUndef == Grown(old(allUndef), cu, file, undefs[..i])
        invariant newUndef == old(newUndef) + (allUndef - old(allUndef).Keys)
      {
        var usym := undefs[i];
        GrownNext(old(allUndef), cu, file, undefs[..i], usym);
        assert undefs[..i + 1] == undefs[..i] + [usym];
        if usym !in allUndef {
          NewNext(old(newUndef), old(allUndef), allUndef, usym, Via(cu, file, usym));
          allUndef := allUndef[usym := Via(cu, file, usym)];
          newUndef := newUndef[usym := Via(cu, file, usym)];
        }
      }
      assert undefs[..|undefs|] == undefs;
    }

    /** One symbol of the round: visit the files defining it that are new. */
    method VisitSymbol(sym: Symbol, cu: Chain, ghost base: map<Symbol, Chain>, ghost k: nat)
      requires InRound(base, k) && sym in base && base[sym] == cu
      modifies this
      ensures InRound(base, k) && old(filesSeen) <= filesSeen && Visited(es, {sym}, filesSeen)
    {
      hide Grown, Get, Loaded, Honest, Recorded, Matched, Defines;
      var files := Get(lib.symObjs, sym);
      for i := 0 to |files|
        invariant InRound(base, k) && old(filesSeen) <= filesSeen
        invariant forall j :: 0 <= j < i ==> files[j] in filesSeen
      {
        if files[i] !in filesSeen {
          DefinerOf(es, lib, files[i], sym);
          RoundStep(es, start, lib, seenWhere, filesSeen, allUndef, base, k, sym, files[i]);
          VisitFile(cu, files[i]);
        }
      }
      forall f | Defines(es, f, sym)
        ensures f in filesSeen
      {
        DefinerOf(es, lib, f, sym);
      }
    }

    /** Between rounds: chains of up to k links have all been matched, and only the
        symbols in `current` may still have unvisited files. */
    ghost predicate Between(current: map<Symbol, Chain>, k: nat)
      reads this
    {
      && Valid() && Short(allUndef, k) && Short(seenWhere, k) && Matched(es, start, seenWhere, allUndef, k)
      && Extends(current, allUndef) && Visited(es, allUndef.Keys - current.Keys, filesSeen)
    }

    /** One turn of the main loop, taking the symbols in sorted order. */
    method Round(current: map<Symbol, Chain>, ghost k: nat)
      requires Between(current, k)
      modifies this
      ensures Between(newUndef, k + 1)
      ensures old(allUndef).Keys <= allUndef.Keys && newUndef.Keys == allUndef.Keys - old(allUndef).Keys
    {
      hide Loaded, Honest, Recorded, Matched, Short, Visited, Extends;
      newUndef := map[];
      ghost var base := allUndef;
      StartRound(es, start, seenWhere, allUndef, current, k);
      var todo := current.Keys;
      VisitedNone(es, current.Keys - todo, filesSeen);
      while todo != {}
        invariant InRound(base, k) && todo <= current.Keys
        invariant Visited(es, base.Keys - current.Keys, filesSeen) && Visited(es, current.Keys - todo, filesSeen)
        decreases |todo|
      {
        var sym := Least(todo);
        ghost var was := filesSeen;
        VisitSymbol(sym, current[sym], base, k);
        VisitedMore(es, base.Keys - current.Keys, {}, base.Keys - current.Keys, was, filesSeen);
        VisitedMore(es, current.Keys - todo, {sym}, current.Keys - (todo - {sym}), was, filesSeen);
        todo := todo - {sym};
      }
      VisitedMore(es, base.Keys - current.Keys, current.Keys - todo, base.Keys, filesSeen, filesSeen);
      RoundOver(allUndef, base);
      EndRound(es, start, seenWhere, filesSeen, allUndef, base, k);
    }
  }

  lemma NewNext(fresh0: map<Symbol, Chain>, was: map<Symbol, Chain>, now: map<Symbol, Chain>, s: Symbol, c: Chain)
    requires s !in now && was.Keys <= now.Keys
    ensures fresh0 + (now[s := c] - was.Keys) == (fresh0 + (now - was.Keys))[s := c]
  {
  }

  lemma StartValid(es: seq<Entry>, start: set<Symbol>, m: map<Symbol, Chain>)
    requires m.Keys == start && forall s :: s in m ==> m[s] == Initial(s)
    ensures Honest(es, start, m, {}, m) && Recorded(es, start, m, {}, m)
    ensures Short(m, 0) && Matched(es, start, m, m, 0)
  {
  }

  lemma GrownNothing(m: map<Symbol, Chain>, cu: Chain, file: File)
    ensures Grown(m, cu, file, []) == m
  {
  }

  lemma DefinerOf(es: seq<Entry>, lib: Lib, f: File, s: Symbol)
    requires Loaded(es, lib)
    ensures f in Get(lib.symObjs, s) <==> Defines(es, f, s)
  {
  }

  lemma VisitedNone(es: seq<Entry>, none: set<Symbol>, files: set<File>)
    requires none == {}
    ensures Visited(es, none, files) && Visited(es, {}, files)
  {
  }

  lemma VisitedMore(es: seq<Entry>, a: set<Symbol>, b: set<Symbol>, c: set<Symbol>, files: set<File>, files': set<File>)
    requires Visited(es, a, files) && (b == {} || Visited(es, b, files')) && files <= files' && c <= a + b
    ensures Visited(es, c, files')
  {
  }

  /** The new symbols of the round are those that were not known when it began. */
  lemma RoundOver(undef: map<Symbol, Chain>, base: map<Symbol, Chain>)
    requires Extends(base, undef)
    ensures var added := undef - base.Keys;
            && Extends(added, undef) && undef.Keys - added.Keys == base.Keys
            && added.Keys == undef.Keys - base.Keys && base.Keys <= undef.Keys
  {
  }

  /** What visiting one file does to the invariants. */
  lemma RoundStep(es: seq<Entry>, start: set<Symbol>, lib: Lib, seen: map<Symbol, Chain>, files: set<File>,
                  undef: map<Symbol, Chain>, base: map<Symbol, Chain>, k: nat, sym: Symbol, file: File)
    requires Loaded(es, lib) && Honest(es, start, seen, files, undef) && Recorded(es, start, seen, files, undef)
    requires Extends(base, undef) && Short(base, k) && Short(undef, k + 1) && Short(seen, k + 1)
    requires sym in base && Defines(es, file, sym) && Matched(es, start, seen, base, k)
    ensures var cu := base[sym];
            var seen' := Grown(seen, cu, file, Get(lib.seenSyms, file));
            var undef' := Grown(undef, cu, file, Get(lib.strongUndef, file));
            var files' := files + {file};
            && Honest(es, start, seen', files', undef') && Recorded(es, start, seen', files', undef')
            && Extends(base, undef') && Short(undef', k + 1) && Short(seen', k + 1)
            && Matched(es, start, seen', base, k)
            && undef - base.Keys + (undef' - undef.Keys) == undef' - base.Keys
  {
    hide Get, Loaded, Honest, Recorded, Matched, Grown, Defines, Mentions, Needs, Wanted;
    var cu := base[sym];
    var names, undefs := Get(lib.seenSyms, file), Get(lib.strongUndef, file);
    NamesOf(es, lib, file);
    SymbolOf(es, start, seen, files, undef, base, k, sym);
    HonestStep(es, start, seen, files, undef, cu, file, names, undefs);
    RecordedStep(es, start, seen, files, undef, cu, file, names, undefs);
    MatchedStep(es, start, seen, base, k, cu, file, names);
    ShortStep(seen, k, cu, file, names);
    ShortStep(undef, k, cu, file, undefs);
    NewStep(base, undef, Grown(undef, cu, file, undefs));
  }

  lemma SymbolOf(es: seq<Entry>, start: set<Symbol>, seen: map<Symbol, Chain>, files: set<File>,
                 undef: map<Symbol, Chain>, base: map<Symbol, Chain>, k: nat, sym: Symbol)
    requires Honest(es, start, seen, files, undef) && Extends(base, undef) && Short(base, k) && sym in base
    ensures Wanted(es, start, base[sym]) && base[sym].name == sym && Length(base[sym]) <= k
  {
  }

  lemma ShortStep(m: map<Symbol, Chain>, k: nat, cu: Chain, file: File, names: seq<Symbol>)
    requires Short(m, k + 1) && Length(cu) <= k
    ensures Short(Grown(m, cu, file, names), k + 1) && Extends(m, Grown(m, cu, file, names))
  {
    hide Grown;
  }

  lemma MatchedStep(es: seq<Entry>, start: set<Symbol>, seen: map<Symbol, Chain>, base: map<Symbol, Chain>, k: nat,
                    cu: Chain, file: File, names: seq<Symbol>)
    requires Matched(es, start, seen, base, k)
    ensures Matched(es, start, Grown(seen, cu, file, names), base, k)
  {
    hide Grown, Wanted, Real;
  }

  lemma NewStep(base: map<Symbol, Chain>, undef: map<Symbol, Chain>, undef': map<Symbol, Chain>)
    requires Extends(base, undef) && Extends(undef, undef')
    ensures undef - base.Keys + (undef' - undef.Keys) == undef' - base.Keys && Extends(base, undef')
  {
  }

  lemma NamesOf(es: seq<Entry>, lib: Lib, file: File)
    requires Loaded(es, lib)
    ensures forall s :: s in Get(lib.seenSyms, file) <==> Mentions(es, file, s)
    ensures forall s :: s in Get(lib.strongUndef, file) <==> Needs(es, file, s)
  {
  }

  lemma HonestStep(es: seq<Entry>, start: set<Symbol>, seen: map<Symbol, Chain>, files: set<File>,
                   undef: map<Symbol, Chain>, cu: Chain, file: File, names: seq<Symbol>, undefs: seq<Symbol>)
    requires Honest(es, start, seen, files, undef) && Wanted(es, start, cu) && Defines(es, file, cu.name)
    requires forall s :: s in names ==> Mentions(es, file, s)
    requires forall s :: s in undefs ==> Needs(es, file, s)
    ensures Honest(es, start, Grown(seen, cu, file, names), files + {file}, Grown(undef, cu, file, undefs))
  {
    hide Defines, Mentions, Needs, Grown, Reached;
    assert Reached(es, start, file) by {
      ReachedBy(es, start, cu, file);
    }
    var seen', undef' := Grown(seen, cu, file, names), Grown(undef, cu, file, undefs);
    forall s | s in undef'
      ensures undef'[s].name == s && Wanted(es, start, undef'[s])
    {
    }
    forall s | s in seen'
      ensures seen'[s].name == s && Real(es, start, seen'[s]) && (seen'[s].Via? ==> seen'[s].file in files + {file})
    {
    }
  }

  lemma ReachedBy(es: seq<Entry>, start: set<Symbol>, c: Chain, f: File)
    requires Wanted(es, start, c) && Defines(es, f, c.name)
    ensures Reached(es, start, f)
  {
  }

  lemma RecordedStep(es: seq<Entry>, start: set<Symbol>, seen: map<Symbol, Chain>, files: set<File>,
                     undef: map<Symbol, Chain>, cu: Chain, file: File, names: seq<Symbol>, undefs: seq<Symbol>)
    requires Recorded(es, start, seen, files, undef)
    requires forall s :: Mentions(es, file, s) ==> s in names
    requires forall s :: Needs(es, file, s) ==> s in undefs
    ensures Recorded(es, start, Grown(seen, cu, file, names), files + {file}, Grown(undef, cu, file, undefs))
  {
    hide Mentions, Needs;
  }

  lemma StartRound(es: seq<Entry>, start: set<Symbol>, seen: map<Symbol, Chain>, undef: map<Symbol, Chain>,
                   current: map<Symbol, Chain>, k: nat)
    requires Short(undef, k) && Short(seen, k) && Extends(current, undef)
    ensures Short(undef, k + 1) && Short(seen, k + 1) && Extends(undef, undef) && undef - undef.Keys == map[]
    ensures forall s :: s in current ==> s in undef && undef[s] == current[s]
  {
    assert undef - undef.Keys == map[];
  }

  /** Once the files of all symbols of the round have been visited, chains with one
      more link are matched as well. */
  lemma EndRound(es: seq<Entry>, start: set<Symbol>, seen: map<Symbol, Chain>, files: set<File>,
                 undef: map<Symbol, Chain>, base: map<Symbol, Chain>, k: nat)
    requires Recorded(es, start, seen, files, undef) && Extends(base, undef)
    requires Short(undef, k + 1) && Short(seen, k + 1) && Matched(es, start, seen, base, k)
    requires Visited(es, base.Keys, files)
    ensures Matched(es, start, seen, undef, k + 1)
  {
    hide Defines, Mentions, Needs;
    forall c | Wanted(es, start, c) && Length(c) <= k + 1
      ensures c.name in undef && Length(undef[c.name]) <= Length(c)
    {
      if c.Via? && Length(c) == k + 1 {
        assert c.prev.name in base;
        assert c.file in files;
      }
    }
    forall c | Real(es, start, c) && Length(c) <= k + 1
      ensures c.name in seen && Length(seen[c.name]) <= Length(c)
    {
      if c.Via? && Length(c) == k + 1 {
        assert c.prev.name in base;
        assert c.file in files;
      }
    }
  }

  // ----- The whole script -----

  /** The result of the search, for the listing `es` and initial symbols `start`. */
  ghost predicate Correct(es: seq<Entry>, start: set<Symbol>, seen: map<Symbol, Chain>, files: set<File>) {
    // The files are the least closed set.
    && Closed(es, start, files) && (forall other :: Closed(es, start, other) ==> files <= other)
    // The symbols are the initial ones and those the files mention.
    && (forall s :: s in seen <==> s in start || exists f :: f in files && Mentions(es, f, s))
    // Each comes with a real chain, and no real chain is shorter.
    && (forall s :: s in seen ==> seen[s].name == s && Real(es, start, seen[s]))
    && (forall c :: Real(es, start, c) ==> c.name in seen && Length(seen[c.name]) <= Length(c))
  }

  /** All names in the listing. */
  function Names(es: seq<Entry>): set<Symbol> {
    set e | e in es :: e.name
  }

  lemma UndefNamed(es: seq<Entry>, start: set<Symbol>, seen: map<Symbol, Chain>, files: set<File>,
                   undef: map<Symbol, Chain>)
    requires Honest(es, start, seen, files, undef)
    ensures undef.Keys <= Names(es) + start
  {
    forall s | s in undef
      ensures s in Names(es) + start
    {
      assert Wanted(es, start, undef[s]);
    }
  }

  /** When no symbols are left, all files have been found. */
  lemma SearchOver(es: seq<Entry>, start: set<Symbol>, seen: map<Symbol, Chain>, files: set<File>,
                   undef: map<Symbol, Chain>, k: nat)
    requires Honest(es, start, seen, files, undef) && Recorded(es, start, seen, files, undef)
    requires Short(seen, k) && Matched(es, start, seen, undef, k) && Visited(es, undef.Keys, files)
    ensures Correct(es, start, seen, files)
  {
    hide Defines, Mentions, Needs;
    assert Closed(es, start, files);
    forall other, f | Closed(es, start, other) && f in files
      ensures f in other
    {
      var c :| Wanted(es, start, c) && Defines(es, f, c.name);
      ChainInside(es, start, other, c, f);
    }
    forall c | Real(es, start, c)
      ensures c.name in seen && Length(seen[c.name]) <= Length(c)
    {
      if Length(c) > k {
        ChainInside(es, start, files, c.prev, c.file);
      }
    }
  }

  /** The main loop.  It ends: every round but the last finds a new symbol. */
  method Find(lib: Lib, initial: seq<Symbol>, ghost es: seq<Entry>) returns (seen: map<Symbol, Chain>, files: set<File>)
    requires Loaded(es, lib)
    ensures Correct(es, (set s | s in initial), seen, files)
  {
    hide Loaded, Honest, Recorded, Matched, Short, Visited, Correct, Names;
    var search := new Search(lib, initial, es);
    var current := search.allUndef;
    ghost var k := 0;
    VisitedNone(es, search.allUndef.Keys - current.Keys, search.filesSeen);
    UndefNamed(es, search.start, search.seenWhere, search.filesSeen, search.allUndef);
    while current != map[]
      invariant search.es == es && search.start == (set s | s in initial)
      invariant search.Between(current, k)
      invariant search.allUndef.Keys <= Names(es) + search.start
      decreases Names(es) + search.start - search.allUndef.Keys, |current|
    {
      ghost var known := search.allUndef.Keys;
      search.Round(current, k);
      UndefNamed(es, search.start, search.seenWhere, search.filesSeen, search.allUndef);
      ghost var was := current;
      current := search.newUndef;
      k := k + 1;
      Shrinks(Names(es) + search.start, known, search.allUndef.Keys, current, was);
    }
    VisitedMore(es, search.allUndef.Keys - current.Keys, {}, search.allUndef.Keys, search.filesSeen, search.filesSeen);
    SearchOver(es, search.start, search.seenWhere, search.filesSeen, search.allUndef, k);
    seen, files := search.seenWhere, search.filesSeen;
  }

  lemma Shrinks(all: set<Symbol>, known: set<Symbol>, known': set<Symbol>, current: map<Symbol, Chain>,
                was: map<Symbol, Chain>)
    requires known <= known' <= all && current.Keys == known' - known && was != map[]
    ensures all - known' < all - known || (all - known' == all - known && |current| < |was|)
  {
    if current == map[] {
      assert was.Keys != {};
    } else {
      var s :| s in current;
      assert s in all - known && s !in all - known';
    }
  }

  /** A symbol that may appear in anyone's link: reserved or standard. */
  predicate Allowed(s: Symbol, stdsyms: set<Symbol>) {
    "_" <= s || s in stdsyms
  }

  /** Every symbol that is reached and not allowed has a line, with a shortest chain to it. */
  ghost predicate AllPrinted(es: seq<Entry>, start: set<Symbol>, stdsyms: set<Symbol>, printed: seq<string>) {
    forall c :: Real(es, start, c) && !Allowed(c.name, stdsyms) ==>
      exists c': Chain :: c'.name == c.name && Length(c') <= Length(c) && Text(c') in printed
  }

  /** The script, from the two listings to the exit code: 0 exactly if every symbol
      that some real chain leads to from the header is allowed.  The lines printed
      are real chains to symbols that are not, one for each of these. */
  method Check(libsyms: seq<Entry>, compiled: seq<Entry>, stdsyms: set<Symbol>) returns (printed: seq<string>, ret: int)
    ensures ret == 0 || ret == 1
    ensures ret == 0 <==> forall c :: Real(libsyms, Undefined(compiled), c) ==> Allowed(c.name, stdsyms)
    ensures ret == 0 <==> printed == []
    ensures forall line :: line in printed ==>
              exists c :: Text(c) == line && Real(libsyms, Undefined(compiled), c) && !Allowed(c.name, stdsyms)
    ensures AllPrinted(libsyms, Undefined(compiled), stdsyms, printed)
  {
    hide Loaded, Real, Correct, Text, Allowed, Less, Length, AllPrinted;
    var lib := Load(libsyms);
    var initial := InitialSymbols(compiled);
    var seen, files := Find(lib, initial, libsyms);
    ghost var syms;
    printed, ret, syms := Report(seen, stdsyms);
    LinesAreReal(libsyms, Undefined(compiled), stdsyms, seen, files, syms, printed);
    EachHasLine(libsyms, Undefined(compiled), stdsyms, seen, files, syms, printed);
  }

  lemma LinesAreReal(es: seq<Entry>, start: set<Symbol>, stdsyms: set<Symbol>, seen: map<Symbol, Chain>,
                     files: set<File>, syms: seq<Symbol>, printed: seq<string>)
    requires Correct(es, start, seen, files)
    requires forall s :: s in syms <==> s in seen && !Allowed(s, stdsyms)
    requires |printed| == |syms| && forall k :: 0 <= k < |syms| ==> syms[k] in seen && printed[k] == Text(seen[syms[k]])
    ensures forall line :: line in printed ==>
              exists c :: Text(c) == line && Real(es, start, c) && !Allowed(c.name, stdsyms)
    ensures printed != [] ==> exists c :: Real(es, start, c) && !Allowed(c.name, stdsyms)
  {
    hide Closed, Real, Mentions, Text, Allowed, Length;
    forall line | line in printed
      ensures exists c :: Text(c) == line && Real(es, start, c) && !Allowed(c.name, stdsyms)
    {
      var k :| 0 <= k < |printed| && printed[k] == line;
      assert syms[k] in syms;
      assert Real(es, start, seen[syms[k]]);
    }
    if printed != [] {
      assert syms[0] in syms;
      assert Real(es, start, seen[syms[0]]);
    }
  }

  lemma EachHasLine(es: seq<Entry>, start: set<Symbol>, stdsyms: set<Symbol>, seen: map<Symbol, Chain>,
                    files: set<File>, syms: seq<Symbol>, printed: seq<string>)
    requires Correct(es, start, seen, files)
    requires forall s :: s in syms <==> s in seen && !Allowed(s, stdsyms)
    requires |printed| == |syms| && forall k :: 0 <= k < |syms| ==> syms[k] in seen && printed[k] == Text(seen[syms[k]])
    ensures AllPrinted(es, start, stdsyms, printed)
    ensures printed == [] ==> forall c :: Real(es, start, c) ==> Allowed(c.name, stdsyms)
  {
    hide Closed, Real, Mentions, Text, Allowed, Length;
    forall c | Real(es, start, c) && !Allowed(c.name, stdsyms)
      ensures exists c': Chain :: c'.name == c.name && Length(c') <= Length(c) && Text(c') in printed
    {
      assert c.name in syms;
      var k :| 0 <= k < |syms| && syms[k] == c.name;
      assert printed[k] in printed && printed[k] == Text(seen[c.name]);
    }
    if printed == [] {
      forall c | Real(es, start, c)
        ensures Allowed(c.name, stdsyms)
      {
        assert c.name in syms || Allowed(c.name, stdsyms);
      }
    }
  }

  /** The final loop: print the chains of the symbols that are not allowed, `syms`,
      in sorted order. */
  method Report(seen: map<Symbol, Chain>, stdsyms: set<Symbol>)
    returns (printed: seq<string>, ret: int, ghost syms: seq<Symbol>)
    ensures forall s :: s in syms <==> s in seen && !Allowed(s, stdsyms)
    ensures forall i, j :: 0 <= i < j < |syms| ==> Less(syms[i], syms[j])
    ensures |printed| == |syms| && forall k :: 0 <= k < |syms| ==> syms[k] in seen && printed[k] == Text(seen[syms[k]])
    ensures ret == if printed == [] then 0 else 1
  {
    hide Text, Less;
    ret, printed, syms := 0, [], [];
    var todo := seen.Keys;
    while todo != {}
      invariant todo <= seen.Keys
      invariant forall s :: s in syms <==> s in seen && s !in todo && !Allowed(s, stdsyms)
      invariant forall i, j :: 0 <= i < j < |syms| ==> Less(syms[i], syms[j])
      invariant forall s, u :: s in syms && u in todo ==> Less(s, u)
      invariant |printed| == |syms| && forall k :: 0 <= k < |syms| ==>
                syms[k] in seen && printed[k] == Text(seen[syms[k]])
      invariant ret == if printed == [] then 0 else 1
      decreases |todo|
    {
      var sym := Least(todo);
      todo := todo - {sym};
      if !("_" <= sym) && sym !in stdsyms {
        printed := printed + [Text(seen[sym])];
        syms := syms + [sym];
        ret := 1;
      }
    }
  }

  /** The symbols the compiled header leaves undefined. */
  function Undefined(es: seq<Entry>): (s: set<Symbol>) {
    set e | e in es && e.strong && !e.defined :: e.name
  }

  method InitialSymbols(es: seq<Entry>) returns (names: seq<Symbol>)
    ensures (set s | s in names) == Undefined(es)
  {
    names := [];
    for i := 0 to |es|
      invariant forall s :: s in names <==> exists j :: 0 <= j < i && es[j].strong && !es[j].defined && es[j].name == s
    {
      if es[i].strong && !es[i].defined {
        names := names + [es[i].name];
      }
    }
  }
}
