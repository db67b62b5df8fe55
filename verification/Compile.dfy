/** From the parsed automaton to what is found: the second half of compile(), regcomp.c:408-438, with the automata
    of nfanode(), regcomp.c:1914-1943, and exec() of a regex without complications. */
module Compile {
  import opened Options
  import opened Nfa
  import opened Runs
  import opened Cnfa
  import opened Compact
  import opened MakeSearch
  import opened Search
  import opened Subres
  import opened Dissect
  import opened Exec
  import opened Cleanup
  import opened EmptyMatches
  import opened Words
  import opened Fragments
  import opened Readings
  import opened Copies
  import O = Optimize
  import P = Parsing
  import X = Complicated
  import G = Matching

  /** The arcs of a search automaton, and what makesearch() made them of. */
  datatype Origin = Origin(b: set<Arc>, arcs: set<Arc>, keys: set<nat>, loops: set<nat>, cp: map<nat, nat>)

  ghost predicate IsSearchOf(cs: Cnfa, o: Origin, rainbow: seq<nat>) {
    IsSearch(cs, o.b, o.arcs, o.keys, o.loops, o.cp, rainbow)
  }

  ghost predicate Pseudocolors(ncolors: nat, bos: (nat, nat), eos: (nat, nat)) {
    bos.0 < ncolors && bos.1 < ncolors && eos.0 < ncolors && eos.1 < ncolors
  }

  /** makesearch() and compact() make an automaton simpleFind() can search with. */
  method SearchAutomaton(nfa: Nfa, ncolors: nat, rainbow: seq<nat>, bos: (nat, nat), eos: (nat, nat)) returns (cs: Cnfa, ghost o: Origin)
    requires nfa.Valid() && Dense(nfa) && nfa.tmp == map[] && Optimized(nfa.arcs, nfa.pre, nfa.post)
    requires O.Known(nfa.arcs, ncolors) && Pseudocolors(ncolors, bos, eos) && forall co :: co in rainbow ==> co < ncolors
    modifies nfa`states, nfa`nstates, nfa`ins, nfa`outs, nfa`arcs, nfa`tmp
    ensures IsSearchOf(cs, o, rainbow) && o.arcs == old(nfa.arcs)
    ensures cs.pre == nfa.pre && cs.post == nfa.post && cs.ncolors == ncolors && cs.bos == bos && cs.eos == eos
  {
    hide Agree, StatesAgree, Within, Optimized, SearchOf, Rainbow, Anchored, Framed, WellFormed, Compacted;
    O.HasBoth(nfa);
    ghost var was, keys := nfa.arcs, nfa.ins.Keys;
    ghost var loops, cp := MakeSearch.MakeSearch(nfa, rainbow, bos);
    SearchFramed(nfa.arcs, was, keys, nfa.pre, nfa.post, loops, cp);
    LoopsKnown(was, nfa.arcs, nfa.pre, loops, rainbow, ncolors, bos);
    var r := Compact.Compact(nfa, ncolors, bos, eos);
    cs := r.value;
    o := Origin(nfa.arcs, was, keys, loops, cp);
  }

  lemma LoopsKnown(was: set<Arc>, now: set<Arc>, pre: nat, loops: set<nat>, rainbow: seq<nat>, ncolors: nat, bos: (nat, nat))
    requires O.Known(was, ncolors) && bos.0 < ncolors && bos.1 < ncolors && forall co :: co in rainbow ==> co < ncolors
    requires loops == if Anchored(was, pre, bos) then {} else Rainbow(rainbow, bos)
    requires forall e :: e in now && e.typ == PLAIN ==> e.co in loops || exists a :: a in was && a.typ == PLAIN && a.co == e.co
    ensures O.Known(now, ncolors)
  {
  }

  // ---------------------------------------------------------------- compile()

  datatype Guts = Guts(main: Cnfa, search: Cnfa, info: Info)

  /** The parsed automaton, constraints and all, matches the characters s..e of the text. */
  ghost predicate Finds(was: set<Arc>, c: Cnfa, v: Text, s: nat, e: nat) {
    s <= e <= v.Stop() && Accepts(was, EnvOf(c, v), s, e + 2)
  }

  ghost predicate SameTerms(c: Cnfa, d: Cnfa) {
    c.ncolors == d.ncolors && c.bos == d.bos && c.eos == d.eos && c.pre == d.pre && c.post == d.post
  }

  function WorldOf(c: Cnfa): Cnfa { World(c.ncolors, c.pre, c.post, c.bos, c.eos) }

  /** g serves for the parsed automaton. */
  ghost predicate Compiled(g: Guts, was: set<Arc>, rainbow: seq<nat>) {
    && WellFormed(g.main) && NoReturn(g.main) && SameTerms(g.main, g.search)
    && O.Told(g.info, was, WorldOf(g.main))
    && (forall v: Text, s: nat, e: nat :: Matches(g.main, v, s, e) <==> Finds(was, g.main, v, s, e))
    && exists o :: IsSearchOf(g.search, o, rainbow) && O.SameMatches(was, o.arcs, g.main.pre, g.main.post, g.main.bos, g.main.eos)
  }

  lemma MainMatches(was: set<Arc>, now: set<Arc>, c: Cnfa)
    requires O.SameMatches(was, now, c.pre, c.post, c.bos, c.eos) && Optimized(now, c.pre, c.post) && Compacted(c, now) && WellFormed(c)
    ensures forall v: Text, s: nat, e: nat :: Matches(c, v, s, e) <==> Finds(was, c, v, s, e)
  {
    hide Accepts, O.SameMatches, Optimized, Compacted;
    forall v: Text, s: nat, e: nat ensures Matches(c, v, s, e) <==> Finds(was, c, v, s, e) {
      if s <= e <= v.Stop() { O.CompiledMatches(was, now, c, v, s, e); }
    }
  }

  lemma NeverBack(c: Cnfa, now: set<Arc>)
    requires Optimized(now, c.pre, c.post) && Compacted(c, now)
    ensures NoReturn(c)
  {
    forall p, j | 0 <= p < |c.states| && 0 <= j < |c.states[p]| ensures c.states[p][j].to != c.pre {
      var a := EdgeArc(c, now, p, c.states[p][j]);
    }
  }

  lemma OptimizedFramed(arcs: set<Arc>, pre: nat, post: nat)
    requires Optimized(arcs, pre, post)
    ensures Framed(arcs, pre, post) && forall a :: a in arcs ==> a.typ == PLAIN || a.typ == LACON
  {
  }

  lemma StillKnown(was: set<Arc>, now: set<Arc>, ncolors: nat, bos: (nat, nat), eos: (nat, nat))
    requires O.Known(was, ncolors) && Pseudocolors(ncolors, bos, eos) && O.Colored(was, now, bos, eos)
    ensures O.Known(now, ncolors)
  {
  }

  /** optimize() and compact() in turn (regcomp.c:1934-1939). */
  method ToCnfa(nfa: Nfa, ncolors: nat, bos: (nat, nat), eos: (nat, nat)) returns (c: Cnfa, info: Info)
    requires nfa.Valid() && nfa.tmp == map[] && O.Fit(nfa.arcs, nfa.pre, nfa.post, bos, eos)
    requires O.Known(nfa.arcs, ncolors) && Pseudocolors(ncolors, bos, eos)
    modifies nfa
    ensures nfa.Valid() && WellFormed(c) && NoReturn(c)
    ensures c.pre == nfa.pre && c.post == nfa.post && c.ncolors == ncolors && c.bos == bos && c.eos == eos
    ensures O.Told(info, old(nfa.arcs), World(ncolors, nfa.pre, nfa.post, bos, eos))
    ensures forall v: Text, s: nat, e: nat :: Matches(c, v, s, e) <==> Finds(old(nfa.arcs), c, v, s, e)
  {
    hide Agree, StatesAgree, Within, O.Fit, Optimized, WellFormed, NoReturn, Compacted, Framed, O.SameMatches, O.Colored, O.Told, Matches, Finds;
    ghost var was := nfa.arcs;
    info := O.Optimize(nfa, bos, eos, ncolors);
    StillKnown(was, nfa.arcs, ncolors, bos, eos);
    OptimizedFramed(nfa.arcs, nfa.pre, nfa.post);
    O.HasBoth(nfa);
    var r := Compact.Compact(nfa, ncolors, bos, eos);
    c := r.value;
    NeverBack(c, nfa.arcs);
    MainMatches(was, nfa.arcs, c);
  }

  /** Colours in use are real ones. */
  ghost predicate RealRainbow(rainbow: seq<nat>, ncolors: nat, bos: (nat, nat), eos: (nat, nat)) {
    forall co :: co in rainbow ==> RealColor(World(ncolors, PRE, POST, bos, eos), co)
  }

  /** The new automaton is as fit for optimize() as the one it was copied from. */
  lemma NodeFit(src: set<Arc>, now: set<Arc>, rainbow: seq<nat>, ncolors: nat, bos: (nat, nat), eos: (nat, nat))
    requires O.Fit(src, PRE, POST, bos, eos) && O.Known(src, ncolors) && RealRainbow(rainbow, ncolors, bos, eos)
    requires forall e :: e in now - Skeleton(rainbow) ==> e.from !in {PRE, POST} && e.to !in {PRE, POST} && exists a :: a in src && Copies.Alike(a, e)
    requires Skeleton(rainbow) <= now
    ensures O.Fit(now, PRE, POST, bos, eos) && O.Known(now, ncolors)
  {
    forall e | e in now
      ensures e.typ == CARET || e.typ == DOLLAR ==> e.co <= 1
      ensures e.typ == PLAIN || e.typ == BEHIND || e.typ == AHEAD ==> e.co !in {bos.0, bos.1, eos.0, eos.1} && (e.typ == PLAIN ==> e.co < ncolors)
    {
      if e in Skeleton(rainbow) {
        SkeletonLabel(rainbow, e);
      } else {
        assert e in now - Skeleton(rainbow);
        var a :| a in src && Copies.Alike(a, e);
      }
    }
    forall e | e in Skeleton(rainbow) ensures SkeletonEnds(e) { SkeletonLabel(rainbow, e); }
  }

  predicate SkeletonEnds(e: Arc) {
    if e.from == PRE then e.to == INIT && (e.typ == PLAIN || e.typ == CARET) else e.from == FINAL && e.to == POST && (e.typ == PLAIN || e.typ == DOLLAR)
  }

  lemma SkeletonLabel(rainbow: seq<nat>, e: Arc)
    requires e in Skeleton(rainbow)
    ensures SkeletonEnds(e) && (e.typ == PLAIN ==> e.co in rainbow) && (e.typ == CARET || e.typ == DOLLAR ==> e.co <= 1)
  {
  }

  /** What a node's automaton accepts: pieces of text that read as a word that lies between its states, framed by the
      symbols before and after. */
  ghost predicate ReadsBetween(l: Language, rainbow: seq<nat>, c: Cnfa, v: Text, s: nat, e: nat) {
    s <= e <= v.Stop() && exists w :: Bracketed(rainbow, l, w) && Reads(EnvOf(c, v), w, true, s, e + 2)
  }

  lemma NodeReads(l: Language, rainbow: seq<nat>, arcs: set<Arc>, c: Cnfa, v: Text, s: nat, e: nat)
    requires Ended(arcs, PRE, POST) && c.pre == PRE && c.post == POST
    requires forall w: Word :: Spells(arcs, PRE, POST, w) <==> Bracketed(rainbow, l, w)
    ensures Finds(arcs, c, v, s, e) <==> ReadsBetween(l, rainbow, c, v, s, e)
  {
    AcceptsReading(arcs, EnvOf(c, v), s, e + 2);
    hide Accepts, Spells, Bracketed, Reads;
  }

  /** nfanode(), regcomp.c:1914-1943: the automaton of the node strung between start and stop. copied are the arcs
      dupnfa() leaves. */
  method NfaNode(src: Nfa, start: nat, stop: nat, ncolors: nat, rainbow: seq<nat>, bos: (nat, nat), eos: (nat, nat))
    returns (nfa: Nfa, c: Cnfa, info: Info, ghost copied: set<Arc>)
    requires src.Valid() && src.tmp == map[] && start in src.ins && stop in src.ins && start != stop
    requires O.Fit(src.arcs, PRE, POST, bos, eos) && O.Known(src.arcs, ncolors) && Pseudocolors(ncolors, bos, eos)
    requires RealRainbow(rainbow, ncolors, bos, eos)
    modifies src`tmp
    ensures src.tmp == map[] && fresh(nfa) && WellFormed(c) && NoReturn(c)
    ensures c.pre == PRE && c.post == POST && c.ncolors == ncolors && c.bos == bos && c.eos == eos
    ensures Ended(copied, PRE, POST) && forall w: Word :: Spells(copied, PRE, POST, w) <==> Bracketed(rainbow, Between(src.arcs, src.ins.Keys, start, stop), w)
    ensures O.Told(info, copied, World(ncolors, PRE, POST, bos, eos))
    ensures forall v: Text, s: nat, e: nat :: Matches(c, v, s, e) <==> Finds(copied, c, v, s, e)
    ensures forall v: Text, s: nat, e: nat :: Matches(c, v, s, e) <==> ReadsBetween(Between(src.arcs, src.ins.Keys, start, stop), rainbow, c, v, s, e)
  {
    hide Agree, StatesAgree, Within, O.Fit, WellFormed, NoReturn, O.Told, Matches, Finds, O.Known, Skeleton, Bracketed, Between, Spells, Ended, ReadsBetween, RealRainbow;
    nfa := NodeNfa(src, rainbow, start, stop);
    copied := nfa.arcs;
    NodeFit(src.arcs, copied, rainbow, ncolors, bos, eos);
    O.FitEnds(copied, PRE, POST, bos, eos);
    c, info := ToCnfa(nfa, ncolors, bos, eos);
    forall v: Text, s: nat, e: nat
      ensures Finds(copied, c, v, s, e) <==> ReadsBetween(Between(src.arcs, src.ins.Keys, start, stop), rainbow, c, v, s, e)
    {
      NodeReads(Between(src.arcs, src.ins.Keys, start, stop), rainbow, copied, c, v, s, e);
    }
  }

  /** compile() from the parsed automaton on, whatever constraints it holds; begin and end are the states of the tree's root. */
  method Compile(parsed: Nfa, begin: nat, end: nat, ncolors: nat, rainbow: seq<nat>, bos: (nat, nat), eos: (nat, nat), ghost inner: set<Arc>)
    returns (g: Guts)
    requires parsed.Valid() && parsed.tmp == map[] && O.Fit(parsed.arcs, PRE, POST, bos, eos) && O.Known(parsed.arcs, ncolors)
    requires Rooted(parsed.arcs, rainbow, inner, begin, end) && begin in parsed.ins && end in parsed.ins
    requires Pseudocolors(ncolors, bos, eos) && RealRainbow(rainbow, ncolors, bos, eos)
    modifies parsed
    ensures Compiled(g, old(parsed.arcs), rainbow)
  {
    hide Agree, StatesAgree, Within, O.Fit, Optimized, WellFormed, NoReturn, O.SameMatches, O.Colored, O.Told, Matches, Finds, IsSearch, O.Known,
      Rooted, Bracketed, Between, Spells, Ended, ReadsBetween, RealRainbow;
    ghost var was, keys := parsed.arcs, parsed.ins.Keys;
    StaysWithin(parsed);
    O.FitEnds(was, PRE, POST, bos, eos);
    RootedEnds(was, rainbow, inner, begin, end);
    var copy, main, info;
    ghost var copied;
    copy, main, info, copied := NfaNode(parsed, begin, end, ncolors, rainbow, bos, eos);
    RootSame(was, keys, rainbow, inner, begin, end, copied, bos, eos);
    var unused := O.Optimize(parsed, bos, eos, ncolors);
    ghost var now := parsed.arcs;
    StillKnown(was, now, ncolors, bos, eos);
    RainbowKnown(rainbow, ncolors, bos, eos);
    var search;
    ghost var o;
    search, o := SearchAutomaton(parsed, ncolors, rainbow, bos, eos);
    AsParsed(was, copied, now, main, info);
    assert IsSearchOf(search, o, rainbow);
    g := Guts(main, search, info);
  }

  lemma RootedEnds(arcs: set<Arc>, rainbow: seq<nat>, inner: set<Arc>, begin: nat, end: nat)
    requires Rooted(arcs, rainbow, inner, begin, end)
    ensures begin != end
  {
  }

  lemma RainbowKnown(rainbow: seq<nat>, ncolors: nat, bos: (nat, nat), eos: (nat, nat))
    requires RealRainbow(rainbow, ncolors, bos, eos)
    ensures forall co :: co in rainbow ==> co < ncolors
  {
  }

  lemma RootSame(arcs: set<Arc>, keys: set<nat>, rainbow: seq<nat>, inner: set<Arc>, begin: nat, end: nat, copied: set<Arc>, bos: (nat, nat), eos: (nat, nat))
    requires Within(arcs, keys) && Rooted(arcs, rainbow, inner, begin, end) && Ended(arcs, PRE, POST) && Ended(copied, PRE, POST)
    requires forall w: Word :: Spells(copied, PRE, POST, w) <==> Bracketed(rainbow, Between(arcs, keys, begin, end), w)
    ensures O.SameMatches(arcs, copied, PRE, POST, bos, eos)
  {
    RootTexts(arcs, keys, rainbow, inner, begin, end, copied);
    hide Accepts;
  }

  lemma EmptyAlike(was: set<Arc>, now: set<Arc>, w: Cnfa)
    requires O.SameMatches(was, now, w.pre, w.post, w.bos, w.eos)
    ensures EmptyUnaided(was, w) <==> EmptyUnaided(now, w)
  {
    hide Accepts;
    forall v: Text, s: nat ensures EmptyThere(was, w, v, s) <==> EmptyThere(now, w, v, s) {}
    forall v: Text ensures EmptyAt(was, w, v) <==> EmptyAt(now, w, v) {}
  }

  /** What holds of the copy holds of the parsed automaton. */
  lemma AsParsed(was: set<Arc>, copied: set<Arc>, now: set<Arc>, c: Cnfa, info: Info)
    requires O.SameMatches(was, copied, c.pre, c.post, c.bos, c.eos) && O.Told(info, copied, WorldOf(c))
    requires forall v: Text, s: nat, e: nat :: Matches(c, v, s, e) <==> Finds(copied, c, v, s, e)
    ensures O.Told(info, was, WorldOf(c))
    ensures forall v: Text, s: nat, e: nat :: Matches(c, v, s, e) <==> Finds(was, c, v, s, e)
  {
    hide Accepts, Matches;
    EmptyAlike(was, copied, WorldOf(c));
    forall v: Env, i: nat, k: nat | v.pre == c.pre && v.post == c.post && v.bos == c.bos && v.eos == c.eos
      ensures Accepts(was, v, i, k) <==> Accepts(copied, v, i, k)
    {
    }
  }

  // ---------------------------------------------------------------- exec()

  /** The search automaton was made of arcs that match what the main automaton matches. */
  lemma MainServes(g: Guts, was: set<Arc>, v: Text, rainbow: seq<nat>) returns (o: Origin)
    requires Compiled(g, was, rainbow)
    ensures IsSearchOf(g.search, o, rainbow) && SameMatches(g.main, g.search, v, o.arcs)
  {
    o :| IsSearchOf(g.search, o, rainbow) && O.SameMatches(was, o.arcs, g.main.pre, g.main.post, g.main.bos, g.main.eos);
    forall s: nat, e: nat ensures Matches(g.main, v, s, e) <==> Search.Finds(g.search, v, o.arcs, s, e) {
      if s <= e <= v.Stop() {
        SameGoes(g.main, g.search, v, was, s, e + 2);
        SameGoes(g.search, g.main, v, was, s, e + 2);
        hide Accepts, Matches, IsSearch;
        assert Accepts(was, EnvOf(g.search, v), s, e + 2) <==> Accepts(o.arcs, EnvOf(g.search, v), s, e + 2);
      }
    }
  }

  /** exec() of a regex without complications. No match is reported exactly when the parsed automaton matches nothing in
      the text; otherwise the leftmost match is found, of those that begin there the longest or the shortest, and it is
      divided among the groups of the tree. */
  method Execute(g: Guts, tree: Subre, x: Ctx, small: bool, ghost was: set<Arc>, ghost rainbow: seq<nat>) returns (r: Outcome, ghost p: Parse)
    requires Compiled(g, was, rainbow) && RealText(g.search, x.text, rainbow) && |x.chars| == x.text.Stop()
    requires tree.cnfa == g.main && Usable(x, tree)
    ensures r == NoMatchAtAll <==> forall s: nat, e: nat :: !Finds(was, g.main, x.text, s, e)
    ensures !r.CacheFailed? && (Complete(x, tree) ==> !r.DissectFailed?)
    ensures r == Unlocated <==> x.nmatch == 0 && exists s: nat, e: nat :: Finds(was, g.main, x.text, s, e)
    ensures r.Whole? ==> Finds(was, g.main, x.text, r.begin, r.end)
    ensures r.Whole? ==> forall s: nat, e: nat :: Finds(was, g.main, x.text, s, e) ==>
      r.begin <= s && (s == r.begin ==> if tree.shorter then r.end <= e else e <= r.end)
    ensures r.Whole? && x.nmatch > 1 ==> Dissected(x, tree, p, r.begin, r.end, map[], r.caps)
  {
    UsableHere(x, tree);
    hide Complete, Dissected, Usable, IsSearch, RealText, WellFormed, NoReturn, O.SameMatches;
    p := Leaf;
    if g.info.Impossible? { return NoMatchAtAll, p; }
    ghost var o := MainServes(g, was, x.text, rainbow);
    r, p := SimpleFindAll(g.search, tree, x, small, o.b, o.arcs, o.keys, o.loops, o.cp, rainbow);
    AllFinds(g, was, x, tree, rainbow);
  }

  /** exec() of a regex without back references, with the tree parse() builds for it (regexec.c:253-258): the tree is
      complete, so the match that is found is always divided. */
  method ExecuteRegex(g: Guts, tree: Subre, x: Ctx, small: bool, ghost was: set<Arc>, ghost rainbow: seq<nat>, ghost bs: P.Bars, ghost m: P.Meaning)
    returns (r: Outcome, ghost p: Parse)
    requires Compiled(g, was, rainbow) && RealText(g.search, x.text, rainbow) && |x.chars| == x.text.Stop()
    requires tree.cnfa == g.main && P.Finished(x, m, tree, P.ParseBars(bs)) && P.Sane(bs, x.nmatch) && !P.HasRef(bs)
    ensures r == NoMatchAtAll || r == Unlocated || r.Whole?
    ensures r == Unlocated <==> x.nmatch == 0 && exists s: nat, e: nat :: Finds(was, g.main, x.text, s, e)
    ensures r == NoMatchAtAll <==> forall s: nat, e: nat :: !Finds(was, g.main, x.text, s, e)
    ensures r.Whole? ==> Finds(was, g.main, x.text, r.begin, r.end)
    ensures r.Whole? ==> forall s: nat, e: nat :: Finds(was, g.main, x.text, s, e) ==>
      r.begin <= s && (s == r.begin ==> if P.BarsWish(bs) == P.Shorter then r.end <= e else e <= r.end)
    ensures r.Whole? && x.nmatch > 1 ==> Dissected(x, tree, p, r.begin, r.end, map[], r.caps)
    ensures r.Whole? && x.nmatch > 1 ==> Preferred(x, tree, p, r.begin, r.end) && G.BarsMatch(x, m, bs, r.begin, r.end, map[], r.caps)
  {
    hide G.BarsMatch;
    hide Compiled, RealText, Finds, P.Finished, P.Sane, P.ParseBars, Dissected, Complete, Usable;
    P.TreeTells(x, m, bs, tree);
    TreeShorter(x, m, tree, bs);
    ToldComplete(x, tree, P.HasRef(bs), P.Groups(bs), P.TidyBars(bs), P.Sane(bs, x.nmatch));
    r, p := Execute(g, tree, x, small, was, rainbow);
    if r.Whole? && x.nmatch > 1 {
      DissectedPreferred(x, tree, p, r.begin, r.end, map[], r.caps);
      FoundAccepts(g, was, x, tree, rainbow, r.begin, r.end);
      G.NoRefTidy(bs);
      G.ReportedMatches(x, m, bs, tree, p, r.begin, r.end, r.caps);
    }
  }

  /** exec() of a regex with back references (regexec.c:200-255, 413-538), in so many rounds; captures of as many groups
      as there are. The match reported is the first of those the parsed automaton makes that can be divided among the groups:
      everything before it was refused, and it is a match of the regex unless a failed alternative left something behind. No match is reported only when everything is refused. Neither is ever come to
      exactly when it goes on for ever. */
  method ExecuteReferring(g: Guts, tree: Subre, x: Ctx, small: bool, rounds: nat, ghost was: set<Arc>, ghost rainbow: seq<nat>, ghost bs: P.Bars, ghost m: P.Meaning)
    returns (r: X.Answer, ghost p: Parse)
    requires Compiled(g, was, rainbow) && RealText(g.search, x.text, rainbow) && |x.chars| == x.text.Stop()
    requires tree.cnfa == g.main && P.Finished(x, m, tree, P.ParseBars(bs)) && P.Sane(bs, x.nmatch)
    ensures r.Matched? ==> Finds(was, g.main, x.text, r.begin, r.end) && Dissected(x, tree, p, r.begin, r.end, map[], r.caps)
    ensures r.Matched? ==> forall s: nat, e: nat ::
      Finds(was, g.main, x.text, s, e) && X.TriedBefore(s, e, r.begin, r.end, tree.shorter) ==> InVain(x, tree, s, e, map[])
    ensures r.Matched? && P.TidyBars(bs) ==> G.BarsMatch(x, m, bs, r.begin, r.end, map[], r.caps)
    ensures r == X.NoneAtAll ==> forall s: nat, e: nat :: Finds(was, g.main, x.text, s, e) ==> InVain(x, tree, s, e, map[])
    ensures X.Endless(x, tree) ==> r == X.StillGoing
    ensures !X.Endless(x, tree) && rounds > x.text.Stop() ==> r != X.StillGoing
  {
    hide P.Finished, P.Sane, P.ParseBars, P.TidyBars, G.BarsMatch, Complete, Tidy, Subs;
    hide Dissected, Usable, IsSearch, RealText, WellFormed, NoReturn, O.SameMatches, X.Stuck, InVain, Finds;
    p := Leaf;
    TreeUsable(x, m, tree, bs);
    AllFinds(g, was, x, tree, rainbow);
    if g.info.Impossible? {
      ImpossibleEnds(g, was, x, tree, rainbow);
      return X.NoneAtAll, p;
    }
    ghost var o := MainServes(g, was, x.text, rainbow);
    ghost var source := X.Source(o.b, o.arcs, o.keys, o.loops, o.cp, rainbow);
    SourceFeeds(g, was, x, tree, rainbow, o);
    r, p := X.ComplicatedFind(g.search, tree, x, small, rounds, source);
    hide X.Endless;
    if r.Matched? && P.TidyBars(bs) { G.ReportedMatches(x, m, bs, tree, p, r.begin, r.end, r.caps); }
    forall s: nat, e: nat | Finds(was, g.main, x.text, s, e) ensures Acc(x, tree, s, e) && s <= x.text.Stop() { FindsWithin(was, g.main, x.text, s, e); }
  }

  lemma FoundAccepts(g: Guts, was: set<Arc>, x: Ctx, tree: Subre, rainbow: seq<nat>, s: nat, e: nat)
    requires Compiled(g, was, rainbow) && tree.cnfa == g.main && Finds(was, g.main, x.text, s, e)
    ensures Acc(x, tree, s, e)
  {
    AllFinds(g, was, x, tree, rainbow);
  }

  lemma TreeUsable(x: Ctx, m: P.Meaning, t: Subre, bs: P.Bars)
    requires P.Finished(x, m, t, P.ParseBars(bs)) && P.Sane(bs, x.nmatch)
    ensures Usable(x, t)
  {
    P.TreeTells(x, m, bs, t);
  }

  lemma FindsWithin(was: set<Arc>, c: Cnfa, v: Text, s: nat, e: nat)
    requires Finds(was, c, v, s, e)
    ensures s <= e <= v.Stop()
  {
  }

  lemma SourceFeeds(g: Guts, was: set<Arc>, x: Ctx, tree: Subre, rainbow: seq<nat>, o: Origin)
    requires Compiled(g, was, rainbow) && RealText(g.search, x.text, rainbow) && tree.cnfa == g.main && Usable(x, tree)
    requires IsSearchOf(g.search, o, rainbow) && SameMatches(g.main, g.search, x.text, o.arcs)
    ensures X.Fed(g.search, tree.cnfa, x.text, X.Source(o.b, o.arcs, o.keys, o.loops, o.cp, rainbow))
  {
    UsableHere(x, tree);
    hide IsSearch, RealText, SameMatches, WellFormed, NoReturn;
  }

  lemma ImpossibleEnds(g: Guts, was: set<Arc>, x: Ctx, tree: Subre, rainbow: seq<nat>)
    requires Compiled(g, was, rainbow) && tree.cnfa == g.main && g.info.Impossible?
    ensures (forall s: nat, e: nat :: !Finds(was, g.main, x.text, s, e)) && !X.Endless(x, tree)
  {
    AllFinds(g, was, x, tree, rainbow);
    forall s: nat, e: nat ensures !Finds(was, g.main, x.text, s, e) {}
    assert forall q: nat :: !Acc(x, tree, q, q);
  }

  /** Whether the tree wishes a short match is read off the regex. */
  lemma TreeShorter(x: Ctx, m: P.Meaning, t: Subre, bs: P.Bars)
    requires P.Finished(x, m, t, P.ParseBars(bs)) && P.Sane(bs, x.nmatch)
    ensures t.shorter <==> P.BarsWish(bs) == P.Shorter
  {
    P.TreeWish(bs, x.nmatch);
  }

  lemma ToldComplete(x: Ctx, t: Subre, refs: bool, groups: set<nat>, tidy: bool, sane: bool)
    requires P.Tells(x, t, refs, groups, tidy, sane) && sane && !refs
    ensures Complete(x, t) && Usable(x, t)
  {
  }

  lemma DissectedPreferred(x: Ctx, t: Subre, p: Parse, b: nat, e: nat, c: Caps, c2: Caps)
    requires Dissected(x, t, p, b, e, c, c2) && Complete(x, t)
    ensures Preferred(x, t, p, b, e)
  {
  }

  lemma AllFinds(g: Guts, was: set<Arc>, x: Ctx, tree: Subre, rainbow: seq<nat>)
    requires Compiled(g, was, rainbow) && tree.cnfa == g.main
    ensures forall s: nat, e: nat :: Acc(x, tree, s, e) <==> Finds(was, g.main, x.text, s, e)
  {
  }
}
