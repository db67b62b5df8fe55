/** simpleFind(), regexec.c:312-411: first the search automaton, then the main one from every start
    that is left. */
module Search {
  import opened Options
  import opened Nfa
  import opened Cnfa
  import opened Runs
  import opened Compact
  import opened MakeSearch
  import opened LazyDfa

  /** cs is the compacted search automaton b that makesearch() made of arcs. */
  ghost predicate IsSearch(cs: Cnfa, b: set<Arc>, arcs: set<Arc>, keys: set<nat>, loops: set<nat>, cp: map<nat, nat>, rainbow: seq<nat>) {
    && WellFormed(cs) && Compacted(cs, b) && Framed(b, cs.pre, cs.post)
    && SearchOf(b, arcs, keys, cs.pre, cs.post, loops, cp)
    && loops == if Anchored(arcs, cs.pre, cs.bos) then {} else Rainbow(rainbow, cs.bos)
  }

  /** The characters of a text have full colours, none of them a begin-of-string pseudocolour. */
  ghost predicate RealText(c: Cnfa, v: Text, rainbow: seq<nat>) {
    forall i :: 0 <= i < |v.colors| ==> v.colors[i] in rainbow && v.colors[i] != c.bos.0 && v.colors[i] != c.bos.1
  }

  /** The automaton of arcs matches the characters s..e of the text. */
  ghost predicate Finds(cs: Cnfa, v: Text, arcs: set<Arc>, s: nat, e: nat) {
    s <= e <= v.Stop() && Accepts(arcs, EnvOf(cs, v), s, e + 2)
  }

  /** The attempt begun at s is over by the time symbol k is next: not one state is left. */
  ghost predicate IsOver(cs: Cnfa, v: Text, arcs: set<Arc>, s: nat, k: nat) {
    forall q :: !Goes(arcs, EnvOf(cs, v), cs.pre, s, q, k)
  }

  /** The attempt begun at s does not outlive the string. */
  ghost predicate IsDone(cs: Cnfa, v: Text, arcs: set<Arc>, s: nat) {
    IsOver(cs, v, arcs, s, v.Stop() + 1)
  }

  /** A start that pre of the search automaton can wait for, and that pre of the original can leave. */
  lemma StartWaits(cs: Cnfa, v: Text, b: set<Arc>, arcs: set<Arc>, keys: set<nat>, loops: set<nat>, cp: map<nat, nat>,
                   rainbow: seq<nat>, from: nat, s: nat, q: nat, k: nat)
    requires IsSearch(cs, b, arcs, keys, loops, cp, rainbow) && RealText(cs, v, rainbow)
    requires from <= s <= v.Stop() && q != cs.pre && Goes(arcs, EnvOf(cs, v), cs.pre, s, q, k)
    ensures Goes(b, EnvOf(cs, v), cs.pre, from, cs.pre, s)
  {
    var e := EnvOf(cs, v);
    if Anchored(arcs, cs.pre, cs.bos) {
      var n: nat :| Run(arcs, e, cs.pre, s, q, k, n);
      assert s > 0 ==> e.sym(s) == v.colors[s - 1];
      LeavesPre(arcs, e, s, q, k, n);
    } else {
      forall i: nat | from <= i < s ensures e.sym(i) in loops {
        if i > 0 { assert e.sym(i) == v.colors[i - 1]; }
      }
    }
    Wait(b, arcs, keys, e, loops, cp, from, s);
  }

  /** Begun at from, the search automaton matches up to e exactly when the original one matches up to e from some start
      at or after that. */
  lemma SearchMatches(cs: Cnfa, v: Text, b: set<Arc>, arcs: set<Arc>, keys: set<nat>, loops: set<nat>, cp: map<nat, nat>,
                      rainbow: seq<nat>, from: nat, e: nat)
    requires IsSearch(cs, b, arcs, keys, loops, cp, rainbow) && RealText(cs, v, rainbow) && from <= e <= v.Stop()
    ensures Matches(cs, v, from, e) <==> exists s: nat :: from <= s && Finds(cs, v, arcs, s, e)
  {
    var env := EnvOf(cs, v);
    SimulationIsPaths(cs, b, v, from, cs.post, e + 1);
    if Matches(cs, v, from, e) {
      var n: nat :| Run(b, env, cs.pre, from, cs.post, e + 2, n);
      var s, x := Lower(b, arcs, keys, env, loops, cp, from, cs.post, e + 2, n);
      PostIsPost(b, arcs, keys, cs.pre, cs.post, loops, cp, x);
      MatchSpan(arcs, env, s, e + 2);
      assert Finds(cs, v, arcs, s, e);
    }
    if s: nat :| from <= s && Finds(cs, v, arcs, s, e) {
      StartWaits(cs, v, b, arcs, keys, loops, cp, rainbow, from, s, cs.post, e + 2);
      var n: nat :| Run(arcs, env, cs.pre, s, cs.post, e + 2, n);
      var q := Lift(b, arcs, keys, env, loops, cp, from, s, cs.post, e + 2, n);
      PostIsAlone(b, arcs, keys, cs.pre, cs.post, loops, cp, q);
    }
  }

  lemma PostIsPost(b: set<Arc>, arcs: set<Arc>, keys: set<nat>, pre: nat, post: nat, loops: set<nat>, cp: map<nat, nat>, x: nat)
    requires SearchOf(b, arcs, keys, pre, post, loops, cp) && MakeSearch.Over(cp, post, x)
    ensures x == post
  {
  }

  lemma PostIsAlone(b: set<Arc>, arcs: set<Arc>, keys: set<nat>, pre: nat, post: nat, loops: set<nat>, cp: map<nat, nat>, q: nat)
    requires SearchOf(b, arcs, keys, pre, post, loops, cp) && MakeSearch.Over(cp, q, post)
    ensures q == post
  {
    assert !Mixed(Looped(arcs, pre, loops), pre, post);
  }

  /** Once the search automaton, begun at from, is in no-progress states only, every attempt begun between is over. */
  lemma ColdMeansOver(cs: Cnfa, v: Text, b: set<Arc>, arcs: set<Arc>, keys: set<nat>, loops: set<nat>, cp: map<nat, nat>,
                      rainbow: seq<nat>, from: nat, s: nat, k: nat)
    requires IsSearch(cs, b, arcs, keys, loops, cp, rainbow) && RealText(cs, v, rainbow)
    requires from <= s < k <= v.Stop() && NoProg(cs, SimSet(cs, v, from, k))
    ensures IsOver(cs, v, arcs, s, k + 1)
  {
    var env := EnvOf(cs, v);
    var l := k + 1;
    forall x | Goes(arcs, env, cs.pre, s, x, l) ensures false {
      var n: nat :| Run(arcs, env, cs.pre, s, x, k + 1, n);
      assert x != cs.pre by { if x == cs.pre { OnlyStartAtPre(arcs, env, s, k + 1, n); } }
      StartWaits(cs, v, b, arcs, keys, loops, cp, rainbow, from, s, x, k + 1);
      var q := Lift(b, arcs, keys, env, loops, cp, from, s, x, k + 1, n);
      SimulationIsPaths(cs, b, v, from, q, k);
      FlagIsEarly(cs, b, q);
    }
  }

  lemma FlagIsEarly(cs: Cnfa, b: set<Arc>, q: nat)
    requires WellFormed(cs) && Compacted(cs, b) && q < |cs.stflags| && cs.stflags[q]
    ensures Early(b, cs.pre, q)
  {
    if q != cs.pre {
      var co :| Carc(co, q) in cs.states[cs.pre];
      var a := EdgeArc(cs, b, cs.pre, Carc(co, q));
    }
  }

  /** By the time symbol k is done with, the attempt begun at s has gone on from the first state it came to. */
  ghost predicate GoneOn(cs: Cnfa, v: Text, arcs: set<Arc>, s: nat, k: nat) {
    exists q :: GoneTo(cs, v, arcs, s, k, q)
  }

  ghost predicate GoneTo(cs: Cnfa, v: Text, arcs: set<Arc>, s: nat, k: nat, q: nat) {
    GoesOnFrom(arcs, EnvOf(cs, v), s, q, k + 1)
  }

  /** No attempt has gone on at position k. */
  ghost predicate Quiet(cs: Cnfa, v: Text, arcs: set<Arc>, k: nat) {
    forall s: nat :: !GoneOn(cs, v, arcs, s, k)
  }

  /** k is the last quiet position up to limit, or the start. */
  ghost predicate LastQuiet(cs: Cnfa, v: Text, arcs: set<Arc>, k: nat, limit: nat) {
    k <= limit && (k == 0 || Quiet(cs, v, arcs, k)) && forall l :: k < l <= limit ==> !Quiet(cs, v, arcs, l)
  }

  lemma EarlyIsFlagged(cs: Cnfa, b: set<Arc>, q: nat)
    requires WellFormed(cs) && Compacted(cs, b) && Framed(b, cs.pre, cs.post) && q < |cs.states| && Early(b, cs.pre, q)
    ensures cs.stflags[q]
  {
    if q != cs.pre {
      var a :| a in b && a.from == cs.pre && a.to == q;
      ListedEdge(cs, b, a);
    }
  }

  /** The search automaton is in no-progress states only if and only if no attempt has gone on. */
  lemma ColdIsQuiet(cs: Cnfa, v: Text, b: set<Arc>, arcs: set<Arc>, keys: set<nat>, loops: set<nat>, cp: map<nat, nat>,
                    rainbow: seq<nat>, k: nat)
    requires IsSearch(cs, b, arcs, keys, loops, cp, rainbow) && RealText(cs, v, rainbow) && k <= v.Stop()
    ensures NoProg(cs, SimSet(cs, v, 0, k)) <==> Quiet(cs, v, arcs, k)
  {
    var env := EnvOf(cs, v);
    if NoProg(cs, SimSet(cs, v, 0, k)) {
      forall s: nat ensures !GoneOn(cs, v, arcs, s, k) {
        if GoneOn(cs, v, arcs, s, k) {
          var x :| GoneTo(cs, v, arcs, s, k, x);
          GoneOnShows(cs, v, b, arcs, keys, loops, cp, rainbow, s, k, x);
        }
      }
    }
    if !NoProg(cs, SimSet(cs, v, 0, k)) {
      var q :| q in SimSet(cs, v, 0, k) && !(q < |cs.stflags| && cs.stflags[q]);
      ShownGoesOn(cs, v, b, arcs, keys, loops, cp, rainbow, k, q);
    }
  }

  lemma GoneOnShows(cs: Cnfa, v: Text, b: set<Arc>, arcs: set<Arc>, keys: set<nat>, loops: set<nat>, cp: map<nat, nat>,
                    rainbow: seq<nat>, s: nat, k: nat, x: nat)
    requires IsSearch(cs, b, arcs, keys, loops, cp, rainbow) && RealText(cs, v, rainbow) && k <= v.Stop()
    requires GoneTo(cs, v, arcs, s, k, x)
    ensures !NoProg(cs, SimSet(cs, v, 0, k))
  {
    var env := EnvOf(cs, v);
    var n := FarRun(arcs, env, s, x, k + 1);
    hide SimSet, RealText;
    RunForward(arcs, env, cs.pre, s, x, k + 1, n);
    LeavesPre(arcs, env, s, x, k + 1, n);
    StartWaits(cs, v, b, arcs, keys, loops, cp, rainbow, 0, s, x, k + 1);
    var q := Lift(b, arcs, keys, env, loops, cp, 0, s, x, k + 1, n);
    SimulationIsPaths(cs, b, v, 0, q, k);
    if q < |cs.stflags| && cs.stflags[q] { FlagIsEarly(cs, b, q); }
  }

  lemma FarRun(arcs: set<Arc>, v: Env, s: nat, x: nat, k: nat) returns (n: nat)
    requires GoesOnFrom(arcs, v, s, x, k) && forall a :: a in arcs ==> a.to != v.pre
    ensures n >= 2 && Run(arcs, v, v.pre, s, x, k, n) && Goes(arcs, v, v.pre, s, x, k) && x != v.pre
  {
    n :| n >= 2 && Run(arcs, v, v.pre, s, x, k, n);
    var a, j := LastOf(arcs, v, v.pre, s, x, k, n);
  }

  lemma ShownGoesOn(cs: Cnfa, v: Text, b: set<Arc>, arcs: set<Arc>, keys: set<nat>, loops: set<nat>, cp: map<nat, nat>,
                    rainbow: seq<nat>, k: nat, q: nat)
    requires IsSearch(cs, b, arcs, keys, loops, cp, rainbow) && k <= v.Stop()
    requires q in SimSet(cs, v, 0, k) && !(q < |cs.stflags| && cs.stflags[q])
    ensures !Quiet(cs, v, arcs, k)
  {
    var env := EnvOf(cs, v);
    SimulationIsPaths(cs, b, v, 0, q, k);
    var n: nat :| Run(b, env, cs.pre, 0, q, k + 1, n);
    assert q < |cs.states|;
    if Early(b, cs.pre, q) { EarlyIsFlagged(cs, b, q); }
    var s, x := Lower(b, arcs, keys, env, loops, cp, 0, q, k + 1, n);
    hide *;
    Gone(cs, v, arcs, s, k, x);
  }

  lemma Gone(cs: Cnfa, v: Text, arcs: set<Arc>, s: nat, k: nat, x: nat)
    requires GoesOnFrom(arcs, EnvOf(cs, v), s, x, k + 1)
    ensures !Quiet(cs, v, arcs, k)
  {
    assert GoneTo(cs, v, arcs, s, k, x);
    assert GoneOn(cs, v, arcs, s, k);
  }

  lemma ColdIsLastQuiet(cs: Cnfa, v: Text, b: set<Arc>, arcs: set<Arc>, keys: set<nat>, loops: set<nat>, cp: map<nat, nat>,
                        rainbow: seq<nat>, cold: nat, limit: nat)
    requires IsSearch(cs, b, arcs, keys, loops, cp, rainbow) && RealText(cs, v, rainbow) && limit <= v.Stop() && IsCold(cs, v, 0, limit, cold)
    ensures LastQuiet(cs, v, arcs, cold, limit)
  {
    forall l: nat | l <= limit ensures NoProg(cs, SimSet(cs, v, 0, l)) <==> Quiet(cs, v, arcs, l) {
      ColdIsQuiet(cs, v, b, arcs, keys, loops, cp, rainbow, l);
    }
    hide Quiet, IsSearch, RealText, SimSet, NoProg;
  }

  /** An attempt that is over has no later state either. */
  lemma {:induction false} OverStays(cs: Cnfa, v: Text, arcs: set<Arc>, s: nat, k: nat, q: nat, l: nat, n: nat)
    requires IsOver(cs, v, arcs, s, k) && s < k <= l
    ensures !Run(arcs, EnvOf(cs, v), cs.pre, s, q, l, n)
    decreases n
  {
    var env := EnvOf(cs, v);
    if Run(arcs, env, cs.pre, s, q, l, n) {
      var a, j := LastOf(arcs, env, cs.pre, s, q, l, n);
      if j >= k {
        OverStays(cs, v, arcs, s, k, a.from, j, n - 1);
      } else {
        assert l == k && Goes(arcs, env, cs.pre, s, q, k);
      }
    }
  }

  lemma OverNoMatch(cs: Cnfa, v: Text, arcs: set<Arc>, s: nat, k: nat, e: nat)
    requires IsOver(cs, v, arcs, s, k) && s < k <= e + 2
    ensures !Finds(cs, v, arcs, s, e)
  {
    if Finds(cs, v, arcs, s, e) {
      var n: nat :| Run(arcs, EnvOf(cs, v), cs.pre, s, cs.post, e + 2, n);
      OverStays(cs, v, arcs, s, k, cs.post, e + 2, n);
    }
  }

  lemma OverAtEnd(cs: Cnfa, v: Text, arcs: set<Arc>, s: nat, k: nat)
    requires IsOver(cs, v, arcs, s, k) && s < k <= v.Stop() + 1
    ensures IsDone(cs, v, arcs, s)
  {
    var l := v.Stop() + 1;
    forall q, n: nat ensures !Run(arcs, EnvOf(cs, v), cs.pre, s, q, l, n) {
      OverStays(cs, v, arcs, s, k, q, l, n);
    }
  }

  // ---------------------------------------------------------------- the main automaton

  /** c matches what the automaton the search one was made of matches. */
  ghost predicate SameMatches(c: Cnfa, cs: Cnfa, v: Text, arcs: set<Arc>) {
    forall s: nat, e: nat :: Matches(c, v, s, e) <==> Finds(cs, v, arcs, s, e)
  }

  /** Nothing but the number of colours and the string-end colours of an automaton matters to its symbols. */
  lemma {:induction false} SameRuns(c: Cnfa, cs: Cnfa, v: Text, arcs: set<Arc>, p: nat, i: nat, q: nat, k: nat, n: nat)
    requires c.ncolors == cs.ncolors && c.bos == cs.bos && c.eos == cs.eos && c.pre == cs.pre && c.post == cs.post
    requires Run(arcs, EnvOf(c, v), p, i, q, k, n)
    ensures Run(arcs, EnvOf(cs, v), p, i, q, k, n)
    decreases n
  {
    if n > 0 {
      var a, j := LastOf(arcs, EnvOf(c, v), p, i, q, k, n);
      SameRuns(c, cs, v, arcs, p, i, a.from, j, n - 1);
      assert LastStep(arcs, EnvOf(cs, v), p, i, q, k, n, a, j);
    }
  }

  lemma SameGoes(c: Cnfa, cs: Cnfa, v: Text, arcs: set<Arc>, i: nat, k: nat)
    requires c.ncolors == cs.ncolors && c.bos == cs.bos && c.eos == cs.eos && c.pre == cs.pre && c.post == cs.post
    ensures Accepts(arcs, EnvOf(c, v), i, k) ==> Accepts(arcs, EnvOf(cs, v), i, k)
  {
    if Accepts(arcs, EnvOf(c, v), i, k) {
      var n: nat :| Run(arcs, EnvOf(c, v), c.pre, i, c.post, k, n);
      SameRuns(c, cs, v, arcs, c.pre, i, c.post, k, n);
    }
  }

  /** The compacted form of the original automaton may serve as the main one. */
  lemma OwnMatches(c: Cnfa, cs: Cnfa, v: Text, arcs: set<Arc>)
    requires c.ncolors == cs.ncolors && c.bos == cs.bos && c.eos == cs.eos && c.pre == cs.pre && c.post == cs.post
    requires WellFormed(c) && Compacted(c, arcs) && Framed(arcs, c.pre, c.post)
    ensures SameMatches(c, cs, v, arcs)
  {
    forall s: nat, e: nat ensures Matches(c, v, s, e) <==> Finds(cs, v, arcs, s, e) {
      if s <= e <= v.Stop() {
        SimulationIsPaths(c, arcs, v, s, c.post, e + 1);
        SameGoes(c, cs, v, arcs, s, e + 2);
        SameGoes(cs, c, v, arcs, s, e + 2);
      }
    }
  }

  /** No match ends before close, one that ends there begins at or after open, and so does any other. */
  lemma NothingBeforeOpen(cs: Cnfa, v: Text, b: set<Arc>, arcs: set<Arc>, keys: set<nat>, loops: set<nat>, cp: map<nat, nat>,
                          rainbow: seq<nat>, from: nat, close: nat, open: nat)
    requires IsSearch(cs, b, arcs, keys, loops, cp, rainbow) && RealText(cs, v, rainbow) && from <= v.Stop()
    requires IsShortest(cs, v, from, from, v.Stop(), Some(close)) && IsCold(cs, v, from, Pos(v, close + 1), open)
    ensures forall s: nat, e: nat :: from <= s && Finds(cs, v, arcs, s, e) ==> open <= s && close <= e
    ensures exists s: nat :: from <= s && Finds(cs, v, arcs, s, close)
    ensures forall s: nat :: from <= s < open ==> IsDone(cs, v, arcs, s)
  {
    SearchMatches(cs, v, b, arcs, keys, loops, cp, rainbow, from, close);
    forall s: nat | from <= s < open ensures IsDone(cs, v, arcs, s) {
      ColdMeansOver(cs, v, b, arcs, keys, loops, cp, rainbow, from, s, open);
      OverAtEnd(cs, v, arcs, s, open + 1);
    }
    forall s: nat, e: nat | from <= s && Finds(cs, v, arcs, s, e) ensures open <= s && close <= e {
      SearchMatches(cs, v, b, arcs, keys, loops, cp, rainbow, from, e);
      assert close <= e;
      if s < open {
        ColdMeansOver(cs, v, b, arcs, keys, loops, cp, rainbow, from, s, open);
        OverNoMatch(cs, v, arcs, s, open + 1, e);
      }
    }
  }

  /** The search automaton finds nothing, and where it stopped caring. */
  lemma NothingAtAll(cs: Cnfa, v: Text, b: set<Arc>, arcs: set<Arc>, keys: set<nat>, loops: set<nat>, cp: map<nat, nat>,
                     rainbow: seq<nat>, from: nat, cold: Option<nat>)
    requires IsSearch(cs, b, arcs, keys, loops, cp, rainbow) && RealText(cs, v, rainbow) && from <= v.Stop()
    requires IsShortest(cs, v, from, from, v.Stop(), None)
    requires if cold.Some? then IsCold(cs, v, from, v.Stop(), cold.value) else SimSet(cs, v, from, v.Stop()) == {}
    ensures forall s: nat, e: nat :: from <= s ==> !Finds(cs, v, arcs, s, e)
    ensures forall s: nat :: from <= s < (if cold.Some? then cold.value else v.Stop()) ==> IsDone(cs, v, arcs, s)
  {
    forall s: nat, e: nat | from <= s ensures !Finds(cs, v, arcs, s, e) {
      if s <= e <= v.Stop() { SearchMatches(cs, v, b, arcs, keys, loops, cp, rainbow, from, e); }
    }
    var k := if cold.Some? then cold.value else v.Stop();
    forall s: nat | from <= s < k ensures IsDone(cs, v, arcs, s) {
      ColdMeansOver(cs, v, b, arcs, keys, loops, cp, rainbow, from, s, k);
      OverAtEnd(cs, v, arcs, s, k + 1);
    }
  }

  lemma NotBack(b: set<Arc>, arcs: set<Arc>, keys: set<nat>, pre: nat, post: nat, cp: map<nat, nat>, e: Arc)
    requires SearchOf(b, arcs, keys, pre, post, {}, cp) && e in b
    ensures e.to != pre
  {
    var a :| a in Looped(arcs, pre, {}) && Carries(a, e, pre, cp);
  }

  lemma LoopThere(b: set<Arc>, arcs: set<Arc>, keys: set<nat>, pre: nat, post: nat, loops: set<nat>, cp: map<nat, nat>, co: nat)
    requires SearchOf(b, arcs, keys, pre, post, loops, cp) && co in loops
    ensures Arc(PLAIN, co, pre, pre) in b
  {
    var a := Arc(PLAIN, co, pre, pre);
    assert a in Looped(arcs, pre, loops) && Carries(a, a, pre, cp);
  }

  lemma ArcListed(c: Cnfa, arcs: set<Arc>, a: Arc)
    requires Compacted(c, arcs) && a in arcs && a.typ == PLAIN
    ensures a.co < c.ncolors && a.from < |c.states| && Carc(a.co, a.to) in c.states[a.from]
  {
    assert OutgoingListed(arcs, c.ncolors, a.from, c.states[a.from]);
    assert CarcOf(a, c.ncolors) == Carc(a.co, a.to);
  }

  lemma SymbolLoops(cs: Cnfa, v: Text, rainbow: seq<nat>, k: nat)
    requires RealText(cs, v, rainbow) && k <= v.Stop()
    ensures Sym(cs, v, k) in Rainbow(rainbow, cs.bos)
  {
    if k > 0 { assert v.colors[k - 1] in rainbow; }
  }

  /** pre of the search automaton loops on every symbol of a text, or nothing enters it. */
  lemma SearchSteady(cs: Cnfa, v: Text, b: set<Arc>, arcs: set<Arc>, keys: set<nat>, loops: set<nat>, cp: map<nat, nat>, rainbow: seq<nat>)
    requires IsSearch(cs, b, arcs, keys, loops, cp, rainbow) && RealText(cs, v, rainbow) && Fits(cs, v)
    ensures Steady(cs, v)
  {
    if Anchored(arcs, cs.pre, cs.bos) {
      forall p, j | 0 <= p < |cs.states| && 0 <= j < |cs.states[p]| ensures cs.states[p][j].to != cs.pre {
        var a := EdgeArc(cs, b, p, cs.states[p][j]);
        NotBack(b, arcs, keys, cs.pre, cs.post, cp, a);
      }
    } else {
      forall k | 0 <= k <= v.Stop() ensures Carc(Sym(cs, v, k), cs.pre) in cs.states[cs.pre] && Sym(cs, v, k) < cs.ncolors {
        SymbolLoops(cs, v, rainbow, k);
        LoopThere(b, arcs, keys, cs.pre, cs.post, loops, cp, Sym(cs, v, k));
        ArcListed(cs, b, Arc(PLAIN, Sym(cs, v, k), cs.pre, cs.pre));
      }
    }
  }

  // ---------------------------------------------------------------- simpleFind()

  datatype Found = NoMatch | Okay | Located(begin: nat, end: nat) | Failed

  /** The end of the preferred match from begin. */
  ghost predicate IsPreferred(c: Cnfa, v: Text, shorter: bool, begin: nat, end: Option<nat>) {
    if shorter then IsShortest(c, v, begin, begin, v.Stop(), end) else IsLongest(c, v, begin, v.Stop(), end)
  }

  /** No attempt begun before extend (nor, if a match was found, before that) outlives the string: more
      characters would not make it a match. */
  ghost predicate NeedsNoMore(c: Cnfa, cs: Cnfa, v: Text, arcs: set<Arc>, extend: nat, limit: nat) {
    forall s: nat :: s < extend && s < limit && s <= v.Stop() ==>
      SimSet(c, v, s, v.Stop()) == {} || IsDone(cs, v, arcs, s)
  }

  /** The attempt of the main automaton begun at s outlives the string. */
  ghost predicate Alive(c: Cnfa, v: Text, s: nat) { s <= v.Stop() && SimSet(c, v, s, v.Stop()) != {} }

  /** extend is the first start from open on and before limit whose attempt outlives the string, or the end of the string
      if there is none. */
  ghost predicate FirstAlive(c: Cnfa, v: Text, extend: nat, open: nat, limit: nat) {
    || (open <= extend < limit && Alive(c, v, extend) && forall s :: open <= s < extend ==> !Alive(c, v, s))
    || (extend == v.Stop() && forall s :: open <= s < limit ==> !Alive(c, v, s))
  }

  /** No match ends before close, and some match ends there. */
  ghost predicate LeastEnd(c: Cnfa, v: Text, close: nat) {
    (exists s: nat :: Matches(c, v, s, close)) && forall s: nat, e: nat :: Matches(c, v, s, e) ==> close <= e
  }

  /** What rm_extend.rm_so is when the search automaton has looked up to close and a match has been located. */
  ghost predicate ExtendLocated(c: Cnfa, cs: Cnfa, v: Text, arcs: set<Arc>, extend: nat, shorter: bool, begin: nat) {
    exists close: nat, open: nat :: LeastEnd(c, v, close) && ExtendFrom(c, cs, v, arcs, extend, shorter, begin, close, open)
  }

  ghost predicate ExtendFrom(c: Cnfa, cs: Cnfa, v: Text, arcs: set<Arc>, extend: nat, shorter: bool, begin: nat, close: nat, open: nat) {
    LastQuiet(cs, v, arcs, open, Pos(v, close + 1)) && FirstAlive(c, v, extend, open, if shorter then begin else begin + 1)
  }

  ghost predicate ExtendOkay(c: Cnfa, cs: Cnfa, v: Text, arcs: set<Arc>, extend: nat) {
    exists close: nat :: LeastEnd(c, v, close) && LastQuiet(cs, v, arcs, extend, Pos(v, close + 1))
  }

  /** The loop over the possible starts (regexec.c:365-382). */
  method TryStarts(d: Dfa, v: Text, shorter: bool, open: nat, close: nat, ghost cs: Cnfa, ghost arcs: set<Arc>)
    returns (begin: nat, end: nat, cold: Option<nat>, err: bool)
    requires d.Valid() && Fits(d.cnfa, v) && open <= close <= v.Stop() && SameMatches(d.cnfa, cs, v, arcs)
    requires forall s: nat, e: nat :: Finds(cs, v, arcs, s, e) ==> open <= s
    requires exists s: nat :: Finds(cs, v, arcs, s, close)
    requires forall s: nat :: s < open ==> IsDone(cs, v, arcs, s)
    modifies d`ssets, d`links, d`chains, d`search, d`lastpost, d`lastnopr
    ensures NoReturn(d.cnfa) ==> !err
    ensures !err ==> open <= begin <= close && IsPreferred(d.cnfa, v, shorter, begin, Some(end))
    ensures !err ==> forall s: nat, e: nat :: s < begin ==> !Matches(d.cnfa, v, s, e)
    ensures !err ==> (cold.Some? ==> open <= cold.value <= begin && SimSet(d.cnfa, v, cold.value, v.Stop()) != {})
    ensures !err ==> NeedsNoMore(d.cnfa, cs, v, arcs, if cold.Some? then cold.value else v.Stop(), begin)
    ensures !err ==> FirstAlive(d.cnfa, v, if cold.Some? then cold.value else v.Stop(), open, if shorter then begin else begin + 1)
  {
    hide SimSet, IsShortest, IsLongest, IsDone, Finds;
    ghost var c := d.cnfa;
    begin, end, cold, err := open, open, None, false;
    var found: Option<nat> := None;
    NoStartBelow(c, cs, v, arcs, open);
    while begin <= close
      invariant open <= begin <= close + 1 && d.Valid() && d.cnfa == c && found.None? && !err
      invariant forall s: nat, e: nat :: s < begin ==> !Matches(c, v, s, e)
      invariant cold.Some? ==> open <= cold.value < begin && SimSet(c, v, cold.value, v.Stop()) != {}
      invariant NeedsNoMore(c, cs, v, arcs, if cold.Some? then cold.value else v.Stop(), begin)
      invariant if cold.Some? then forall s :: open <= s < cold.value ==> !Alive(c, v, s) else forall s :: open <= s < begin ==> !Alive(c, v, s)
    {
      var hitend, unused;
      if shorter {
        found, unused, hitend, err := d.Shortest(v, begin, begin, v.Stop());
      } else {
        found, hitend, err := d.Longest(v, begin, v.Stop());
      }
      if err { return; }
      if hitend && cold.None? { cold := Some(begin); }
      if found.Some? { break; }
      NoneMeansNone(c, v, shorter, begin);
      begin := begin + 1;
    }
    assert found.Some? by {
      ghost var s: nat :| Finds(cs, v, arcs, s, close);
      assert Matches(c, v, s, close) && s <= close by { assert Matches(c, v, s, close) <==> Finds(cs, v, arcs, s, close); }
    }
    end := found.value;
  }

  lemma NoStartBelow(c: Cnfa, cs: Cnfa, v: Text, arcs: set<Arc>, open: nat)
    requires SameMatches(c, cs, v, arcs) && forall s: nat, e: nat :: Finds(cs, v, arcs, s, e) ==> open <= s
    ensures forall s: nat, e: nat :: s < open ==> !Matches(c, v, s, e)
  {
  }

  lemma NoneMeansNone(c: Cnfa, v: Text, shorter: bool, begin: nat)
    requires IsPreferred(c, v, shorter, begin, None)
    ensures forall e: nat :: !Matches(c, v, begin, e)
  {
  }

  /** simpleFind() up to the search for submatches; extend is details->rm_extend.rm_so. */
  method SimpleFind(search: Cnfa, main: Cnfa, v: Text, shorter: bool, nmatch: nat, small: bool,
                    ghost b: set<Arc>, ghost arcs: set<Arc>, ghost keys: set<nat>, ghost loops: set<nat>,
                    ghost cp: map<nat, nat>, ghost rainbow: seq<nat>) returns (r: Found, extend: nat)
    requires IsSearch(search, b, arcs, keys, loops, cp, rainbow) && RealText(search, v, rainbow)
    requires WellFormed(main) && Fits(search, v) && Fits(main, v) && SameMatches(main, search, v, arcs)
    ensures NoReturn(main) ==> !r.Failed?
    ensures r.NoMatch? ==> forall s: nat, e: nat :: !Matches(main, v, s, e)
    ensures r.NoMatch? ==> NeedsNoMore(main, search, v, arcs, extend, v.Stop() + 1)
    ensures r.Okay? ==> nmatch == 0 && exists s: nat, e: nat :: Matches(main, v, s, e)
    ensures r.Located? ==> nmatch > 0
    ensures r.Located? ==> IsPreferred(main, v, shorter, r.begin, Some(r.end))
    ensures r.Located? ==> forall s: nat, e: nat :: s < r.begin ==> !Matches(main, v, s, e)
    ensures r.Located? ==> NeedsNoMore(main, search, v, arcs, extend, r.begin)
    ensures r.NoMatch? ==> LastQuiet(search, v, arcs, extend, v.Stop())
    ensures r.Okay? ==> ExtendOkay(main, search, v, arcs, extend)
    ensures r.Located? ==> ExtendLocated(main, search, v, arcs, extend, shorter, r.begin)
  {
    hide IsSearch, RealText, SameMatches, LastQuiet, FirstAlive, LeastEnd, IsCold, SimSet, NeedsNoMore, IsPreferred, IsShortest, Finds, IsDone, NoReturn, WellFormed, Steady;
    SearchParts(search, b, arcs, keys, loops, cp, rainbow);
    extend := v.Stop();
    SearchSteady(search, v, b, arcs, keys, loops, cp, rainbow);
    NoReturnSteady(main, v);
    var d := new Dfa(search, small);
    var close, cold, hitstop, err := d.Shortest(v, 0, 0, v.Stop());
    if err { return Failed, extend; }
    if cold.Some? { extend := cold.value; }
    if close.None? {
      NothingAtAll(search, v, b, arcs, keys, loops, cp, rainbow, 0, cold);
      NothingQuiet(search, v, b, arcs, keys, loops, cp, rainbow, cold);
      NothingMatches(main, search, v, arcs, extend);
      return NoMatch, extend;
    }
    var open := cold.value;
    NothingBeforeOpen(search, v, b, arcs, keys, loops, cp, rainbow, 0, close.value, open);
    ColdIsLastQuiet(search, v, b, arcs, keys, loops, cp, rainbow, open, Pos(v, close.value + 1));
    LeastEndOf(main, search, v, arcs, close.value);
    OpenBefore(search, v, arcs, open, close.value);
    if nmatch == 0 {
      LeastMatches(main, v, close.value);
      return Okay, extend;
    }
    var m := new Dfa(main, small);
    var begin, end;
    begin, end, cold, err := TryStarts(m, v, shorter, open, close.value, search, arcs);
    if err { return Failed, extend; }
    r := Located(begin, end);
    extend := if cold.Some? then cold.value else v.Stop();
    assert ExtendFrom(main, search, v, arcs, extend, shorter, begin, close.value, open);
  }

  lemma SearchParts(cs: Cnfa, b: set<Arc>, arcs: set<Arc>, keys: set<nat>, loops: set<nat>, cp: map<nat, nat>, rainbow: seq<nat>)
    requires IsSearch(cs, b, arcs, keys, loops, cp, rainbow)
    ensures WellFormed(cs)
  {
  }

  lemma NoReturnSteady(c: Cnfa, v: Text)
    ensures NoReturn(c) ==> Steady(c, v)
  {
  }

  lemma NothingQuiet(cs: Cnfa, v: Text, b: set<Arc>, arcs: set<Arc>, keys: set<nat>, loops: set<nat>, cp: map<nat, nat>,
                     rainbow: seq<nat>, cold: Option<nat>)
    requires IsSearch(cs, b, arcs, keys, loops, cp, rainbow) && RealText(cs, v, rainbow)
    requires if cold.Some? then IsCold(cs, v, 0, v.Stop(), cold.value) else SimSet(cs, v, 0, v.Stop()) == {}
    ensures LastQuiet(cs, v, arcs, if cold.Some? then cold.value else v.Stop(), v.Stop())
  {
    if cold.Some? {
      ColdIsLastQuiet(cs, v, b, arcs, keys, loops, cp, rainbow, cold.value, v.Stop());
    } else {
      ColdIsQuiet(cs, v, b, arcs, keys, loops, cp, rainbow, v.Stop());
    }
  }

  lemma NothingMatches(c: Cnfa, cs: Cnfa, v: Text, arcs: set<Arc>, extend: nat)
    requires SameMatches(c, cs, v, arcs) && (forall s: nat, e: nat :: !Finds(cs, v, arcs, s, e)) && forall s: nat :: s < extend ==> IsDone(cs, v, arcs, s)
    ensures (forall s: nat, e: nat :: !Matches(c, v, s, e)) && NeedsNoMore(c, cs, v, arcs, extend, v.Stop() + 1)
  {
    hide Finds, IsDone;
  }

  lemma LeastEndOf(c: Cnfa, cs: Cnfa, v: Text, arcs: set<Arc>, close: nat)
    requires SameMatches(c, cs, v, arcs) && (forall s: nat, e: nat :: Finds(cs, v, arcs, s, e) ==> close <= e) && exists s: nat :: Finds(cs, v, arcs, s, close)
    ensures LeastEnd(c, v, close)
  {
    hide Finds, Matches;
    var s: nat :| Finds(cs, v, arcs, s, close);
    assert Matches(c, v, s, close);
  }

  lemma OpenBefore(cs: Cnfa, v: Text, arcs: set<Arc>, open: nat, close: nat)
    requires (forall s: nat, e: nat :: Finds(cs, v, arcs, s, e) ==> open <= s && close <= e) && exists s: nat :: Finds(cs, v, arcs, s, close)
    ensures open <= close <= v.Stop()
  {
  }

  lemma LeastMatches(c: Cnfa, v: Text, close: nat)
    requires LeastEnd(c, v, close)
    ensures exists s: nat, e: nat :: Matches(c, v, s, e)
  {
  }
}
