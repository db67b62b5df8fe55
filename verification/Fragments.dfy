/** The part of an automaton that is strung between two states, what it spells, and what becomes of that
    when fragments are chained, copied or looped: the theory of repeat(), regcomp.c:1344-1423. */
module Fragments {
  import opened Nfa
  import opened Words

  type Word = seq<Label>
  type Language = iset<Word>

  /** regguts.h:74-75. */
  const DUPMAX: nat := 255
  const DUPINF: nat := 256

  ghost function Leaving(arcs: set<Arc>, zone: set<nat>): set<Arc> {
    set a | a in arcs && a.from in zone
  }

  /** A fragment is strung from lp to rp; its zone is lp and the states inside. Its arcs stay inside or go to
      rp, never back to lp, and no arc from elsewhere enters it or rp. */
  ghost predicate Strung(arcs: set<Arc>, zone: set<nat>, lp: nat, rp: nat) {
    && lp in zone && rp !in zone
    && (forall a :: a in arcs && a.from in zone ==> (a.to in zone || a.to == rp) && a.to != lp)
    && (forall a :: a in arcs && (a.to in zone || a.to == rp) && a.to != lp ==> a.from in zone)
  }

  ghost function SpelledBy(frag: set<Arc>, p: nat, q: nat): Language {
    iset w: Word | Spells(frag, p, q, w)
  }

  /** The words of a fragment. */
  ghost function Lang(arcs: set<Arc>, zone: set<nat>, lp: nat, rp: nat): Language {
    SpelledBy(Leaving(arcs, zone), lp, rp)
  }

  // ---------------------------------------------------------------- languages

  ghost function Cat(a: Language, b: Language): Language {
    iset u, v | u in a && v in b :: u + v
  }

  ghost function Power(l: Language, k: nat): Language {
    if k == 0 then iset{[]} else Cat(Power(l, k - 1), l)
  }

  ghost predicate Repeated(l: Language, m: nat, n: nat, w: Word) {
    exists k: nat :: m <= k && (n == DUPINF || k <= n) && w in Power(l, k)
  }

  /** Between m and n words of l in a row; DUPINF is no upper bound. */
  ghost function Times(l: Language, m: nat, n: nat): Language {
    iset w: Word | Repeated(l, m, n, w)
  }

  function Less(n: nat): nat { if n == DUPINF || n == 0 then n else n - 1 }

  lemma PowerOne(l: Language)
    ensures Power(l, 1) == l
  {
    forall w ensures w in Power(l, 1) <==> w in l {
      if w in l { assert [] + w == w && [] in Power(l, 0); }
      if w in Power(l, 1) {
        var u, v :| u in Power(l, 0) && v in l && u + v == w;
        assert v == w;
      }
    }
  }

  lemma TimesOne(l: Language)
    ensures Times(l, 1, 1) == l
  {
    PowerOne(l);
    forall w ensures w in Times(l, 1, 1) <==> w in l {
      if w in l { assert w in Power(l, 1); }
    }
  }

  lemma TimesNone(l: Language)
    ensures Times(l, 0, 0) == iset{[]}
  {
    forall w ensures w in Times(l, 0, 0) <==> w == [] {
      if w == [] { assert w in Power(l, 0); }
    }
  }

  lemma TimesOptional(l: Language, n: nat)
    requires n >= 1
    ensures Times(l, 0, n) == Times(l, 1, n) + iset{[]}
  {
    forall w ensures w in Times(l, 0, n) <==> w in Times(l, 1, n) + iset{[]} {
      if w == [] { assert w in Power(l, 0); }
    }
  }

  /** x{m,n} is x{m-1,n-1}x. */
  lemma TimesLast(l: Language, m: nat, n: nat)
    requires 1 <= m <= n <= DUPINF
    ensures Times(l, m, n) == Cat(Times(l, m - 1, Less(n)), l)
  {
    forall w ensures w in Times(l, m, n) <==> w in Cat(Times(l, m - 1, Less(n)), l) {
      if w in Times(l, m, n) {
        var k: nat :| m <= k && (n == DUPINF || k <= n) && w in Power(l, k);
        var u, v :| u in Power(l, k - 1) && v in l && u + v == w;
        assert u in Times(l, m - 1, Less(n));
      }
      if w in Cat(Times(l, m - 1, Less(n)), l) {
        var u, v :| u in Times(l, m - 1, Less(n)) && v in l && u + v == w;
        var k: nat :| m - 1 <= k && (Less(n) == DUPINF || k <= Less(n)) && u in Power(l, k);
        assert w in Power(l, k + 1);
      }
    }
  }

  // ---------------------------------------------------------------- paths

  lemma {:induction false} MoreArcs(a: set<Arc>, b: set<Arc>, p: nat, q: nat, w: Word)
    requires a <= b && Spells(a, p, q, w)
    ensures Spells(b, p, q, w)
  {
    var n: nat :| Reach(a, p, q, w, n);
    forall e | e in a ensures Simulated(b, e) { ArcSimulated(b, e); }
    Simulation(a, b, p, q, w, n);
  }

  lemma Joined(arcs: set<Arc>, p: nat, x: nat, q: nat, u: Word, w: Word)
    requires Spells(arcs, p, x, u) && Spells(arcs, x, q, w)
    ensures Spells(arcs, p, q, u + w)
  {
    var n: nat :| Reach(arcs, x, q, w, n);
    SpellsConcat(arcs, p, x, q, u, w, n);
  }

  lemma OneArc(arcs: set<Arc>, a: Arc)
    requires a in arcs
    ensures Spells(arcs, a.from, a.to, WordOf(a))
  {
    ArcSimulated(arcs, a);
  }

  // ---------------------------------------------------------------- one fragment after another

  lemma ChainedStrung(arcs: set<Arc>, za: set<nat>, zb: set<nat>, lp: nat, s: nat, rp: nat)
    requires Strung(arcs, za, lp, s) && Strung(arcs, zb, s, rp) && za !! zb && rp !in za
    ensures Strung(arcs, za + zb, lp, rp)
  {
  }

  ghost predicate Split(fa: set<Arc>, fb: set<Arc>, lp: nat, s: nat, q: nat, w: Word) {
    exists u, v :: Spells(fa, lp, s, u) && Spells(fb, s, q, v) && w == u + v
  }

  lemma {:induction false} ChainedPath(arcs: set<Arc>, za: set<nat>, zb: set<nat>, lp: nat, s: nat, rp: nat, q: nat, w: Word, n: nat)
    requires Strung(arcs, za, lp, s) && Strung(arcs, zb, s, rp) && za !! zb && rp !in za
    requires Reach(Leaving(arcs, za + zb), lp, q, w, n)
    ensures if q in za then Spells(Leaving(arcs, za), lp, q, w) else Split(Leaving(arcs, za), Leaving(arcs, zb), lp, s, q, w)
    decreases n
  {
    var f, fa, fb := Leaving(arcs, za + zb), Leaving(arcs, za), Leaving(arcs, zb);
    if n == 0 {
      SpellsEmpty(fa, lp);
    } else {
      var e, u0 := Unroll(f, lp, q, w, n);
      ChainedPath(arcs, za, zb, lp, s, rp, e.from, u0, n - 1);
      if e.from in za {
        SpellsArc(fa, lp, u0, e);
        if q == s {
          SpellsEmpty(fb, s);
          assert w == w + [];
        }
      } else {
        var u, v :| Spells(fa, lp, s, u) && Spells(fb, s, e.from, v) && u0 == u + v;
        SpellsArc(fb, s, v, e);
        assert w == u + (v + WordOf(e));
      }
    }
  }

  /** Chained fragments spell the concatenations of their words. */
  lemma ChainedLang(arcs: set<Arc>, za: set<nat>, zb: set<nat>, lp: nat, s: nat, rp: nat)
    requires Strung(arcs, za, lp, s) && Strung(arcs, zb, s, rp) && za !! zb && rp !in za
    ensures Lang(arcs, za + zb, lp, rp) == Cat(Lang(arcs, za, lp, s), Lang(arcs, zb, s, rp))
  {
    var f, fa, fb := Leaving(arcs, za + zb), Leaving(arcs, za), Leaving(arcs, zb);
    forall w ensures w in Lang(arcs, za + zb, lp, rp) <==> w in Cat(Lang(arcs, za, lp, s), Lang(arcs, zb, s, rp)) {
      if w in Lang(arcs, za + zb, lp, rp) {
        var n: nat :| Reach(f, lp, rp, w, n);
        ChainedPath(arcs, za, zb, lp, s, rp, rp, w, n);
      }
      if w in Cat(Lang(arcs, za, lp, s), Lang(arcs, zb, s, rp)) {
        var u, v :| u in Lang(arcs, za, lp, s) && v in Lang(arcs, zb, s, rp) && u + v == w;
        MoreArcs(fa, f, lp, s, u);
        MoreArcs(fb, f, s, rp, v);
        Joined(f, lp, s, rp, u, v);
      }
    }
  }

  // ---------------------------------------------------------------- an EMPTY arc around

  /** The arcs of a fragment neither leave rp nor enter lp. */
  ghost predicate OneWay(frag: set<Arc>, lp: nat, rp: nat) {
    lp != rp && forall a :: a in frag ==> a.from != rp && a.to != lp
  }

  lemma {:induction false} BypassPath(frag: set<Arc>, lp: nat, rp: nat, q: nat, w: Word, n: nat)
    requires OneWay(frag, lp, rp) && Reach(frag + {Arc(EMPTY, 0, lp, rp)}, lp, q, w, n)
    ensures if q == lp then w == [] else Spells(frag, lp, q, w) || (q == rp && w == [])
    ensures q != rp ==> Spells(frag, lp, q, w)
    decreases n
  {
    if n == 0 {
      SpellsEmpty(frag, lp);
    } else {
      var e, u := Unroll(frag + {Arc(EMPTY, 0, lp, rp)}, lp, q, w, n);
      BypassPath(frag, lp, rp, e.from, u, n - 1);
      if e in frag { SpellsArc(frag, lp, u, e); }
    }
  }

  /** x| : an EMPTY arc from lp to rp adds the empty word. */
  lemma BypassLang(frag: set<Arc>, lp: nat, rp: nat)
    requires OneWay(frag, lp, rp)
    ensures SpelledBy(frag + {Arc(EMPTY, 0, lp, rp)}, lp, rp) == SpelledBy(frag, lp, rp) + iset{[]}
  {
    var around := Arc(EMPTY, 0, lp, rp);
    forall w: Word ensures w in SpelledBy(frag + {around}, lp, rp) <==> w in SpelledBy(frag, lp, rp) + iset{[]} {
      if w in SpelledBy(frag + {around}, lp, rp) {
        var n: nat :| Reach(frag + {around}, lp, rp, w, n);
        BypassPath(frag, lp, rp, rp, w, n);
      }
      if Spells(frag, lp, rp, w) { MoreArcs(frag, frag + {around}, lp, rp, w); }
      OneArc(frag + {around}, around);
    }
  }

  // ---------------------------------------------------------------- images of fragments

  function Img(c: map<nat, nat>, x: nat): nat { if x in c then c[x] else x }

  function ArcImg(c: map<nat, nat>, a: Arc): Arc { Arc(a.typ, a.co, Img(c, a.from), Img(c, a.to)) }

  ghost function Images(es: set<Arc>, c: map<nat, nat>): set<Arc> {
    set a | a in es :: ArcImg(c, a)
  }

  lemma {:induction false} ImageSpells(f: set<Arc>, c: map<nat, nat>, p: nat, q: nat, w: Word, n: nat)
    requires Reach(f, p, q, w, n)
    ensures Spells(Images(f, c), Img(c, p), Img(c, q), w)
    decreases n
  {
    if n == 0 {
      SpellsEmpty(Images(f, c), Img(c, p));
    } else {
      var e, u := Unroll(f, p, q, w, n);
      ImageSpells(f, c, p, e.from, u, n - 1);
      SpellsArc(Images(f, c), Img(c, p), u, ArcImg(c, e));
    }
  }

  /** No two of the given states have the same image, and the arcs join given states only. */
  ghost predicate Faithful(f: set<Arc>, c: map<nat, nat>, d: set<nat>) {
    && (forall a :: a in f ==> a.from in d && a.to in d)
    && (forall x, y :: x in d && y in d && Img(c, x) == Img(c, y) ==> x == y)
  }

  lemma {:induction false} ImageReflects(f: set<Arc>, c: map<nat, nat>, d: set<nat>, p: nat, r: nat, w: Word, n: nat) returns (q: nat)
    requires Faithful(f, c, d) && p in d && Reach(Images(f, c), Img(c, p), r, w, n)
    ensures q in d && Img(c, q) == r && Spells(f, p, q, w)
    decreases n
  {
    if n == 0 {
      q := p;
      SpellsEmpty(f, p);
    } else {
      var e, u := Unroll(Images(f, c), Img(c, p), r, w, n);
      var x := ImageReflects(f, c, d, p, e.from, u, n - 1);
      var a :| a in f && ArcImg(c, a) == e;
      assert a.from == x;
      SpellsArc(f, p, u, a);
      q := a.to;
    }
  }

  /** An isomorphic copy spells the same words. */
  lemma ImageLang(f: set<Arc>, c: map<nat, nat>, d: set<nat>, p: nat, q: nat)
    requires Faithful(f, c, d) && p in d && q in d
    ensures SpelledBy(Images(f, c), Img(c, p), Img(c, q)) == SpelledBy(f, p, q)
  {
    forall w: Word ensures w in SpelledBy(Images(f, c), Img(c, p), Img(c, q)) <==> w in SpelledBy(f, p, q) {
      if Spells(f, p, q, w) {
        var n: nat :| Reach(f, p, q, w, n);
        ImageSpells(f, c, p, q, w, n);
      }
      if Spells(Images(f, c), Img(c, p), Img(c, q), w) {
        var n: nat :| Reach(Images(f, c), Img(c, p), Img(c, q), w, n);
        var x := ImageReflects(f, c, d, p, Img(c, q), w, n);
      }
    }
  }

  lemma {:induction false} KeptPath(f: set<Arc>, k: set<nat>, p: nat, q: nat, w: Word, n: nat)
    requires p in k && (forall a :: a in f && a.from in k ==> a.to in k || forall b :: b in f ==> b.from != a.to)
    requires Reach(f, p, q, w, n)
    ensures Spells(Leaving(f, k), p, q, w)
    ensures q in k || forall b :: b in f ==> b.from != q
    decreases n
  {
    if n == 0 {
      SpellsEmpty(Leaving(f, k), p);
    } else {
      var e, u := Unroll(f, p, q, w, n);
      KeptPath(f, k, p, e.from, u, n - 1);
      SpellsArc(Leaving(f, k), p, u, e);
    }
  }

  /** Only the states that can be reached matter. */
  lemma KeptLang(f: set<Arc>, k: set<nat>, p: nat, q: nat)
    requires p in k && (forall a :: a in f && a.from in k ==> a.to in k || forall b :: b in f ==> b.from != a.to)
    ensures SpelledBy(Leaving(f, k), p, q) == SpelledBy(f, p, q)
  {
    forall w: Word ensures w in SpelledBy(Leaving(f, k), p, q) <==> w in SpelledBy(f, p, q) {
      if Spells(Leaving(f, k), p, q, w) { MoreArcs(Leaving(f, k), f, p, q, w); }
      if Spells(f, p, q, w) {
        var n: nat :| Reach(f, p, q, w, n);
        KeptPath(f, k, p, q, w, n);
      }
    }
  }

  // ---------------------------------------------------------------- loops

  /** The fragment restrung from s to s2 and looped around: from rp one comes back to the start. With s == s2
      it may also be passed by. */
  ghost function Loop(frag: set<Arc>, lp: nat, rp: nat, s: nat, s2: nat): set<Arc> {
    Images(frag, map[lp := s, rp := s2]) + {Arc(EMPTY, 0, lp, s), Arc(EMPTY, 0, s2, rp)}
    + if s == s2 then {} else {Arc(EMPTY, 0, s2, s)}
  }

  /** s and s2 are new, at least where the fragment is concerned. */
  ghost predicate Aside(frag: set<Arc>, lp: nat, rp: nat, s: nat, s2: nat) {
    && s != lp && s != rp && s2 != lp && s2 != rp
    && forall a :: a in frag ==> a.from != s && a.from != s2 && a.to != s && a.to != s2
  }

  /** Some words of the fragment, and the beginning of one that leads to q. */
  ghost predicate Underway(frag: set<Arc>, lp: nat, rp: nat, q: nat, w: Word) {
    exists k: nat, u, v :: u in Power(SpelledBy(frag, lp, rp), k) && Spells(frag, lp, q, v) && w == u + v
  }

  lemma Begun(frag: set<Arc>, lp: nat, rp: nat, k: nat, w: Word)
    requires w in Power(SpelledBy(frag, lp, rp), k)
    ensures Underway(frag, lp, rp, lp, w)
  {
    SpellsEmpty(frag, lp);
    assert w == w + [];
  }

  lemma Continued(frag: set<Arc>, lp: nat, rp: nat, w: Word, a: Arc)
    requires a in frag && Underway(frag, lp, rp, a.from, w)
    ensures Underway(frag, lp, rp, a.to, w + WordOf(a))
    ensures a.to == rp ==> Repeated(SpelledBy(frag, lp, rp), 1, DUPINF, w + WordOf(a))
  {
    var l := SpelledBy(frag, lp, rp);
    var k: nat, u, v :| u in Power(l, k) && Spells(frag, lp, a.from, v) && w == u + v;
    SpellsArc(frag, lp, v, a);
    assert w + WordOf(a) == u + (v + WordOf(a));
    if a.to == rp { assert w + WordOf(a) in Power(l, k + 1); }
  }

  lemma {:induction false} LoopPath(frag: set<Arc>, lp: nat, rp: nat, s: nat, s2: nat, q: nat, w: Word, n: nat)
    requires OneWay(frag, lp, rp) && Aside(frag, lp, rp, s, s2) && Reach(Loop(frag, lp, rp, s, s2), lp, q, w, n)
    ensures q == lp ==> w == []
    ensures q == s ==> Repeated(SpelledBy(frag, lp, rp), 0, DUPINF, w)
    ensures q == s2 || q == rp ==> Repeated(SpelledBy(frag, lp, rp), if s == s2 then 0 else 1, DUPINF, w)
    ensures q != lp && q != rp && q != s && q != s2 ==> Underway(frag, lp, rp, q, w)
    decreases n
  {
    var l := SpelledBy(frag, lp, rp);
    if n > 0 {
      var e, u := Unroll(Loop(frag, lp, rp, s, s2), lp, q, w, n);
      LoopPath(frag, lp, rp, s, s2, e.from, u, n - 1);
      assert e.typ == EMPTY ==> w == u;
      if e == Arc(EMPTY, 0, lp, s) {
        assert w in Power(l, 0);
      } else if e != Arc(EMPTY, 0, s2, rp) && (s == s2 || e != Arc(EMPTY, 0, s2, s)) {
        var a :| a in frag && ArcImg(map[lp := s, rp := s2], a) == e;
        if a.from == lp {
          var k: nat :| u in Power(l, k);
          Begun(frag, lp, rp, k, u);
        }
        Continued(frag, lp, rp, u, a);
      }
    }
  }

  lemma {:induction false} LoopRuns(frag: set<Arc>, lp: nat, rp: nat, s: nat, s2: nat, k: nat, w: Word)
    requires lp != rp && w in Power(SpelledBy(frag, lp, rp), k)
    ensures Spells(Loop(frag, lp, rp, s, s2), s, s, w)
    ensures k > 0 ==> Spells(Loop(frag, lp, rp, s, s2), s, s2, w)
    decreases k
  {
    var l := SpelledBy(frag, lp, rp);
    var g := Loop(frag, lp, rp, s, s2);
    if k == 0 {
      SpellsEmpty(g, s);
    } else {
      var u, v :| u in Power(l, k - 1) && v in l && u + v == w;
      LoopRuns(frag, lp, rp, s, s2, k - 1, u);
      LoopOnce(frag, lp, rp, s, s2, v);
      Joined(g, s, s, s2, u, v);
      if s != s2 {
        OneArc(g, Arc(EMPTY, 0, s2, s));
        Joined(g, s, s2, s, w, []);
        assert w + [] == w;
      }
    }
  }

  lemma LoopOnce(frag: set<Arc>, lp: nat, rp: nat, s: nat, s2: nat, v: Word)
    requires lp != rp && Spells(frag, lp, rp, v)
    ensures Spells(Loop(frag, lp, rp, s, s2), s, s2, v)
  {
    var c := map[lp := s, rp := s2];
    var n: nat :| Reach(frag, lp, rp, v, n);
    ImageSpells(frag, c, lp, rp, v, n);
    MoreArcs(Images(frag, c), Loop(frag, lp, rp, s, s2), Img(c, lp), Img(c, rp), v);
  }

  /** Looping the fragment around spells x*, or x+ when it has ends of its own. */
  lemma LoopLang(frag: set<Arc>, lp: nat, rp: nat, s: nat, s2: nat)
    requires OneWay(frag, lp, rp) && Aside(frag, lp, rp, s, s2)
    ensures SpelledBy(Loop(frag, lp, rp, s, s2), lp, rp) == Times(SpelledBy(frag, lp, rp), if s == s2 then 0 else 1, DUPINF)
  {
    var l, low := SpelledBy(frag, lp, rp), if s == s2 then 0 else 1;
    var g := Loop(frag, lp, rp, s, s2);
    forall w: Word ensures w in SpelledBy(g, lp, rp) <==> w in Times(l, low, DUPINF) {
      if Spells(g, lp, rp, w) {
        var n: nat :| Reach(g, lp, rp, w, n);
        LoopPath(frag, lp, rp, s, s2, rp, w, n);
      }
      if Repeated(l, low, DUPINF, w) {
        var k: nat :| low <= k && w in Power(l, k);
        LoopRuns(frag, lp, rp, s, s2, k, w);
        OneArc(g, Arc(EMPTY, 0, lp, s));
        OneArc(g, Arc(EMPTY, 0, s2, rp));
        Joined(g, lp, s, s2, [], w);
        Joined(g, lp, s2, rp, [] + w, []);
        assert [] + w + [] == w;
      }
    }
  }
}
