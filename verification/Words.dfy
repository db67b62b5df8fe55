/** The language of an arc set: the words of non-EMPTY labels along its paths. */
module Words {
  import opened Nfa

  datatype Label = Label(typ: ArcType, co: nat)

  function LabelOf(a: Arc): Label { Label(a.typ, a.co) }

  /** What one arc contributes to the word of a path. */
  function WordOf(a: Arc): seq<Label> {
    if a.typ == EMPTY then [] else [LabelOf(a)]
  }

  /** A path of n arcs from p to q spells w. */
  ghost predicate Reach(arcs: set<Arc>, p: nat, q: nat, w: seq<Label>, n: nat)
    decreases n
  {
    if n == 0 then p == q && w == []
    else exists a :: a in arcs && LastArc(arcs, p, q, w, n, a)
  }

  ghost predicate LastArc(arcs: set<Arc>, p: nat, q: nat, w: seq<Label>, n: nat, a: Arc)
    requires n > 0
    decreases n, 0
  {
    && a.to == q
    && if a.typ == EMPTY then Reach(arcs, p, a.from, w, n - 1)
       else |w| > 0 && w[|w| - 1] == LabelOf(a) && Reach(arcs, p, a.from, w[..|w| - 1], n - 1)
  }

  ghost predicate Spells(arcs: set<Arc>, p: nat, q: nat, w: seq<Label>) {
    exists n: nat :: Reach(arcs, p, q, w, n)
  }

  lemma SpellsEmpty(arcs: set<Arc>, p: nat)
    ensures Spells(arcs, p, p, [])
  {
    assert Reach(arcs, p, p, [], 0);
  }

  /** Take the last arc off a path. */
  lemma Unroll(arcs: set<Arc>, p: nat, q: nat, w: seq<Label>, n: nat) returns (e: Arc, u: seq<Label>)
    requires Reach(arcs, p, q, w, n) && n > 0
    ensures e in arcs && e.to == q && u + WordOf(e) == w && Reach(arcs, p, e.from, u, n - 1)
  {
    e :| e in arcs && LastArc(arcs, p, q, w, n, e);
    u := if e.typ == EMPTY then w else w[..|w| - 1];
  }

  /** A path may be continued by one more arc. */
  lemma SpellsArc(arcs: set<Arc>, p: nat, w: seq<Label>, a: Arc)
    requires a in arcs && Spells(arcs, p, a.from, w)
    ensures Spells(arcs, p, a.to, w + WordOf(a))
  {
    var n: nat :| Reach(arcs, p, a.from, w, n);
    var w2 := w + WordOf(a);
    assert a.typ != EMPTY ==> w2[..|w2| - 1] == w;
    assert a.typ == EMPTY ==> w2 == w;
    assert LastArc(arcs, p, a.to, w2, n + 1, a);
    assert Reach(arcs, p, a.to, w2, n + 1);
  }

  lemma {:induction false} SpellsConcat(arcs: set<Arc>, p: nat, x: nat, q: nat, u: seq<Label>, w: seq<Label>, n: nat)
    requires Spells(arcs, p, x, u) && Reach(arcs, x, q, w, n)
    ensures Spells(arcs, p, q, u + w)
    decreases n
  {
    if n == 0 {
      assert u + w == u;
    } else {
      var a, v := Unroll(arcs, x, q, w, n);
      SpellsConcat(arcs, p, x, a.from, u, v, n - 1);
      SpellsArc(arcs, p, u + v, a);
      assert u + v + WordOf(a) == u + w;
    }
  }

  /** a's label is read by some path of b between a's ends. */
  ghost predicate Simulated(b: set<Arc>, a: Arc) {
    Spells(b, a.from, a.to, WordOf(a))
  }

  lemma ArcSimulated(b: set<Arc>, a: Arc)
    requires a in b
    ensures Simulated(b, a)
  {
    SpellsEmpty(b, a.from);
    SpellsArc(b, a.from, [], a);
    assert [] + WordOf(a) == WordOf(a);
  }

  /** If every arc of a is simulated by a path of b, then b spells all that a spells. */
  lemma {:induction false} Simulation(a: set<Arc>, b: set<Arc>, p: nat, q: nat, w: seq<Label>, n: nat)
    requires forall e :: e in a ==> Simulated(b, e)
    requires Reach(a, p, q, w, n)
    ensures Spells(b, p, q, w)
    decreases n
  {
    if n == 0 {
      SpellsEmpty(b, p);
    } else {
      var e, u := Unroll(a, p, q, w, n);
      Simulation(a, b, p, e.from, u, n - 1);
      var m: nat :| Reach(b, e.from, e.to, WordOf(e), m);
      SpellsConcat(b, p, e.from, q, u, WordOf(e), m);
    }
  }

  /** The two arc sets spell the same words between p and q. */
  ghost predicate SameWords(a: set<Arc>, b: set<Arc>, p: nat, q: nat) {
    forall w :: Spells(a, p, q, w) <==> Spells(b, p, q, w)
  }

  lemma SameWordsTrans(a: set<Arc>, b: set<Arc>, c: set<Arc>, p: nat, q: nat)
    requires SameWords(a, b, p, q) && SameWords(b, c, p, q)
    ensures SameWords(a, c, p, q)
  {
  }

  // ---------------------------------------------------------------- chains of EMPTY arcs

  /** A chain of n EMPTY arcs leads from x to s. */
  ghost predicate EmptyPath(arcs: set<Arc>, x: nat, s: nat, n: nat)
    decreases n
  {
    if n == 0 then x == s
    else exists a :: a in arcs && a.typ == EMPTY && a.from == x && EmptyPath(arcs, a.to, s, n - 1)
  }

  ghost predicate EmptyReaches(arcs: set<Arc>, x: nat, s: nat) {
    exists n: nat :: EmptyPath(arcs, x, s, n)
  }

  lemma {:induction false} EmptyPathTail(arcs: set<Arc>, x: nat, a: Arc, n: nat)
    requires a in arcs && a.typ == EMPTY && EmptyPath(arcs, x, a.from, n)
    ensures EmptyPath(arcs, x, a.to, n + 1)
    decreases n
  {
    if n == 0 {
      assert EmptyPath(arcs, a.to, a.to, 0);
    } else {
      var b :| b in arcs && b.typ == EMPTY && b.from == x && EmptyPath(arcs, b.to, a.from, n - 1);
      EmptyPathTail(arcs, b.to, a, n - 1);
    }
  }

  lemma {:induction false} EmptyPathSpells(arcs: set<Arc>, x: nat, s: nat, n: nat)
    requires EmptyPath(arcs, x, s, n)
    ensures Spells(arcs, x, s, [])
    decreases n
  {
    if n == 0 {
      SpellsEmpty(arcs, x);
    } else {
      var a :| a in arcs && a.typ == EMPTY && a.from == x && EmptyPath(arcs, a.to, s, n - 1);
      EmptyPathSpells(arcs, a.to, s, n - 1);
      SpellsEmpty(arcs, x);
      SpellsArc(arcs, x, [], a);
      var m: nat :| Reach(arcs, a.to, s, [], m);
      var none: seq<Label> := [];
      assert none + WordOf(a) == none;
      SpellsConcat(arcs, x, a.to, s, none, none, m);
      assert none + none == none;
    }
  }

  /** A set that contains s and all EMPTY predecessors of its members contains every state that
      reaches s by EMPTY arcs. */
  lemma {:induction false} ClosedHoldsReachers(arcs: set<Arc>, found: set<nat>, x: nat, s: nat, n: nat)
    requires s in found && EmptyPath(arcs, x, s, n)
    requires forall a :: a in arcs && a.typ == EMPTY && a.to in found ==> a.from in found
    ensures x in found
    decreases n
  {
    if n > 0 {
      var a :| a in arcs && a.typ == EMPTY && a.from == x && EmptyPath(arcs, a.to, s, n - 1);
      ClosedHoldsReachers(arcs, found, a.to, s, n - 1);
    }
  }

  /** Every path is EMPTY throughout, or has a last non-EMPTY arc. */
  lemma {:induction false} LastLetter(arcs: set<Arc>, p: nat, q: nat, w: seq<Label>, n: nat) returns (b: Arc, m: nat)
    requires Reach(arcs, p, q, w, n)
    ensures w == [] ==> EmptyReaches(arcs, p, q)
    ensures w != [] ==>
      && b in arcs && b.typ != EMPTY && LabelOf(b) == w[|w| - 1]
      && m < n && Reach(arcs, p, b.from, w[..|w| - 1], m) && EmptyReaches(arcs, b.to, q)
    decreases n
  {
    if n == 0 {
      assert EmptyPath(arcs, p, q, 0);
      b, m := Arc(EMPTY, 0, 0, 0), 0;
    } else {
      var a :| a in arcs && LastArc(arcs, p, q, w, n, a);
      if a.typ != EMPTY {
        b, m := a, n - 1;
        assert EmptyPath(arcs, q, q, 0);
      } else {
        b, m := LastLetter(arcs, p, a.from, w, n - 1);
        var x := if w == [] then p else b.to;
        var k: nat :| EmptyPath(arcs, x, a.from, k);
        EmptyPathTail(arcs, x, a, k);
      }
    }
  }
}
