/** Words and texts: an automaton whose ends are as newnfa() leaves them matches a piece of text if and only if the
    piece reads as a word it spells, so automata that spell the same words match the same texts. */
module Readings {
  import opened Nfa
  import opened Words
  import opened Runs

  /** The label of an arc is taken as the arc is: first and last tell whether the arc leaves pre, or enters post. */
  ghost predicate LabelTakes(v: Env, l: Label, first: bool, last: bool, k: nat, k2: nat) {
    match l.typ
    case EMPTY => k2 == k
    case PLAIN => v.sym(k) == l.co && k2 == k + 1
    case CARET =>
      if first then v.sym(k) == Pick(v.bos, l.co) && k2 == k + 1
      else k > 0 && v.sym(k - 1) == Pick(v.bos, l.co) && k2 == k
    case DOLLAR =>
      if last then v.sym(k) == Pick(v.eos, l.co) && k2 == k + 1
      else v.sym(k) == Pick(v.eos, l.co) && k2 == k
    case BEHIND => k > 0 && v.sym(k - 1) == l.co && k2 == k
    case AHEAD => v.sym(k) == l.co && k2 == k
    case LACON => v.lacon(l.co, k) && k2 == k
  }

  /** The symbols from i up to k read as w; last says whether w leads all the way to post. */
  ghost predicate Reads(v: Env, w: seq<Label>, last: bool, i: nat, k: nat)
    decreases w
  {
    if w == [] then i == k && !last
    else exists j: nat :: ReadsLast(v, w, last, i, k, j)
  }

  ghost predicate ReadsLast(v: Env, w: seq<Label>, last: bool, i: nat, k: nat, j: nat)
    requires w != []
    decreases w, 0
  {
    Reads(v, w[..|w| - 1], false, i, j) && LabelTakes(v, w[|w| - 1], |w| == 1, last, j, k)
  }

  /** Only the empty word leads from pre to itself, and it leads nowhere else. */
  lemma {:induction false} AtPre(arcs: set<Arc>, pre: nat, post: nat, x: nat, w: seq<Label>, n: nat)
    requires Ended(arcs, pre, post) && Reach(arcs, pre, x, w, n)
    ensures w == [] <==> x == pre
    decreases n
  {
    if n > 0 {
      var a, u := Unroll(arcs, pre, x, w, n);
      AtPre(arcs, pre, post, a.from, u, n - 1);
    }
  }

  lemma {:induction false} RunReads(arcs: set<Arc>, v: Env, q: nat, i: nat, k: nat, n: nat) returns (w: seq<Label>)
    requires Ended(arcs, v.pre, v.post) && Run(arcs, v, v.pre, i, q, k, n)
    ensures Reach(arcs, v.pre, q, w, n) && Reads(v, w, q == v.post, i, k)
    decreases n
  {
    if n == 0 {
      w := [];
    } else {
      var a, j := LastOf(arcs, v, v.pre, i, q, k, n);
      var u := RunReads(arcs, v, a.from, i, j, n - 1);
      AtPre(arcs, v.pre, v.post, a.from, u, n - 1);
      w := u + WordOf(a);
      if a.typ == EMPTY {
        assert w == u;
        assert LastArc(arcs, v.pre, q, w, n, a);
      } else {
        assert w[..|w| - 1] == u;
        assert LastArc(arcs, v.pre, q, w, n, a);
        assert ReadsLast(v, w, q == v.post, i, k, j);
      }
    }
  }

  lemma {:induction false} ReadsRun(arcs: set<Arc>, v: Env, q: nat, w: seq<Label>, i: nat, k: nat, n: nat)
    requires Ended(arcs, v.pre, v.post) && Reach(arcs, v.pre, q, w, n) && Reads(v, w, q == v.post, i, k)
    ensures Run(arcs, v, v.pre, i, q, k, n)
    decreases n
  {
    if n > 0 {
      var a, u := Unroll(arcs, v.pre, q, w, n);
      AtPre(arcs, v.pre, v.post, a.from, u, n - 1);
      if a.typ == EMPTY {
        assert u == w;
        ReadsRun(arcs, v, a.from, u, i, k, n - 1);
        assert LastStep(arcs, v, v.pre, i, q, k, n, a, k);
      } else {
        assert w[..|w| - 1] == u && w[|w| - 1] == LabelOf(a);
        var j: nat :| ReadsLast(v, w, q == v.post, i, k, j);
        ReadsRun(arcs, v, a.from, u, i, j, n - 1);
        assert LastStep(arcs, v, v.pre, i, q, k, n, a, j);
      }
    }
  }

  /** Matching is reading a word of the language. */
  lemma AcceptsReading(arcs: set<Arc>, v: Env, i: nat, k: nat)
    requires Ended(arcs, v.pre, v.post)
    ensures Accepts(arcs, v, i, k) <==> exists w :: Spells(arcs, v.pre, v.post, w) && Reads(v, w, true, i, k)
  {
    if Accepts(arcs, v, i, k) {
      var n: nat :| Run(arcs, v, v.pre, i, v.post, k, n);
      var w := RunReads(arcs, v, v.post, i, k, n);
      assert Spells(arcs, v.pre, v.post, w);
    }
    if w :| Spells(arcs, v.pre, v.post, w) && Reads(v, w, true, i, k) {
      var n: nat :| Reach(arcs, v.pre, v.post, w, n);
      ReadsRun(arcs, v, v.post, w, i, k, n);
    }
  }

  /** The same words, the same texts. */
  lemma WordsTexts(a: set<Arc>, b: set<Arc>, pre: nat, post: nat)
    requires Ended(a, pre, post) && Ended(b, pre, post) && SameWords(a, b, pre, post)
    ensures forall v: Env, i: nat, k: nat :: v.pre == pre && v.post == post ==> (Accepts(a, v, i, k) <==> Accepts(b, v, i, k))
  {
    hide Accepts, Spells, Reads;
    forall v: Env, i: nat, k: nat | v.pre == pre && v.post == post ensures Accepts(a, v, i, k) <==> Accepts(b, v, i, k) {
      AcceptsReading(a, v, i, k);
      AcceptsReading(b, v, i, k);
    }
  }
}
