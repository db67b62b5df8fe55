/** How an automaton consumes a text. A state is paired with the number of the next symbol to be
    read; symbol 0 stands before the first character, symbol n + 1 after the last one. */
module Runs {
  import opened Nfa

  /** The symbols of a text, the lookahead oracle (constraint, number of the next symbol), and the
      colours standing for the two kinds of string begin and end. */
  datatype Env = Env(sym: nat -> nat, lacon: (nat, nat) -> bool, bos: (nat, nat), eos: (nat, nat), pre: nat, post: nat)

  function Pick(p: (nat, nat), i: nat): nat { if i == 0 then p.0 else p.1 }

  /** May arc a be taken when symbol k is next, leaving symbol k2 next? '^' and BEHIND test the last
      symbol consumed, '$' and AHEAD the next one; only the '^' arcs of pre and the '$' arcs of post
      consume the begin and end symbols they stand for (regc_nfa.c:77-82, 1502-1509, 1681-1688). */
  ghost predicate Takes(v: Env, a: Arc, k: nat, k2: nat) {
    match a.typ
    case EMPTY => k2 == k
    case PLAIN => v.sym(k) == a.co && k2 == k + 1
    case CARET =>
      if a.from == v.pre then v.sym(k) == Pick(v.bos, a.co) && k2 == k + 1
      else k > 0 && v.sym(k - 1) == Pick(v.bos, a.co) && k2 == k
    case DOLLAR =>
      if a.to == v.post then v.sym(k) == Pick(v.eos, a.co) && k2 == k + 1
      else v.sym(k) == Pick(v.eos, a.co) && k2 == k
    case BEHIND => k > 0 && v.sym(k - 1) == a.co && k2 == k
    case AHEAD => v.sym(k) == a.co && k2 == k
    case LACON => v.lacon(a.co, k) && k2 == k
  }

  /** A path of n arcs leads from (p, i) to (q, k). */
  ghost predicate Run(arcs: set<Arc>, v: Env, p: nat, i: nat, q: nat, k: nat, n: nat)
    decreases n
  {
    if n == 0 then p == q && i == k
    else exists a, j: nat :: LastStep(arcs, v, p, i, q, k, n, a, j)
  }

  ghost predicate LastStep(arcs: set<Arc>, v: Env, p: nat, i: nat, q: nat, k: nat, n: nat, a: Arc, j: nat)
    requires n > 0
    decreases n, 0
  {
    a in arcs && a.to == q && Takes(v, a, j, k) && Run(arcs, v, p, i, a.from, j, n - 1)
  }

  ghost predicate Goes(arcs: set<Arc>, v: Env, p: nat, i: nat, q: nat, k: nat) {
    exists n: nat :: Run(arcs, v, p, i, q, k, n)
  }

  lemma GoesNowhere(arcs: set<Arc>, v: Env, p: nat, i: nat)
    ensures Goes(arcs, v, p, i, p, i)
  {
    assert Run(arcs, v, p, i, p, i, 0);
  }

  lemma GoesOn(arcs: set<Arc>, v: Env, p: nat, i: nat, a: Arc, j: nat, k: nat)
    requires a in arcs && Goes(arcs, v, p, i, a.from, j) && Takes(v, a, j, k)
    ensures Goes(arcs, v, p, i, a.to, k)
  {
    var n: nat :| Run(arcs, v, p, i, a.from, j, n);
    assert LastStep(arcs, v, p, i, a.to, k, n + 1, a, j);
    assert Run(arcs, v, p, i, a.to, k, n + 1);
  }

  lemma LastOf(arcs: set<Arc>, v: Env, p: nat, i: nat, q: nat, k: nat, n: nat) returns (a: Arc, j: nat)
    requires Run(arcs, v, p, i, q, k, n) && n > 0
    ensures a in arcs && a.to == q && Takes(v, a, j, k) && Run(arcs, v, p, i, a.from, j, n - 1)
  {
    a, j :| LastStep(arcs, v, p, i, q, k, n, a, j);
  }

  /** The automaton matches from symbol i (the one before the match) to symbol k - 1 (the one after it). */
  ghost predicate Accepts(arcs: set<Arc>, v: Env, i: nat, k: nat) {
    Goes(arcs, v, v.pre, i, v.post, k)
  }

  lemma {:induction false} RunForward(arcs: set<Arc>, v: Env, p: nat, i: nat, q: nat, k: nat, n: nat)
    requires Run(arcs, v, p, i, q, k, n)
    ensures i <= k
    decreases n
  {
    if n > 0 {
      var a, j := LastOf(arcs, v, p, i, q, k, n);
      RunForward(arcs, v, p, i, a.from, j, n - 1);
    }
  }

  /** Nothing enters pre or leaves post; pre is left by PLAIN and '^' arcs, post entered by PLAIN and '$'
      arcs, and none leads from pre straight to post (regc_nfa.c:77-82). */
  ghost predicate Ended(arcs: set<Arc>, pre: nat, post: nat) {
    && pre != post
    && (forall a :: a in arcs ==> a.to != pre && a.from != post && (a.from == pre ==> a.to != post))
    && (forall a :: a in arcs && a.from == pre ==> a.typ == PLAIN || a.typ == CARET)
    && (forall a :: a in arcs && a.to == post ==> a.typ == PLAIN || a.typ == DOLLAR)
  }
}
