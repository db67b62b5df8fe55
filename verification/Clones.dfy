/** Why a loop of constraint arcs may be broken the way breakconstraintloop() does it, regc_nfa.c:2302-2682: which texts the
    automaton with the cloned states matches, and what becomes of its loops. */
module Clones {
  import opened Nfa
  import opened Runs
  import opened ConstraintLoops

  type Label = (ArcType, nat)

  function LabelOf(a: Arc): Label { (a.typ, a.co) }

  /** hasconstraintout(), regc_nfa.c:2139-2150. */
  ghost predicate HasConstraintOut(arcs: set<Arc>, s: nat) {
    exists a :: a in arcs && a.from == s && IsConstraint(a)
  }

  /** A state that is entered, and left by a constraint arc: such a one may be on a loop. */
  ghost predicate Inner(arcs: set<Arc>, s: nat) {
    HasConstraintOut(arcs, s) && exists a :: a in arcs && a.to == s
  }

  /** Arcs whose target is cloned rather than linked to. */
  ghost predicate Follows(arcs: set<Arc>, a: Arc) {
    IsConstraint(a) && HasConstraintOut(arcs, a.to)
  }

  /** The automaton before, its states, the state the loop is broken after, and the label that is known to hold wherever
      the clones are entered, if there is one. */
  datatype Ground = Ground(arcs: set<Arc>, keys: set<nat>, head: nat, ref: set<Label>)

  /** The clones: what each is a clone of, its parent, and the states that have been merged into it. */
  datatype Tree = Tree(src: map<nat, nat>, up: map<nat, nat>, cover: map<nat, set<nat>>)

  function Cover(t: Tree, x: nat): set<nat> { if x in t.cover then t.cover[x] else {} }

  /** The states merged into x or a clone above it. */
  function Above(t: Tree, x: nat): set<nat>
    decreases x
  {
    Cover(t, x) + if x in t.up && t.up[x] < x then Above(t, t.up[x]) else {}
  }

  /** The label of the only in-arc. */
  ghost function Sole(b: set<Arc>, x: nat): set<Label> {
    set e | e in b && InSet(b, x) == {e} :: LabelOf(e)
  }

  /** The labels of constraints that hold wherever x has been reached. */
  ghost function Sure(g: Ground, b: set<Arc>, t: Tree, x: nat): set<Label>
    decreases x
  {
    if x in t.up && t.up[x] < x then Sure(g, b, t, t.up[x]) + Sole(b, x) else g.ref
  }

  /** A path of n constraint arcs with such labels. */
  ghost predicate Freely(arcs: set<Arc>, sure: set<Label>, s: nat, q: nat, n: nat)
    decreases n
  {
    if n == 0 then s == q else exists a :: FreeStep(arcs, sure, s, q, n, a)
  }

  ghost predicate FreeStep(arcs: set<Arc>, sure: set<Label>, s: nat, q: nat, n: nat, a: Arc)
    requires n > 0
    decreases n, 0
  {
    a in arcs && IsConstraint(a) && LabelOf(a) in sure && a.to == q && Freely(arcs, sure, s, a.from, n - 1)
  }

  ghost predicate Free(arcs: set<Arc>, sure: set<Label>, s: nat, q: nat) {
    exists n: nat :: Freely(arcs, sure, s, q, n)
  }

  /** y is a child of x that stands for the target of a. */
  ghost predicate ChildFor(b: set<Arc>, t: Tree, x: nat, a: Arc, y: nat) {
    y in t.up && t.up[y] == x && y in t.src && t.src[y] == a.to && Arc(a.typ, a.co, x, y) in b
  }

  /** The clone x has what arc a of a state merged into it gives. */
  ghost predicate Given(g: Ground, b: set<Arc>, t: Tree, x: nat, a: Arc) {
    if Follows(g.arcs, a) then a.to == g.head || a.to in Above(t, x) || exists y :: ChildFor(b, t, x, a, y)
    else a.(from := x) in b
  }

  /** Arc e of the clone x comes from arc a. */
  ghost predicate StemsFrom(g: Ground, t: Tree, x: nat, e: Arc, a: Arc) {
    && a in g.arcs && a.from in Cover(t, x) && LabelOf(a) == LabelOf(e)
    && if Follows(g.arcs, a) then e.to in t.up && t.up[e.to] == x && e.to in t.src && t.src[e.to] == a.to else e.to == a.to
  }

  ghost predicate Stems(g: Ground, t: Tree, x: nat, e: Arc) {
    exists a :: StemsFrom(g, t, x, e, a)
  }

  /** A state that may be merged into x. */
  ghost predicate Mergeable(g: Ground, b: set<Arc>, t: Tree, x: nat, s: nat)
    requires x in t.src
  {
    s in g.keys && s != g.head && Inner(g.arcs, s) && Free(g.arcs, Sure(g, b, t, x), t.src[x], s)
  }

  /** The clone x is complete. */
  ghost predicate Complete(g: Ground, b: set<Arc>, t: Tree, x: nat) {
    && x in t.src && x in t.cover && t.src[x] in t.cover[x]
    && (forall s :: s in t.cover[x] ==> Mergeable(g, b, t, x, s))
    && (forall a :: a in g.arcs && a.from in t.cover[x] ==> Given(g, b, t, x, a))
    && (forall e :: e in b && e.from == x ==> Stems(g, t, x, e))
  }

  /** All clones are complete, root is the first, and besides their arcs there are those there were before. */
  ghost predicate Grove(g: Ground, b: set<Arc>, t: Tree, root: nat) {
    && root in t.src && root !in t.up && t.cover.Keys == t.src.Keys && t.src.Keys == t.up.Keys + {root} && t.src.Keys !! g.keys
    && (forall y :: y in t.up ==> t.up[y] in t.src && t.up[y] < y)
    && (forall x :: x in t.src ==> Complete(g, b, t, x))
    && g.arcs <= b && forall e :: e in b ==> e in g.arcs || e.from in t.src
  }

  /** The arcs of the step the loop is broken at. */
  ghost predicate Broken(g: Ground, l: set<Arc>, tail: nat) {
    && l == (set a | a in g.arcs && a.from == g.head && a.to == tail && IsConstraint(a)) && l != {}
    && (forall a :: a in l ==> g.ref <= {LabelOf(a)}) && Inner(g.arcs, tail) && Inner(g.arcs, g.head) && tail != g.head
    && Within(g.arcs, g.keys)
  }

  /** They are made to lead to the root of the clones, or dropped. */
  ghost function Redirected(b: set<Arc>, l: set<Arc>, root: nat): set<Arc> {
    b - l + if OutSet(b, root) == {} then {} else AllRehung(l, true, root)
  }

  // ---------------------------------------------------------------- the same texts: nothing is added

  /** The constraint holds when symbol k is next. */
  ghost predicate Holds(v: Env, l: Label, k: nat) {
    match l.0
    case CARET => k > 0 && v.sym(k - 1) == Pick(v.bos, l.1)
    case DOLLAR => v.sym(k) == Pick(v.eos, l.1)
    case BEHIND => k > 0 && v.sym(k - 1) == l.1
    case AHEAD => v.sym(k) == l.1
    case LACON => v.lacon(l.1, k)
    case _ => false
  }

  /** Away from pre and post a constraint arc consumes nothing. */
  lemma TakesHolds(v: Env, a: Arc, j: nat, k: nat)
    requires IsConstraint(a) && a.from != v.pre && a.to != v.post
    ensures Takes(v, a, j, k) <==> j == k && Holds(v, LabelOf(a), k)
  {
  }

  lemma TakesLike(v: Env, a: Arc, e: Arc, j: nat, k: nat)
    requires LabelOf(a) == LabelOf(e) && a.to == e.to && a.from != v.pre && e.from != v.pre
    ensures Takes(v, a, j, k) <==> Takes(v, e, j, k)
  {
  }

  ghost predicate AllHold(v: Env, sure: set<Label>, k: nat) {
    forall l :: l in sure ==> Holds(v, l, k)
  }

  lemma {:induction false} FreelyGoes(arcs: set<Arc>, v: Env, sure: set<Label>, i: nat, s: nat, q: nat, k: nat, n: nat)
    requires Ended(arcs, v.pre, v.post) && HasConstraintOut(arcs, q) && s != v.pre
    requires Freely(arcs, sure, s, q, n) && AllHold(v, sure, k) && Goes(arcs, v, v.pre, i, s, k)
    ensures Goes(arcs, v, v.pre, i, q, k)
    decreases n
  {
    if n > 0 {
      var a :| FreeStep(arcs, sure, s, q, n, a);
      FreelyGoes(arcs, v, sure, i, s, a.from, k, n - 1);
      if n == 1 { assert a.from == s; } else { NotPre(arcs, v, sure, s, a.from, n - 1); }
      TakesHolds(v, a, k, k);
      GoesOn(arcs, v, v.pre, i, a, k, k);
    }
  }

  lemma NotPre(arcs: set<Arc>, v: Env, sure: set<Label>, s: nat, q: nat, n: nat)
    requires Ended(arcs, v.pre, v.post) && n > 0 && Freely(arcs, sure, s, q, n)
    ensures q != v.pre
  {
    var a :| FreeStep(arcs, sure, s, q, n, a);
  }

  lemma CoverGoes(g: Ground, b: set<Arc>, t: Tree, x: nat, v: Env, i: nat, k: nat)
    requires Complete(g, b, t, x) && Ended(g.arcs, v.pre, v.post) && AllHold(v, Sure(g, b, t, x), k)
    requires t.src[x] != v.pre && Goes(g.arcs, v, v.pre, i, t.src[x], k)
    ensures forall s :: s in t.cover[x] ==> Goes(g.arcs, v, v.pre, i, s, k)
  {
    forall s | s in t.cover[x] ensures Goes(g.arcs, v, v.pre, i, s, k) {
      assert Mergeable(g, b, t, x, s);
      var n: nat :| Freely(g.arcs, Sure(g, b, t, x), t.src[x], s, n);
      hide Sure, Goes, Ended, HasConstraintOut;
      FreelyGoes(g.arcs, v, Sure(g, b, t, x), i, t.src[x], s, k, n);
    }
  }

  /** What being in (q, k) means for the automaton before: the same, or, at a clone, that any of the states merged into it
      can be reached. */
  ghost predicate Stands(g: Ground, b: set<Arc>, t: Tree, v: Env, i: nat, q: nat, k: nat) {
    if q in t.src then AllHold(v, Sure(g, b, t, q), k) && forall s :: s in Cover(t, q) ==> Goes(g.arcs, v, v.pre, i, s, k)
    else Goes(g.arcs, v, v.pre, i, q, k)
  }

  /** What the lemmas below are about. */
  ghost predicate Setting(g: Ground, b: set<Arc>, t: Tree, root: nat, l: set<Arc>, tail: nat, v: Env) {
    && Grove(g, b, t, root) && Broken(g, l, tail) && t.src[root] == tail
    && Ended(g.arcs, v.pre, v.post) && v.pre in g.keys && v.post in g.keys
  }

  lemma InnerApart(arcs: set<Arc>, s: nat, pre: nat, post: nat)
    requires Ended(arcs, pre, post) && Inner(arcs, s)
    ensures s != pre && s != post
  {
  }

  lemma CoverApart(g: Ground, b: set<Arc>, t: Tree, root: nat, l: set<Arc>, tail: nat, v: Env, x: nat, s: nat)
    requires Setting(g, b, t, root, l, tail, v) && x in t.src && s in Cover(t, x)
    ensures x != v.pre && x != v.post && s != v.pre && s != v.post && s !in t.src
  {
    hide Sure, Free, Above, Inner;
    assert Complete(g, b, t, x) && Mergeable(g, b, t, x, s);
    InnerApart(g.arcs, s, v.pre, v.post);
  }

  /** The root is entered where the tail was. */
  lemma EnterRoot(g: Ground, b: set<Arc>, t: Tree, root: nat, l: set<Arc>, tail: nat, v: Env, i: nat, a: Arc, e: Arc, j: nat, k: nat)
    requires Setting(g, b, t, root, l, tail, v) && a in l && e == a.(to := root)
    requires Goes(g.arcs, v, v.pre, i, g.head, j) && Takes(v, e, j, k)
    ensures Stands(g, b, t, v, i, root, k)
  {
    InnerApart(g.arcs, g.head, v.pre, v.post);
    InnerApart(g.arcs, tail, v.pre, v.post);
    TakesHolds(v, e, j, k);
    TakesHolds(v, a, j, k);
    GoesOn(g.arcs, v, v.pre, i, a, j, k);
    assert Complete(g, b, t, root) && Sure(g, b, t, root) == g.ref;
    hide Goes, Inner, Ended, Sure;
    CoverGoes(g, b, t, root, v, i, k);
  }

  /** From a clone on. */
  lemma CloneStands(g: Ground, b: set<Arc>, t: Tree, root: nat, l: set<Arc>, tail: nat, v: Env, i: nat, e: Arc, j: nat, k: nat)
    requires Setting(g, b, t, root, l, tail, v) && e in b && e.from in t.src && Stands(g, b, t, v, i, e.from, j) && Takes(v, e, j, k)
    ensures Stands(g, b, t, v, i, e.to, k)
  {
    assert Complete(g, b, t, e.from) && Stems(g, t, e.from, e);
    var a :| StemsFrom(g, t, e.from, e, a);
    CoverApart(g, b, t, root, l, tail, v, e.from, a.from);
    if Follows(g.arcs, a) {
      ChildStands(g, b, t, root, l, tail, v, i, a, e, j, k);
    } else {
      TakesLike(v, a, e, j, k);
      GoesOn(g.arcs, v, v.pre, i, a, j, k);
    }
  }

  lemma ChildStands(g: Ground, b: set<Arc>, t: Tree, root: nat, l: set<Arc>, tail: nat, v: Env, i: nat, a: Arc, e: Arc, j: nat, k: nat)
    requires Setting(g, b, t, root, l, tail, v) && e in b && e.from in t.src && Stands(g, b, t, v, i, e.from, j) && Takes(v, e, j, k)
    requires StemsFrom(g, t, e.from, e, a) && Follows(g.arcs, a) && a.from != v.pre
    ensures Stands(g, b, t, v, i, e.to, k)
  {
    var x, y := e.from, e.to;
    assert Complete(g, b, t, y);
    InnerApart(g.arcs, a.to, v.pre, v.post);
    CoverApart(g, b, t, root, l, tail, v, x, a.from);
    assert y != v.post;
    TakesHolds(v, e, j, k);
    TakesHolds(v, a, j, k);
    GoesOn(g.arcs, v, v.pre, i, a, j, k);
    SureHolds(g, b, t, v, e, k);
    hide Sure, Goes, Ended, Inner;
    CoverGoes(g, b, t, y, v, i, k);
  }

  lemma SureHolds(g: Ground, b: set<Arc>, t: Tree, v: Env, e: Arc, k: nat)
    requires e in b && e.to in t.up && t.up[e.to] == e.from && e.from < e.to
    requires AllHold(v, Sure(g, b, t, e.from), k) && Holds(v, LabelOf(e), k)
    ensures AllHold(v, Sure(g, b, t, e.to), k)
  {
    hide Holds;
    forall d | d in b && InSet(b, e.to) == {d} ensures d == e { assert e in InSet(b, e.to); }
  }

  /** Every run of the automaton after is one of the automaton before, up to the states merged. */
  lemma {:induction false} RunStands(g: Ground, b: set<Arc>, t: Tree, root: nat, l: set<Arc>, tail: nat, v: Env, i: nat, q: nat, k: nat, n: nat)
    requires Setting(g, b, t, root, l, tail, v) && Run(Redirected(b, l, root), v, v.pre, i, q, k, n)
    ensures Stands(g, b, t, v, i, q, k)
    decreases n
  {
    hide Grove, Broken, Redirected, Ended, Stands, Run, Takes, Goes;
    if n == 0 {
      StartStands(g, b, t, root, l, tail, v, i, q, k);
    } else {
      var e, j := LastOf(Redirected(b, l, root), v, v.pre, i, q, k, n);
      RunStands(g, b, t, root, l, tail, v, i, e.from, j, n - 1);
      StepStands(g, b, t, root, l, tail, v, i, e, j, k);
    }
  }

  lemma StartStands(g: Ground, b: set<Arc>, t: Tree, root: nat, l: set<Arc>, tail: nat, v: Env, i: nat, q: nat, k: nat)
    requires Setting(g, b, t, root, l, tail, v) && Run(Redirected(b, l, root), v, v.pre, i, q, k, 0)
    ensures Stands(g, b, t, v, i, q, k)
  {
    GoesNowhere(g.arcs, v, v.pre, i);
    PostNoClone(g, b, t, root);
  }

  lemma StepStands(g: Ground, b: set<Arc>, t: Tree, root: nat, l: set<Arc>, tail: nat, v: Env, i: nat, e: Arc, j: nat, k: nat)
    requires Setting(g, b, t, root, l, tail, v) && e in Redirected(b, l, root) && Stands(g, b, t, v, i, e.from, j) && Takes(v, e, j, k)
    ensures Stands(g, b, t, v, i, e.to, k)
  {
    hide Complete, Inner, Ended;
    if e in b && e.from in t.src {
      CloneStands(g, b, t, root, l, tail, v, i, e, j, k);
    } else if e in b {
      assert e in g.arcs;
      GoesOn(g.arcs, v, v.pre, i, e, j, k);
    } else {
      var a :| a in l && e == a.(to := root);
      assert g.head in g.keys;
      EnterRoot(g, b, t, root, l, tail, v, i, a, e, j, k);
    }
  }

  // ---------------------------------------------------------------- the same texts: nothing is lost

  /** The constraints on the way from the root to x hold. */
  ghost predicate Open(b: set<Arc>, t: Tree, v: Env, x: nat, k: nat)
    decreases x
  {
    x in t.up && t.up[x] < x ==> Open(b, t, v, t.up[x], k) && exists e :: Entry(b, t, v, x, k, e)
  }

  ghost predicate Entry(b: set<Arc>, t: Tree, v: Env, x: nat, k: nat, e: Arc)
    requires x in t.up
  {
    e in b && e.from == t.up[x] && e.to == x && IsConstraint(e) && Holds(v, LabelOf(e), k)
  }

  /** The state q of the automaton before has been merged into the clone x, whose constraints hold, and the step that was
      broken could be taken to it. */
  ghost predicate Merged(g: Ground, b: set<Arc>, t: Tree, root: nat, l: set<Arc>, v: Env, i: nat, q: nat, k: nat, x: nat) {
    && x in t.src && q in Cover(t, x) && Open(b, t, v, x, k) && Goes(Redirected(b, l, root), v, v.pre, i, g.head, k)
    && exists a :: a in l && Holds(v, LabelOf(a), k)
  }

  /** What reaching (q, k) before comes to after. */
  ghost predicate Kept(g: Ground, b: set<Arc>, t: Tree, root: nat, l: set<Arc>, v: Env, i: nat, q: nat, k: nat) {
    Goes(Redirected(b, l, root), v, v.pre, i, q, k) || exists x :: Merged(g, b, t, root, l, v, i, q, k, x)
  }

  /** Once the root is linked, the clones whose constraints hold are reached. */
  lemma {:induction false} OpenGoes(g: Ground, b: set<Arc>, t: Tree, root: nat, l: set<Arc>, tail: nat, v: Env, i: nat, q: nat, k: nat, x: nat)
    requires Setting(g, b, t, root, l, tail, v) && Merged(g, b, t, root, l, v, i, q, k, x) && OutSet(b, root) != {}
    ensures Goes(Redirected(b, l, root), v, v.pre, i, x, k)
    decreases x
  {
    var now := Redirected(b, l, root);
    InnerApart(g.arcs, g.head, v.pre, v.post);
    if x == root {
      var a :| a in l && Holds(v, LabelOf(a), k);
      var e := Rehung(a, true, root);
      assert e in AllRehung(l, true, root) && e in now;
      assert root != v.post;
      TakesHolds(v, e, k, k);
      GoesOn(now, v, v.pre, i, e, k, k);
    } else {
      var e :| Entry(b, t, v, x, k, e);
      var p := t.up[x];
      assert Complete(g, b, t, p);
      var s :| s in Cover(t, p);
      assert Merged(g, b, t, root, l, v, i, s, k, p);
      OpenGoes(g, b, t, root, l, tail, v, i, s, k, p);
      assert p != v.pre && x != v.post && e !in l;
      TakesHolds(v, e, k, k);
      GoesOn(now, v, v.pre, i, e, k, k);
    }
  }

  lemma {:induction false} RootUsed(g: Ground, b: set<Arc>, t: Tree, root: nat, v: Env, k: nat, x: nat)
    requires Grove(g, b, t, root) && x in t.src && x != root && Open(b, t, v, x, k)
    ensures OutSet(b, root) != {}
    decreases x
  {
    var e :| Entry(b, t, v, x, k, e);
    if t.up[x] == root { assert e in OutSet(b, root); } else { RootUsed(g, b, t, root, v, k, t.up[x]); }
  }

  lemma {:induction false} AboveOpen(g: Ground, b: set<Arc>, t: Tree, root: nat, v: Env, k: nat, x: nat, s: nat) returns (z: nat)
    requires Grove(g, b, t, root) && x in t.src && s in Above(t, x) && Open(b, t, v, x, k)
    ensures z in t.src && s in Cover(t, z) && Open(b, t, v, z, k)
    decreases x
  {
    if s in Cover(t, x) { z := x; } else { z := AboveOpen(g, b, t, root, v, k, t.up[x], s); }
  }

  /** From a merged state on, along an arc that clones are not made for. */
  lemma MergedLeaves(g: Ground, b: set<Arc>, t: Tree, root: nat, l: set<Arc>, tail: nat, v: Env, i: nat, a: Arc, j: nat, k: nat, x: nat)
    requires Setting(g, b, t, root, l, tail, v) && a in g.arcs && Takes(v, a, j, k) && Merged(g, b, t, root, l, v, i, a.from, j, x)
    requires !Follows(g.arcs, a)
    ensures Goes(Redirected(b, l, root), v, v.pre, i, a.to, k)
  {
    assert Complete(g, b, t, x) && Given(g, b, t, x, a);
    var e := a.(from := x);
    if x == root { assert e in OutSet(b, root); } else { RootUsed(g, b, t, root, v, j, x); }
    OpenGoes(g, b, t, root, l, tail, v, i, a.from, j, x);
    CoverApart(g, b, t, root, l, tail, v, x, a.from);
    TakesLike(v, a, e, j, k);
    assert x in t.src && g.head in g.keys;
    GoesOn(Redirected(b, l, root), v, v.pre, i, e, j, k);
  }

  lemma ChildOpen(g: Ground, b: set<Arc>, t: Tree, root: nat, v: Env, a: Arc, x: nat, y: nat, k: nat)
    requires Grove(g, b, t, root) && x in t.src && Open(b, t, v, x, k) && ChildFor(b, t, x, a, y) && IsConstraint(a) && Holds(v, LabelOf(a), k)
    ensures y in t.src && a.to in Cover(t, y) && Open(b, t, v, y, k)
  {
    assert Complete(g, b, t, y);
    assert Entry(b, t, v, y, k, Arc(a.typ, a.co, x, y));
  }

  lemma MergedFollows(g: Ground, b: set<Arc>, t: Tree, root: nat, l: set<Arc>, tail: nat, v: Env, i: nat, a: Arc, j: nat, k: nat, x: nat)
    requires Setting(g, b, t, root, l, tail, v) && a in g.arcs && Takes(v, a, j, k) && Merged(g, b, t, root, l, v, i, a.from, j, x)
    requires Follows(g.arcs, a)
    ensures Kept(g, b, t, root, l, v, i, a.to, k)
  {
    assert Complete(g, b, t, x) && Given(g, b, t, x, a);
    CoverApart(g, b, t, root, l, tail, v, x, a.from);
    assert Inner(g.arcs, a.to);
    InnerApart(g.arcs, a.to, v.pre, v.post);
    TakesHolds(v, a, j, k);
    hide Complete, Ended, Broken, Inner, Open, Goes, Above;
    if a.to != g.head {
      if a.to in Above(t, x) {
        var z := AboveOpen(g, b, t, root, v, k, x, a.to);
        assert Merged(g, b, t, root, l, v, i, a.to, k, z);
      } else {
        var y :| ChildFor(b, t, x, a, y);
        ChildOpen(g, b, t, root, v, a, x, y, k);
        assert Merged(g, b, t, root, l, v, i, a.to, k, y);
      }
    }
  }

  lemma StepKept(g: Ground, b: set<Arc>, t: Tree, root: nat, l: set<Arc>, tail: nat, v: Env, i: nat, a: Arc, j: nat, k: nat)
    requires Setting(g, b, t, root, l, tail, v) && a in g.arcs && Takes(v, a, j, k) && Kept(g, b, t, root, l, v, i, a.from, j)
    ensures Kept(g, b, t, root, l, v, i, a.to, k)
  {
    hide Complete, Ended, Follows;
    if Goes(Redirected(b, l, root), v, v.pre, i, a.from, j) {
      if a in l {
        InnerApart(g.arcs, g.head, v.pre, v.post);
        InnerApart(g.arcs, tail, v.pre, v.post);
        TakesHolds(v, a, j, k);
        RootCovers(g, b, t, root);
        assert Merged(g, b, t, root, l, v, i, tail, k, root);
      } else {
        GoesOn(Redirected(b, l, root), v, v.pre, i, a, j, k);
      }
    } else {
      var x :| Merged(g, b, t, root, l, v, i, a.from, j, x);
      if Follows(g.arcs, a) {
        MergedFollows(g, b, t, root, l, tail, v, i, a, j, k, x);
      } else {
        MergedLeaves(g, b, t, root, l, tail, v, i, a, j, k, x);
      }
    }
  }

  lemma RootCovers(g: Ground, b: set<Arc>, t: Tree, root: nat)
    requires Grove(g, b, t, root)
    ensures t.src[root] in Cover(t, root)
  {
    assert Complete(g, b, t, root);
  }

  lemma StartKept(g: Ground, b: set<Arc>, t: Tree, root: nat, l: set<Arc>, v: Env, i: nat, q: nat, k: nat)
    requires Run(g.arcs, v, v.pre, i, q, k, 0)
    ensures Kept(g, b, t, root, l, v, i, q, k)
  {
    GoesNowhere(Redirected(b, l, root), v, v.pre, i);
  }

  lemma {:induction false} RunKept(g: Ground, b: set<Arc>, t: Tree, root: nat, l: set<Arc>, tail: nat, v: Env, i: nat, q: nat, k: nat, n: nat)
    requires Setting(g, b, t, root, l, tail, v) && Run(g.arcs, v, v.pre, i, q, k, n)
    ensures Kept(g, b, t, root, l, v, i, q, k)
    decreases n
  {
    hide Setting, Redirected, Run, Takes, Goes, Merged;
    if n == 0 {
      StartKept(g, b, t, root, l, v, i, q, k);
    } else {
      var a, j := LastOf(g.arcs, v, v.pre, i, q, k, n);
      RunKept(g, b, t, root, l, tail, v, i, a.from, j, n - 1);
      StepKept(g, b, t, root, l, tail, v, i, a, j, k);
    }
  }

  /** Breaking the loop changes no text's matches. */
  lemma BrokenTexts(g: Ground, b: set<Arc>, t: Tree, root: nat, l: set<Arc>, tail: nat, pre: nat, post: nat)
    requires Grove(g, b, t, root) && Broken(g, l, tail) && t.src[root] == tail && Ended(g.arcs, pre, post) && pre in g.keys && post in g.keys
    ensures SameTexts(g.arcs, Redirected(b, l, root), pre, post)
  {
    hide Run, Grove, Broken, Ended, Redirected;
    forall v: Env, i: nat, k: nat | v.pre == pre && v.post == post ensures Accepts(g.arcs, v, i, k) <==> Accepts(Redirected(b, l, root), v, i, k) {
      if Accepts(g.arcs, v, i, k) {
        var n: nat :| Run(g.arcs, v, v.pre, i, v.post, k, n);
        RunKept(g, b, t, root, l, tail, v, i, v.post, k, n);
        PostNotMerged(g, b, t, root, l, tail, v, i, k);
      }
      if Accepts(Redirected(b, l, root), v, i, k) {
        var n: nat :| Run(Redirected(b, l, root), v, v.pre, i, v.post, k, n);
        RunStands(g, b, t, root, l, tail, v, i, v.post, k, n);
        PostNoClone(g, b, t, root);
      }
    }
  }

  lemma PostNotMerged(g: Ground, b: set<Arc>, t: Tree, root: nat, l: set<Arc>, tail: nat, v: Env, i: nat, k: nat)
    requires Setting(g, b, t, root, l, tail, v)
    ensures forall x :: !Merged(g, b, t, root, l, v, i, v.post, k, x)
  {
    forall x ensures !Merged(g, b, t, root, l, v, i, v.post, k, x) {
      if x in t.src && v.post in Cover(t, x) { CoverApart(g, b, t, root, l, tail, v, x, v.post); }
    }
  }

  lemma PostNoClone(g: Ground, b: set<Arc>, t: Tree, root: nat)
    requires Grove(g, b, t, root)
    ensures forall q :: q in g.keys ==> q !in t.src
  {
  }

  // ---------------------------------------------------------------- fewer loops

  /** A path of n constraint arcs. */
  ghost predicate Constrained(arcs: set<Arc>, p: nat, q: nat, n: nat)
    decreases n
  {
    if n == 0 then p == q else exists a :: ConstrainedBy(arcs, p, q, n, a)
  }

  ghost predicate ConstrainedBy(arcs: set<Arc>, p: nat, q: nat, n: nat, a: Arc)
    requires n > 0
    decreases n, 0
  {
    a in arcs && IsConstraint(a) && a.to == q && Constrained(arcs, p, a.from, n - 1)
  }

  /** a is on a loop of constraint arcs. */
  ghost predicate Looping(arcs: set<Arc>, a: Arc) {
    IsConstraint(a) && exists n: nat :: Constrained(arcs, a.to, a.from, n)
  }

  ghost function Loopy(arcs: set<Arc>): set<Arc> { set a | a in arcs && Looping(arcs, a) }

  lemma GroveParts(g: Ground, b: set<Arc>, t: Tree, root: nat, l: set<Arc>, tail: nat)
    requires Grove(g, b, t, root) && Broken(g, l, tail)
    ensures root in t.src && g.head !in t.src && HasConstraintOut(g.arcs, g.head)
    ensures forall e :: e in g.arcs ==> e.from !in t.src && e.to !in t.src
  {
  }

  lemma CloneArcEnds(g: Ground, b: set<Arc>, t: Tree, root: nat, l: set<Arc>, tail: nat, e: Arc)
    requires Grove(g, b, t, root) && Broken(g, l, tail) && e in Redirected(b, l, root) && e.from in t.src && IsConstraint(e)
    ensures if e.to in t.src then e.from < e.to else !HasConstraintOut(g.arcs, e.to)
  {
    GroveParts(g, b, t, root, l, tail);
    assert e in b;
    assert Complete(g, b, t, e.from) && Stems(g, t, e.from, e);
    var a :| StemsFrom(g, t, e.from, e, a);
    hide Complete, HasConstraintOut, Inner;
    if !Follows(g.arcs, a) { assert a.to !in t.src; }
  }

  lemma NoStep(arcs: set<Arc>, p: nat, q: nat)
    requires Constrained(arcs, p, q, 0)
    ensures p == q
  {
  }

  lemma NoPath(arcs: set<Arc>, p: nat)
    ensures Constrained(arcs, p, p, 0)
  {
  }

  lemma MoreConstraints(arcs: set<Arc>, p: nat, e: Arc, n: nat)
    requires n > 0 && e in arcs && IsConstraint(e) && Constrained(arcs, p, e.from, n - 1)
    ensures Constrained(arcs, p, e.to, n)
  {
    assert ConstrainedBy(arcs, p, e.to, n, e);
  }

  lemma OneConstraint(arcs: set<Arc>, e: Arc)
    requires e in arcs && IsConstraint(e)
    ensures Constrained(arcs, e.from, e.to, 1)
  {
    NoPath(arcs, e.from);
    MoreConstraints(arcs, e.from, e, 1);
  }

  lemma LastConstraint(arcs: set<Arc>, p: nat, q: nat, n: nat) returns (e: Arc)
    requires n > 0 && Constrained(arcs, p, q, n)
    ensures e in arcs && IsConstraint(e) && e.to == q && Constrained(arcs, p, e.from, n - 1)
  {
    e :| ConstrainedBy(arcs, p, q, n, e);
  }

  /** From a clone constraint arcs lead only to clones made later and to states they do not go on from. */
  lemma {:induction false} ClonesEnd(g: Ground, b: set<Arc>, t: Tree, root: nat, l: set<Arc>, tail: nat, x: nat, q: nat, n: nat)
    requires Grove(g, b, t, root) && Broken(g, l, tail) && x in t.src && Constrained(Redirected(b, l, root), x, q, n)
    ensures if q in t.src then x <= q && (n == 0 || x < q) else !HasConstraintOut(g.arcs, q)
    decreases n
  {
    hide Grove, Broken, Redirected, Constrained, HasConstraintOut;
    if n == 0 {
      NoStep(Redirected(b, l, root), x, q);
    } else {
      var e := LastConstraint(Redirected(b, l, root), x, q, n);
      ClonesEnd(g, b, t, root, l, tail, x, e.from, n - 1);
      if e.from in t.src {
        CloneArcEnds(g, b, t, root, l, tail, e);
      } else {
        LeftBefore(g, b, t, root, l, tail, e);
      }
    }
  }

  lemma LeftBefore(g: Ground, b: set<Arc>, t: Tree, root: nat, l: set<Arc>, tail: nat, e: Arc)
    requires Grove(g, b, t, root) && Broken(g, l, tail) && e in Redirected(b, l, root) && IsConstraint(e) && e.from !in t.src
    ensures HasConstraintOut(g.arcs, e.from)
    ensures e in g.arcs - l || (e.to == root && e.from == g.head)
  {
    hide Complete, Inner;
    if e in b {
      assert e in g.arcs;
    } else {
      var a :| a in l && e == a.(to := root);
      assert a in g.arcs;
    }
  }

  /** A path between old states that goes on consists of old arcs. */
  lemma {:induction false} OldPath(g: Ground, b: set<Arc>, t: Tree, root: nat, l: set<Arc>, tail: nat, p: nat, q: nat, n: nat)
    requires Grove(g, b, t, root) && Broken(g, l, tail) && p !in t.src && q !in t.src && HasConstraintOut(g.arcs, q)
    requires Constrained(Redirected(b, l, root), p, q, n)
    ensures Constrained(g.arcs, p, q, n)
    decreases n
  {
    hide Grove, Broken, Redirected, Constrained, HasConstraintOut;
    if n == 0 {
      NoStep(Redirected(b, l, root), p, q);
      NoPath(g.arcs, p);
    } else {
      var e := LastConstraint(Redirected(b, l, root), p, q, n);
      if e.from in t.src {
        OneConstraint(Redirected(b, l, root), e);
        ClonesEnd(g, b, t, root, l, tail, e.from, q, 1);
      } else {
        LeftBefore(g, b, t, root, l, tail, e);
        OldPath(g, b, t, root, l, tail, p, e.from, n - 1);
        GroveParts(g, b, t, root, l, tail);
        MoreConstraints(g.arcs, p, e, n);
      }
    }
  }

  /** No loop is new, and none leads over the arcs that were redirected. */
  lemma LoopsFewer(g: Ground, b: set<Arc>, t: Tree, root: nat, l: set<Arc>, tail: nat)
    requires Grove(g, b, t, root) && Broken(g, l, tail)
    ensures Loopy(Redirected(b, l, root)) <= Loopy(g.arcs) - l
  {
    var now := Redirected(b, l, root);
    forall e | e in Loopy(now) ensures e in Loopy(g.arcs) - l {
      var n: nat :| Constrained(now, e.to, e.from, n);
      OldLoop(g, b, t, root, l, tail, e, n);
    }
  }

  lemma {:induction false} NoWayOn(g: Ground, b: set<Arc>, t: Tree, root: nat, l: set<Arc>, tail: nat, p: nat, q: nat, n: nat)
    requires Grove(g, b, t, root) && Broken(g, l, tail) && p !in t.src && !HasConstraintOut(g.arcs, p)
    requires Constrained(Redirected(b, l, root), p, q, n)
    ensures q == p
    decreases n
  {
    hide Grove, Broken, Redirected, Constrained, HasConstraintOut;
    if n == 0 {
      NoStep(Redirected(b, l, root), p, q);
    } else {
      var e := LastConstraint(Redirected(b, l, root), p, q, n);
      NoWayOn(g, b, t, root, l, tail, p, e.from, n - 1);
      LeftBefore(g, b, t, root, l, tail, e);
    }
  }

  lemma OldLoop(g: Ground, b: set<Arc>, t: Tree, root: nat, l: set<Arc>, tail: nat, e: Arc, n: nat)
    requires Grove(g, b, t, root) && Broken(g, l, tail) && e in Redirected(b, l, root) && IsConstraint(e)
    requires Constrained(Redirected(b, l, root), e.to, e.from, n)
    ensures e in g.arcs - l && Looping(g.arcs, e)
  {
    var now := Redirected(b, l, root);
    GroveParts(g, b, t, root, l, tail);
    hide Grove, Redirected, Broken;
    if e.from in t.src {
      OneConstraint(now, e);
      ClonesEnd(g, b, t, root, l, tail, e.from, e.to, 1);
      if e.to in t.src {
        ClonesEnd(g, b, t, root, l, tail, e.to, e.from, n);
      } else {
        NoWayOn(g, b, t, root, l, tail, e.to, e.from, n);
      }
    } else {
      LeftBefore(g, b, t, root, l, tail, e);
      if e.to == root && e !in g.arcs - l {
        ClonesEnd(g, b, t, root, l, tail, root, e.from, n);
      } else {
        OldPath(g, b, t, root, l, tail, e.to, e.from, n);
      }
    }
  }

  /** What else breaking leaves as it was. */
  lemma BrokenShape(g: Ground, b: set<Arc>, t: Tree, root: nat, l: set<Arc>, tail: nat, pre: nat, post: nat)
    requires Grove(g, b, t, root) && Broken(g, l, tail) && Ended(g.arcs, pre, post) && pre in g.keys && post in g.keys
    ensures var now := Redirected(b, l, root);
      && Ended(now, pre, post) && (NoSelfLoops(g.arcs) ==> NoSelfLoops(now))
      && forall e :: e in now ==> exists a :: a in g.arcs && LabelOf(a) == LabelOf(e)
  {
    GroveParts(g, b, t, root, l, tail);
    forall e | e in Redirected(b, l, root)
      ensures exists a :: a in g.arcs && LabelOf(a) == LabelOf(e)
      ensures e.from == e.to ==> e in g.arcs
      ensures e in g.arcs || (e.from != pre && e.from != post && e.to != pre && (e.to == post ==> e.typ == PLAIN || e.typ == DOLLAR))
    {
      ArcShape(g, b, t, root, l, tail, pre, post, e);
    }
  }

  lemma ArcShape(g: Ground, b: set<Arc>, t: Tree, root: nat, l: set<Arc>, tail: nat, pre: nat, post: nat, e: Arc)
    requires Grove(g, b, t, root) && Broken(g, l, tail) && Ended(g.arcs, pre, post) && pre in g.keys && post in g.keys
    requires e in Redirected(b, l, root)
    ensures exists a :: a in g.arcs && LabelOf(a) == LabelOf(e)
    ensures e.from == e.to ==> e in g.arcs
    ensures e in g.arcs || (e.from != pre && e.from != post && e.to != pre && (e.to == post ==> e.typ == PLAIN || e.typ == DOLLAR))
  {
    GroveParts(g, b, t, root, l, tail);
    PostNoClone(g, b, t, root);
    if e in g.arcs {
      assert LabelOf(e) == LabelOf(e);
    } else if e in b {
      assert Complete(g, b, t, e.from) && Stems(g, t, e.from, e);
      var a :| StemsFrom(g, t, e.from, e, a);
      hide Complete, Inner, HasConstraintOut;
    } else {
      var a :| a in l && e == a.(to := root);
      InnerApart(g.arcs, g.head, pre, post);
      assert a in g.arcs && LabelOf(a) == LabelOf(e);
    }
  }
}
