/** fixempties(), regc_nfa.c:1865-2081: getting rid of EMPTY arcs without changing the language. */
module FixEmpties {
  import opened Nfa
  import opened Words
  import opened Runs
  import opened Readings
  import P = Pulling

  // ---------------------------------------------------------------- the two alias steps, on arc sets

  /** The arcs once s is dropped. */
  ghost function Dropped(arcs: set<Arc>, s: nat): set<Arc> {
    arcs - InSet(arcs, s) - OutSet(arcs, s)
  }

  /** s has a single out-arc, the EMPTY arc a. */
  ghost predicate SoleEmptyOut(arcs: set<Arc>, s: nat, a: Arc) {
    a.typ == EMPTY && OutSet(arcs, s) == {a}
  }

  ghost predicate SoleEmptyIn(arcs: set<Arc>, s: nat, a: Arc) {
    a.typ == EMPTY && InSet(arcs, s) == {a}
  }

  /** Folding such a state into its successor. */
  ghost function FoldedForward(arcs: set<Arc>, s: nat, a: Arc): set<Arc> {
    Dropped(if s != a.to then Moved(arcs, true, s, a.to) else arcs, s)
  }

  /** Folding a state with a single EMPTY in-arc into its predecessor. */
  ghost function FoldedBack(arcs: set<Arc>, s: nat, a: Arc): set<Arc> {
    Dropped(if s != a.from then Moved(arcs, false, s, a.from) else arcs, s)
  }

  lemma {:induction false} FoldForwardKeeps(arcs: set<Arc>, s: nat, a: Arc, p: nat, q: nat, w: seq<Label>, n: nat)
    requires SoleEmptyOut(arcs, s, a) && p != s && q != s && Reach(arcs, p, q, w, n)
    ensures Spells(FoldedForward(arcs, s, a), p, q, w)
    decreases n
  {
    var b := FoldedForward(arcs, s, a);
    if n == 0 {
      SpellsEmpty(b, p);
    } else {
      var e, u := Unroll(arcs, p, q, w, n);
      if e.from != s {
        FoldForwardKeeps(arcs, s, a, p, e.from, u, n - 1);
        assert e in b;
        SpellsArc(b, p, u, e);
      } else {
        assert e in OutSet(arcs, s) && e == a && u == w;
        var d, v := Unroll(arcs, p, s, u, n - 1);
        assert d in OutSet(arcs, s) ==> d == a;
        FoldForwardKeeps(arcs, s, a, p, d.from, v, n - 2);
        assert d in InSet(arcs, s) && Rehung(d, true, a.to) in b;
        SpellsArc(b, p, v, Rehung(d, true, a.to));
        assert WordOf(Rehung(d, true, a.to)) == WordOf(d);
      }
    }
  }

  lemma FoldForwardAdds(arcs: set<Arc>, s: nat, a: Arc, e: Arc)
    requires SoleEmptyOut(arcs, s, a) && e in FoldedForward(arcs, s, a)
    ensures Simulated(arcs, e)
  {
    if e in arcs {
      ArcSimulated(arcs, e);
    } else {
      var d :| d in InSet(arcs, s) && e == Rehung(d, true, a.to);
      ArcSimulated(arcs, d);
      assert a in OutSet(arcs, s);
      SpellsArc(arcs, e.from, WordOf(d), a);
      assert WordOf(d) + WordOf(a) == WordOf(e);
    }
  }

  /** A state whose sole out-arc is EMPTY is an alias for its successor. */
  lemma FoldForwardSameWords(arcs: set<Arc>, s: nat, a: Arc, p: nat, q: nat)
    requires SoleEmptyOut(arcs, s, a) && p != s && q != s
    ensures SameWords(arcs, FoldedForward(arcs, s, a), p, q)
  {
    var b := FoldedForward(arcs, s, a);
    forall w ensures Spells(arcs, p, q, w) <==> Spells(b, p, q, w) {
      if Spells(arcs, p, q, w) {
        var n: nat :| Reach(arcs, p, q, w, n);
        FoldForwardKeeps(arcs, s, a, p, q, w, n);
      }
      if Spells(b, p, q, w) {
        forall e | e in b ensures Simulated(arcs, e) { FoldForwardAdds(arcs, s, a, e); }
        var n: nat :| Reach(b, p, q, w, n);
        Simulation(b, arcs, p, q, w, n);
      }
    }
  }

  lemma {:induction false} FoldBackKeeps(arcs: set<Arc>, s: nat, a: Arc, p: nat, q: nat, w: seq<Label>, n: nat)
    requires SoleEmptyIn(arcs, s, a) && p != s && q != s && Reach(arcs, p, q, w, n)
    ensures Spells(FoldedBack(arcs, s, a), p, q, w)
    decreases n
  {
    var b := FoldedBack(arcs, s, a);
    if n == 0 {
      SpellsEmpty(b, p);
    } else {
      var e, u := Unroll(arcs, p, q, w, n);
      if e.from != s {
        FoldBackKeeps(arcs, s, a, p, e.from, u, n - 1);
        assert e in b;
        SpellsArc(b, p, u, e);
      } else {
        var d, v := Unroll(arcs, p, s, u, n - 1);
        assert d in InSet(arcs, s) && d == a && v == u;
        assert e in OutSet(arcs, s);
        if a.from == s { OnlyFromItself(arcs, s, a, p, u, n - 1); }
        FoldBackKeeps(arcs, s, a, p, a.from, v, n - 2);
        var r := Rehung(e, false, a.from);
        assert r in Moved(arcs, false, s, a.from) && r in b;
        SpellsArc(b, p, u, r);
        assert WordOf(r) == WordOf(e);
      }
    }
  }

  /** A state entered only from itself is never reached. */
  lemma {:induction false} OnlyFromItself(arcs: set<Arc>, s: nat, a: Arc, p: nat, w: seq<Label>, n: nat)
    requires InSet(arcs, s) == {a} && a.from == s && p != s
    ensures !Reach(arcs, p, s, w, n)
    decreases n
  {
    if n > 0 && Reach(arcs, p, s, w, n) {
      var d, v := Unroll(arcs, p, s, w, n);
      assert d in InSet(arcs, s);
      OnlyFromItself(arcs, s, a, p, v, n - 1);
    }
  }

  lemma FoldBackAdds(arcs: set<Arc>, s: nat, a: Arc, e: Arc)
    requires SoleEmptyIn(arcs, s, a) && e in FoldedBack(arcs, s, a)
    ensures Simulated(arcs, e)
  {
    if e in arcs {
      ArcSimulated(arcs, e);
    } else {
      var d :| d in OutSet(arcs, s) && e == Rehung(d, false, a.from);
      assert a in InSet(arcs, s);
      ArcSimulated(arcs, a);
      SpellsArc(arcs, a.from, WordOf(a), d);
      assert WordOf(a) + WordOf(d) == WordOf(e);
    }
  }

  /** A state with a single EMPTY in-arc can be folded into its predecessor. */
  lemma FoldBackSameWords(arcs: set<Arc>, s: nat, a: Arc, p: nat, q: nat)
    requires SoleEmptyIn(arcs, s, a) && p != s && q != s
    ensures SameWords(arcs, FoldedBack(arcs, s, a), p, q)
  {
    var b := FoldedBack(arcs, s, a);
    forall w ensures Spells(arcs, p, q, w) <==> Spells(b, p, q, w) {
      if Spells(arcs, p, q, w) {
        var n: nat :| Reach(arcs, p, q, w, n);
        FoldBackKeeps(arcs, s, a, p, q, w, n);
      }
      if Spells(b, p, q, w) {
        forall e | e in b ensures Simulated(arcs, e) { FoldBackAdds(arcs, s, a, e); }
        var n: nat :| Reach(b, p, q, w, n);
        Simulation(b, arcs, p, q, w, n);
      }
    }
  }

  // ---------------------------------------------------------------- pushing arcs over EMPTY chains

  ghost predicate HasNonEmptyOut(arcs: set<Arc>, s: nat) {
    exists a :: a in arcs && a.from == s && a.typ != EMPTY
  }

  /** States whose in-chains are updated: flagged ones, and those with a non-EMPTY out-arc. */
  ghost predicate IsTarget(arcs: set<Arc>, pre: nat, post: nat, s: nat) {
    s == pre || s == post || HasNonEmptyOut(arcs, s)
  }

  /** The non-EMPTY in-arcs of the other states from which s is reached by EMPTY arcs, given to s. */
  ghost predicate Pushed(arcs: set<Arc>, s: nat, e: Arc) {
    e.to == s && exists d :: d in arcs && d.typ != EMPTY && d.to != s && EmptyReaches(arcs, d.to, s) && e == d.(to := s)
  }

  /** What one target state gains (regc_nfa.c:2014-2035). */
  ghost function Gains(arcs: set<Arc>, s: nat): set<Arc> {
    set d | d in arcs && d.typ != EMPTY && d.to != s && EmptyReaches(arcs, d.to, s) :: d.(to := s)
  }

  ghost predicate FullyPushed(arcs: set<Arc>, pre: nat, post: nat, b: set<Arc>) {
    && (forall e :: e in b <==> e in arcs || (IsTarget(arcs, pre, post, e.to) && e in Gains(arcs, e.to)))
  }

  ghost function NonEmpty(arcs: set<Arc>): set<Arc> { set a | a in arcs && a.typ != EMPTY }

  lemma {:induction false} PushKeeps(arcs: set<Arc>, b: set<Arc>, pre: nat, post: nat, q: nat, w: seq<Label>, n: nat)
    requires FullyPushed(arcs, pre, post, b)
    requires forall a :: a in arcs && a.from == pre ==> a.typ != EMPTY
    requires IsTarget(arcs, pre, post, q) && Reach(arcs, pre, q, w, n)
    ensures Spells(NonEmpty(b), pre, q, w)
    decreases n
  {
    var d, m := LastLetter(arcs, pre, q, w, n);
    if w == [] {
      var k: nat :| EmptyPath(arcs, pre, q, k);
      assert k == 0;
      SpellsEmpty(NonEmpty(b), pre);
    } else {
      PushKeeps(arcs, b, pre, post, d.from, w[..|w| - 1], m);
      var e := d.(to := q);
      assert e in b by { if d.to != q { assert e in Gains(arcs, q); } else { assert e == d; } }
      SpellsArc(NonEmpty(b), pre, w[..|w| - 1], e);
      assert w[..|w| - 1] + WordOf(e) == w;
    }
  }

  lemma PushAdds(arcs: set<Arc>, b: set<Arc>, pre: nat, post: nat, e: Arc)
    requires FullyPushed(arcs, pre, post, b) && e in NonEmpty(b)
    ensures Simulated(arcs, e)
  {
    if e in arcs {
      ArcSimulated(arcs, e);
    } else {
      var d :| d in arcs && d.typ != EMPTY && d.to != e.to && EmptyReaches(arcs, d.to, e.to) && e == d.(to := e.to);
      ArcSimulated(arcs, d);
      var k: nat :| EmptyPath(arcs, d.to, e.to, k);
      EmptyPathSpells(arcs, d.to, e.to, k);
      var m: nat :| Reach(arcs, d.to, e.to, [], m);
      SpellsConcat(arcs, d.from, d.to, e.to, WordOf(d), [], m);
      assert WordOf(d) + [] == WordOf(e);
    }
  }

  /** After every target has gained its pushed arcs, the EMPTY arcs can go. */
  lemma PushSameWords(arcs: set<Arc>, b: set<Arc>, pre: nat, post: nat)
    requires FullyPushed(arcs, pre, post, b)
    requires forall a :: a in arcs && a.from == pre ==> a.typ != EMPTY
    ensures SameWords(arcs, NonEmpty(b), pre, post)
  {
    forall w ensures Spells(arcs, pre, post, w) <==> Spells(NonEmpty(b), pre, post, w) {
      if Spells(arcs, pre, post, w) {
        var n: nat :| Reach(arcs, pre, post, w, n);
        PushKeeps(arcs, b, pre, post, post, w, n);
      }
      if Spells(NonEmpty(b), pre, post, w) {
        forall e | e in NonEmpty(b) ensures Simulated(arcs, e) { PushAdds(arcs, b, pre, post, e); }
        var n: nat :| Reach(NonEmpty(b), pre, post, w, n);
        Simulation(NonEmpty(b), arcs, pre, post, w, n);
      }
    }
  }

  // ---------------------------------------------------------------- useless states

  lemma NeverEntered(arcs: set<Arc>, s: nat, p: nat, w: seq<Label>, n: nat)
    requires InSet(arcs, s) == {} && p != s
    ensures !Reach(arcs, p, s, w, n)
  {
    forall d | d in arcs ensures d.to != s { assert d in InSet(arcs, s) <==> d.to == s; }
  }

  lemma {:induction false} DropKeeps(arcs: set<Arc>, s: nat, p: nat, q: nat, w: seq<Label>, n: nat)
    requires InSet(arcs, s) == {} || OutSet(arcs, s) == {}
    requires p != s && q != s && Reach(arcs, p, q, w, n)
    ensures Spells(Dropped(arcs, s), p, q, w)
    decreases n
  {
    if n == 0 {
      SpellsEmpty(Dropped(arcs, s), p);
    } else {
      var e, u := Unroll(arcs, p, q, w, n);
      assert e.from == s ==> e in OutSet(arcs, s);
      if InSet(arcs, s) == {} { NeverEntered(arcs, s, p, u, n - 1); }
      DropKeeps(arcs, s, p, e.from, u, n - 1);
      assert e in Dropped(arcs, s);
      SpellsArc(Dropped(arcs, s), p, u, e);
    }
  }

  /** A state without in-arcs or without out-arcs is on no path. */
  lemma DropSameWords(arcs: set<Arc>, s: nat, p: nat, q: nat)
    requires InSet(arcs, s) == {} || OutSet(arcs, s) == {}
    requires p != s && q != s
    ensures SameWords(arcs, Dropped(arcs, s), p, q)
  {
    var b := Dropped(arcs, s);
    forall w ensures Spells(arcs, p, q, w) <==> Spells(b, p, q, w) {
      if Spells(arcs, p, q, w) {
        var n: nat :| Reach(arcs, p, q, w, n);
        DropKeeps(arcs, s, p, q, w, n);
      }
      if Spells(b, p, q, w) {
        forall e | e in b ensures Simulated(arcs, e) { ArcSimulated(arcs, e); }
        var n: nat :| Reach(b, p, q, w, n);
        Simulation(b, arcs, p, q, w, n);
      }
    }
  }

  // ---------------------------------------------------------------- the pass itself

  /** Nothing leaves pre on an EMPTY arc (newnfa, regc_nfa.c:77-80). */
  ghost predicate PreSolid(arcs: set<Arc>, pre: nat) {
    forall a :: a in arcs && a.from == pre ==> a.typ != EMPTY
  }

  /** The states still to visit exist, and none has been listed twice. */
  ghost predicate Pending(list: seq<nat>, i: nat, keys: set<nat>) {
    && (forall x, y :: 0 <= x < y < |list| ==> list[x] != list[y])
    && (forall x :: i <= x < |list| ==> list[x] in keys)
  }

  lemma SoleOut(nfa: Nfa, s: nat)
    requires nfa.Valid() && s in nfa.ins && |nfa.outs[s]| == 1
    ensures OutSet(nfa.arcs, s) == {nfa.outs[s][0]}
  {
    assert Lists(nfa.outs[s], SideSet(nfa.arcs, s, false));
  }

  lemma SoleIn(nfa: Nfa, s: nat)
    requires nfa.Valid() && s in nfa.ins && |nfa.ins[s]| == 1
    ensures InSet(nfa.arcs, s) == {nfa.ins[s][0]}
  {
    assert Lists(nfa.ins[s], SideSet(nfa.arcs, s, true));
  }

  lemma FoldForwardSolid(arcs: set<Arc>, s: nat, a: Arc, pre: nat)
    requires PreSolid(arcs, pre)
    ensures PreSolid(FoldedForward(arcs, s, a), pre)
  {
  }

  lemma FoldBackSolid(arcs: set<Arc>, s: nat, a: Arc, pre: nat)
    requires PreSolid(arcs, pre) && SoleEmptyIn(arcs, s, a)
    ensures PreSolid(FoldedBack(arcs, s, a), pre)
  {
    assert a in InSet(arcs, s);
  }

  lemma FoldForwardEnded(arcs: set<Arc>, s: nat, a: Arc, pre: nat, post: nat)
    requires Ended(arcs, pre, post) && SoleEmptyOut(arcs, s, a)
    ensures Ended(FoldedForward(arcs, s, a), pre, post)
  {
    assert a in OutSet(arcs, s);
  }

  lemma FoldBackEnded(arcs: set<Arc>, s: nat, a: Arc, pre: nat, post: nat)
    requires Ended(arcs, pre, post) && SoleEmptyIn(arcs, s, a)
    ensures Ended(FoldedBack(arcs, s, a), pre, post)
  {
    assert a in InSet(arcs, s);
  }

  lemma PushedEnded(arcs: set<Arc>, b: set<Arc>, pre: nat, post: nat)
    requires Ended(arcs, pre, post) && FullyPushed(arcs, pre, post, b)
    ensures Ended(b, pre, post)
  {
    forall e | e in b && e !in arcs ensures e.to != pre && e.to != post && e.from != post && (e.from == pre ==> e.typ == PLAIN || e.typ == CARET) {
      var d: Arc :| d in arcs && d.typ != EMPTY && d.to != e.to && EmptyReaches(arcs, d.to, e.to) && d.(to := e.to) == e;
      var n: nat :| EmptyPath(arcs, d.to, e.to, n);
      EmptyPathEnd(arcs, pre, post, d.to, e.to, n);
    }
  }

  lemma LabelledRefl(arcs: set<Arc>)
    ensures P.Labelled(arcs, arcs)
  {
  }

  lemma LabelledLess(a: set<Arc>, b: set<Arc>, c: set<Arc>)
    requires P.Labelled(a, b) && c <= b
    ensures P.Labelled(a, c)
  {
  }

  lemma FoldForwardLabelled(arcs: set<Arc>, s: nat, a: Arc)
    ensures P.Labelled(arcs, FoldedForward(arcs, s, a))
  {
    forall e | e in FoldedForward(arcs, s, a) ensures P.HasLabel(arcs, e.typ, e.co) {
      if e !in arcs { var d :| d in arcs && e == d.(to := a.to); }
    }
  }

  lemma FoldBackLabelled(arcs: set<Arc>, s: nat, a: Arc)
    ensures P.Labelled(arcs, FoldedBack(arcs, s, a))
  {
    forall e | e in FoldedBack(arcs, s, a) ensures P.HasLabel(arcs, e.typ, e.co) {
      if e !in arcs { var d :| d in arcs && e == d.(from := a.from); }
    }
  }

  lemma PushedLabelled(arcs: set<Arc>, b: set<Arc>, pre: nat, post: nat)
    requires FullyPushed(arcs, pre, post, b)
    ensures P.Labelled(arcs, b)
  {
    forall e | e in b ensures P.HasLabel(arcs, e.typ, e.co) {
      if e !in arcs { var d: Arc :| d in arcs && d.(to := e.to) == e; }
    }
  }

  /** A chain of EMPTY arcs ends inside. */
  lemma {:induction false} EmptyPathEnd(arcs: set<Arc>, pre: nat, post: nat, x: nat, s: nat, n: nat)
    requires Ended(arcs, pre, post) && EmptyPath(arcs, x, s, n) && n > 0
    ensures s != pre && s != post
    decreases n
  {
    var a :| a in arcs && a.typ == EMPTY && a.from == x && EmptyPath(arcs, a.to, s, n - 1);
    if n > 1 { EmptyPathEnd(arcs, pre, post, a.to, s, n - 1); }
  }

  /** What folding aliases leaves as it was. */
  ghost predicate Folded(was: set<Arc>, now: set<Arc>, pre: nat, post: nat) {
    && SameWords(was, now, pre, post) && P.Labelled(was, now)
    && (PreSolid(was, pre) ==> PreSolid(now, pre)) && (Ended(was, pre, post) ==> Ended(now, pre, post))
  }

  lemma FoldedRefl(arcs: set<Arc>, pre: nat, post: nat)
    ensures Folded(arcs, arcs, pre, post)
  {
    LabelledRefl(arcs);
  }

  lemma FoldedTrans(a: set<Arc>, b: set<Arc>, c: set<Arc>, pre: nat, post: nat)
    requires Folded(a, b, pre, post) && Folded(b, c, pre, post)
    ensures Folded(a, c, pre, post)
  {
    hide SameWords, P.Labelled, PreSolid, Ended;
    SameWordsTrans(a, b, c, pre, post);
    P.LabelledTrans(a, b, c);
  }

  lemma FoldForwardFolds(arcs: set<Arc>, s: nat, a: Arc, pre: nat, post: nat)
    requires SoleEmptyOut(arcs, s, a) && pre != s && post != s
    ensures Folded(arcs, FoldedForward(arcs, s, a), pre, post)
  {
    hide SameWords, P.Labelled, PreSolid, Ended, FoldedForward;
    FoldForwardSameWords(arcs, s, a, pre, post);
    if PreSolid(arcs, pre) { FoldForwardSolid(arcs, s, a, pre); }
    if Ended(arcs, pre, post) { FoldForwardEnded(arcs, s, a, pre, post); }
    FoldForwardLabelled(arcs, s, a);
  }

  lemma FoldBackFolds(arcs: set<Arc>, s: nat, a: Arc, pre: nat, post: nat)
    requires SoleEmptyIn(arcs, s, a) && pre != s && post != s
    ensures Folded(arcs, FoldedBack(arcs, s, a), pre, post)
  {
    hide SameWords, P.Labelled, PreSolid, Ended, FoldedBack;
    FoldBackSameWords(arcs, s, a, pre, post);
    if PreSolid(arcs, pre) { FoldBackSolid(arcs, s, a, pre); }
    if Ended(arcs, pre, post) { FoldBackEnded(arcs, s, a, pre, post); }
    FoldBackLabelled(arcs, s, a);
  }

  /** One turn of the first loop: s is an alias for the target of its only out-arc. */
  method FoldForward(nfa: Nfa, s: nat)
    requires nfa.Valid() && s in nfa.ins && !nfa.Flagged(s)
    requires |nfa.outs[s]| == 1 && nfa.outs[s][0].typ == EMPTY
    modifies nfa`states, nfa`ins, nfa`outs, nfa`arcs
    ensures nfa.Valid() && nfa.ins.Keys == old(nfa.ins.Keys) - {s}
    ensures Folded(old(nfa.arcs), nfa.arcs, nfa.pre, nfa.post)
  {
    var a := nfa.outs[s][0];
    SoleOut(nfa, s);
    ghost var was := nfa.arcs;
    assert a in OutSet(was, s);
    FoldForwardFolds(was, s, a, nfa.pre, nfa.post);
    Ends(was, a, nfa.ins.Keys);
    hide Folded, Agree, StatesAgree, Within, Moved, InSet, OutSet;
    if s != a.to { nfa.MoveIns(s, a.to); }
    nfa.DropState(s);
  }

  /** One turn of the second loop: s has a single, EMPTY, in-arc. */
  method FoldBack(nfa: Nfa, s: nat)
    requires nfa.Valid() && s in nfa.ins && !nfa.Flagged(s)
    requires |nfa.ins[s]| == 1 && nfa.ins[s][0].typ == EMPTY
    modifies nfa`states, nfa`ins, nfa`outs, nfa`arcs
    ensures nfa.Valid() && nfa.ins.Keys == old(nfa.ins.Keys) - {s}
    ensures Folded(old(nfa.arcs), nfa.arcs, nfa.pre, nfa.post)
  {
    var a := nfa.ins[s][0];
    SoleIn(nfa, s);
    ghost var was := nfa.arcs;
    assert a in InSet(was, s);
    FoldBackFolds(was, s, a, nfa.pre, nfa.post);
    Ends(was, a, nfa.ins.Keys);
    hide Folded, Agree, StatesAgree, Within, Moved, InSet, OutSet;
    if s != a.from { nfa.MoveOuts(s, a.from); }
    nfa.DropState(s);
  }

  /** The two alias loops (regc_nfa.c:1888-1924). */
  method FoldAliases(nfa: Nfa)
    requires nfa.Valid()
    modifies nfa`states, nfa`ins, nfa`outs, nfa`arcs
    ensures nfa.Valid()
    ensures Folded(old(nfa.arcs), nfa.arcs, nfa.pre, nfa.post)
  {
    hide Folded, Agree, StatesAgree, Within, Pending;
    ghost var was := nfa.arcs;
    FoldedRefl(was, nfa.pre, nfa.post);
    StatesPending(nfa);
    var list := nfa.states;
    var i := 0;
    while i < |list|
      invariant nfa.Valid() && 0 <= i <= |list| && Pending(list, i, nfa.ins.Keys)
      invariant Folded(was, nfa.arcs, nfa.pre, nfa.post)
    {
      var s := list[i];
      ghost var keys := nfa.ins.Keys;
      PendingNext(list, i, keys);
      if !nfa.Flagged(s) && |nfa.outs[s]| == 1 && nfa.outs[s][0].typ == EMPTY {
        ghost var before := nfa.arcs;
        FoldForward(nfa, s);
        FoldedTrans(was, before, nfa.arcs, nfa.pre, nfa.post);
        PendingWithout(list, i, keys);
      }
      i := i + 1;
    }
    StatesPending(nfa);
    list := nfa.states;
    i := 0;
    while i < |list|
      invariant nfa.Valid() && 0 <= i <= |list| && Pending(list, i, nfa.ins.Keys)
      invariant Folded(was, nfa.arcs, nfa.pre, nfa.post)
    {
      var s := list[i];
      ghost var keys := nfa.ins.Keys;
      PendingNext(list, i, keys);
      if !nfa.Flagged(s) && |nfa.ins[s]| == 1 && nfa.ins[s][0].typ == EMPTY {
        ghost var before := nfa.arcs;
        FoldBack(nfa, s);
        FoldedTrans(was, before, nfa.arcs, nfa.pre, nfa.post);
        PendingWithout(list, i, keys);
      }
      i := i + 1;
    }
  }

  // ---------------------------------------------------------------- emptyreachable()

  /** The original in-arcs of s: the tail of its in-chain that inarcsorig[s] points to. */
  function Originals(ins: map<nat, seq<Arc>>, inarcsorig: map<nat, nat>, s: nat): seq<Arc>
    requires s in ins && s in inarcsorig && inarcsorig[s] <= |ins[s]|
  {
    ins[s][|ins[s]| - inarcsorig[s]..]
  }

  /** inarcsorig still points at the in-arcs each state had when the pass began. inarcsorig[s] is
      how many arcs there are from the pointer to the end of the chain. */
  ghost predicate OriginalsKept(ins: map<nat, seq<Arc>>, inarcsorig: map<nat, nat>, arcs: set<Arc>) {
    && inarcsorig.Keys == ins.Keys
    && forall s :: s in ins ==> inarcsorig[s] <= |ins[s]| && Lists(Originals(ins, inarcsorig, s), InSet(arcs, s))
  }

  /** found, newest first, is linked by the tmp pointers and ends at s, which points to link. */
  ghost predicate TmpChain(tmp: map<nat, nat>, found: seq<nat>, s: nat, link: nat) {
    && |found| > 0 && found[|found| - 1] == s
    && (forall k :: 0 <= k < |found| ==> found[k] in tmp)
    && (forall k :: 0 <= k < |found| - 1 ==> tmp[found[k]] == found[k + 1])
    && (forall j, k :: 0 <= j < k < |found| ==> found[j] != found[k])
    && tmp[s] == link
  }

  /** The marks were extended by exactly the states of found. */
  ghost predicate Extends(tmp0: map<nat, nat>, tmp: map<nat, nat>, found: seq<nat>) {
    && (forall x :: x in tmp0 ==> x in tmp && tmp[x] == tmp0[x] && x !in found)
    && (forall x :: x in tmp ==> x in tmp0 || x in found)
  }

  ghost predicate PredsMarked(arcs: set<Arc>, tmp: map<nat, nat>, x: nat) {
    forall a :: a in arcs && a.typ == EMPTY && a.to == x ==> a.from in tmp
  }

  ghost predicate AllReach(arcs: set<Arc>, found: seq<nat>, s: nat) {
    forall x :: x in found ==> EmptyReaches(arcs, x, s)
  }

  /** The EMPTY predecessors of the first k states found are marked. */
  ghost predicate AllMarked(arcs: set<Arc>, tmp: map<nat, nat>, found: seq<nat>, k: nat) {
    forall j :: 0 <= j < k && j < |found| ==> PredsMarked(arcs, tmp, found[j])
  }

  /** The sources of the EMPTY arcs among the first i of the chain are marked. */
  ghost predicate ChainMarked(chain: seq<Arc>, i: nat, tmp: map<nat, nat>) {
    forall k :: 0 <= k < i && k < |chain| && chain[k].typ == EMPTY ==> chain[k].from in tmp
  }

  lemma ChainMarkedStart(chain: seq<Arc>, tmp: map<nat, nat>)
    ensures ChainMarked(chain, 0, tmp)
  {
  }

  lemma ChainMarkedNext(chain: seq<Arc>, i: nat, tmp: map<nat, nat>, tmp2: map<nat, nat>)
    requires ChainMarked(chain, i, tmp) && i < |chain| && forall x :: x in tmp ==> x in tmp2
    requires chain[i].typ == EMPTY ==> chain[i].from in tmp2
    ensures ChainMarked(chain, i + 1, tmp2)
  {
  }

  lemma OriginalsBound(ins: map<nat, seq<Arc>>, inarcsorig: map<nat, nat>, arcs: set<Arc>, s: nat)
    requires OriginalsKept(ins, inarcsorig, arcs) && s in ins
    ensures s in inarcsorig && inarcsorig[s] <= |ins[s]|
  {
  }

  lemma FoundStart(arcs: set<Arc>, tmp0: map<nat, nat>, s: nat, link: nat)
    requires s !in tmp0
    ensures TmpChain(tmp0[s := link], [s], s, link) && Extends(tmp0, tmp0[s := link], [s])
    ensures AllReach(arcs, [s], s) && AllMarked(arcs, tmp0[s := link], [s], 0)
  {
    assert EmptyPath(arcs, s, s, 0);
  }

  lemma OriginalArc(ins: map<nat, seq<Arc>>, inarcsorig: map<nat, nat>, arcs: set<Arc>, s: nat, i: nat)
    requires OriginalsKept(ins, inarcsorig, arcs) && s in ins && i < |Originals(ins, inarcsorig, s)|
    ensures s in inarcsorig && inarcsorig[s] <= |ins[s]|
    ensures Originals(ins, inarcsorig, s)[i] in arcs && Originals(ins, inarcsorig, s)[i].to == s
  {
    assert Originals(ins, inarcsorig, s)[i] in InSet(arcs, s);
  }

  /** Joining what a recursive call found to what was found before. */
  lemma FoundMore(arcs: set<Arc>, tmp0: map<nat, nat>, tmp1: map<nat, nat>, tmp2: map<nat, nat>,
                  found: seq<nat>, more: seq<nat>, s: nat, a: Arc, link: nat)
    requires TmpChain(tmp1, found, s, link) && Extends(tmp0, tmp1, found)
    requires TmpChain(tmp2, more, a.from, found[0]) && Extends(tmp1, tmp2, more)
    requires AllReach(arcs, found, s) && AllMarked(arcs, tmp1, found, |found| - 1)
    requires AllReach(arcs, more, a.from) && AllMarked(arcs, tmp2, more, |more|)
    requires a in arcs && a.typ == EMPTY && a.to == s
    ensures TmpChain(tmp2, more + found, s, link) && Extends(tmp0, tmp2, more + found)
    ensures AllReach(arcs, more + found, s) && AllMarked(arcs, tmp2, more + found, |more + found| - 1)
    ensures a.from in tmp2 && (forall x :: x in tmp1 ==> x in tmp2)
  {
    hide EmptyReaches;
    var all := more + found;
    forall k | 0 <= k < |found| ensures found[k] in tmp1 && tmp2[found[k]] == tmp1[found[k]] {}
    forall j, k | 0 <= j < k < |all| ensures all[j] != all[k] {
      if j < |more| <= k { assert all[j] in more && all[k] in tmp1; }
    }
    forall x | x in more ensures EmptyReaches(arcs, x, s) { ReachVia(arcs, x, a); }
    forall j | 0 <= j < |all| - 1 ensures PredsMarked(arcs, tmp2, all[j]) {
      if j >= |more| { assert PredsMarked(arcs, tmp1, found[j - |more|]); }
    }
    assert more[|more| - 1] in tmp2;
  }

  lemma ReachVia(arcs: set<Arc>, x: nat, a: Arc)
    requires EmptyReaches(arcs, x, a.from) && a in arcs && a.typ == EMPTY
    ensures EmptyReaches(arcs, x, a.to)
  {
    var n: nat :| EmptyPath(arcs, x, a.from, n);
    EmptyPathTail(arcs, x, a, n);
  }

  lemma FoundDone(ins: map<nat, seq<Arc>>, inarcsorig: map<nat, nat>, arcs: set<Arc>, tmp: map<nat, nat>, found: seq<nat>, s: nat, link: nat)
    requires OriginalsKept(ins, inarcsorig, arcs) && s in ins && TmpChain(tmp, found, s, link)
    requires AllMarked(arcs, tmp, found, |found| - 1)
    requires ChainMarked(Originals(ins, inarcsorig, s), |Originals(ins, inarcsorig, s)|, tmp)
    ensures AllMarked(arcs, tmp, found, |found|)
  {
    var chain := Originals(ins, inarcsorig, s);
    forall a | a in arcs && a.typ == EMPTY && a.to == s ensures a.from in tmp {
      assert a in InSet(arcs, s) && a in chain;
    }
    assert PredsMarked(arcs, tmp, found[|found| - 1]);
  }

  /** emptyreachable(), regc_nfa.c:2098-2115: depth-first search backwards over EMPTY arcs, marking
      and linking the states found through tmp. */
  method EmptyReachable(nfa: Nfa, s: nat, lastfound: nat, inarcsorig: map<nat, nat>, ghost arcs: set<Arc>)
    returns (last: nat, ghost found: seq<nat>)
    requires Within(arcs, nfa.ins.Keys) && OriginalsKept(nfa.ins, inarcsorig, arcs)
    requires s in nfa.ins && s !in nfa.tmp && nfa.tmp.Keys <= nfa.ins.Keys
    modifies nfa`tmp
    ensures nfa.tmp.Keys <= nfa.ins.Keys
    ensures TmpChain(nfa.tmp, found, s, lastfound) && last == found[0]
    ensures Extends(old(nfa.tmp), nfa.tmp, found)
    ensures AllReach(arcs, found, s) && AllMarked(arcs, nfa.tmp, found, |found|)
    decreases nfa.ins.Keys - nfa.tmp.Keys
  {
    ghost var tmp0 := nfa.tmp;
    nfa.tmp := nfa.tmp[s := lastfound];
    last := s;
    found := [s];
    hide TmpChain, Extends, AllReach, AllMarked, EmptyReaches, Lists, Within, OriginalsKept, ChainMarked;
    FoundStart(arcs, tmp0, s, lastfound);
    OriginalsBound(nfa.ins, inarcsorig, arcs, s);
    var chain := Originals(nfa.ins, inarcsorig, s);
    ChainMarkedStart(chain, nfa.tmp);
    var i := 0;
    while i < |chain|
      invariant 0 <= i <= |chain| && nfa.tmp.Keys <= nfa.ins.Keys
      invariant |found| > 0 && TmpChain(nfa.tmp, found, s, lastfound) && last == found[0]
      invariant Extends(tmp0, nfa.tmp, found)
      invariant AllReach(arcs, found, s) && AllMarked(arcs, nfa.tmp, found, |found| - 1)
      invariant s in nfa.tmp && ChainMarked(chain, i, nfa.tmp)
    {
      var a := chain[i];
      ghost var tmp1 := nfa.tmp;
      if a.typ == EMPTY && a.from !in nfa.tmp {
        ghost var more;
        OriginalArc(nfa.ins, inarcsorig, arcs, s, i);
        Ends(arcs, a, nfa.ins.Keys);
        last, more := EmptyReachable(nfa, a.from, last, inarcsorig, arcs);
        FoundMore(arcs, tmp0, tmp1, nfa.tmp, found, more, s, a, lastfound);
        found := more + found;
      }
      ChainMarkedNext(chain, i, tmp1, nfa.tmp);
      i := i + 1;
    }
    FoundDone(nfa.ins, inarcsorig, arcs, nfa.tmp, found, s, lastfound);
  }

  /** hasnonemptyout(), regc_nfa.c:535-547. */
  method FindNonEmptyOut(nfa: Nfa, s: nat) returns (r: bool)
    requires nfa.Valid() && s in nfa.ins
    ensures r <==> HasNonEmptyOut(nfa.arcs, s)
  {
    var chain := nfa.outs[s];
    assert Lists(chain, OutSet(nfa.arcs, s));
    var i := 0;
    while i < |chain|
      invariant 0 <= i <= |chain|
      invariant forall k :: 0 <= k < i ==> chain[k].typ == EMPTY
    {
      if chain[i].typ != EMPTY {
        assert chain[i] in OutSet(nfa.arcs, s);
        return true;
      }
      i := i + 1;
    }
    forall a | a in nfa.arcs && a.from == s ensures a.typ == EMPTY {
      assert a in OutSet(nfa.arcs, s) && a in chain;
    }
    r := false;
  }

  ghost function Take(list: seq<nat>, k: nat): seq<nat> {
    if k <= |list| then list[..k] else list
  }

  /** The non-EMPTY original in-arcs of the states of found from index k on. */
  ghost function Gathered(arcs: set<Arc>, found: seq<nat>, k: nat): set<Arc> {
    set a | a in arcs && a.typ != EMPTY && a.to in Take(found, k)
  }

  ghost function Letters(ch: seq<Arc>): set<Arc> { set a | a in ch && a.typ != EMPTY }

  /** Collecting the non-EMPTY originals of s2 (regc_nfa.c:2018-2022). */
  method Collect(nfa: Nfa, s2: nat, inarcsorig: map<nat, nat>, arcarray: seq<Arc>, ghost arcs: set<Arc>) returns (r: seq<Arc>)
    requires OriginalsKept(nfa.ins, inarcsorig, arcs) && s2 in nfa.ins
    ensures Set(r) == Set(arcarray) + set a | a in arcs && a.typ != EMPTY && a.to == s2
  {
    var chain := Originals(nfa.ins, inarcsorig, s2);
    assert Lists(chain, InSet(arcs, s2));
    r := arcarray;
    var i := 0;
    while i < |chain|
      invariant 0 <= i <= |chain|
      invariant Set(r) == Set(arcarray) + Letters(chain[..i])
    {
      assert chain[..i + 1] == chain[..i] + [chain[i]];
      assert Letters(chain[..i + 1]) == Letters(chain[..i]) + Letters([chain[i]]);
      if chain[i].typ != EMPTY {
        assert Letters([chain[i]]) == {chain[i]} && Set(r + [chain[i]]) == Set(r) + {chain[i]};
        r := r + [chain[i]];
      } else {
        assert Letters([chain[i]]) == {};
      }
      i := i + 1;
    }
    assert chain[..|chain|] == chain;
    forall a ensures a in chain && a.typ != EMPTY <==> a in arcs && a.typ != EMPTY && a.to == s2 {
      assert a in InSet(arcs, s2) <==> a in chain;
    }
  }

  /** Gather the arcs to be pushed into s, unmarking the states found on the way (regc_nfa.c:2014-2029). */
  method Gather(nfa: Nfa, s: nat, inarcsorig: map<nat, nat>, ghost arcs: set<Arc>) returns (arcarray: seq<Arc>)
    requires Within(arcs, nfa.ins.Keys) && OriginalsKept(nfa.ins, inarcsorig, arcs)
    requires s in nfa.ins && nfa.tmp == map[]
    modifies nfa`tmp
    ensures nfa.tmp == map[]
    ensures Set(arcarray) == set d | d in arcs && d.typ != EMPTY && d.to != s && EmptyReaches(arcs, d.to, s)
  {
    var last;
    ghost var found;
    last, found := EmptyReachable(nfa, s, s, inarcsorig, arcs);
    arcarray := WalkBack(nfa, s, last, inarcsorig, arcs, found);
  }

  /** Follow the tmp links from the last state found back to s. */
  method WalkBack(nfa: Nfa, s: nat, last: nat, inarcsorig: map<nat, nat>, ghost arcs: set<Arc>, ghost found: seq<nat>)
    returns (arcarray: seq<Arc>)
    requires OriginalsKept(nfa.ins, inarcsorig, arcs) && nfa.tmp.Keys <= nfa.ins.Keys
    requires TmpChain(nfa.tmp, found, s, s) && last == found[0] && Extends(map[], nfa.tmp, found)
    requires AllReach(arcs, found, s) && AllMarked(arcs, nfa.tmp, found, |found|)
    modifies nfa`tmp
    ensures nfa.tmp == map[]
    ensures Set(arcarray) == set d | d in arcs && d.typ != EMPTY && d.to != s && EmptyReaches(arcs, d.to, s)
  {
    ghost var marks := nfa.tmp;
    var s2 := last;
    arcarray := [];
    ghost var k := 0;
    WalkStart(arcs, marks, found);
    hide TmpChain, Extends, AllReach, AllMarked, EmptyReaches, Gathered, Passed, OriginalsKept, Set;
    while s2 != s
      invariant 0 <= k < |found| && s2 == found[k]
      invariant nfa.tmp == marks - Passed(found, k)
      invariant Set(arcarray) == Gathered(arcs, found, k)
      decreases |found| - k
    {
      WalkStep(arcs, marks, found, s, k, nfa.ins.Keys);
      arcarray := Collect(nfa, s2, inarcsorig, arcarray, arcs);
      var nexts := nfa.tmp[s2];
      nfa.tmp := nfa.tmp - {s2};
      s2 := nexts;
      k := k + 1;
      assert nfa.tmp == marks - Passed(found, k);
    }
    nfa.tmp := nfa.tmp - {s};
    FoundAll(arcs, marks, found, s, k);
    assert nfa.tmp == marks - Passed(found, k) - {s};
  }

  lemma WalkStart(arcs: set<Arc>, marks: map<nat, nat>, found: seq<nat>)
    ensures marks - Passed(found, 0) == marks
    ensures Gathered(arcs, found, 0) == Set([])
  {
  }

  /** One step of the walk along the tmp pointers. */
  lemma WalkStep(arcs: set<Arc>, marks: map<nat, nat>, found: seq<nat>, s: nat, k: nat, keys: set<nat>)
    requires TmpChain(marks, found, s, s) && k < |found| && found[k] != s && marks.Keys <= keys
    ensures k + 1 < |found| && found[k] in marks && found[k] in keys && marks[found[k]] == found[k + 1] && found[k] !in Passed(found, k)
    ensures Passed(found, k + 1) == Passed(found, k) + {found[k]}
    ensures Gathered(arcs, found, k + 1) == Gathered(arcs, found, k) + set a | a in arcs && a.typ != EMPTY && a.to == found[k]
  {
    assert found[..k + 1] == found[..k] + [found[k]];
  }

  ghost function Passed(found: seq<nat>, k: nat): set<nat> {
    set x | x in Take(found, k)
  }

  /** What the walk from the last state found back to s has covered. */
  lemma FoundAll(arcs: set<Arc>, marks: map<nat, nat>, found: seq<nat>, s: nat, k: nat)
    requires TmpChain(marks, found, s, s) && Extends(map[], marks, found)
    requires AllReach(arcs, found, s) && AllMarked(arcs, marks, found, |found|)
    requires k < |found| && found[k] == s
    ensures marks - Passed(found, k) - {s} == map[]
    ensures Gathered(arcs, found, k) == set d | d in arcs && d.typ != EMPTY && d.to != s && EmptyReaches(arcs, d.to, s)
  {
    assert k == |found| - 1;
    forall x ensures x in found <==> x in found[..k] || x == s {
      assert found == found[..k] + [s];
    }
    forall x ensures x in found <==> EmptyReaches(arcs, x, s) {
      if EmptyReaches(arcs, x, s) {
        var n: nat :| EmptyPath(arcs, x, s, n);
        var all := set y | y in found;
        forall a | a in arcs && a.typ == EMPTY && a.to in all ensures a.from in all {
          var j :| 0 <= j < |found| && found[j] == a.to;
          assert PredsMarked(arcs, marks, found[j]);
        }
        ClosedHoldsReachers(arcs, all, x, s, n);
      }
    }
  }

  /** The arcs after the first i states of the list have been treated. */
  ghost predicate PushedUpto(arcs: set<Arc>, pre: nat, post: nat, list: seq<nat>, i: nat, b: set<Arc>) {
    forall e :: e in b <==>
      e in arcs || (e.to in Take(list, i) && IsTarget(arcs, pre, post, e.to) && e in Gains(arcs, e.to))
  }

  lemma PushedStart(arcs: set<Arc>, pre: nat, post: nat, list: seq<nat>)
    ensures PushedUpto(arcs, pre, post, list, 0, arcs)
  {
  }

  /** Pushing adds out-arcs only to states that have a non-EMPTY one already. */
  lemma TargetsUnchanged(arcs: set<Arc>, pre: nat, post: nat, list: seq<nat>, i: nat, b: set<Arc>, s: nat)
    requires PushedUpto(arcs, pre, post, list, i, b)
    ensures HasNonEmptyOut(b, s) <==> HasNonEmptyOut(arcs, s)
  {
    if HasNonEmptyOut(b, s) {
      var e :| e in b && e.from == s && e.typ != EMPTY;
      if e !in arcs {
        var d :| d in arcs && d.typ != EMPTY && d.to != e.to && EmptyReaches(arcs, d.to, e.to) && e == d.(to := e.to);
        assert d.from == s;
      }
    }
    if HasNonEmptyOut(arcs, s) {
      var e :| e in arcs && e.from == s && e.typ != EMPTY;
      assert e in b;
    }
  }

  lemma PushedNext(arcs: set<Arc>, pre: nat, post: nat, list: seq<nat>, i: nat, b: set<Arc>, b2: set<Arc>)
    requires PushedUpto(arcs, pre, post, list, i, b) && i < |list|
    requires b2 == if IsTarget(arcs, pre, post, list[i]) then b + Gains(arcs, list[i]) else b
    ensures PushedUpto(arcs, pre, post, list, i + 1, b2)
  {
    assert list[..i + 1] == list[..i] + [list[i]];
    forall e | e in Gains(arcs, list[i]) ensures e.to == list[i] {}
  }

  /** A state not treated yet still has its original in-arcs only. */
  lemma UntouchedIns(arcs: set<Arc>, pre: nat, post: nat, list: seq<nat>, i: nat, b: set<Arc>, keys: set<nat>)
    requires PushedUpto(arcs, pre, post, list, i, b) && Pending(list, i, keys) && i < |list|
    ensures InSet(b, list[i]) == InSet(arcs, list[i])
  {
  }

  lemma PushedDone(arcs: set<Arc>, pre: nat, post: nat, list: seq<nat>, b: set<Arc>, keys: set<nat>)
    requires PushedUpto(arcs, pre, post, list, |list|, b) && Within(b, keys)
    requires forall s :: s in keys ==> s in list
    requires Within(arcs, keys)
    ensures FullyPushed(arcs, pre, post, b)
  {
    assert list[..|list|] == list;
    forall e: Arc | e in Gains(arcs, e.to) && IsTarget(arcs, pre, post, e.to) ensures e in b {
      var d :| d in arcs && d.typ != EMPTY && d.to != e.to && EmptyReaches(arcs, d.to, e.to) && e == d.(to := e.to);
      var n: nat :| EmptyPath(arcs, d.to, e.to, n);
      EmptyPathWithin(arcs, keys, d.to, e.to, n);
    }
  }

  lemma {:induction false} EmptyPathWithin(arcs: set<Arc>, keys: set<nat>, x: nat, s: nat, n: nat)
    requires Within(arcs, keys) && x in keys && EmptyPath(arcs, x, s, n)
    ensures s in keys
    decreases n
  {
    if n > 0 {
      var a :| a in arcs && a.typ == EMPTY && a.from == x && EmptyPath(arcs, a.to, s, n - 1);
      EmptyPathWithin(arcs, keys, a.to, s, n - 1);
    }
  }

  lemma GainsRehung(arcs: set<Arc>, s: nat, gathered: set<Arc>)
    requires gathered == set d | d in arcs && d.typ != EMPTY && d.to != s && EmptyReaches(arcs, d.to, s)
    ensures AllRehung(gathered, true, s) == Gains(arcs, s)
  {
    forall e | e in AllRehung(gathered, true, s) ensures e in Gains(arcs, s) {
      var d :| d in gathered && e == Rehung(d, true, s);
    }
    forall e | e in Gains(arcs, s) ensures e in AllRehung(gathered, true, s) {
      var d :| d in arcs && d.typ != EMPTY && d.to != s && EmptyReaches(arcs, d.to, s) && e == d.(to := s);
      assert d in gathered && e == Rehung(d, true, s);
    }
  }

  /** One target state (regc_nfa.c:2008-2044). */
  method PushInto(nfa: Nfa, s: nat, inarcsorig: map<nat, nat>, ghost arcs: set<Arc>) returns (orig: map<nat, nat>)
    requires nfa.Valid() && s in nfa.ins && nfa.tmp == map[]
    requires arcs <= nfa.arcs && OriginalsKept(nfa.ins, inarcsorig, arcs) && InSet(nfa.arcs, s) == InSet(arcs, s)
    modifies nfa`ins, nfa`outs, nfa`arcs, nfa`tmp
    ensures nfa.Valid() && nfa.ins.Keys == old(nfa.ins).Keys && nfa.tmp == map[]
    ensures nfa.arcs == old(nfa.arcs) + Gains(arcs, s)
    ensures OriginalsKept(nfa.ins, orig, arcs)
  {
    assert Within(arcs, nfa.ins.Keys);
    hide Agree, StatesAgree, Within, Gains, Lists, InSet, OriginalsKept, EmptyReaches, AllRehung, Set;
    var arcarray := Gather(nfa, s, inarcsorig, arcs);
    var prevnins := |nfa.ins[s]|;
    ghost var before := nfa.ins;
    GainsRehung(arcs, s, Set(arcarray));
    nfa.MergeIns(s, arcarray);
    OriginalsAfterMerge(before, nfa.ins, inarcsorig, arcs, s);
    orig := inarcsorig[s := prevnins];
  }

  lemma OriginalsAfterMerge(ins: map<nat, seq<Arc>>, ins2: map<nat, seq<Arc>>, inarcsorig: map<nat, nat>, arcs: set<Arc>, s: nat)
    requires OriginalsKept(ins, inarcsorig, arcs) && ins2.Keys == ins.Keys && s in ins
    requires forall t :: t in ins && t != s ==> ins2[t] == ins[t]
    requires |ins2[s]| >= |ins[s]| && Lists(ins2[s][|ins2[s]| - |ins[s]|..], InSet(arcs, s))
    ensures OriginalsKept(ins2, inarcsorig[s := |ins[s]|], arcs)
  {
    hide Lists;
  }

  lemma AllOriginal(ins: map<nat, seq<Arc>>, inarcsorig: map<nat, nat>, arcs: set<Arc>)
    requires Agree(ins, arcs, true) && inarcsorig.Keys == ins.Keys && forall s :: s in ins ==> inarcsorig[s] == |ins[s]|
    ensures OriginalsKept(ins, inarcsorig, arcs)
  {
    forall s | s in ins ensures Lists(Originals(ins, inarcsorig, s), InSet(arcs, s)) {
      assert Originals(ins, inarcsorig, s) == ins[s] && Lists(ins[s], SideSet(arcs, s, true));
      hide Lists;
    }
  }

  /** Remember the states' first original in-arcs (regc_nfa.c:1988-1992). */
  method RememberOriginals(nfa: Nfa) returns (inarcsorig: map<nat, nat>)
    requires nfa.Valid()
    ensures OriginalsKept(nfa.ins, inarcsorig, nfa.arcs)
  {
    hide Agree, StatesAgree, Within, OriginalsKept;
    inarcsorig := map s | s in nfa.ins :: |nfa.ins[s]|;
    AllOriginal(nfa.ins, inarcsorig, nfa.arcs);
  }

  lemma StatesPending(nfa: Nfa)
    requires nfa.Valid()
    ensures Pending(nfa.states, 0, nfa.ins.Keys) && Within(nfa.arcs, nfa.ins.Keys)
    ensures forall s :: s in nfa.ins.Keys <==> s in nfa.states
  {
  }

  /** The pushing loop (regc_nfa.c:2008-2044). */
  method PushAll(nfa: Nfa)
    requires nfa.Valid() && nfa.tmp == map[]
    modifies nfa`ins, nfa`outs, nfa`arcs, nfa`tmp
    ensures nfa.Valid() && nfa.ins.Keys == old(nfa.ins).Keys && nfa.tmp == map[]
    ensures FullyPushed(old(nfa.arcs), nfa.pre, nfa.post, nfa.arcs)
  {
    hide Agree, StatesAgree, Within, OriginalsKept, PushedUpto, Pending, HasNonEmptyOut, Gains, InSet, FullyPushed;
    ghost var arcs := nfa.arcs;
    ghost var keys := nfa.ins.Keys;
    var inarcsorig := RememberOriginals(nfa);
    var list := nfa.states;
    PushedStart(arcs, nfa.pre, nfa.post, list);
    StatesPending(nfa);
    var i := 0;
    while i < |list|
      invariant nfa.Valid() && nfa.ins.Keys == keys && nfa.tmp == map[]
      invariant 0 <= i <= |list| && Pending(list, i, keys)
      invariant OriginalsKept(nfa.ins, inarcsorig, arcs)
      invariant arcs <= nfa.arcs && PushedUpto(arcs, nfa.pre, nfa.post, list, i, nfa.arcs)
    {
      inarcsorig := PushTurn(nfa, list, i, inarcsorig, arcs);
      PendingNext(list, i, keys);
      i := i + 1;
    }
    PushedDone(arcs, nfa.pre, nfa.post, list, nfa.arcs, keys);
  }

  /** One turn of that loop. */
  method PushTurn(nfa: Nfa, list: seq<nat>, i: nat, inarcsorig: map<nat, nat>, ghost arcs: set<Arc>) returns (orig: map<nat, nat>)
    requires nfa.Valid() && nfa.tmp == map[] && i < |list| && Pending(list, i, nfa.ins.Keys)
    requires arcs <= nfa.arcs && OriginalsKept(nfa.ins, inarcsorig, arcs)
    requires PushedUpto(arcs, nfa.pre, nfa.post, list, i, nfa.arcs)
    modifies nfa`ins, nfa`outs, nfa`arcs, nfa`tmp
    ensures nfa.Valid() && nfa.ins.Keys == old(nfa.ins).Keys && nfa.tmp == map[]
    ensures old(nfa.arcs) <= nfa.arcs && OriginalsKept(nfa.ins, orig, arcs)
    ensures PushedUpto(arcs, nfa.pre, nfa.post, list, i + 1, nfa.arcs)
  {
    hide Agree, StatesAgree, Within, OriginalsKept, PushedUpto, Pending, HasNonEmptyOut, Gains, InSet;
    orig := inarcsorig;
    var s := list[i];
    ghost var before := nfa.arcs;
    PendingNext(list, i, nfa.ins.Keys);
    TargetsUnchanged(arcs, nfa.pre, nfa.post, list, i, before, s);
    UntouchedIns(arcs, nfa.pre, nfa.post, list, i, before, nfa.ins.Keys);
    var target := nfa.Flagged(s);
    if !target { target := FindNonEmptyOut(nfa, s); }
    if target {
      orig := PushInto(nfa, s, inarcsorig, arcs);
    }
    PushedNext(arcs, nfa.pre, nfa.post, list, i, before, nfa.arcs);
  }

  lemma PendingNext(list: seq<nat>, i: nat, keys: set<nat>)
    requires Pending(list, i, keys) && i < |list|
    ensures list[i] in keys && Pending(list, i + 1, keys)
  {
  }

  // ---------------------------------------------------------------- the closing loops

  /** The inner loop of regc_nfa.c:2056-2063: free the EMPTY out-arcs of s. */
  method FreeEmptyOuts(nfa: Nfa, s: nat)
    requires nfa.Valid() && s in nfa.ins
    modifies nfa`ins, nfa`outs, nfa`arcs
    ensures nfa.Valid() && nfa.ins.Keys == old(nfa.ins).Keys
    ensures nfa.arcs == old(nfa.arcs) - (set a | a in old(nfa.arcs) && a.from == s && a.typ == EMPTY)
  {
    ghost var was := nfa.arcs;
    var chain := nfa.outs[s];
    assert Lists(chain, OutSet(was, s));
    assert forall k :: 0 <= k < |chain| ==> chain[k] in OutSet(was, s);
    hide Agree, StatesAgree, Within;
    var i := 0;
    while i < |chain|
      invariant nfa.Valid() && nfa.ins.Keys == old(nfa.ins).Keys && 0 <= i <= |chain|
      invariant nfa.arcs == was - Empties(chain, i)
    {
      EmptiesNext(chain, i);
      if chain[i].typ == EMPTY { nfa.Unlink(chain[i]); }
      i := i + 1;
    }
    forall a ensures a in Empties(chain, |chain|) <==> a in was && a.from == s && a.typ == EMPTY {
      assert chain[..|chain|] == chain;
      assert a in OutSet(was, s) <==> a in chain;
    }
  }

  ghost function Empties(chain: seq<Arc>, i: nat): set<Arc>
    requires i <= |chain|
  {
    set a | a in chain[..i] && a.typ == EMPTY
  }

  lemma EmptiesNext(chain: seq<Arc>, i: nat)
    requires i < |chain| && NoDup(chain)
    ensures chain[i] !in Empties(chain, i)
    ensures Empties(chain, i + 1) == Empties(chain, i) + (if chain[i].typ == EMPTY then {chain[i]} else {})
  {
    assert chain[..i + 1] == chain[..i] + [chain[i]];
  }

  /** Remove all the EMPTY arcs (regc_nfa.c:2053-2063). */
  method FreeEmpties(nfa: Nfa)
    requires nfa.Valid()
    modifies nfa`ins, nfa`outs, nfa`arcs
    ensures nfa.Valid() && nfa.ins.Keys == old(nfa.ins).Keys
    ensures nfa.arcs == NonEmpty(old(nfa.arcs))
  {
    hide Agree, StatesAgree, Pending, Freed, NonEmpty;
    ghost var was := nfa.arcs;
    ghost var keys := nfa.ins.Keys;
    StatesPending(nfa);
    var list := nfa.states;
    FreedStart(was, list);
    FreedDone(was, list, keys);
    var i := 0;
    while i < |list|
      invariant nfa.Valid() && nfa.ins.Keys == keys && 0 <= i <= |list| && Pending(list, i, keys)
      invariant nfa.arcs == was - Freed(was, list, i)
    {
      PendingNext(list, i, keys);
      FreeEmptyOuts(nfa, list[i]);
      FreedNext(was, list, i);
      i := i + 1;
    }
  }

  /** The EMPTY out-arcs of the first i states of the list. */
  ghost function Freed(arcs: set<Arc>, list: seq<nat>, i: nat): set<Arc> {
    set a | a in arcs && a.typ == EMPTY && a.from in Take(list, i)
  }

  lemma FreedStart(arcs: set<Arc>, list: seq<nat>)
    ensures Freed(arcs, list, 0) == {}
  {
  }

  lemma FreedNext(arcs: set<Arc>, list: seq<nat>, i: nat)
    requires i < |list|
    ensures arcs - Freed(arcs, list, i + 1)
         == arcs - Freed(arcs, list, i) - (set a | a in arcs - Freed(arcs, list, i) && a.from == list[i] && a.typ == EMPTY)
  {
    assert list[..i + 1] == list[..i] + [list[i]];
  }

  lemma FreedDone(arcs: set<Arc>, list: seq<nat>, keys: set<nat>)
    requires Within(arcs, keys) && forall s :: s in keys <==> s in list
    ensures arcs - Freed(arcs, list, |list|) == NonEmpty(arcs)
  {
    assert list[..|list|] == list;
  }

  /** Remove the states that have become useless (regc_nfa.c:2071-2076). */
  method DropUseless(nfa: Nfa)
    requires nfa.Valid()
    modifies nfa`states, nfa`ins, nfa`outs, nfa`arcs
    ensures nfa.Valid() && nfa.arcs <= old(nfa.arcs)
    ensures SameWords(old(nfa.arcs), nfa.arcs, nfa.pre, nfa.post)
  {
    ghost var was := nfa.arcs;
    assert SameWords(was, was, nfa.pre, nfa.post);
    StatesPending(nfa);
    var list := nfa.states;
    hide Agree, StatesAgree, Pending, SameWords;
    var i := 0;
    while i < |list|
      invariant nfa.Valid() && 0 <= i <= |list| && Pending(list, i, nfa.ins.Keys)
      invariant nfa.arcs <= was && SameWords(was, nfa.arcs, nfa.pre, nfa.post)
    {
      var s := list[i];
      ghost var keys := nfa.ins.Keys;
      PendingNext(list, i, keys);
      if (|nfa.ins[s]| == 0 || |nfa.outs[s]| == 0) && !nfa.Flagged(s) {
        DropOne(nfa, s, was);
        PendingWithout(list, i, keys);
      }
      i := i + 1;
    }
  }

  lemma PendingWithout(list: seq<nat>, i: nat, keys: set<nat>)
    requires Pending(list, i, keys) && i < |list|
    ensures Pending(list, i + 1, keys - {list[i]})
  {
  }

  method DropOne(nfa: Nfa, s: nat, ghost was: set<Arc>)
    requires nfa.Valid() && s in nfa.ins && !nfa.Flagged(s) && (nfa.ins[s] == [] || nfa.outs[s] == [])
    requires SameWords(was, nfa.arcs, nfa.pre, nfa.post)
    modifies nfa`states, nfa`ins, nfa`outs, nfa`arcs
    ensures nfa.Valid() && nfa.arcs <= old(nfa.arcs) && nfa.ins.Keys == old(nfa.ins.Keys) - {s}
    ensures SameWords(was, nfa.arcs, nfa.pre, nfa.post)
  {
    ghost var before := nfa.arcs;
    assert InSet(before, s) == {} || OutSet(before, s) == {} by {
      if nfa.ins[s] == [] { ChainEmpty(nfa.ins, before, true, s); } else { ChainEmpty(nfa.outs, before, false, s); }
    }
    DropSameWords(before, s, nfa.pre, nfa.post);
    SameWordsTrans(was, before, Dropped(before, s), nfa.pre, nfa.post);
    hide Agree, StatesAgree, SameWords;
    nfa.DropState(s);
  }

  /** What the steps come to together. */
  lemma Rid(was: set<Arc>, folded: set<Arc>, pushed: set<Arc>, clean: set<Arc>, now: set<Arc>, pre: nat, post: nat)
    requires PreSolid(was, pre) && Folded(was, folded, pre, post) && FullyPushed(folded, pre, post, pushed)
    requires clean == NonEmpty(pushed) && now <= clean && SameWords(clean, now, pre, post)
    ensures forall w :: Spells(was, pre, post, w) <==> Spells(now, pre, post, w)
    ensures (forall a :: a in now ==> a.typ != EMPTY) && P.Labelled(was, now)
    ensures Ended(was, pre, post) ==> Ended(now, pre, post)
    ensures Ended(was, pre, post) ==> forall v: Env, i: nat, k: nat :: v.pre == pre && v.post == post ==> (Accepts(was, v, i, k) <==> Accepts(now, v, i, k))
  {
    hide Spells, FullyPushed, Accepts, P.Labelled;
    PushSameWords(folded, pushed, pre, post);
    SameWordsTrans(was, folded, clean, pre, post);
    SameWordsTrans(was, clean, now, pre, post);
    PushedLabelled(folded, pushed, pre, post);
    P.LabelledTrans(was, folded, pushed);
    LabelledLess(was, pushed, now);
    if Ended(was, pre, post) {
      PushedEnded(folded, pushed, pre, post);
      WordsTexts(was, now, pre, post);
    }
  }

  /** fixempties(), regc_nfa.c:1865-2081. Between pre and post exactly the same words of non-EMPTY
      labels are spelled before and after, and no EMPTY arc is left. */
  method FixEmpties(nfa: Nfa)
    requires nfa.Valid() && nfa.tmp == map[]
    requires PreSolid(nfa.arcs, nfa.pre)
    modifies nfa
    ensures nfa.Valid() && nfa.tmp == map[]
    ensures forall w :: Spells(old(nfa.arcs), nfa.pre, nfa.post, w) <==> Spells(nfa.arcs, nfa.pre, nfa.post, w)
    ensures (forall a :: a in nfa.arcs ==> a.typ != EMPTY) && P.Labelled(old(nfa.arcs), nfa.arcs)
    ensures old(Ended(nfa.arcs, nfa.pre, nfa.post)) ==> Ended(nfa.arcs, nfa.pre, nfa.post)
    ensures old(Ended(nfa.arcs, nfa.pre, nfa.post)) ==> forall v: Env, i: nat, k: nat :: v.pre == nfa.pre && v.post == nfa.post ==>
      (Accepts(old(nfa.arcs), v, i, k) <==> Accepts(nfa.arcs, v, i, k))
  {
    hide Spells, FullyPushed, Accepts, P.Labelled, Ended, Folded, SameWords, PreSolid, NonEmpty, Agree, StatesAgree, Within;
    ghost var was := nfa.arcs;
    FoldAliases(nfa);
    ghost var folded := nfa.arcs;
    PushAll(nfa);
    ghost var pushed := nfa.arcs;
    FreeEmpties(nfa);
    ghost var clean := nfa.arcs;
    DropUseless(nfa);
    Rid(was, folded, pushed, clean, nfa.arcs, nfa.pre, nfa.post);
  }
}
