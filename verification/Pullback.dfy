/** pull() itself and the loop over the constraints of one state (regc_nfa.c:1446-1620). */
module Pullback {
  import opened Options
  import opened Nfa
  import opened Runs
  import opened Pulling
  import T = Potential

  // ---------------------------------------------------------------- the intermediate states of one state

  /** m stands between p and t: entered from p only, left by copies of p's passing arcs into f only. */
  ghost predicate MidShared(arcs: set<Arc>, f: nat, m: nat, p: nat, t: nat, pre: nat, post: nat) {
    && m != pre && m != post && m != f && m != p && m != t && t != f && Passed(arcs, f, p)
    && (exists e :: e in arcs && e.to == m) && (forall e :: e in arcs && e.to == m ==> e.from == p)
    && (forall e :: e in arcs && e.from == m ==> CopyOfPassed(arcs, f, p, m, t, e))
    && (forall a :: a in arcs && a.to == f && a.from == p && Passes(a.typ, true) ==> a.(from := m, to := t) in arcs)
  }

  ghost predicate CopyOfPassed(arcs: set<Arc>, f: nat, p: nat, m: nat, t: nat, e: Arc) {
    exists a :: a in arcs && a.to == f && a.from == p && Passes(a.typ, true) && e == a.(from := m, to := t)
  }

  /** mids gives the source and target of every intermediate state made for f. */
  ghost predicate SharedOk(arcs: set<Arc>, f: nat, mids: map<nat, (nat, nat)>, pre: nat, post: nat) {
    && (forall m :: m in mids ==> MidShared(arcs, f, m, mids[m].0, mids[m].1, pre, post))
    && (forall m, m2 :: m in mids && m2 in mids && m != m2 ==> mids[m] != mids[m2])
  }

  /** What the search for an intermediate state relies on (the assertion of regc_nfa.c:1589). */
  ghost predicate Searchable(arcs: set<Arc>, mids: map<nat, (nat, nat)>) {
    && (forall m :: m in mids ==> Between(arcs, m, mids[m].0, mids[m].1))
    && (forall m, m2 :: m in mids && m2 in mids && m != m2 ==> mids[m] != mids[m2])
  }

  ghost predicate Between(arcs: set<Arc>, m: nat, p: nat, t: nat) {
    && (exists e :: e in arcs && e.to == m) && (forall e :: e in arcs && e.to == m ==> e.from == p)
    && (exists e :: e in arcs && e.from == m) && (forall e :: e in arcs && e.from == m ==> e.to == t)
  }

  /** The choice of intermediate states for constraint con: those already made for the same target, and
      new ones (not among keys). */
  ghost predicate Chosen(mids: map<nat, (nat, nat)>, mid: map<nat, nat>, t: nat, keys: set<nat>, mids2: map<nat, (nat, nat)>) {
    && (forall p :: p in mid ==> (mid[p] in mids <==> exists m :: m in mids && mids[m] == (p, t)))
    && (forall p :: p in mid ==> mid[p] in mids2 && mids2[mid[p]] == (p, t) && (mid[p] in mids || mid[p] !in keys))
    && (forall m :: m in mids ==> m in keys && m in mids2 && mids2[m] == mids[m])
    && (forall m :: m in mids2 ==> m in mids || (mids2[m].1 == t && mids2[m].0 in mid && mid[mids2[m].0] == m))
  }

  lemma ChosenInjective(mids: map<nat, (nat, nat)>, mid: map<nat, nat>, t: nat, keys: set<nat>, mids2: map<nat, (nat, nat)>)
    requires Chosen(mids, mid, t, keys, mids2)
    requires forall m, m2 :: m in mids && m2 in mids && m != m2 ==> mids[m] != mids[m2]
    ensures forall p, q :: p in mid && q in mid && p != q ==> mid[p] != mid[q]
    ensures forall m, m2 :: m in mids2 && m2 in mids2 && m != m2 ==> mids2[m] != mids2[m2]
  {
    forall m, m2 | m in mids2 && m2 in mids2 && mids2[m] == mids2[m2] ensures m == m2 {
      if m in mids && m2 !in mids { NewIsNew(mids, mid, t, keys, mids2, m, m2); }
      if m2 in mids && m !in mids { NewIsNew(mids, mid, t, keys, mids2, m2, m); }
    }
  }

  lemma NewIsNew(mids: map<nat, (nat, nat)>, mid: map<nat, nat>, t: nat, keys: set<nat>, mids2: map<nat, (nat, nat)>, m: nat, m2: nat)
    requires Chosen(mids, mid, t, keys, mids2) && m in mids && m2 in mids2 && m2 !in mids
    ensures mids2[m] != mids2[m2]
  {
    var p := mids2[m2].0;
    assert mid[p] == m2 && forall x :: x in mids ==> mids[x] != (p, t);
  }

  /** The states chosen are ready for the constraint. */
  lemma ChosenReady(arcs: set<Arc>, con: Arc, mids: map<nat, (nat, nat)>, mid: map<nat, nat>, keys: set<nat>,
                    mids2: map<nat, (nat, nat)>, pre: nat, post: nat)
    requires SharedOk(arcs, con.from, mids, pre, post) && Chosen(mids, mid, con.to, keys, mids2)
    requires Within(arcs, keys) && pre in keys && post in keys && con.from in keys && con.to in keys
    requires forall p :: p in mid <==> Passed(arcs, con.from, p)
    requires con.from != con.to
    ensures MidsReady(arcs, con, mid, pre, post)
  {
    ChosenInjective(mids, mid, con.to, keys, mids2);
    forall p | p in mid ensures MidReady(arcs, con, p, mid[p], pre, post) {
      var m := mid[p];
      assert Passed(arcs, con.from, p);
      if m in mids {
        assert MidShared(arcs, con.from, m, p, con.to, pre, post);
        forall e | e in arcs && e.from == m ensures PassedBy(arcs, con, p, m, e) {
          assert CopyOfPassed(arcs, con.from, p, m, con.to, e);
        }
      }
    }
  }

  /** After a pull the intermediate states are shared as before, the new ones included. */
  lemma PullKeepsShared(arcs: set<Arc>, con: Arc, mids: map<nat, (nat, nat)>, mid: map<nat, nat>, keys: set<nat>,
                        mids2: map<nat, (nat, nat)>, b: set<Arc>, pre: nat, post: nat, rank: nat -> int)
    requires SharedOk(arcs, con.from, mids, pre, post) && Chosen(mids, mid, con.to, keys, mids2)
    requires MidsReady(arcs, con, mid, pre, post) && Pulled(arcs, con, mid, false, b)
    requires con in arcs && Back(con.typ) && Ranked(arcs, rank)
    ensures SharedOk(b, con.from, mids2, pre, post)
  {
    ChosenInjective(mids, mid, con.to, keys, mids2);
    InsKept(arcs, con, mid, b, pre, post);
    forall m | m in mids2 ensures MidShared(b, con.from, m, mids2[m].0, mids2[m].1, pre, post) {
      if m in mids {
        OldMidKept(arcs, con, mids, mid, keys, mids2, b, pre, post, rank, m);
      } else {
        NewMidKept(arcs, con, mid, b, pre, post, mids2[m].0);
      }
    }
  }

  /** The in-arc behind a swapped arc. */
  lemma SwapOf(arcs: set<Arc>, con: Arc, mid: map<nat, nat>, pre: nat, post: nat, e: Arc) returns (a: Arc)
    requires MidsReady(arcs, con, mid, pre, post) && Swapped(arcs, con, mid, e) && con.from != con.to
    ensures a in arcs && a.to == con.from && a.from in mid && Passes(a.typ, Back(con.typ))
    ensures e == con.(from := a.from, to := mid[a.from]) || e == a.(from := mid[a.from], to := con.to)
    ensures e.to != con.from
  {
    a :| a in arcs && a.to == con.from && SwappedBy(con, mid, e, a);
    assert MidReady(arcs, con, a.from, mid[a.from], pre, post);
  }

  /** m is entered from p only. */
  lemma EntersMid(arcs: set<Arc>, con: Arc, mid: map<nat, nat>, b: set<Arc>, pre: nat, post: nat, m: nat, p: nat)
    requires MidsReady(arcs, con, mid, pre, post) && Pulled(arcs, con, mid, false, b) && con.from != con.to && m != con.to
    requires (forall e :: e in arcs && e.to == m ==> e.from == p) && forall q :: q in mid && mid[q] == m ==> q == p
    ensures forall e :: e in b && e.to == m ==> e.from == p
  {
    hide MidsReady;
    forall e | e in b && e.to == m ensures e.from == p {
      if Swapped(arcs, con, mid, e) { var a := SwapOf(arcs, con, mid, pre, post, e); }
    }
  }

  /** m is left by copies of passing arcs only. */
  lemma LeavesMid(arcs: set<Arc>, con: Arc, mid: map<nat, nat>, b: set<Arc>, pre: nat, post: nat, m: nat, p: nat, t: nat)
    requires MidsReady(arcs, con, mid, pre, post) && Pulled(arcs, con, mid, false, b) && con.from != con.to && Back(con.typ)
    requires forall e :: e in arcs && e.from == m ==> CopyOfPassed(arcs, con.from, p, m, t, e) && e.to != con.from
    requires forall q :: q in mid && mid[q] == m ==> q == p && t == con.to
    ensures forall e :: e in b && e.from == m ==> CopyOfPassed(b, con.from, p, m, t, e)
  {
    InsKept(arcs, con, mid, b, pre, post);
    hide MidsReady;
    forall e | e in b && e.from == m ensures CopyOfPassed(arcs, con.from, p, m, t, e) {
      if Swapped(arcs, con, mid, e) { var a := SwapOf(arcs, con, mid, pre, post, e); }
    }
    forall e | CopyOfPassed(arcs, con.from, p, m, t, e) ensures CopyOfPassed(b, con.from, p, m, t, e) {
      var a :| a in arcs && a.to == con.from && a.from == p && Passes(a.typ, true) && e == a.(from := m, to := t);
      assert a in b;
    }
  }

  lemma OldMidKept(arcs: set<Arc>, con: Arc, mids: map<nat, (nat, nat)>, mid: map<nat, nat>, keys: set<nat>,
                   mids2: map<nat, (nat, nat)>, b: set<Arc>, pre: nat, post: nat, rank: nat -> int, m: nat)
    requires m in mids && MidShared(arcs, con.from, m, mids[m].0, mids[m].1, pre, post) && Chosen(mids, mid, con.to, keys, mids2)
    requires MidsReady(arcs, con, mid, pre, post) && Pulled(arcs, con, mid, false, b)
    requires con in arcs && Back(con.typ) && Ranked(arcs, rank)
    ensures MidShared(b, con.from, m, mids2[m].0, mids2[m].1, pre, post)
  {
    hide Chosen, Swapped, Implied, Pulled, Ranked, MidsReady;
    var f, p, t := con.from, mids[m].0, mids[m].1;
    OldMidChosen(mids, mid, con.to, keys, mids2, m);
    SourceBelow(arcs, f, p, rank);
    assert con.from != con.to by { ConRises(arcs, con, rank); }
    InsKept(arcs, con, mid, b, pre, post);
    EntersMid(arcs, con, mid, b, pre, post, m, p);
    forall e | e in arcs && e.from == m ensures e.to != f { assert CopyOfPassed(arcs, f, p, m, t, e); }
    LeavesMid(arcs, con, mid, b, pre, post, m, p, t);
    OldMidThere(arcs, con, mid, b, m, p, t, pre, post);
  }

  lemma ConRises(arcs: set<Arc>, con: Arc, rank: nat -> int)
    requires con in arcs && Back(con.typ) && Ranked(arcs, rank)
    ensures con.from != con.to
  {
  }

  lemma OldMidChosen(mids: map<nat, (nat, nat)>, mid: map<nat, nat>, t: nat, keys: set<nat>, mids2: map<nat, (nat, nat)>, m: nat)
    requires Chosen(mids, mid, t, keys, mids2) && m in mids
    ensures m in mids2 && mids2[m] == mids[m] && forall q :: q in mid && mid[q] == m ==> mids[m] == (q, t)
  {
  }

  /** What joins an intermediate state made before is still there. */
  lemma OldMidThere(arcs: set<Arc>, con: Arc, mid: map<nat, nat>, b: set<Arc>, m: nat, p: nat, t: nat, pre: nat, post: nat)
    requires MidShared(arcs, con.from, m, p, t, pre, post) && Pulled(arcs, con, mid, false, b) && p != con.from
    requires forall a: Arc :: a.to == con.from ==> (a in b <==> a in arcs)
    ensures Passed(b, con.from, p) && (exists e :: e in b && e.to == m)
    ensures forall a :: a in b && a.to == con.from && a.from == p && Passes(a.typ, true) ==> a.(from := m, to := t) in b
  {
    hide Swapped, Implied;
    var e0 :| e0 in arcs && e0.to == m;
    assert e0 in b;
    var a0 :| a0 in arcs && a0.to == con.from && a0.from == p && Passes(a0.typ, true);
    assert a0 in b;
  }

  /** The source of a passing in-arc of f is not f. */
  lemma SourceBelow(arcs: set<Arc>, f: nat, p: nat, rank: nat -> int)
    requires Ranked(arcs, rank) && Passed(arcs, f, p)
    ensures p != f
  {
  }

  lemma NewMidKept(arcs: set<Arc>, con: Arc, mid: map<nat, nat>, b: set<Arc>, pre: nat, post: nat, p: nat)
    requires p in mid && MidsReady(arcs, con, mid, pre, post) && Pulled(arcs, con, mid, false, b)
    requires con in arcs && Back(con.typ) && con.from != con.to
    ensures MidShared(b, con.from, mid[p], p, con.to, pre, post)
  {
    var f, m := con.from, mid[p];
    assert MidReady(arcs, con, p, m, pre, post) && Passed(arcs, f, p);
    forall e | e in arcs && e.from == m ensures CopyOfPassed(arcs, f, p, m, con.to, e) && e.to != f {
      assert PassedBy(arcs, con, p, m, e);
    }
    InsKept(arcs, con, mid, b, pre, post);
    EntersMid(arcs, con, mid, b, pre, post, m, p);
    LeavesMid(arcs, con, mid, b, pre, post, m, p, con.to);
    hide MidsReady, Swapped, Implied;
    forall a | a in arcs && a.to == f && a.from == p && Passes(a.typ, true)
      ensures a in b && con.(from := p, to := m) in b && a.(from := m, to := con.to) in b
    {
      SwapsPresent(arcs, con, mid, b, a);
    }
    var a0 :| a0 in arcs && a0.to == f && a0.from == p && Passes(a0.typ, true);
    assert con.(from := p, to := m) in b && a0 in b;
  }

  lemma SwapsPresent(arcs: set<Arc>, con: Arc, mid: map<nat, nat>, b: set<Arc>, a: Arc)
    requires Pulled(arcs, con, mid, false, b) && a in arcs && a.to == con.from && a.from in mid
    requires Passes(a.typ, true) && Back(con.typ) && con.from != con.to
    ensures a in b && con.(from := a.from, to := mid[a.from]) in b && a.(from := mid[a.from], to := con.to) in b
  {
    var e1, e2 := con.(from := a.from, to := mid[a.from]), a.(from := mid[a.from], to := con.to);
    assert SwappedBy(con, mid, e1, a) && SwappedBy(con, mid, e2, a);
    assert Swapped(arcs, con, mid, e1) && Swapped(arcs, con, mid, e2);
  }

  /** The in-arcs of con's source are untouched. */
  lemma InsKept(arcs: set<Arc>, con: Arc, mid: map<nat, nat>, b: set<Arc>, pre: nat, post: nat)
    requires MidsReady(arcs, con, mid, pre, post) && Pulled(arcs, con, mid, false, b) && con.from != con.to
    ensures forall a: Arc :: a.to == con.from ==> (a in b <==> a in arcs)
  {
    forall a: Arc ensures Swapped(arcs, con, mid, a) ==> a.to != con.from {
      if Swapped(arcs, con, mid, a) { var a0 := SwapOf(arcs, con, mid, pre, post, a); }
    }
  }

  // ---------------------------------------------------------------- propagating a constraint into the in-arcs

  /** The in-arcs dealt with that are gone. */
  ghost function Lost(con: Arc, done: set<Arc>): set<Arc> {
    set a | a in done && Combine(con, a) != SATISFIED
  }

  ghost function SwapArcs(con: Arc, mid: map<nat, nat>, done: set<Arc>): set<Arc> {
    (set a | a in done && Combine(con, a) == COMPATIBLE && a.from in mid :: con.(from := a.from, to := mid[a.from]))
    + (set a | a in done && Combine(con, a) == COMPATIBLE && a.from in mid :: a.(from := mid[a.from], to := con.to))
  }

  /** The arcs once the in-arcs in done have been dealt with (regc_nfa.c:1578-1610). */
  ghost function Propagated(arcs: set<Arc>, con: Arc, mid: map<nat, nat>, done: set<Arc>): set<Arc> {
    arcs - Lost(con, done) + SwapArcs(con, mid, done)
  }

  lemma SwapArcIs(con: Arc, mid: map<nat, nat>, done: set<Arc>, e: Arc)
    ensures e in SwapArcs(con, mid, done) <==> exists a :: a in done && SwappedBy(con, mid, e, a)
  {
    forall a | a in done && SwappedBy(con, mid, e, a) ensures e in SwapArcs(con, mid, done) {}
  }

  /** mid has exactly the sources of the passing arcs dealt with. */
  ghost predicate SourcesOf(con: Arc, done: set<Arc>, mid: map<nat, nat>) {
    forall p :: p in mid <==> exists a :: a in done && a.from == p && Combine(con, a) == COMPATIBLE
  }

  lemma NoSwapNext(con: Arc, mid: map<nat, nat>, done: set<Arc>, a: Arc)
    requires Combine(con, a) != COMPATIBLE
    ensures SwapArcs(con, mid, done + {a}) == SwapArcs(con, mid, done)
    ensures SourcesOf(con, done, mid) ==> SourcesOf(con, done + {a}, mid)
  {
    hide Combine;
    var n := done + {a};
    if SourcesOf(con, done, mid) {
      forall p ensures p in mid <==> exists d :: d in n && d.from == p && Combine(con, d) == COMPATIBLE {
        if p in mid { var d :| d in done && d.from == p && Combine(con, d) == COMPATIBLE; assert d in n; }
      }
    }
  }

  lemma LostNext(con: Arc, done: set<Arc>, a: Arc)
    ensures Lost(con, done + {a}) == if Combine(con, a) == SATISFIED then Lost(con, done) else Lost(con, done) + {a}
  {
    hide Combine;
  }

  lemma PropagatedNext(arcs: set<Arc>, con: Arc, mid: map<nat, nat>, done: set<Arc>, a: Arc)
    requires SourcesOf(con, done, mid) && a !in done && a.to == con.from && con.from != con.to
    requires (forall d :: d in done ==> d.to == con.from) && forall p :: p in mid ==> mid[p] != con.from
    ensures Combine(con, a) == INCOMPATIBLE ==>
      Propagated(arcs, con, mid, done + {a}) == Propagated(arcs, con, mid, done) - {a} && SourcesOf(con, done + {a}, mid)
    ensures Combine(con, a) == SATISFIED ==>
      Propagated(arcs, con, mid, done + {a}) == Propagated(arcs, con, mid, done) && SourcesOf(con, done + {a}, mid)
  {
    hide Combine, SwapArcs, Lost, SourcesOf;
    if Combine(con, a) != COMPATIBLE {
      NoSwapNext(con, mid, done, a);
      LostNext(con, done, a);
      SwapArcIs(con, mid, done, a);
    }
  }

  lemma SwapArcsNext(con: Arc, mid: map<nat, nat>, done: set<Arc>, a: Arc, m: nat)
    requires SourcesOf(con, done, mid) && Combine(con, a) == COMPATIBLE && (a.from in mid ==> mid[a.from] == m)
    ensures SwapArcs(con, mid[a.from := m], done + {a}) == SwapArcs(con, mid, done) + {con.(from := a.from, to := m), a.(from := m, to := con.to)}
  {
    hide SwapArcs, Combine;
    var n, mid2 := done + {a}, mid[a.from := m];
    var e1, e2 := con.(from := a.from, to := m), a.(from := m, to := con.to);
    assert SwappedBy(con, mid2, e1, a) && SwappedBy(con, mid2, e2, a);
    forall e ensures e in SwapArcs(con, mid2, n) <==> e in SwapArcs(con, mid, done) + {e1, e2} {
      SwapArcIs(con, mid2, n, e);
      SwapArcIs(con, mid, done, e);
      if d :| d in n && SwappedBy(con, mid2, e, d) && d != a {
        assert d in done && d.from in mid;
        assert SwappedBy(con, mid, e, d);
      }
      if d :| d in done && SwappedBy(con, mid, e, d) {
        assert d in n && SwappedBy(con, mid2, e, d);
      }
      assert a in n;
    }
  }

  lemma SourcesNext(con: Arc, mid: map<nat, nat>, done: set<Arc>, a: Arc, m: nat)
    requires SourcesOf(con, done, mid) && Combine(con, a) == COMPATIBLE
    ensures SourcesOf(con, done + {a}, mid[a.from := m])
  {
    var n, mid2 := done + {a}, mid[a.from := m];
    hide Combine;
    forall p ensures p in mid2 <==> exists d :: d in n && d.from == p && Combine(con, d) == COMPATIBLE {
      if p in mid { var d :| d in done && d.from == p && Combine(con, d) == COMPATIBLE; assert d in n; }
      assert a in n;
    }
  }

  lemma PropagatedSwap(arcs: set<Arc>, con: Arc, mid: map<nat, nat>, done: set<Arc>, a: Arc, m: nat)
    requires SourcesOf(con, done, mid) && a !in done && a.to == con.from && con.from != con.to && m != con.from
    requires (forall d :: d in done ==> d.to == con.from) && forall p :: p in mid ==> mid[p] != con.from
    requires Combine(con, a) == COMPATIBLE && (a.from in mid ==> mid[a.from] == m)
    ensures Propagated(arcs, con, mid[a.from := m], done + {a}) ==
      Propagated(arcs, con, mid, done) + {con.(from := a.from, to := m), a.(from := m, to := con.to)} - {a}
    ensures SourcesOf(con, done + {a}, mid[a.from := m])
  {
    SwapArcsNext(con, mid, done, a, m);
    SourcesNext(con, mid, done, a, m);
    assert a !in SwapArcs(con, mid, done) by { SwapArcIs(con, mid, done, a); }
    assert Lost(con, done + {a}) == Lost(con, done) + {a};
  }

  /** The intermediate states made for other constraints have nothing to do with con's own arcs. */
  ghost predicate Aside(arcs: set<Arc>, con: Arc, mids: map<nat, (nat, nat)>) {
    Searchable(arcs, mids) && forall m :: m in mids ==> m != con.from && m != con.to && mids[m].1 != con.from
  }

  /** While a constraint is being propagated the intermediate states can be searched. */
  lemma PropagatedSearchable(arcs: set<Arc>, con: Arc, mids: map<nat, (nat, nat)>, mid: map<nat, nat>, keys: set<nat>,
                             mids2: map<nat, (nat, nat)>, done: set<Arc>)
    requires Aside(arcs, con, mids) && Chosen(mids, mid, con.to, keys, mids2) && SourcesOf(con, done, mid)
    requires Within(arcs, keys) && con in arcs && con.from != con.to && forall d :: d in done ==> d in arcs && d.to == con.from
    ensures Searchable(Propagated(arcs, con, mid, done), mids2)
  {
    ChosenInjective(mids, mid, con.to, keys, mids2);
    var cur := Propagated(arcs, con, mid, done);
    forall m | m in mids2 ensures Between(cur, m, mids2[m].0, mids2[m].1) {
      BetweenNow(arcs, con, mids, mid, keys, mids2, done, m);
    }
  }

  lemma BetweenNow(arcs: set<Arc>, con: Arc, mids: map<nat, (nat, nat)>, mid: map<nat, nat>, keys: set<nat>,
                   mids2: map<nat, (nat, nat)>, done: set<Arc>, m: nat)
    requires Aside(arcs, con, mids) && Chosen(mids, mid, con.to, keys, mids2) && SourcesOf(con, done, mid) && m in mids2
    requires Within(arcs, keys) && con in arcs && con.from != con.to && forall d :: d in done ==> d in arcs && d.to == con.from
    requires forall p, q :: p in mid && q in mid && p != q ==> mid[p] != mid[q]
    ensures Between(Propagated(arcs, con, mid, done), m, mids2[m].0, mids2[m].1)
  {
    hide Combine;
    var cur := Propagated(arcs, con, mid, done);
    var p, t := mids2[m].0, mids2[m].1;
    if m in mids {
      assert Between(arcs, m, p, t);
      var e1 :| e1 in arcs && e1.to == m;
      var e2 :| e2 in arcs && e2.from == m;
      assert e1 in cur && e2 in cur;
    } else {
      var a :| a in done && a.from == p && Combine(con, a) == COMPATIBLE;
      var e1, e2 := con.(from := p, to := m), a.(from := m, to := con.to);
      assert SwappedBy(con, mid, e1, a) && SwappedBy(con, mid, e2, a);
      SwapArcIs(con, mid, done, e1);
      SwapArcIs(con, mid, done, e2);
      assert e1 in cur && e2 in cur;
    }
    forall e | e in cur && (e.to == m || e.from == m) ensures (e.to == m ==> e.from == p) && (e.from == m ==> e.to == t) {
      if e in SwapArcs(con, mid, done) {
        SwapArcIs(con, mid, done, e);
        var d :| d in done && SwappedBy(con, mid, e, d);
        assert d in arcs && mids2[mid[d.from]] == (d.from, con.to);
      }
    }
  }

  /** The arcs when the constraint has been propagated, the in-arcs that remain moved, and it is freed. */
  ghost function Landed(arcs: set<Arc>, con: Arc, mid: map<nat, nat>): set<Arc> {
    Moved(Propagated(arcs, con, mid, InSet(arcs, con.from)), true, con.from, con.to) - {con}
  }

  lemma LandedIs(arcs: set<Arc>, con: Arc, mid: map<nat, nat>, e: Arc)
    requires con.from != con.to && forall p :: p in mid ==> mid[p] != con.from
    ensures e in Landed(arcs, con, mid) <==>
      e != con && ((e in arcs && e.to != con.from) || Implied(arcs, con, e) || Swapped(arcs, con, mid, e))
  {
    var f, ins := con.from, InSet(arcs, con.from);
    var cur := Propagated(arcs, con, mid, ins);
    forall d ensures d in SwapArcs(con, mid, ins) <==> Swapped(arcs, con, mid, d) {
      SwapArcIs(con, mid, ins, d);
      if d in SwapArcs(con, mid, ins) {
        var a :| a in ins && SwappedBy(con, mid, d, a);
      }
      if Swapped(arcs, con, mid, d) {
        var a :| a in arcs && a.to == con.from && SwappedBy(con, mid, d, a);
        assert a in ins;
      }
    }
    assert forall d :: d in SwapArcs(con, mid, ins) ==> d.to != f;
    var kept := set a | a in ins && Combine(con, a) == SATISFIED;
    assert InSet(cur, f) == kept;
    forall d ensures d in AllRehung(kept, true, con.to) <==> Implied(arcs, con, d) {
      if Implied(arcs, con, d) {
        var a :| a in arcs && a.to == con.from && Combine(con, a) == SATISFIED && d == a.(to := con.to);
        assert a in kept && d == Rehung(a, true, con.to);
      }
    }
  }

  /** pull() when con is the only out-arc of its source. */
  lemma PulledAlone(arcs: set<Arc>, con: Arc, mid: map<nat, nat>)
    requires con.from != con.to && (forall p :: p in mid ==> mid[p] != con.from) && con in arcs && Alone(arcs, con)
    ensures Pulled(arcs, con, mid, true, Landed(arcs, con, mid))
  {
    forall e ensures Implied(arcs, con, e) || Swapped(arcs, con, mid, e) ==> e != con {
      if Implied(arcs, con, e) {
        var a :| a in arcs && a.to == con.from && Combine(con, a) == SATISFIED && e == a.(to := con.to);
        assert a.from != con.from;
      } else if Swapped(arcs, con, mid, e) {
        var a :| a in arcs && a.to == con.from && SwappedBy(con, mid, e, a);
        assert a.from != con.from;
      }
    }
    hide Implied, Swapped, Landed;
    forall e ensures e in Landed(arcs, con, mid) <==> e != con && ((e in arcs && e.to != con.from) || Implied(arcs, con, e) || Swapped(arcs, con, mid, e)) {
      LandedIs(arcs, con, mid, e);
    }
  }

  /** The arcs once con's source has been cloned into s, which gets con alone (regc_nfa.c:1558-1571). */
  ghost function Cloned(arcs: set<Arc>, con: Arc, s: nat): set<Arc> {
    Copied(arcs, true, con.from, s) + {con.(from := s)} - {con}
  }

  /** pull() when con's source has other out-arcs. */
  lemma PulledCloned(arcs: set<Arc>, con: Arc, s: nat, mid: map<nat, nat>, keys: set<nat>)
    requires con in arcs && con.from != con.to && Within(arcs, keys) && s !in keys && forall p :: p in mid ==> mid[p] != s
    ensures Pulled(arcs, con, mid, false, Landed(Cloned(arcs, con, s), con.(from := s), mid))
  {
    var con1, arcs1 := con.(from := s), Cloned(arcs, con, s);
    forall a: Arc | a.to == s ensures a in arcs1 <==> a.(to := con.from) in arcs {
      if a.(to := con.from) in arcs {
        assert a == Rehung(a.(to := con.from), true, s);
        assert a.(to := con.from) in InSet(arcs, con.from);
      }
    }
    forall e ensures e in Landed(arcs1, con1, mid) <==> (e in arcs && e != con) || Implied(arcs, con, e) || Swapped(arcs, con, mid, e) {
      LandedIs(arcs1, con1, mid, e);
      ClonedImplied(arcs, con, s, mid, keys, e);
      hide Implied, Swapped, Landed;
    }
  }

  lemma ClonedImplied(arcs: set<Arc>, con: Arc, s: nat, mid: map<nat, nat>, keys: set<nat>, e: Arc)
    requires con in arcs && con.from != con.to && Within(arcs, keys) && s !in keys
    requires forall a: Arc :: a.to == s ==> (a in Cloned(arcs, con, s) <==> a.(to := con.from) in arcs)
    ensures Implied(Cloned(arcs, con, s), con.(from := s), e) <==> Implied(arcs, con, e)
    ensures Swapped(Cloned(arcs, con, s), con.(from := s), mid, e) <==> Swapped(arcs, con, mid, e)
    ensures Implied(arcs, con, e) || Swapped(arcs, con, mid, e) ==> e != con.(from := s) || exists p :: p in mid && mid[p] == s
  {
    var con1, arcs1 := con.(from := s), Cloned(arcs, con, s);
    if Implied(arcs1, con1, e) {
      var a :| a in arcs1 && a.to == s && Combine(con1, a) == SATISFIED && e == a.(to := con.to);
      var a0 := a.(to := con.from);
      assert a0 in arcs && Combine(con, a0) == SATISFIED && e == a0.(to := con.to);
    }
    if Implied(arcs, con, e) {
      var a :| a in arcs && a.to == con.from && Combine(con, a) == SATISFIED && e == a.(to := con.to);
      var a1 := a.(to := s);
      assert a1.(to := con.from) == a;
      assert a1 in arcs1 && Combine(con1, a1) == SATISFIED && e == a1.(to := con.to);
    }
    if Swapped(arcs1, con1, mid, e) {
      var a :| a in arcs1 && a.to == s && SwappedBy(con1, mid, e, a);
      var a0 := a.(to := con.from);
      assert a0 in arcs && SwappedBy(con, mid, e, a0);
    }
    if Swapped(arcs, con, mid, e) {
      var a :| a in arcs && a.to == con.from && SwappedBy(con, mid, e, a);
      var a1 := a.(to := s);
      assert a1.(to := con.from) == a;
      assert a1 in arcs1 && SwappedBy(con1, mid, e, a1);
    }
  }

  // ---------------------------------------------------------------- the code

  /** The tmp pointers of the intermediate states: each points to the one made before it. */
  ghost function Chain(list: seq<nat>): map<nat, nat> {
    if |list| <= 1 then map[] else Chain(list[..|list| - 1])[list[|list| - 1] := list[|list| - 2]]
  }

  function Newest(list: seq<nat>): Option<nat> {
    if list == [] then None else Some(list[|list| - 1])
  }

  /** list has the intermediate states, each once. */
  ghost predicate Enlisted(list: seq<nat>, mids: map<nat, (nat, nat)>) {
    (forall m :: m in list <==> m in mids) && forall i, j :: 0 <= i < j < |list| ==> list[i] != list[j]
  }

  ghost predicate Unlike(list: seq<nat>) {
    forall i, j :: 0 <= i < j < |list| ==> list[i] != list[j]
  }

  lemma EnlistedUnlike(list: seq<nat>, mids: map<nat, (nat, nat)>)
    requires Enlisted(list, mids)
    ensures Unlike(list)
  {
  }

  lemma {:induction false} ChainKeys(list: seq<nat>)
    ensures forall m :: m in Chain(list) ==> m in list
    decreases |list|
  {
    if |list| > 1 {
      ChainKeys(list[..|list| - 1]);
      assert list[|list| - 1] in list;
      forall m | m in list[..|list| - 1] ensures m in list {}
    }
  }

  lemma {:induction false} ChainLink(list: seq<nat>, n: nat)
    requires 0 < n <= |list| && forall i, j :: 0 <= i < j < |list| ==> list[i] != list[j]
    ensures if n == 1 then list[0] !in Chain(list) else list[n - 1] in Chain(list) && Chain(list)[list[n - 1]] == list[n - 2]
    decreases |list|
  {
    if n < |list| {
      var l := list[..|list| - 1];
      ChainLink(l, n);
      assert l[n - 1] == list[n - 1];
    } else if n == 1 {
    }
  }

  lemma ChainGrows(list: seq<nat>, m: nat)
    ensures Chain(list + [m]) == if list == [] then map[] else Chain(list)[m := list[|list| - 1]]
  {
    var l := list + [m];
    assert l[..|l| - 1] == list;
  }

  /** The source of m's first in-arc and the target of its first out-arc. */
  method EndsOf(nfa: Nfa, m: nat, ghost p0: nat, ghost t0: nat) returns (p: nat, t: nat)
    requires nfa.Valid() && m in nfa.ins && Between(nfa.arcs, m, p0, t0)
    ensures p == p0 && t == t0
  {
    assert Lists(nfa.ins[m], InSet(nfa.arcs, m)) && Lists(nfa.outs[m], OutSet(nfa.arcs, m));
    ghost var e1 :| e1 in nfa.arcs && e1.to == m;
    ghost var e2 :| e2 in nfa.arcs && e2.from == m;
    assert e1 in InSet(nfa.arcs, m) && e2 in OutSet(nfa.arcs, m);
    assert nfa.ins[m][0] in InSet(nfa.arcs, m) && nfa.outs[m][0] in OutSet(nfa.arcs, m);
    p, t := nfa.ins[m][0].from, nfa.outs[m][0].to;
  }

  /** There is no intermediate state between p and t yet. */
  ghost predicate Unmade(mids: map<nat, (nat, nat)>, p: nat, t: nat) {
    forall m :: m in mids ==> mids[m] != (p, t)
  }

  lemma ChainNone()
    ensures Chain([]) == map[]
  {
  }

  /** The search for an intermediate state between p and t (regc_nfa.c:1588-1593). */
  method FindMid(nfa: Nfa, intermediates: Option<nat>, p: nat, t: nat, ghost list: seq<nat>, ghost mids: map<nat, (nat, nat)>)
    returns (s: Option<nat>)
    requires nfa.Valid() && Searchable(nfa.arcs, mids) && Enlisted(list, mids) && mids.Keys <= nfa.ins.Keys
    requires nfa.tmp == Chain(list) && intermediates == Newest(list)
    ensures s.Some? ==> s.value in mids && mids[s.value] == (p, t)
    ensures s.None? ==> Unmade(mids, p, t)
  {
    hide Between, Chain;
    s := intermediates;
    ghost var n: nat := |list|;
    while s.Some?
      invariant n <= |list| && s == (if n == 0 then None else Some(list[n - 1]))
      invariant forall i :: n <= i < |list| ==> mids[list[i]] != (p, t)
      decreases n
    {
      assert list[n - 1] in list;
      var from, to := EndsOf(nfa, s.value, mids[s.value].0, mids[s.value].1);
      if from == p && to == t { return; }
      ChainLink(list, n);
      s := if s.value in nfa.tmp then Some(nfa.tmp[s.value]) else None;
      n := n - 1;
    }
    forall m | m in mids ensures mids[m] != (p, t) {
      assert m in list;
    }
  }

  /** How far the propagation of con has come. */
  ghost predicate Propagating(arcs: set<Arc>, con: Arc, mids: map<nat, (nat, nat)>, mid: map<nat, nat>, keys: set<nat>,
                              mids2: map<nat, (nat, nat)>, done: set<Arc>, now: set<Arc>, list: seq<nat>, keys2: set<nat>) {
    && Aside(arcs, con, mids) && Within(arcs, keys) && con in arcs && con.from != con.to
    && (forall d :: d in done ==> d in arcs && d.to == con.from)
    && Chosen(mids, mid, con.to, keys, mids2) && SourcesOf(con, done, mid)
    && now == Propagated(arcs, con, mid, done) && Enlisted(list, mids2)
    && keys <= keys2 && mids2.Keys <= keys2
  }

  lemma PropagatingSearchable(arcs: set<Arc>, con: Arc, mids: map<nat, (nat, nat)>, mid: map<nat, nat>, keys: set<nat>,
                              mids2: map<nat, (nat, nat)>, done: set<Arc>, now: set<Arc>, list: seq<nat>, keys2: set<nat>)
    requires Propagating(arcs, con, mids, mid, keys, mids2, done, now, list, keys2)
    ensures Searchable(now, mids2) && Enlisted(list, mids2) && mids2.Keys <= keys2
    ensures con.from in keys2 && con.to in keys2
  {
    PropagatedSearchable(arcs, con, mids, mid, keys, mids2, done);
  }

  lemma PropagatingStart(arcs: set<Arc>, con: Arc, mids: map<nat, (nat, nat)>, keys: set<nat>, list: seq<nat>)
    requires Aside(arcs, con, mids) && Within(arcs, keys) && con in arcs && con.from != con.to
    requires Enlisted(list, mids) && mids.Keys <= keys
    ensures Propagating(arcs, con, mids, map[], keys, mids, {}, arcs, list, keys)
  {
  }

  /** An in-arc that is destroyed or kept. */
  lemma PropagatingPlain(arcs: set<Arc>, con: Arc, mids: map<nat, (nat, nat)>, mid: map<nat, nat>, keys: set<nat>,
                         mids2: map<nat, (nat, nat)>, done: set<Arc>, now: set<Arc>, list: seq<nat>, keys2: set<nat>, a: Arc)
    requires Propagating(arcs, con, mids, mid, keys, mids2, done, now, list, keys2)
    requires a in arcs && a.to == con.from && a !in done && Combine(con, a) != COMPATIBLE
    ensures a in now
    ensures Propagating(arcs, con, mids, mid, keys, mids2, done + {a},
                        if Combine(con, a) == INCOMPATIBLE then now - {a} else now, list, keys2)
  {
    MidsNotSource(arcs, con, mids, mid, keys, mids2);
    PropagatedNext(arcs, con, mid, done, a);
  }

  lemma MidsNotSource(arcs: set<Arc>, con: Arc, mids: map<nat, (nat, nat)>, mid: map<nat, nat>, keys: set<nat>, mids2: map<nat, (nat, nat)>)
    requires Aside(arcs, con, mids) && Within(arcs, keys) && con in arcs && Chosen(mids, mid, con.to, keys, mids2)
    ensures forall p :: p in mid ==> mid[p] != con.from
  {
  }

  /** An in-arc swapped with the constraint: through m, found or new. */
  lemma PropagatingSwap(arcs: set<Arc>, con: Arc, mids: map<nat, (nat, nat)>, mid: map<nat, nat>, keys: set<nat>,
                        mids2: map<nat, (nat, nat)>, done: set<Arc>, now: set<Arc>, list: seq<nat>, keys2: set<nat>, a: Arc,
                        m: nat, isNew: bool)
    requires Propagating(arcs, con, mids, mid, keys, mids2, done, now, list, keys2)
    requires a in arcs && a.to == con.from && a !in done && Combine(con, a) == COMPATIBLE
    requires if isNew then m !in keys2 && Unmade(mids2, a.from, con.to) else m in mids2 && mids2[m] == (a.from, con.to)
    ensures a in now && a.from in keys2
    ensures Propagating(arcs, con, mids, mid[a.from := m], keys, if isNew then mids2[m := (a.from, con.to)] else mids2, done + {a},
                        now + {con.(from := a.from, to := m), a.(from := m, to := con.to)} - {a},
                        if isNew then list + [m] else list, if isNew then keys2 + {m} else keys2)
  {
    hide Aside, Within, Chosen, SourcesOf, Propagated, Combine, Unmade;
    MidsNotSource(arcs, con, mids, mid, keys, mids2);
    SwapReady(arcs, con, mids, mid, keys, mids2, done, a, m, isNew, keys2);
    PropagatedSwap(arcs, con, mid, done, a, m);
    ChosenNext(mids, mid, con.to, keys, mids2, a.from, m, isNew, keys2);
  }

  lemma SwapReady(arcs: set<Arc>, con: Arc, mids: map<nat, (nat, nat)>, mid: map<nat, nat>, keys: set<nat>,
                  mids2: map<nat, (nat, nat)>, done: set<Arc>, a: Arc, m: nat, isNew: bool, keys2: set<nat>)
    requires Aside(arcs, con, mids) && Within(arcs, keys) && con in arcs && Chosen(mids, mid, con.to, keys, mids2) && keys <= keys2
    requires a in arcs && a !in done && a.to == con.from && mids2.Keys <= keys2
    requires (forall d :: d in done ==> d.to == con.from) && (forall p :: p in mid ==> mid[p] != con.from)
    requires if isNew then m !in keys2 && Unmade(mids2, a.from, con.to) else m in mids2 && mids2[m] == (a.from, con.to)
    ensures a.from in keys2 && m != con.from && (a.from in mid ==> mid[a.from] == m)
    ensures a in Propagated(arcs, con, mid, done)
  {
    assert con.from in keys && a.from in keys;
    assert a in Propagated(arcs, con, mid, done);
    hide Within, Propagated;
    if a.from in mid {
      assert mids2[mid[a.from]] == (a.from, con.to);
      assert mids2[m] == (a.from, con.to);
      SameMid(mids, mid, con.to, keys, mids2, mid[a.from], m) by {
        assert forall x, y :: x in mids && y in mids && x != y ==> mids[x] != mids[y];
      }
    }
    if !isNew && m !in mids { assert mids2[m].0 in mid && mid[mids2[m].0] == m; }
  }

  lemma SameMid(mids: map<nat, (nat, nat)>, mid: map<nat, nat>, t: nat, keys: set<nat>, mids2: map<nat, (nat, nat)>, m: nat, m2: nat)
    requires Chosen(mids, mid, t, keys, mids2) && m in mids2 && m2 in mids2 && mids2[m] == mids2[m2]
    requires forall x, y :: x in mids && y in mids && x != y ==> mids[x] != mids[y]
    ensures m == m2
  {
    ChosenInjective(mids, mid, t, keys, mids2);
  }

  lemma ChosenNext(mids: map<nat, (nat, nat)>, mid: map<nat, nat>, t: nat, keys: set<nat>, mids2: map<nat, (nat, nat)>,
                   p: nat, m: nat, isNew: bool, keys2: set<nat>)
    requires Chosen(mids, mid, t, keys, mids2) && keys <= keys2 && mids2.Keys <= keys2 && (p in mid ==> mid[p] == m)
    requires if isNew then m !in keys2 && Unmade(mids2, p, t) else m in mids2 && mids2[m] == (p, t)
    ensures Chosen(mids, mid[p := m], t, keys, if isNew then mids2[m := (p, t)] else mids2)
  {
  }

  /** The intermediate state between p and t, made if there is none (regc_nfa.c:1588-1601). */
  method MidFor(nfa: Nfa, p: nat, t: nat, intermediates: Option<nat>, ghost list: seq<nat>, ghost mids2: map<nat, (nat, nat)>)
    returns (m: nat, newest: Option<nat>, ghost isNew: bool)
    requires nfa.Valid() && Searchable(nfa.arcs, mids2) && Enlisted(list, mids2) && mids2.Keys <= nfa.ins.Keys
    requires nfa.tmp == Chain(list) && intermediates == Newest(list)
    modifies nfa`states, nfa`nstates, nfa`ins, nfa`outs, nfa`tmp
    ensures nfa.Valid() && nfa.tmp == Chain(if isNew then list + [m] else list) && newest == Newest(if isNew then list + [m] else list)
    ensures nfa.arcs == old(nfa.arcs) && nfa.ins.Keys == (if isNew then old(nfa.ins.Keys) + {m} else old(nfa.ins.Keys)) && m in nfa.ins
    ensures if isNew then m !in old(nfa.ins) && Unmade(mids2, p, t) else m in mids2 && mids2[m] == (p, t)
  {
    hide Agree, StatesAgree, Within, Chain, Searchable;
    var s := FindMid(nfa, intermediates, p, t, list, mids2);
    newest := intermediates;
    isNew := s.None?;
    if s.Some? { return s.value, newest, isNew; }
    m := nfa.NewState();
    ChainNone();
    ChainGrows(list, m);
    if newest.Some? { nfa.tmp := nfa.tmp[m := newest.value]; }
    newest := Some(m);
  }

  /** Swap the constraint with a passing in-arc (regc_nfa.c:1586-1605). */
  method Swap(nfa: Nfa, con: Arc, a: Arc, intermediates: Option<nat>, ghost list: seq<nat>, ghost mids2: map<nat, (nat, nat)>)
    returns (m: nat, newest: Option<nat>, ghost isNew: bool)
    requires nfa.Valid() && con.from in nfa.ins && con.to in nfa.ins && a in nfa.arcs && con.from != con.to && a.to == con.from
    requires con.from !in mids2 && Searchable(nfa.arcs, mids2) && Enlisted(list, mids2) && mids2.Keys <= nfa.ins.Keys
    requires nfa.tmp == Chain(list) && intermediates == Newest(list)
    modifies nfa`states, nfa`nstates, nfa`ins, nfa`outs, nfa`arcs, nfa`tmp
    ensures nfa.Valid() && nfa.tmp == Chain(if isNew then list + [m] else list) && newest == Newest(if isNew then list + [m] else list)
    ensures nfa.arcs == old(nfa.arcs) + {con.(from := a.from, to := m), a.(from := m, to := con.to)} - {a}
    ensures nfa.ins.Keys == if isNew then old(nfa.ins.Keys) + {m} else old(nfa.ins.Keys)
    ensures if isNew then m !in old(nfa.ins) && Unmade(mids2, a.from, con.to) else m in mids2 && mids2[m] == (a.from, con.to)
  {
    hide Agree, StatesAgree, Within, Chain, Searchable, Enlisted, Unmade, Newest;
    Ends(nfa.arcs, a, nfa.ins.Keys);
    m, newest, isNew := MidFor(nfa, a.from, con.to, intermediates, list, mids2);
    Exchange(nfa, con.(from := a.from, to := m), a.(from := m, to := con.to), a);
  }

  /** cparc() twice, then freearc() (regc_nfa.c:1602-1604). */
  method Exchange(nfa: Nfa, e1: Arc, e2: Arc, a: Arc)
    requires nfa.Valid() && a in nfa.arcs && e1 != a && e2 != a
    requires e1.from in nfa.ins && e1.to in nfa.ins && e2.from in nfa.ins && e2.to in nfa.ins
    modifies nfa`ins, nfa`outs, nfa`arcs
    ensures nfa.Valid() && nfa.ins.Keys == old(nfa.ins.Keys) && nfa.arcs == old(nfa.arcs) + {e1, e2} - {a}
  {
    hide Agree, StatesAgree, Within;
    SameKeys(nfa);
    nfa.LinkUnlessPresent(e1);
    SameKeys(nfa);
    nfa.LinkUnlessPresent(e2);
    nfa.Unlink(a);
  }

  lemma SameKeys(nfa: Nfa)
    requires nfa.Valid()
    ensures nfa.ins.Keys == nfa.outs.Keys
  {
  }

  /** Propagate the constraint into its source's in-arcs (regc_nfa.c:1578-1610). */
  method Propagate(nfa: Nfa, con: Arc, intermediates: Option<nat>, ghost list: seq<nat>, ghost mids: map<nat, (nat, nat)>)
    returns (newest: Option<nat>, ghost mid: map<nat, nat>, ghost mids2: map<nat, (nat, nat)>, ghost list2: seq<nat>)
    requires nfa.Valid() && con in nfa.arcs && con.from != con.to && Aside(nfa.arcs, con, mids)
    requires Enlisted(list, mids) && mids.Keys <= nfa.ins.Keys && nfa.tmp == Chain(list) && intermediates == Newest(list)
    modifies nfa`states, nfa`nstates, nfa`ins, nfa`outs, nfa`arcs, nfa`tmp
    ensures nfa.Valid() && nfa.tmp == Chain(list2) && newest == Newest(list2)
    ensures Propagating(old(nfa.arcs), con, mids, mid, old(nfa.ins.Keys), mids2, InSet(old(nfa.arcs), con.from), nfa.arcs, list2, nfa.ins.Keys)
  {
    ghost var arcs, keys := nfa.arcs, nfa.ins.Keys;
    assert Within(arcs, keys);
    assert con.from in nfa.ins;
    var chain := nfa.ins[con.from];
    assert Lists(chain, InSet(arcs, con.from));
    newest, mid, mids2, list2 := intermediates, map[], mids, list;
    PropagatingStart(arcs, con, mids, keys, list);
    hide Agree, StatesAgree, Within, Chain, Searchable, Propagating, Lists, Enlisted, Newest, Aside;
    DoneStart(chain);
    var i := 0;
    while i < |chain|
      invariant 0 <= i <= |chain| && nfa.Valid() && nfa.tmp == Chain(list2) && newest == Newest(list2)
      invariant Propagating(arcs, con, mids, mid, keys, mids2, Set(chain[..i]), nfa.arcs, list2, nfa.ins.Keys)
    {
      var a := chain[i];
      DoneNext(chain, arcs, con.from, i);
      newest, mid, mids2, list2 := PropagateOne(nfa, con, a, newest, arcs, mids, mid, keys, mids2, Set(chain[..i]), list2);
      i := i + 1;
    }
    DoneEnd(chain, arcs, con.from);
  }

  /** One passing in-arc of the loop. */
  method SwapNext(nfa: Nfa, con: Arc, a: Arc, intermediates: Option<nat>, ghost arcs: set<Arc>, ghost mids: map<nat, (nat, nat)>,
                  ghost mid: map<nat, nat>, ghost keys: set<nat>, ghost mids2: map<nat, (nat, nat)>, ghost done: set<Arc>, ghost list: seq<nat>)
    returns (newest: Option<nat>, ghost mid3: map<nat, nat>, ghost mids3: map<nat, (nat, nat)>, ghost list3: seq<nat>)
    requires nfa.Valid() && nfa.tmp == Chain(list) && intermediates == Newest(list)
    requires Propagating(arcs, con, mids, mid, keys, mids2, done, nfa.arcs, list, nfa.ins.Keys)
    requires a in arcs && a.to == con.from && a !in done && Combine(con, a) == COMPATIBLE
    modifies nfa`states, nfa`nstates, nfa`ins, nfa`outs, nfa`arcs, nfa`tmp
    ensures nfa.Valid() && nfa.tmp == Chain(list3) && newest == Newest(list3)
    ensures Propagating(arcs, con, mids, mid3, keys, mids3, done + {a}, nfa.arcs, list3, nfa.ins.Keys)
  {
    hide Agree, StatesAgree, Within, Chain, Searchable, Propagating, Enlisted, Combine;
    PropagatingSearchable(arcs, con, mids, mid, keys, mids2, done, nfa.arcs, list, nfa.ins.Keys);
    PropagatingEnds(arcs, con, mids, mid, keys, mids2, done, nfa.arcs, list, nfa.ins.Keys, a);
    ghost var now, keys2 := nfa.arcs, nfa.ins.Keys;
    var m;
    ghost var isNew;
    m, newest, isNew := Swap(nfa, con, a, intermediates, list, mids2);
    PropagatingSwap(arcs, con, mids, mid, keys, mids2, done, now, list, keys2, a, m, isNew);
    mid3 := mid[a.from := m];
    mids3 := if isNew then mids2[m := (a.from, con.to)] else mids2;
    list3 := if isNew then list + [m] else list;
  }

  /** One in-arc of the loop. */
  method PropagateOne(nfa: Nfa, con: Arc, a: Arc, intermediates: Option<nat>, ghost arcs: set<Arc>, ghost mids: map<nat, (nat, nat)>,
                      ghost mid: map<nat, nat>, ghost keys: set<nat>, ghost mids2: map<nat, (nat, nat)>, ghost done: set<Arc>, ghost list: seq<nat>)
    returns (newest: Option<nat>, ghost mid3: map<nat, nat>, ghost mids3: map<nat, (nat, nat)>, ghost list3: seq<nat>)
    requires nfa.Valid() && nfa.tmp == Chain(list) && intermediates == Newest(list)
    requires Propagating(arcs, con, mids, mid, keys, mids2, done, nfa.arcs, list, nfa.ins.Keys)
    requires a in arcs && a.to == con.from && a !in done
    modifies nfa`states, nfa`nstates, nfa`ins, nfa`outs, nfa`arcs, nfa`tmp
    ensures nfa.Valid() && nfa.tmp == Chain(list3) && newest == Newest(list3)
    ensures Propagating(arcs, con, mids, mid3, keys, mids3, done + {a}, nfa.arcs, list3, nfa.ins.Keys)
  {
    hide Agree, StatesAgree, Within, Chain, Searchable, Propagating, Enlisted, Combine, Newest;
    newest, mid3, mids3, list3 := intermediates, mid, mids2, list;
    match Combine(con, a) {
      case INCOMPATIBLE =>
        PropagatingPlain(arcs, con, mids, mid, keys, mids2, done, nfa.arcs, list, nfa.ins.Keys, a);
        nfa.Unlink(a);
      case SATISFIED =>
        PropagatingPlain(arcs, con, mids, mid, keys, mids2, done, nfa.arcs, list, nfa.ins.Keys, a);
      case COMPATIBLE =>
        newest, mid3, mids3, list3 := SwapNext(nfa, con, a, newest, arcs, mids, mid, keys, mids2, done, list);
    }
  }

  lemma PropagatingEnds(arcs: set<Arc>, con: Arc, mids: map<nat, (nat, nat)>, mid: map<nat, nat>, keys: set<nat>,
                        mids2: map<nat, (nat, nat)>, done: set<Arc>, now: set<Arc>, list: seq<nat>, keys2: set<nat>, a: Arc)
    requires Propagating(arcs, con, mids, mid, keys, mids2, done, now, list, keys2)
    requires a in arcs && a.to == con.from && a !in done
    ensures con.from !in mids2 && con.from != con.to && a in now
  {
    MidsNotSource(arcs, con, mids, mid, keys, mids2);
  }

  lemma DoneStart(chain: seq<Arc>)
    ensures Set(chain[..0]) == {}
  {
  }

  lemma DoneNext(chain: seq<Arc>, arcs: set<Arc>, f: nat, i: nat)
    requires Lists(chain, InSet(arcs, f)) && i < |chain|
    ensures chain[i] in arcs && chain[i].to == f && chain[i] !in Set(chain[..i])
    ensures Set(chain[..i + 1]) == Set(chain[..i]) + {chain[i]}
  {
    assert chain[i] in InSet(arcs, f);
    assert chain[..i + 1] == chain[..i] + [chain[i]];
  }

  lemma DoneEnd(chain: seq<Arc>, arcs: set<Arc>, f: nat)
    requires Lists(chain, InSet(arcs, f))
    ensures Set(chain[..|chain|]) == InSet(arcs, f)
  {
    assert chain[..|chain|] == chain;
  }

  // ---------------------------------------------------------------- pull()

  lemma PassesIsCompatible(con: Arc, a: Arc)
    requires Back(con.typ)
    ensures Combine(con, a) == COMPATIBLE <==> Passes(a.typ, true)
  {
  }

  lemma AloneSources(arcs: set<Arc>, con: Arc, mid: map<nat, nat>)
    requires Back(con.typ) && SourcesOf(con, InSet(arcs, con.from), mid)
    ensures forall p :: p in mid <==> Passed(arcs, con.from, p)
  {
    forall p ensures p in mid <==> Passed(arcs, con.from, p) {
      if p in mid {
        var a :| a in InSet(arcs, con.from) && a.from == p && Combine(con, a) == COMPATIBLE;
        PassesIsCompatible(con, a);
      }
      if Passed(arcs, con.from, p) {
        var a :| a in arcs && a.to == con.from && a.from == p && Passes(a.typ, true);
        PassesIsCompatible(con, a);
        assert a in InSet(arcs, con.from);
      }
    }
  }

  lemma ClonedSources(arcs: set<Arc>, con: Arc, s: nat, keys: set<nat>, mid: map<nat, nat>)
    requires Back(con.typ) && con in arcs && con.from != con.to && Within(arcs, keys) && s !in keys
    requires SourcesOf(con.(from := s), InSet(Cloned(arcs, con, s), s), mid)
    ensures forall p :: p in mid <==> Passed(arcs, con.from, p)
  {
    var arcs1, con1 := Cloned(arcs, con, s), con.(from := s);
    AloneSources(arcs1, con1, mid);
    hide SourcesOf, Passed, Cloned;
    forall p ensures Passed(arcs1, s, p) <==> Passed(arcs, con.from, p) {
      ClonedPassed(arcs, con, s, keys, p);
    }
  }

  lemma ClonedPassed(arcs: set<Arc>, con: Arc, s: nat, keys: set<nat>, p: nat)
    requires Back(con.typ) && con in arcs && con.from != con.to && Within(arcs, keys) && s !in keys
    ensures Passed(Cloned(arcs, con, s), s, p) <==> Passed(arcs, con.from, p)
  {
    var arcs1 := Cloned(arcs, con, s);
    if Passed(arcs1, s, p) {
      var a :| a in arcs1 && a.to == s && a.from == p && Passes(a.typ, true);
      CloneArc(arcs, con, s, a);
    }
    if Passed(arcs, con.from, p) {
      var a :| a in arcs && a.to == con.from && a.from == p && Passes(a.typ, true);
      assert a in InSet(arcs, con.from) && Rehung(a, true, s) in arcs1;
    }
  }

  lemma SharedSearchable(arcs: set<Arc>, f: nat, mids: map<nat, (nat, nat)>, pre: nat, post: nat, m: nat)
    requires SharedOk(arcs, f, mids, pre, post) && m in mids
    ensures Between(arcs, m, mids[m].0, mids[m].1) && mids[m].1 != f && m != f
    ensures exists e :: e in arcs && e.to == mids[m].1
    ensures Passed(arcs, f, mids[m].0)
  {
    var p, t := mids[m].0, mids[m].1;
    assert MidShared(arcs, f, m, p, t, pre, post);
    var a :| a in arcs && a.to == f && a.from == p && Passes(a.typ, true);
    assert a.(from := m, to := t) in arcs;
    forall e | e in arcs && e.from == m ensures e.to == t { assert CopyOfPassed(arcs, f, p, m, t, e); }
  }

  /** con does not lead to one of the intermediate states. */
  lemma TargetAside(arcs: set<Arc>, con: Arc, mids: map<nat, (nat, nat)>, pre: nat, post: nat, rank: nat -> int)
    requires SharedOk(arcs, con.from, mids, pre, post) && con in arcs && Ranked(arcs, rank)
    ensures con.to !in mids
  {
    if con.to in mids {
      SharedSearchable(arcs, con.from, mids, pre, post, con.to);
      SourceBelow(arcs, con.from, mids[con.to].0, rank);
    }
  }

  lemma AsideAlone(arcs: set<Arc>, con: Arc, mids: map<nat, (nat, nat)>, pre: nat, post: nat, rank: nat -> int)
    requires SharedOk(arcs, con.from, mids, pre, post) && con in arcs && Ranked(arcs, rank)
    ensures Aside(arcs, con, mids)
  {
    TargetAside(arcs, con, mids, pre, post, rank);
    forall m | m in mids ensures Between(arcs, m, mids[m].0, mids[m].1) && m != con.from && mids[m].1 != con.from {
      SharedSearchable(arcs, con.from, mids, pre, post, m);
    }
  }

  lemma AsideCloned(arcs: set<Arc>, con: Arc, mids: map<nat, (nat, nat)>, pre: nat, post: nat, rank: nat -> int, s: nat, keys: set<nat>)
    requires SharedOk(arcs, con.from, mids, pre, post) && con in arcs && Ranked(arcs, rank)
    requires Within(arcs, keys) && mids.Keys <= keys && s !in keys
    ensures Aside(Cloned(arcs, con, s), con.(from := s), mids)
  {
    TargetAside(arcs, con, mids, pre, post, rank);
    var arcs1 := Cloned(arcs, con, s);
    forall m | m in mids ensures Between(arcs1, m, mids[m].0, mids[m].1) && mids[m].1 != s {
      SharedSearchable(arcs, con.from, mids, pre, post, m);
      BetweenCloned(arcs, con, s, keys, m, mids[m].0, mids[m].1);
    }
  }

  lemma BetweenCloned(arcs: set<Arc>, con: Arc, s: nat, keys: set<nat>, m: nat, p: nat, t: nat)
    requires Between(arcs, m, p, t) && Within(arcs, keys) && s !in keys && con in arcs
    requires m != con.to && m != con.from && t != con.from
    ensures Between(Cloned(arcs, con, s), m, p, t) && t != s
  {
    var arcs1 := Cloned(arcs, con, s);
    var e1 :| e1 in arcs && e1.to == m;
    var e2 :| e2 in arcs && e2.from == m;
    assert e1 in arcs1 && e2 in arcs1;
    forall e | e in arcs1 && (e.from == m || e.to == m) ensures e in arcs {
      CloneArc(arcs, con, s, e);
      hide Cloned;
    }
    hide Cloned;
  }

  lemma CloneArc(arcs: set<Arc>, con: Arc, s: nat, e: Arc)
    requires e in Cloned(arcs, con, s)
    ensures e in arcs || e.from == s || (e.to == s && e.(to := con.from) in arcs)
  {
    if e !in arcs && e != con.(from := s) {
      var a :| a in InSet(arcs, con.from) && e == Rehung(a, true, s);
      assert e.(to := con.from) == a;
    }
  }

  /** Clone con's source if necessary to avoid other out-arcs (regc_nfa.c:1558-1571). */
  method Isolate(nfa: Nfa, con: Arc) returns (con1: Arc)
    requires nfa.Valid() && con in nfa.arcs && con.from != con.to
    modifies nfa`states, nfa`nstates, nfa`ins, nfa`outs, nfa`arcs
    ensures nfa.Valid() && con1 in nfa.arcs && con1 == con.(from := con1.from)
    ensures Alone(old(nfa.arcs), con) ==> con1 == con && nfa.arcs == old(nfa.arcs) && nfa.ins.Keys == old(nfa.ins.Keys)
    ensures !Alone(old(nfa.arcs), con) ==> con1.from !in old(nfa.ins) && nfa.arcs == Cloned(old(nfa.arcs), con, con1.from)
    ensures !Alone(old(nfa.arcs), con) ==> nfa.ins.Keys == old(nfa.ins.Keys) + {con1.from}
  {
    ghost var arcs := nfa.arcs;
    assert Within(arcs, nfa.ins.Keys);
    assert Lists(nfa.outs[con.from], OutSet(arcs, con.from));
    OnlyOut(nfa.outs[con.from], arcs, con);
    con1 := con;
    hide Agree, StatesAgree, Within, Alone, Copied, Lists;
    if |nfa.outs[con.from]| > 1 {
      var s := nfa.NewState();
      con1 := con.(from := s);
      CloneInto(nfa, con, s);
    }
  }

  method CloneInto(nfa: Nfa, con: Arc, s: nat)
    requires nfa.Valid() && con in nfa.arcs && s in nfa.ins && con.from in nfa.ins && con.to in nfa.ins && con.from != s
    modifies nfa`ins, nfa`outs, nfa`arcs
    ensures nfa.Valid() && nfa.arcs == Cloned(old(nfa.arcs), con, s) && nfa.ins.Keys == old(nfa.ins.Keys)
    ensures con.(from := s) in nfa.arcs
  {
    hide Agree, StatesAgree, Within, Copied;
    nfa.CopyIns(con.from, s);
    CopiedMore(old(nfa.arcs), con.from, s);
    SameKeys(nfa);
    nfa.LinkUnlessPresent(con.(from := s));
    nfa.Unlink(con);
  }

  lemma CopiedMore(arcs: set<Arc>, f: nat, s: nat)
    ensures arcs <= Copied(arcs, true, f, s)
  {
  }

  lemma OnlyOut(chain: seq<Arc>, arcs: set<Arc>, con: Arc)
    requires con in arcs && Lists(chain, OutSet(arcs, con.from))
    ensures |chain| > 1 <==> !Alone(arcs, con)
  {
    assert con in OutSet(arcs, con.from);
    var i :| 0 <= i < |chain| && chain[i] == con;
    if |chain| > 1 {
      var j := if i == 0 then 1 else 0;
      assert chain[j] != con && chain[j] in OutSet(arcs, con.from);
    } else {
      forall e | e in arcs && e.from == con.from ensures e == con {
        assert e in OutSet(arcs, con.from) && e in chain;
      }
    }
  }

  /** Where the search for the constraints of state f stands: the intermediate states made so far. */
  ghost predicate MidsKnown(nfa: Nfa, f: nat, intermediates: Option<nat>, list: seq<nat>, mids: map<nat, (nat, nat)>)
    reads nfa
  {
    && SharedOk(nfa.arcs, f, mids, nfa.pre, nfa.post) && Enlisted(list, mids) && mids.Keys <= nfa.ins.Keys
    && nfa.tmp == Chain(list) && intermediates == Newest(list)
  }

  /** pull(), regc_nfa.c:1531-1620. done is what it returns; mid tells which intermediate states were used,
      and alone whether the constraint was the only out-arc of its source. */
  method Pull(nfa: Nfa, con: Arc, intermediates: Option<nat>, ghost list: seq<nat>, ghost mids: map<nat, (nat, nat)>, ghost rank: nat -> int)
    returns (done: bool, newest: Option<nat>, ghost list2: seq<nat>, ghost mids2: map<nat, (nat, nat)>, ghost mid: map<nat, nat>, ghost alone: bool)
    requires nfa.Valid() && con in nfa.arcs && Back(con.typ) && nfa.pre in nfa.ins && nfa.post in nfa.ins
    requires Shaped(nfa.arcs, nfa.pre, nfa.post) && Ranked(nfa.arcs, rank) && MidsKnown(nfa, con.from, intermediates, list, mids)
    modifies nfa`states, nfa`nstates, nfa`ins, nfa`outs, nfa`arcs, nfa`tmp
    ensures nfa.Valid() && old(nfa.ins.Keys) <= nfa.ins.Keys && (done <==> con.from != nfa.pre)
    ensures nfa.tmp == Chain(list2) && newest == Newest(list2) && Unlike(list2)
    ensures !done ==> nfa.states == old(nfa.states) && nfa.arcs == old(nfa.arcs) && MidsKnown(nfa, con.from, newest, list2, mids2)
    ensures done ==> Pulled(old(nfa.arcs), con, mid, alone, nfa.arcs) && MidsReady(old(nfa.arcs), con, mid, nfa.pre, nfa.post)
    ensures done && alone ==> Alone(old(nfa.arcs), con)
    ensures done && !alone ==> MidsKnown(nfa, con.from, newest, list2, mids2)
  {
    hide Agree, StatesAgree, Within, Chain, Searchable, Propagating, Enlisted, Newest, Aside, Alone, Copied, SharedOk, MidsReady,
      Pulled, Landed, Propagated, Chosen, SourcesOf, Moved;
    newest, list2, mids2, mid, alone := intermediates, list, mids, map[], false;
    EnlistedUnlike(list, mids);
    if nfa.Flagged(con.from) {
      NotFromPost(nfa.arcs, nfa.pre, nfa.post, con);
      return false, newest, list2, mids2, mid, alone;
    }
    done := true;
    InsAgree(nfa, con);
    if nfa.ins[con.from] == [] {
      NoInArcs(nfa.arcs, con, mids, nfa.pre, nfa.post);
      nfa.Unlink(con);
      return;
    }
    newest, list2, mids2, mid, alone := PullReachable(nfa, con, intermediates, list, mids, rank);
  }

  lemma NotFromPost(arcs: set<Arc>, pre: nat, post: nat, con: Arc)
    requires Shaped(arcs, pre, post) && con in arcs
    ensures con.from != post
  {
  }

  lemma InsAgree(nfa: Nfa, con: Arc)
    requires nfa.Valid() && con in nfa.arcs
    ensures con.from in nfa.ins && con.to in nfa.ins && Within(nfa.arcs, nfa.ins.Keys)
    ensures nfa.ins[con.from] == [] ==> InSet(nfa.arcs, con.from) == {}
  {
    assert Lists(nfa.ins[con.from], InSet(nfa.arcs, con.from));
  }

  lemma NoInArcs(arcs: set<Arc>, con: Arc, mids: map<nat, (nat, nat)>, pre: nat, post: nat)
    requires con in arcs && InSet(arcs, con.from) == {} && SharedOk(arcs, con.from, mids, pre, post)
    ensures Pulled(arcs, con, map[], false, arcs - {con}) && MidsReady(arcs, con, map[], pre, post)
    ensures SharedOk(arcs - {con}, con.from, mids, pre, post)
  {
    assert forall a :: a in arcs ==> a.to != con.from by {
      forall a | a in arcs ensures a.to != con.from { assert a.to == con.from ==> a in InSet(arcs, con.from); }
    }
    forall m | m in mids ensures false {
      SharedSearchable(arcs, con.from, mids, pre, post, m);
    }
  }

  /** The rest of pull(), for a constraint whose source can be reached. */
  method PullReachable(nfa: Nfa, con: Arc, intermediates: Option<nat>, ghost list: seq<nat>, ghost mids: map<nat, (nat, nat)>, ghost rank: nat -> int)
    returns (newest: Option<nat>, ghost list2: seq<nat>, ghost mids2: map<nat, (nat, nat)>, ghost mid: map<nat, nat>, ghost alone: bool)
    requires nfa.Valid() && con in nfa.arcs && Back(con.typ) && nfa.pre in nfa.ins && nfa.post in nfa.ins
    requires Ranked(nfa.arcs, rank) && MidsKnown(nfa, con.from, intermediates, list, mids)
    modifies nfa`states, nfa`nstates, nfa`ins, nfa`outs, nfa`arcs, nfa`tmp
    ensures nfa.Valid() && old(nfa.ins.Keys) <= nfa.ins.Keys && nfa.tmp == Chain(list2) && newest == Newest(list2) && Unlike(list2)
    ensures Pulled(old(nfa.arcs), con, mid, alone, nfa.arcs) && MidsReady(old(nfa.arcs), con, mid, nfa.pre, nfa.post)
    ensures alone ==> Alone(old(nfa.arcs), con)
    ensures !alone ==> MidsKnown(nfa, con.from, newest, list2, mids2)
  {
    hide Agree, StatesAgree, Within, Chain, Searchable, Propagating, Enlisted, Newest, Aside, Alone, Copied, SharedOk, MidsReady,
      Pulled, Landed, Propagated, Chosen, SourcesOf, Moved, Cloned;
    ghost var arcs, keys := nfa.arcs, nfa.ins.Keys;
    alone := Alone(arcs, con);
    NoLoopAt(arcs, con, rank);
    InsAgree(nfa, con);
    var con1 := Isolate(nfa, con);
    ghost var arcs1, keys1 := nfa.arcs, nfa.ins.Keys;
    IsolatedAside(arcs, con, mids, nfa.pre, nfa.post, rank, con1, arcs1, keys);
    newest, mid, mids2, list2 := Propagate(nfa, con1, intermediates, list, mids);
    ghost var now, keys2 := nfa.arcs, nfa.ins.Keys;
    LandReady(arcs1, con1, mids, mid, keys1, mids2, now, list2, keys2);
    EnlistedUnlike(list2, mids2);
    nfa.MoveIns(con1.from, con1.to);
    nfa.Unlink(con1);
    LandedPulled(arcs, con, mids, mid, keys, keys1, mids2, nfa.pre, nfa.post, rank, con1, arcs1, now, list2, keys2);
  }

  lemma NoLoopAt(arcs: set<Arc>, con: Arc, rank: nat -> int)
    requires Ranked(arcs, rank) && con in arcs && Back(con.typ)
    ensures con.from != con.to
  {
  }

  lemma IsolatedAside(arcs: set<Arc>, con: Arc, mids: map<nat, (nat, nat)>, pre: nat, post: nat, rank: nat -> int, con1: Arc, arcs1: set<Arc>, keys: set<nat>)
    requires SharedOk(arcs, con.from, mids, pre, post) && con in arcs && Ranked(arcs, rank) && Within(arcs, keys) && mids.Keys <= keys
    requires con1 == con.(from := con1.from)
    requires Alone(arcs, con) ==> con1 == con && arcs1 == arcs
    requires !Alone(arcs, con) ==> con1.from !in keys && arcs1 == Cloned(arcs, con, con1.from)
    ensures Aside(arcs1, con1, mids)
  {
    if Alone(arcs, con) {
      AsideAlone(arcs, con, mids, pre, post, rank);
    } else {
      AsideCloned(arcs, con, mids, pre, post, rank, con1.from, keys);
    }
  }

  lemma LandReady(arcs1: set<Arc>, con1: Arc, mids: map<nat, (nat, nat)>, mid: map<nat, nat>, keys1: set<nat>,
                  mids2: map<nat, (nat, nat)>, now: set<Arc>, list2: seq<nat>, keys2: set<nat>)
    requires Propagating(arcs1, con1, mids, mid, keys1, mids2, InSet(arcs1, con1.from), now, list2, keys2)
    ensures con1.from != con1.to && con1.from in keys2 && con1.to in keys2 && con1 in Moved(now, true, con1.from, con1.to)
    ensures Enlisted(list2, mids2) && mids2.Keys <= keys2 && keys1 <= keys2
    ensures Moved(now, true, con1.from, con1.to) - {con1} == Landed(arcs1, con1, mid)
  {
  }

  /** What is there in the end is what a pull should leave behind. */
  lemma LandedPulled(arcs: set<Arc>, con: Arc, mids: map<nat, (nat, nat)>, mid: map<nat, nat>, keys: set<nat>, keys1: set<nat>,
                     mids2: map<nat, (nat, nat)>, pre: nat, post: nat, rank: nat -> int, con1: Arc, arcs1: set<Arc>, now: set<Arc>,
                     list2: seq<nat>, keys2: set<nat>)
    requires SharedOk(arcs, con.from, mids, pre, post) && con in arcs && Back(con.typ) && Ranked(arcs, rank)
    requires Within(arcs, keys) && mids.Keys <= keys && pre in keys && post in keys && keys <= keys1
    requires con1 == con.(from := con1.from)
    requires Alone(arcs, con) ==> con1 == con && arcs1 == arcs
    requires !Alone(arcs, con) ==> con1.from !in keys && arcs1 == Cloned(arcs, con, con1.from)
    requires Propagating(arcs1, con1, mids, mid, keys1, mids2, InSet(arcs1, con1.from), now, list2, keys2)
    ensures Pulled(arcs, con, mid, Alone(arcs, con), Landed(arcs1, con1, mid)) && MidsReady(arcs, con, mid, pre, post)
    ensures !Alone(arcs, con) ==> SharedOk(Landed(arcs1, con1, mid), con.from, mids2, pre, post)
  {
    NoLoopAt(arcs, con, rank);
    WithinMore(arcs, keys, keys1);
    PropagatingParts(arcs1, con1, mids, mid, keys1, mids2, now, list2, keys2);
    hide Landed, SharedOk, Chosen, SourcesOf, Cloned, Pulled, MidsReady, Ranked, Propagated, Aside, Alone, Within, Propagating;
    if Alone(arcs, con) {
      AloneSources(arcs, con, mid);
      PulledAlone(arcs, con, mid);
      ChosenReady(arcs, con, mids, mid, keys1, mids2, pre, post);
    } else {
      ClonedSources(arcs, con, con1.from, keys, mid);
      PulledCloned(arcs, con, con1.from, mid, keys);
      ChosenReady(arcs, con, mids, mid, keys1, mids2, pre, post);
      PullKeepsShared(arcs, con, mids, mid, keys1, mids2, Landed(arcs1, con1, mid), pre, post, rank);
    }
  }

  lemma WithinMore(arcs: set<Arc>, keys: set<nat>, keys1: set<nat>)
    requires Within(arcs, keys) && keys <= keys1
    ensures Within(arcs, keys1) && forall a :: a in arcs ==> a.from in keys1 && a.to in keys1
  {
  }

  lemma PropagatingParts(arcs1: set<Arc>, con1: Arc, mids: map<nat, (nat, nat)>, mid: map<nat, nat>, keys1: set<nat>,
                         mids2: map<nat, (nat, nat)>, now: set<Arc>, list2: seq<nat>, keys2: set<nat>)
    requires Propagating(arcs1, con1, mids, mid, keys1, mids2, InSet(arcs1, con1.from), now, list2, keys2)
    ensures Chosen(mids, mid, con1.to, keys1, mids2) && SourcesOf(con1, InSet(arcs1, con1.from), mid)
    ensures forall p :: p in mid ==> mid[p] != con1.from
  {
    MidsNotSource(arcs1, con1, mids, mid, keys1, mids2);
  }

  // ---------------------------------------------------------------- all the constraints of one state

  /** Nothing has changed since the arcs were was, as far as texts go. */
  ghost predicate Faithful(was: set<Arc>, now: set<Arc>, pre: nat, post: nat, rank: nat -> int, back: bool) {
    SameTexts(was, now, pre, post, back) && Labelled(was, now) && Shaped(now, pre, post) && Ranked(now, rank)
  }

  /** The out-arcs still to be looked at are there, and so are all the back constraints left. */
  ghost predicate Remaining(now: set<Arc>, s: nat, pre: nat, chain: seq<Arc>, i: nat) {
    && (forall j :: i <= j < |chain| ==> chain[j] in now && chain[j].from == s)
    && (forall j, l :: i <= j < l < |chain| ==> chain[j] != chain[l])
    && (s != pre ==> forall e :: e in now && e.from == s && Back(e.typ) ==> exists j :: i <= j < |chain| && chain[j] == e)
  }

  lemma PulledSpent(now: set<Arc>, con: Arc, mid: map<nat, nat>, alone: bool, b: set<Arc>, pre: nat, post: nat, rank: nat -> int)
    requires Pulled(now, con, mid, alone, b) && MidsReady(now, con, mid, pre, post)
    requires con in now && Back(con.typ) && con.from != pre && Ranked(now, rank)
    ensures T.Spent(now, b, pre, true)
  {
    NoLoopAt(now, con, rank);
    hide Pulled, MidsReady, T.Spent;
    T.PullSpent(now, con, mid, alone, b, pre, post);
  }

  lemma PulledFaithful(was: set<Arc>, now: set<Arc>, con: Arc, mid: map<nat, nat>, alone: bool, b: set<Arc>, pre: nat, post: nat, rank: nat -> int)
    requires Faithful(was, now, pre, post, rank, true) && con in now && Back(con.typ) && con.from != pre
    requires Pulled(now, con, mid, alone, b) && MidsReady(now, con, mid, pre, post) && (alone ==> Alone(now, con))
    ensures Faithful(was, b, pre, post, PullRank(rank, mid, con.from), true)
  {
    NoLoopAt(now, con, rank);
    PullSame(now, con, mid, alone, b, pre, post);
    PullKeepsRanked(now, con, mid, alone, b, pre, post, rank);
    hide SameTexts, Labelled, Shaped, Ranked, Pulled, MidsReady;
    SameTextsTrans(was, now, b, pre, post, true);
    LabelledTrans(was, now, b);
  }

  /** A pull makes no new constraint that leaves con's source. */
  lemma NoNewConstraint(now: set<Arc>, con: Arc, mid: map<nat, nat>, alone: bool, b: set<Arc>, pre: nat, post: nat, rank: nat -> int, e: Arc)
    requires con in now && Back(con.typ) && Ranked(now, rank)
    requires Pulled(now, con, mid, alone, b) && MidsReady(now, con, mid, pre, post)
    requires e in b && e.from == con.from && Back(e.typ)
    ensures e in now && e != con
  {
    if Implied(now, con, e) || Swapped(now, con, mid, e) { NewElsewhere(now, con, mid, pre, post, rank, e); }
  }

  lemma NewElsewhere(now: set<Arc>, con: Arc, mid: map<nat, nat>, pre: nat, post: nat, rank: nat -> int, e: Arc)
    requires con in now && Back(con.typ) && Ranked(now, rank) && MidsReady(now, con, mid, pre, post)
    requires (Implied(now, con, e) || Swapped(now, con, mid, e)) && Back(e.typ)
    ensures e.from != con.from
  {
    if Implied(now, con, e) {
      var a :| a in now && a.to == con.from && Combine(con, a) == SATISFIED && e == a.(to := con.to);
    } else {
      var a :| a in now && a.to == con.from && SwappedBy(con, mid, e, a);
      assert MidReady(now, con, a.from, mid[a.from], pre, post);
    }
  }

  lemma RemainingNext(now: set<Arc>, s: nat, pre: nat, chain: seq<Arc>, i: nat, mid: map<nat, nat>, alone: bool, b: set<Arc>, post: nat, rank: nat -> int)
    requires Remaining(now, s, pre, chain, i) && i < |chain| && Ranked(now, rank) && s != pre
    requires var con := chain[i]; Back(con.typ) && Pulled(now, con, mid, alone, b) && MidsReady(now, con, mid, pre, post) && (alone ==> Alone(now, con))
    ensures Remaining(b, s, pre, chain, i + 1) && (alone ==> i + 1 == |chain|)
  {
    var con := chain[i];
    NoLoopAt(now, con, rank);
    forall e | e in b && e.from == s && Back(e.typ) ensures exists j :: i + 1 <= j < |chain| && chain[j] == e {
      NoNewConstraint(now, con, mid, alone, b, pre, post, rank, e);
      var j :| i <= j < |chain| && chain[j] == e;
      assert i + 1 <= j;
    }
    if i + 1 < |chain| { assert chain[i + 1] in now && chain[i + 1].from == con.from && chain[i + 1] != con; }
  }

  lemma RemainingSkip(now: set<Arc>, s: nat, pre: nat, chain: seq<Arc>, i: nat)
    requires Remaining(now, s, pre, chain, i) && i < |chain| && (!Back(chain[i].typ) || s == pre)
    ensures Remaining(now, s, pre, chain, i + 1)
  {
    if s != pre {
      forall e | e in now && e.from == s && Back(e.typ) ensures exists j :: i + 1 <= j < |chain| && chain[j] == e {
        var j :| i <= j < |chain| && chain[j] == e;
        assert i + 1 <= j;
      }
    }
  }

  lemma RemainingHead(now: set<Arc>, s: nat, pre: nat, chain: seq<Arc>, i: nat)
    requires Remaining(now, s, pre, chain, i) && i < |chain|
    ensures chain[i] in now && chain[i].from == s
  {
  }

  lemma RemainingNone(now: set<Arc>, s: nat, pre: nat, chain: seq<Arc>)
    requires Remaining(now, s, pre, chain, |chain|)
    ensures s != pre ==> forall e :: e in now && e.from == s ==> !Back(e.typ)
  {
  }

  /** Clear the tmp fields of the intermediate states (regc_nfa.c:1477-1482). */
  method ClearTmp(nfa: Nfa, intermediates: Option<nat>, ghost list: seq<nat>)
    requires nfa.tmp == Chain(list) && intermediates == Newest(list)
    requires Unlike(list)
    modifies nfa`tmp
    ensures nfa.tmp == map[]
  {
    hide Chain;
    var cur := intermediates;
    ghost var l := list;
    while cur.Some?
      invariant nfa.tmp == Chain(l) && cur == Newest(l) && forall i, j :: 0 <= i < j < |l| ==> l[i] != l[j]
      decreases |l|
    {
      ClearStep(l);
      var ns := if cur.value in nfa.tmp then Some(nfa.tmp[cur.value]) else None;
      nfa.tmp := nfa.tmp - {cur.value};
      cur := ns;
      l := l[..|l| - 1];
    }
    ChainNone();
  }

  lemma ClearStep(l: seq<nat>)
    requires |l| > 0 && forall i, j :: 0 <= i < j < |l| ==> l[i] != l[j]
    ensures var l2, last := l[..|l| - 1], l[|l| - 1];
      Chain(l) - {last} == Chain(l2) && (if last in Chain(l) then Some(Chain(l)[last]) else None) == Newest(l2)
  {
    var l2, last := l[..|l| - 1], l[|l| - 1];
    ChainLink(l, |l|);
    ChainKeys(l2);
    assert last !in l2;
  }

  lemma FaithfulStart(was: set<Arc>, pre: nat, post: nat, rank: nat -> int, back: bool)
    requires Shaped(was, pre, post) && Ranked(was, rank)
    ensures Faithful(was, was, pre, post, rank, back)
  {
    SameTextsRefl(was, pre, post, back);
  }

  lemma FaithfulParts(was: set<Arc>, now: set<Arc>, pre: nat, post: nat, rank: nat -> int, back: bool)
    requires Faithful(was, now, pre, post, rank, back)
    ensures Shaped(now, pre, post) && Ranked(now, rank)
  {
  }

  lemma DropFaithful(was: set<Arc>, now: set<Arc>, s: nat, pre: nat, post: nat, rank: nat -> int, back: bool)
    requires Faithful(was, now, pre, post, rank, back) && s != pre && s != post
    requires InSet(now, s) == {} || OutSet(now, s) == {}
    ensures Faithful(was, now - InSet(now, s) - OutSet(now, s), pre, post, rank, back)
  {
    var b := now - InSet(now, s) - OutSet(now, s);
    DropSame(now, s, pre, post, back);
    SameTextsTrans(was, now, b, pre, post, back);
  }

  lemma ChainsEmpty(nfa: Nfa, s: nat)
    requires nfa.Valid() && s in nfa.ins
    ensures nfa.ins[s] == [] ==> InSet(nfa.arcs, s) == {}
    ensures nfa.outs[s] == [] ==> OutSet(nfa.arcs, s) == {}
  {
    assert Lists(nfa.ins[s], InSet(nfa.arcs, s)) && Lists(nfa.outs[s], OutSet(nfa.arcs, s));
  }

  lemma RemainingStart(nfa: Nfa, s: nat)
    requires nfa.Valid() && s in nfa.ins
    ensures Remaining(nfa.arcs, s, nfa.pre, nfa.outs[s], 0)
  {
    var chain := nfa.outs[s];
    assert Lists(chain, OutSet(nfa.arcs, s));
    forall j | 0 <= j < |chain| ensures chain[j] in OutSet(nfa.arcs, s) {}
    forall e | e in nfa.arcs && e.from == s ensures exists j :: 0 <= j < |chain| && chain[j] == e {
      assert e in OutSet(nfa.arcs, s) && e in chain;
    }
  }

  lemma MidsKnownStart(nfa: Nfa, s: nat)
    requires nfa.tmp == map[]
    ensures MidsKnown(nfa, s, None, [], map[])
  {
  }

  /** Pull the constraints one after the other (regc_nfa.c:1467-1475). */
  method PullAll(nfa: Nfa, s: nat, ghost rank: nat -> int)
    returns (progress: bool, newest: Option<nat>, ghost list: seq<nat>, ghost rank2: nat -> int)
    requires nfa.Valid() && s in nfa.ins && nfa.tmp == map[] && nfa.pre in nfa.ins && nfa.post in nfa.ins
    requires Shaped(nfa.arcs, nfa.pre, nfa.post) && Ranked(nfa.arcs, rank)
    modifies nfa`states, nfa`nstates, nfa`ins, nfa`outs, nfa`arcs, nfa`tmp
    ensures nfa.Valid() && nfa.tmp == Chain(list) && newest == Newest(list) && old(nfa.ins.Keys) <= nfa.ins.Keys
    ensures Unlike(list)
    ensures Faithful(old(nfa.arcs), nfa.arcs, nfa.pre, nfa.post, rank2, true)
    ensures s != nfa.pre ==> forall e :: e in nfa.arcs && e.from == s ==> !Back(e.typ)
    ensures !progress ==> nfa.states == old(nfa.states) && nfa.arcs == old(nfa.arcs)
    ensures T.Spent(old(nfa.arcs), nfa.arcs, nfa.pre, progress)
  {
    hide Agree, StatesAgree, Within, Chain, Enlisted, Newest, SharedOk, Faithful, Remaining, Pulled, MidsReady, Ranked, Shaped, Alone, MidsKnown, PullRank, Unlike, Lists, Back, T.Spent;
    ghost var was := nfa.arcs;
    var chain := nfa.outs[s];
    RemainingStart(nfa, s);
    MidsKnownStart(nfa, s);
    FaithfulStart(was, nfa.pre, nfa.post, rank, true);
    T.SpentNothing(was, was, nfa.pre);
    ghost var mids: map<nat, (nat, nat)> := map[];
    progress, newest, list, rank2 := false, None, [], rank;
    var i := 0;
    ghost var over := false;
    KnownParts(nfa, s, newest, list, mids);
    while i < |chain|
      invariant 0 <= i <= |chain| && nfa.Valid() && old(nfa.ins.Keys) <= nfa.ins.Keys
      invariant nfa.tmp == Chain(list) && newest == Newest(list) && Unlike(list)
      invariant Faithful(was, nfa.arcs, nfa.pre, nfa.post, rank2, true) && Remaining(nfa.arcs, s, nfa.pre, chain, i)
      invariant if over then i == |chain| else MidsKnown(nfa, s, newest, list, mids)
      invariant T.Spent(was, nfa.arcs, nfa.pre, progress)
      invariant !progress ==> nfa.states == old(nfa.states) && nfa.arcs == was
    {
      if Back(chain[i].typ) {
        var done;
        ghost var now := nfa.arcs;
        done, newest, list, mids, rank2, over := PullOne(nfa, s, chain, i, newest, was, list, mids, rank2);
        T.SpentTrans(was, now, nfa.arcs, nfa.pre, progress, done);
        progress := progress || done;
      } else {
        RemainingSkip(nfa.arcs, s, nfa.pre, chain, i);
      }
      i := i + 1;
    }
    RemainingNone(nfa.arcs, s, nfa.pre, chain);
  }

  lemma KnownParts(nfa: Nfa, s: nat, newest: Option<nat>, list: seq<nat>, mids: map<nat, (nat, nat)>)
    requires MidsKnown(nfa, s, newest, list, mids)
    ensures nfa.tmp == Chain(list) && newest == Newest(list) && Unlike(list)
  {
  }

  /** One back constraint of the chain. */
  method PullOne(nfa: Nfa, s: nat, chain: seq<Arc>, i: nat, intermediates: Option<nat>, ghost was: set<Arc>, ghost list: seq<nat>,
                 ghost mids: map<nat, (nat, nat)>, ghost rank: nat -> int)
    returns (done: bool, newest: Option<nat>, ghost list2: seq<nat>, ghost mids2: map<nat, (nat, nat)>, ghost rank2: nat -> int, ghost over: bool)
    requires nfa.Valid() && nfa.pre in nfa.ins && nfa.post in nfa.ins && i < |chain| && Back(chain[i].typ)
    requires Faithful(was, nfa.arcs, nfa.pre, nfa.post, rank, true) && Remaining(nfa.arcs, s, nfa.pre, chain, i)
    requires MidsKnown(nfa, s, intermediates, list, mids)
    modifies nfa`states, nfa`nstates, nfa`ins, nfa`outs, nfa`arcs, nfa`tmp
    ensures nfa.Valid() && old(nfa.ins.Keys) <= nfa.ins.Keys && nfa.tmp == Chain(list2) && newest == Newest(list2) && Unlike(list2)
    ensures Faithful(was, nfa.arcs, nfa.pre, nfa.post, rank2, true) && Remaining(nfa.arcs, s, nfa.pre, chain, i + 1)
    ensures if over then i + 1 == |chain| else MidsKnown(nfa, s, newest, list2, mids2)
    ensures !done ==> nfa.states == old(nfa.states) && nfa.arcs == old(nfa.arcs)
    ensures T.Spent(old(nfa.arcs), nfa.arcs, nfa.pre, done)
  {
    hide Agree, StatesAgree, Within, Chain, Enlisted, Newest, SharedOk, Faithful, Remaining, Pulled, MidsReady, Ranked, Shaped, Alone, MidsKnown, PullRank, Unlike, T.Spent;
    ghost var now := nfa.arcs;
    FaithfulParts(was, now, nfa.pre, nfa.post, rank, true);
    RemainingHead(now, s, nfa.pre, chain, i);
    ghost var mid;
    done, newest, list2, mids2, mid, over := Pull(nfa, chain[i], intermediates, list, mids, rank);
    rank2 := rank;
    if done {
      rank2 := PullRank(rank, mid, s);
      PulledSpent(now, chain[i], mid, over, nfa.arcs, nfa.pre, nfa.post, rank);
      PulledFaithful(was, now, chain[i], mid, over, nfa.arcs, nfa.pre, nfa.post, rank);
      RemainingNext(now, s, nfa.pre, chain, i, mid, over, nfa.arcs, nfa.post, rank);
    } else {
      over := false;
      T.SpentNothing(now, nfa.arcs, nfa.pre);
      RemainingSkip(now, s, nfa.pre, chain, i);
    }
    if !over { KnownParts(nfa, s, newest, list2, mids2); }
  }

  /** One state's turn in pullback() (regc_nfa.c:1446-1510): pull every back constraint that leaves s, clear
      the tmp fields, and drop s if it has become useless. */
  method PullState(nfa: Nfa, s: nat, ghost rank: nat -> int) returns (progress: bool, ghost rank2: nat -> int)
    requires nfa.Valid() && s in nfa.ins && nfa.tmp == map[] && nfa.pre in nfa.ins && nfa.post in nfa.ins
    requires Shaped(nfa.arcs, nfa.pre, nfa.post) && Ranked(nfa.arcs, rank)
    modifies nfa`states, nfa`nstates, nfa`ins, nfa`outs, nfa`arcs, nfa`tmp
    ensures nfa.Valid() && nfa.tmp == map[] && nfa.pre in nfa.ins && nfa.post in nfa.ins
    ensures Faithful(old(nfa.arcs), nfa.arcs, nfa.pre, nfa.post, rank2, true)
    ensures s != nfa.pre ==> forall e :: e in nfa.arcs && e.from == s ==> !Back(e.typ)
    ensures !progress ==> nfa.arcs <= old(nfa.arcs)
    ensures T.Spent(old(nfa.arcs), nfa.arcs, nfa.pre, progress)
    ensures forall x :: x in old(nfa.ins) && x != s ==> x in nfa.ins
    ensures !progress ==> nfa.states == old(nfa.states) || nfa.states == Removed(old(nfa.states), s)
  {
    hide Agree, StatesAgree, Within, Chain, Enlisted, Newest, SharedOk, Faithful, Remaining, Pulled, MidsReady, Ranked, Shaped, Alone, T.Spent, Removed;
    var newest;
    ghost var list;
    progress, newest, list, rank2 := PullAll(nfa, s, rank);
    ClearTmp(nfa, newest, list);
    FaithfulParts(old(nfa.arcs), nfa.arcs, nfa.pre, nfa.post, rank2, true);
    ChainsEmpty(nfa, s);
    if (nfa.ins[s] == [] || nfa.outs[s] == []) && !nfa.Flagged(s) {
      DropFaithful(old(nfa.arcs), nfa.arcs, s, nfa.pre, nfa.post, rank2, true);
      ghost var now := nfa.arcs;
      nfa.DropState(s);
      T.SpentNothing(now, nfa.arcs, nfa.pre);
      T.SpentTrans(old(nfa.arcs), now, nfa.arcs, nfa.pre, progress, false);
    }
  }
}
