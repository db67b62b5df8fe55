/** Breaking loops of constraint arcs: clonesuccessorstates() and breakconstraintloop(), regc_nfa.c:2302-2682, and
    fixconstraintloops() as a whole, regc_nfa.c:2159-2240. */
module Breaking {
  import opened Options
  import opened Nfa
  import opened Runs
  import opened ConstraintLoops
  import opened Clones

  // ---------------------------------------------------------------- filling one clone

  /** The clone x of origin being filled: the states that are off limits because of the clones above it, the labels that
      hold where it is, and the arcs before it has any. */
  datatype Site = Site(x: nat, origin: nat, above: set<nat>, sure: set<Label>, before: set<Arc>)

  /** y is the child made for the target of a. */
  ghost predicate KidFor(b: set<Arc>, kids: map<nat, nat>, x: nat, a: Arc, y: nat) {
    y in kids && kids[y] == a.to && Arc(a.typ, a.co, x, y) in b
  }

  /** Arc a of a merged state has been dealt with. */
  ghost predicate Treated(g: Ground, w: Site, b: set<Arc>, kids: map<nat, nat>, cov: set<nat>, a: Arc) {
    if Follows(g.arcs, a) then a.to == g.head || a.to in w.above || a.to in cov || exists y :: KidFor(b, kids, w.x, a, y)
    else a.(from := w.x) in b
  }

  ghost predicate ComesFrom(g: Ground, kids: map<nat, nat>, handled: set<Arc>, e: Arc, a: Arc) {
    a in handled && LabelOf(a) == LabelOf(e) && if Follows(g.arcs, a) then e.to in kids && kids[e.to] == a.to else e.to == a.to
  }

  ghost predicate Comes(g: Ground, kids: map<nat, nat>, handled: set<Arc>, e: Arc) {
    exists a :: ComesFrom(g, kids, handled, e, a)
  }

  /** A state merged into the clone. */
  ghost predicate Fits(g: Ground, w: Site, s: nat) {
    s in g.keys && s != g.head && s !in w.above && Inner(g.arcs, s) && Free(g.arcs, w.sure, w.origin, s)
  }

  /** A child of the clone, not filled yet. */
  ghost predicate Kid(g: Ground, w: Site, b: set<Arc>, kids: map<nat, nat>, cov: set<nat>, y: nat)
    requires y in kids
  {
    && y !in g.keys && w.x < y && (forall e :: e in w.before ==> e.from != y && e.to != y)
    && kids[y] in g.keys && kids[y] != g.head && kids[y] !in w.above && kids[y] !in cov && Inner(g.arcs, kids[y])
    && exists e :: e in b && e.from == w.x && e.to == y
  }

  /** Where filling the clone stands: kids are its children with what they stand for, cov the states merged so far,
      handled the arcs of theirs that have been dealt with. */
  ghost predicate Filling(g: Ground, w: Site, b: set<Arc>, kids: map<nat, nat>, cov: set<nat>, handled: set<Arc>) {
    && (forall e :: e in w.before ==> e in b && e.from != w.x) && (forall e :: e in b ==> e in w.before || e.from == w.x)
    && w.x !in g.keys && w.x !in kids && (forall y :: y in kids ==> Kid(g, w, b, kids, cov, y))
    && (forall y, z :: y in kids && z in kids && kids[y] == kids[z] ==> y == z)
    && (forall a :: a in handled ==> a in g.arcs && a.from in cov && Treated(g, w, b, kids, cov, a))
    && (forall e :: e in b && e.from == w.x ==> Comes(g, kids, handled, e))
    && w.origin in cov && forall s :: s in cov ==> Fits(g, w, s)
  }

  lemma TreatedMore(g: Ground, w: Site, b: set<Arc>, kids: map<nat, nat>, cov: set<nat>, b2: set<Arc>, kids2: map<nat, nat>, cov2: set<nat>, a: Arc)
    requires Treated(g, w, b, kids, cov, a) && b <= b2 && cov <= cov2
    requires forall y :: y in kids ==> y in kids2 && kids2[y] == kids[y]
    ensures Treated(g, w, b2, kids2, cov2, a)
  {
    if Follows(g.arcs, a) && a.to != g.head && a.to !in w.above && a.to !in cov {
      var y :| KidFor(b, kids, w.x, a, y);
      assert KidFor(b2, kids2, w.x, a, y);
    }
  }

  lemma ComesMore(g: Ground, kids: map<nat, nat>, handled: set<Arc>, kids2: map<nat, nat>, handled2: set<Arc>, e: Arc)
    requires Comes(g, kids, handled, e) && handled <= handled2
    requires forall y :: y in kids ==> y in kids2 && kids2[y] == kids[y]
    ensures Comes(g, kids2, handled2, e)
  {
    var a :| ComesFrom(g, kids, handled, e, a);
    assert ComesFrom(g, kids2, handled2, e, a);
  }

  lemma FollowsInner(arcs: set<Arc>, a: Arc)
    requires a in arcs && Follows(arcs, a)
    ensures Inner(arcs, a.to)
  {
  }

  lemma KidStays(g: Ground, w: Site, b: set<Arc>, kids: map<nat, nat>, cov: set<nat>, b2: set<Arc>, kids2: map<nat, nat>, cov2: set<nat>, y: nat)
    requires y in kids && y in kids2 && kids2[y] == kids[y] && Kid(g, w, b, kids, cov, y) && (kids[y] in cov2 ==> kids[y] in cov)
    requires forall e :: e in b && e.to == y ==> e in b2
    ensures Kid(g, w, b2, kids2, cov2, y)
  {
    hide Inner;
    var c :| c in b && c.from == w.x && c.to == y;
    assert c in b2;
  }

  /** One arc more: a copy, or one to a child there is. */
  lemma FillMore(g: Ground, w: Site, b: set<Arc>, kids: map<nat, nat>, cov: set<nat>, handled: set<Arc>, a: Arc, e: Arc)
    requires Filling(g, w, b, kids, cov, handled) && a in g.arcs && a.from in cov && e.from == w.x && LabelOf(e) == LabelOf(a)
    requires if Follows(g.arcs, a) then e.to in kids && kids[e.to] == a.to else e.to == a.to
    ensures Filling(g, w, b + {e}, kids, cov, handled + {a})
  {
    hide Follows, Fits, Inner, Kid, Treated, Comes;
    var b2, handled2 := b + {e}, handled + {a};
    MoreTreated(g, w, b2, kids, cov, handled2, a, e);
    forall c | c in handled ensures Treated(g, w, b2, kids, cov, c) { TreatedMore(g, w, b, kids, cov, b2, kids, cov, c); }
    forall c | c in b && c.from == w.x ensures Comes(g, kids, handled2, c) { ComesMore(g, kids, handled, kids, handled2, c); }
    forall y | y in kids ensures Kid(g, w, b2, kids, cov, y) { KidStays(g, w, b, kids, cov, b2, kids, cov, y); }
  }

  lemma MoreTreated(g: Ground, w: Site, b: set<Arc>, kids: map<nat, nat>, cov: set<nat>, handled: set<Arc>, a: Arc, e: Arc)
    requires a in handled && e in b && e.from == w.x && LabelOf(e) == LabelOf(a)
    requires if Follows(g.arcs, a) then e.to in kids && kids[e.to] == a.to else e.to == a.to
    ensures Treated(g, w, b, kids, cov, a) && Comes(g, kids, handled, e)
  {
    assert ComesFrom(g, kids, handled, e, a);
    if Follows(g.arcs, a) { assert KidFor(b, kids, w.x, a, e.to); } else { assert e == a.(from := w.x); }
  }

  /** The target has been dealt with, or must not be gone back to. */
  lemma FillSkip(g: Ground, w: Site, b: set<Arc>, kids: map<nat, nat>, cov: set<nat>, handled: set<Arc>, a: Arc)
    requires Filling(g, w, b, kids, cov, handled) && a in g.arcs && a.from in cov && Follows(g.arcs, a)
    requires a.to == g.head || a.to in w.above || a.to in cov
    ensures Filling(g, w, b, kids, cov, handled + {a})
  {
    hide Follows, Fits, Kid, Inner;
    forall c | c in b && c.from == w.x ensures Comes(g, kids, handled + {a}, c) { ComesMore(g, kids, handled, kids, handled + {a}, c); }
  }

  lemma KidNew(g: Ground, w: Site, b: set<Arc>, kids: map<nat, nat>, cov: set<nat>, y: nat, e: Arc)
    requires y in kids && y !in g.keys && w.x < y && (forall e :: e in w.before ==> e.from != y && e.to != y)
    requires kids[y] in g.keys && kids[y] != g.head && kids[y] !in w.above && kids[y] !in cov && Inner(g.arcs, kids[y])
    requires e in b && e.from == w.x && e.to == y
    ensures Kid(g, w, b, kids, cov, y)
  {
  }

  /** A new child. */
  lemma FillNew(g: Ground, w: Site, b: set<Arc>, kids: map<nat, nat>, cov: set<nat>, handled: set<Arc>, a: Arc, y: nat)
    requires Filling(g, w, b, kids, cov, handled) && a in g.arcs && a.from in cov && Follows(g.arcs, a) && Within(g.arcs, g.keys)
    requires a.to != g.head && a.to !in w.above && a.to !in cov && a.to !in kids.Values
    requires y !in g.keys && y !in kids && w.x < y && forall e :: e in b ==> e.from != y && e.to != y
    ensures Filling(g, w, b + {Arc(a.typ, a.co, w.x, y)}, kids[y := a.to], cov, handled + {a})
  {
    hide Follows, Fits, Inner, Kid, Treated, Comes;
    var e, kids2 := Arc(a.typ, a.co, w.x, y), kids[y := a.to];
    var b2, handled2 := b + {e}, handled + {a};
    FollowsInner(g.arcs, a);
    NewTreated(g, w, b2, kids2, cov, handled2, a, y);
    forall c | c in handled ensures Treated(g, w, b2, kids2, cov, c) { TreatedMore(g, w, b, kids, cov, b2, kids2, cov, c); }
    forall c | c in b && c.from == w.x ensures Comes(g, kids2, handled2, c) { ComesMore(g, kids, handled, kids2, handled2, c); }
    forall z | z in kids2 ensures Kid(g, w, b2, kids2, cov, z) {
      if z == y { KidNew(g, w, b2, kids2, cov, y, e); } else { KidStays(g, w, b, kids, cov, b2, kids2, cov, z); }
    }
    forall z | z in kids ensures kids[z] in kids.Values {}
  }

  lemma NewTreated(g: Ground, w: Site, b: set<Arc>, kids: map<nat, nat>, cov: set<nat>, handled: set<Arc>, a: Arc, y: nat)
    requires a in handled && Follows(g.arcs, a) && y in kids && kids[y] == a.to && Arc(a.typ, a.co, w.x, y) in b
    ensures Treated(g, w, b, kids, cov, a) && Comes(g, kids, handled, Arc(a.typ, a.co, w.x, y))
  {
    assert KidFor(b, kids, w.x, a, y) && ComesFrom(g, kids, handled, Arc(a.typ, a.co, w.x, y), a);
  }

  /** What is left once child y, if there is one, is dropped. */
  ghost function Less(b: set<Arc>, y: Option<nat>): set<Arc> {
    if y.Some? then b - InSet(b, y.value) - OutSet(b, y.value) else b
  }

  function Fewer(kids: map<nat, nat>, y: Option<nat>): map<nat, nat> { if y.Some? then kids - {y.value} else kids }

  /** The target needs no child: its constraint holds here. */
  lemma FillMerge(g: Ground, w: Site, b: set<Arc>, kids: map<nat, nat>, cov: set<nat>, handled: set<Arc>, a: Arc, y: Option<nat>)
    requires Filling(g, w, b, kids, cov, handled) && a in g.arcs && a.from in cov && Follows(g.arcs, a) && Within(g.arcs, g.keys)
    requires a.to != g.head && a.to !in w.above && a.to !in cov && LabelOf(a) in w.sure
    requires if y.Some? then y.value in kids && kids[y.value] == a.to else a.to !in kids.Values
    ensures Filling(g, w, Less(b, y), Fewer(kids, y), cov + {a.to}, handled + {a})
  {
    hide Follows, Fits, Inner, Kid, Treated, Comes;
    var b2, kids2, cov2, handled2 := Less(b, y), Fewer(kids, y), cov + {a.to}, handled + {a};
    assert Fits(g, w, a.from);
    MergedFits(g, w, a);
    if y.Some? { KidOutside(g, w, b, kids, cov, y.value); }
    forall c | c in handled2 ensures Treated(g, w, b2, kids2, cov2, c) {
      if c in handled { TreatedLess(g, w, b, kids, cov, y, a, c); } else { MergedTreated(g, w, b2, kids2, cov2, a); }
    }
    forall c | c in b2 && c.from == w.x ensures Comes(g, kids2, handled2, c) { ComesLess(g, w, b, kids, handled, y, a, c); }
    forall z | z in kids2 ensures Kid(g, w, b2, kids2, cov2, z) {
      assert kids[z] in kids.Values;
      KidStays(g, w, b, kids, cov, b2, kids2, cov2, z);
    }
  }

  lemma MergedFits(g: Ground, w: Site, a: Arc)
    requires Fits(g, w, a.from) && a in g.arcs && Follows(g.arcs, a) && Within(g.arcs, g.keys)
    requires a.to != g.head && a.to !in w.above && LabelOf(a) in w.sure
    ensures Fits(g, w, a.to)
  {
    FollowsInner(g.arcs, a);
    FreeOn(g.arcs, w.sure, w.origin, a);
  }

  lemma MergedTreated(g: Ground, w: Site, b: set<Arc>, kids: map<nat, nat>, cov: set<nat>, a: Arc)
    requires Follows(g.arcs, a) && a.to in cov
    ensures Treated(g, w, b, kids, cov, a)
  {
  }

  lemma KidOutside(g: Ground, w: Site, b: set<Arc>, kids: map<nat, nat>, cov: set<nat>, y: nat)
    requires y in kids && Kid(g, w, b, kids, cov, y)
    ensures y !in g.keys && y != w.x && forall e :: e in w.before ==> e.from != y && e.to != y
  {
  }

  lemma ComesLess(g: Ground, w: Site, b: set<Arc>, kids: map<nat, nat>, handled: set<Arc>, y: Option<nat>, a: Arc, c: Arc)
    requires c in Less(b, y) && Comes(g, kids, handled, c)
    ensures Comes(g, Fewer(kids, y), handled + {a}, c)
  {
    var d :| ComesFrom(g, kids, handled, c, d);
    if y.Some? { assert c in InSet(b, y.value) <==> c.to == y.value; }
    assert ComesFrom(g, Fewer(kids, y), handled + {a}, c, d);
  }

  lemma TreatedLess(g: Ground, w: Site, b: set<Arc>, kids: map<nat, nat>, cov: set<nat>, y: Option<nat>, a: Arc, c: Arc)
    requires Treated(g, w, b, kids, cov, c) && w.x !in kids && (y.Some? ==> y.value in kids && kids[y.value] == a.to && y.value !in g.keys)
    requires c in g.arcs && Within(g.arcs, g.keys)
    ensures Treated(g, w, Less(b, y), Fewer(kids, y), cov + {a.to}, c)
  {
    if Follows(g.arcs, c) && c.to != g.head && c.to !in w.above && c.to !in cov {
      var z :| KidFor(b, kids, w.x, c, z);
      if !(y.Some? && z == y.value) { assert KidFor(Less(b, y), Fewer(kids, y), w.x, c, z); }
    }
  }

  lemma FreeOn(arcs: set<Arc>, sure: set<Label>, s: nat, a: Arc)
    requires Free(arcs, sure, s, a.from) && a in arcs && IsConstraint(a) && LabelOf(a) in sure
    ensures Free(arcs, sure, s, a.to)
  {
    var n: nat :| Freely(arcs, sure, s, a.from, n);
    assert FreeStep(arcs, sure, s, a.to, n + 1, a);
    assert Freely(arcs, sure, s, a.to, n + 1);
  }

  // ---------------------------------------------------------------- where the clone stands

  /** The way from x up to the root, along in-arcs. */
  ghost predicate Spine(b: set<Arc>, g: Ground, t: Tree, x: nat)
    decreases x
  {
    && x !in g.keys
    && if x in t.up then t.up[x] < x && InSet(b, x) != {} && (forall e :: e in InSet(b, x) ==> e.from == t.up[x]) && Spine(b, g, t, t.up[x])
       else InSet(b, x) == {}
  }

  /** What is known before a clone is filled. */
  ghost predicate Solid(g: Ground, w: Site, t: Tree) {
    && Within(g.arcs, g.keys) && g.arcs <= w.before && (forall e :: e in w.before ==> e in g.arcs || e.from !in g.keys)
    && Spine(w.before, g, t, w.x) && w.sure == Sure(g, w.before, t, w.x)
  }

  lemma {:induction false} SpineSame(g: Ground, b: set<Arc>, b2: set<Arc>, t: Tree, x: nat)
    requires Spine(b, g, t, x) && forall z: nat :: z <= x && z !in g.keys ==> InSet(b2, z) == InSet(b, z)
    ensures Spine(b2, g, t, x) && Sure(g, b2, t, x) == Sure(g, b, t, x)
    decreases x
  {
    if x in t.up {
      SpineSame(g, b, b2, t, t.up[x]);
      assert InSet(b2, x) == InSet(b, x);
      SoleSame(b, b2, x);
    }
  }

  lemma SoleSame(b: set<Arc>, b2: set<Arc>, x: nat)
    requires InSet(b2, x) == InSet(b, x)
    ensures Sole(b2, x) == Sole(b, x)
  {
    forall e | InSet(b, x) == {e} ensures e in b && e in b2 { assert e in InSet(b, x) && e in InSet(b2, x); }
  }

  /** The clone's arcs lead to states there were before or to clones made later. */
  lemma FillingTargets(g: Ground, w: Site, b: set<Arc>, kids: map<nat, nat>, cov: set<nat>, handled: set<Arc>)
    requires Filling(g, w, b, kids, cov, handled) && Within(g.arcs, g.keys)
    ensures forall e :: e in b && e.from == w.x ==> (e.to in g.keys && e.to !in kids) || (e.to in kids && w.x < e.to)
  {
    hide Fits, Treated, Follows;
    forall e | e in b && e.from == w.x ensures (e.to in g.keys && e.to !in kids) || (e.to in kids && w.x < e.to) {
      assert Comes(g, kids, handled, e);
      var a :| ComesFrom(g, kids, handled, e, a);
      assert e.to in kids ==> Kid(g, w, b, kids, cov, e.to);
    }
  }

  /** Filling a clone changes nothing above it. */
  lemma FillingSpine(g: Ground, w: Site, t: Tree, b: set<Arc>, kids: map<nat, nat>, cov: set<nat>, handled: set<Arc>)
    requires Solid(g, w, t) && Filling(g, w, b, kids, cov, handled)
    ensures Spine(b, g, t, w.x) && Sure(g, b, t, w.x) == w.sure
  {
    hide Spine, Sure, Fits, Treated, Follows;
    FillingTargets(g, w, b, kids, cov, handled);
    forall z: nat | z <= w.x && z !in g.keys ensures InSet(b, z) == InSet(w.before, z) {}
    SpineSame(g, w.before, b, t, w.x);
  }

  /** Arcs from the states there were before are the same as before. */
  lemma FillingOld(g: Ground, w: Site, t: Tree, b: set<Arc>, kids: map<nat, nat>, cov: set<nat>, handled: set<Arc>, s: nat)
    requires Solid(g, w, t) && Filling(g, w, b, kids, cov, handled) && s in g.keys
    ensures OutSet(b, s) == OutSet(g.arcs, s) && (HasConstraintOut(b, s) <==> HasConstraintOut(g.arcs, s))
  {
    hide Spine, Sure, Fits, Treated, Comes, Kid;
    forall e | e in b && e.from == s ensures e in g.arcs { assert e in w.before; }
  }

  // ---------------------------------------------------------------- looking around

  /** hasconstraintout(), regc_nfa.c:2139-2150. */
  method SeeConstraintOut(nfa: Nfa, s: nat) returns (r: bool)
    requires nfa.Valid() && s in nfa.ins
    ensures r <==> HasConstraintOut(nfa.arcs, s)
  {
    var chain := nfa.outs[s];
    assert Lists(chain, OutSet(nfa.arcs, s));
    var i := 0;
    while i < |chain|
      invariant i <= |chain| && forall k :: 0 <= k < i ==> !IsConstraint(chain[k])
    {
      if IsConstraint(chain[i]) {
        assert chain[i] in OutSet(nfa.arcs, s);
        return true;
      }
      i := i + 1;
    }
    forall a | a in nfa.arcs && a.from == s ensures !IsConstraint(a) { assert a in OutSet(nfa.arcs, s) && a in chain; }
    r := false;
  }

  /** Is there a child clone for this state already (regc_nfa.c:2584-2590)? */
  method FindClone(nfa: Nfa, x: nat, sto: nat) returns (r: Option<nat>)
    requires nfa.Valid() && x in nfa.ins
    ensures r.Some? ==> r.value in nfa.tmp && nfa.tmp[r.value] == sto && exists e :: e in nfa.arcs && e.from == x && e.to == r.value
    ensures r.None? ==> forall e :: e in nfa.arcs && e.from == x && e.to in nfa.tmp ==> nfa.tmp[e.to] != sto
  {
    var chain := nfa.outs[x];
    assert Lists(chain, OutSet(nfa.arcs, x));
    var i := 0;
    while i < |chain|
      invariant i <= |chain| && forall k :: 0 <= k < i && chain[k].to in nfa.tmp ==> nfa.tmp[chain[k].to] != sto
    {
      if chain[i].to in nfa.tmp && nfa.tmp[chain[i].to] == sto {
        assert chain[i] in OutSet(nfa.arcs, x);
        return Some(chain[i].to);
      }
      i := i + 1;
    }
    forall e | e in nfa.arcs && e.from == x && e.to in nfa.tmp ensures nfa.tmp[e.to] != sto { assert e in OutSet(nfa.arcs, x) && e in chain; }
    r := None;
  }

  lemma SpineIns(nfa: Nfa, g: Ground, t: Tree, x: nat)
    requires nfa.Valid() && Spine(nfa.arcs, g, t, x) && x in nfa.ins
    ensures nfa.ins[x] == [] <==> x !in t.up
    ensures nfa.ins[x] != [] ==> nfa.ins[x][0].from == t.up[x] < x && t.up[x] in nfa.ins && Spine(nfa.arcs, g, t, t.up[x])
    ensures Sole(nfa.arcs, x) == if |nfa.ins[x]| == 1 then {LabelOf(nfa.ins[x][0])} else {}
  {
    var chain := nfa.ins[x];
    assert Lists(chain, InSet(nfa.arcs, x)) by { assert InSet(nfa.arcs, x) == SideSet(nfa.arcs, x, true); }
    if chain != [] {
      assert chain[0] in InSet(nfa.arcs, x);
      if |chain| == 1 {
        assert InSet(nfa.arcs, x) == {chain[0]};
        assert Sole(nfa.arcs, x) == {LabelOf(chain[0])};
      } else {
        assert chain[0] != chain[1] && chain[1] in InSet(nfa.arcs, x);
        forall e ensures InSet(nfa.arcs, x) != {e} {}
      }
    } else {
      forall e ensures e !in InSet(nfa.arcs, x) { assert e in InSet(nfa.arcs, x) <==> e in chain; }
      forall e ensures InSet(nfa.arcs, x) != {e} {}
    }
  }

  /** Does the constraint hold wherever x is reached (regc_nfa.c:2598-2611)? */
  method Implied(nfa: Nfa, x: nat, a: Arc, refarc: Option<Label>, ghost g: Ground, ghost t: Tree) returns (r: bool)
    requires nfa.Valid() && x in nfa.ins && Spine(nfa.arcs, g, t, x) && g.ref == if refarc.Some? then {refarc.value} else {}
    ensures r <==> LabelOf(a) in Sure(g, nfa.arcs, t, x)
  {
    hide Agree, StatesAgree, Within, Sole, Spine;
    var s := x;
    if refarc == Some(LabelOf(a)) {
      RefSure(g, nfa.arcs, t, x);
      return true;
    }
    SpineIns(nfa, g, t, s);
    while nfa.ins[s] != []
      invariant s in nfa.ins && Spine(nfa.arcs, g, t, s) && (LabelOf(a) in Sure(g, nfa.arcs, t, x) <==> LabelOf(a) in Sure(g, nfa.arcs, t, s))
      invariant nfa.ins[s] == [] <==> s !in t.up
      decreases s
    {
      SpineIns(nfa, g, t, s);
      if |nfa.ins[s]| == 1 && nfa.ins[s][0].typ == a.typ && nfa.ins[s][0].co == a.co { return true; }
      s := nfa.ins[s][0].from;
      SpineIns(nfa, g, t, s);
    }
    r := false;
  }

  lemma {:induction false} RefSure(g: Ground, b: set<Arc>, t: Tree, x: nat)
    ensures g.ref <= Sure(g, b, t, x)
    decreases x
  {
    if x in t.up && t.up[x] < x { RefSure(g, b, t, t.up[x]); }
  }

  // ---------------------------------------------------------------- clonesuccessorstates(), one clone

  /** The automaton while a clone is filled: its children are the states that are new, and their tmp pointers tell what
      they stand for. */
  ghost predicate Underway(nfa: Nfa, g: Ground, w: Site, keys: set<nat>, tmp0: map<nat, nat>, kids: map<nat, nat>)
    reads nfa
  {
    && nfa.Valid() && Tended(nfa.tmp, nfa.ins.Keys, g, keys, tmp0, kids)
    && w.x in keys && w.x !in kids && nfa.pre in g.keys && nfa.post in g.keys
  }

  ghost predicate Tended(tmp: map<nat, nat>, now: set<nat>, g: Ground, keys: set<nat>, tmp0: map<nat, nat>, kids: map<nat, nat>) {
    && tmp == tmp0 + kids && kids.Keys !! keys && now == keys + kids.Keys && tmp0.Keys <= keys && tmp0.Keys !! g.keys && g.keys <= keys
  }

  lemma TendedIn(tmp: map<nat, nat>, now: set<nat>, g: Ground, keys: set<nat>, tmp0: map<nat, nat>, kids: map<nat, nat>)
    requires Tended(tmp, now, g, keys, tmp0, kids)
    ensures g.keys <= now && keys <= now && kids.Keys <= now && kids.Keys !! g.keys
  {
  }

  lemma TendedKids(tmp: map<nat, nat>, now: set<nat>, g: Ground, clones: set<nat>, tmp0: map<nat, nat>, kids: map<nat, nat>)
    requires Tended(tmp, now, g, g.keys + clones, tmp0, kids)
    ensures kids.Keys !! clones && tmp == tmp0 + kids && tmp0.Keys !! kids.Keys
  {
  }

  lemma TendedNew(tmp: map<nat, nat>, now: set<nat>, g: Ground, keys: set<nat>, tmp0: map<nat, nat>, kids: map<nat, nat>, y: nat, sto: nat)
    requires Tended(tmp, now, g, keys, tmp0, kids) && y !in now
    ensures Tended(tmp[y := sto], now + {y}, g, keys, tmp0, kids[y := sto])
  {
  }

  lemma TendedLess(tmp: map<nat, nat>, now: set<nat>, g: Ground, keys: set<nat>, tmp0: map<nat, nat>, kids: map<nat, nat>, y: nat)
    requires Tended(tmp, now, g, keys, tmp0, kids) && y in kids
    ensures Tended(tmp - {y}, now - {y}, g, keys, tmp0, kids - {y})
  {
  }

  /** The states off limits. */
  ghost predicate Barred(g: Ground, w: Site, cov: set<nat>, done: set<nat>) {
    done == {g.head} + w.above + cov
  }

  ghost predicate Known(g: Ground, refarc: Option<Label>) {
    g.ref == if refarc.Some? then {refarc.value} else {}
  }

  /** The arcs of the states merged since. */
  ghost function Since(g: Ground, cov: set<nat>, cov2: set<nat>): set<Arc> {
    set a | a in g.arcs && a.from in cov2 - cov
  }

  /** All there is to know while the clone is filled. */
  ghost predicate Going(nfa: Nfa, g: Ground, w: Site, t: Tree, keys: set<nat>, tmp0: map<nat, nat>, kids: map<nat, nat>, cov: set<nat>, handled: set<Arc>)
    reads nfa
  {
    Underway(nfa, g, w, keys, tmp0, kids) && Filling(g, w, nfa.arcs, kids, cov, handled) && Solid(g, w, t)
  }

  /** Arc a leads where the clone may go on: to a state not off limits that has constraint out-arcs. */
  ghost predicate Onward(g: Ground, w: Site, cov: set<nat>, a: Arc) {
    a in g.arcs && a.from in cov && Follows(g.arcs, a) && a.to != g.head && a.to !in w.above && a.to !in cov
  }

  /** An arc that is copied (regc_nfa.c:2656). */
  method CopyOut(nfa: Nfa, a: Arc, x: nat, ghost g: Ground, ghost w: Site, ghost t: Tree, ghost keys: set<nat>, ghost tmp0: map<nat, nat>,
                 ghost kids: map<nat, nat>, ghost cov: set<nat>, ghost handled: set<Arc>)
    requires Going(nfa, g, w, t, keys, tmp0, kids, cov, handled) && x == w.x && a in g.arcs && a.from in cov && !Follows(g.arcs, a)
    modifies nfa`ins, nfa`outs, nfa`arcs
    ensures Going(nfa, g, w, t, keys, tmp0, kids, cov, handled + {a})
  {
    hide Agree, StatesAgree, Filling, Spine, Sure, Follows;
    FillMore(g, w, nfa.arcs, kids, cov, handled, a, a.(from := w.x));
    nfa.LinkUnlessPresent(a.(from := x));
  }

  /** Another arc to a child there is (regc_nfa.c:2634). */
  method AnotherArc(nfa: Nfa, a: Arc, x: nat, y: nat, ghost g: Ground, ghost w: Site, ghost t: Tree, ghost keys: set<nat>, ghost tmp0: map<nat, nat>,
                    ghost kids: map<nat, nat>, ghost cov: set<nat>, ghost handled: set<Arc>)
    requires Going(nfa, g, w, t, keys, tmp0, kids, cov, handled) && x == w.x && Onward(g, w, cov, a) && y in kids && kids[y] == a.to
    modifies nfa`ins, nfa`outs, nfa`arcs
    ensures Going(nfa, g, w, t, keys, tmp0, kids, cov, handled + {a})
  {
    hide Agree, StatesAgree, Filling, Spine, Sure, Follows;
    FillMore(g, w, nfa.arcs, kids, cov, handled, a, Arc(a.typ, a.co, x, y));
    nfa.LinkUnlessPresent(Arc(a.typ, a.co, x, y));
  }

  lemma NothingAt(nfa: Nfa, y: nat)
    requires nfa.Valid() && y !in nfa.ins
    ensures forall e :: e in nfa.arcs ==> e.from != y && e.to != y
  {
  }

  lemma Numbers(nfa: Nfa)
    requires nfa.Valid()
    ensures forall s :: s in nfa.ins ==> s < nfa.nstates
  {
  }

  /** A new child (regc_nfa.c:2641-2649). */
  method NewClone(nfa: Nfa, a: Arc, x: nat, ghost g: Ground, ghost w: Site, ghost t: Tree, ghost keys: set<nat>, ghost tmp0: map<nat, nat>,
                  ghost kids: map<nat, nat>, ghost cov: set<nat>, ghost handled: set<Arc>) returns (ghost kids2: map<nat, nat>)
    requires Going(nfa, g, w, t, keys, tmp0, kids, cov, handled) && x == w.x && Onward(g, w, cov, a) && a.to !in kids.Values
    modifies nfa`states, nfa`nstates, nfa`ins, nfa`outs, nfa`arcs, nfa`tmp
    ensures Going(nfa, g, w, t, keys, tmp0, kids2, cov, handled + {a})
  {
    hide Agree, StatesAgree, Within, Filling, Spine, Sure, Follows, Tended;
    ghost var b, now, tmp := nfa.arcs, nfa.ins.Keys, nfa.tmp;
    Numbers(nfa);
    TendedIn(tmp, now, g, keys, tmp0, kids);
    var y := nfa.NewState();
    assert nfa.ins.Keys == now + {y};
    NothingNew(b, now, y);
    FillNew(g, w, b, kids, cov, handled, a, y);
    TendedNew(tmp, now, g, keys, tmp0, kids, y, a.to);
    nfa.tmp := nfa.tmp[y := a.to];
    kids2 := kids[y := a.to];
    nfa.LinkUnlessPresent(Arc(a.typ, a.co, x, y));
  }

  lemma NothingNew(b: set<Arc>, keys: set<nat>, y: nat)
    requires Within(b, keys) && y !in keys
    ensures forall e :: e in b ==> e.from != y && e.to != y
  {
  }

  /** What FindClone() sees are the children. */
  lemma KidsSeen(nfa: Nfa, g: Ground, w: Site, t: Tree, keys: set<nat>, tmp0: map<nat, nat>, kids: map<nat, nat>, cov: set<nat>, handled: set<Arc>, sto: nat, r: Option<nat>)
    requires Going(nfa, g, w, t, keys, tmp0, kids, cov, handled)
    requires r.Some? ==> r.value in nfa.tmp && nfa.tmp[r.value] == sto && exists e :: e in nfa.arcs && e.from == w.x && e.to == r.value
    requires r.None? ==> forall e :: e in nfa.arcs && e.from == w.x && e.to in nfa.tmp ==> nfa.tmp[e.to] != sto
    ensures if r.Some? then r.value in kids && kids[r.value] == sto else sto !in kids.Values
  {
    hide Agree, StatesAgree, Within, Spine, Sure, Fits, Treated;
    if r.Some? {
      var e :| e in nfa.arcs && e.from == w.x && e.to == r.value;
      FillingTargets(g, w, nfa.arcs, kids, cov, handled);
    } else {
      forall y | y in kids ensures kids[y] != sto {
        assert Kid(g, w, nfa.arcs, kids, cov, y);
        var e :| e in nfa.arcs && e.from == w.x && e.to == y;
      }
    }
  }

  lemma TargetOld(g: Ground, a: Arc)
    requires a in g.arcs && Within(g.arcs, g.keys)
    ensures a.to in g.keys && a.from in g.keys
  {
  }

  /** A child made before is dropped (regc_nfa.c:2620-2622). */
  method DropClone(nfa: Nfa, a: Arc, prev: Option<nat>, ghost g: Ground, ghost w: Site, ghost t: Tree, ghost keys: set<nat>, ghost tmp0: map<nat, nat>,
                   ghost kids: map<nat, nat>, ghost cov: set<nat>, ghost handled: set<Arc>)
    requires Going(nfa, g, w, t, keys, tmp0, kids, cov, handled) && Onward(g, w, cov, a) && LabelOf(a) in w.sure
    requires if prev.Some? then prev.value in kids && kids[prev.value] == a.to else a.to !in kids.Values
    modifies nfa`states, nfa`ins, nfa`outs, nfa`arcs, nfa`tmp
    ensures Going(nfa, g, w, t, keys, tmp0, Fewer(kids, prev), cov + {a.to}, handled + {a})
  {
    hide Agree, StatesAgree, Within, Filling, Spine, Sure, Follows;
    FillMerge(g, w, nfa.arcs, kids, cov, handled, a, prev);
    hide Tended;
    TendedIn(nfa.tmp, nfa.ins.Keys, g, keys, tmp0, kids);
    if prev.Some? {
      TendedLess(nfa.tmp, nfa.ins.Keys, g, keys, tmp0, kids, prev.value);
      nfa.tmp := nfa.tmp - {prev.value};
      nfa.DropState(prev.value);
    }
  }

  /** One out-arc of a state being merged (regc_nfa.c:2557-2657). */
  method CloneArc(nfa: Nfa, a: Arc, x: nat, done: set<nat>, refarc: Option<Label>, ghost g: Ground, ghost w: Site, ghost t: Tree, ghost keys: set<nat>,
                  ghost tmp0: map<nat, nat>, ghost kids: map<nat, nat>, ghost cov: set<nat>, ghost handled: set<Arc>)
    returns (done2: set<nat>, ghost kids2: map<nat, nat>, ghost cov2: set<nat>, ghost handled2: set<Arc>)
    requires Going(nfa, g, w, t, keys, tmp0, kids, cov, handled) && x == w.x && a in g.arcs && a.from in cov && Barred(g, w, cov, done) && Known(g, refarc)
    modifies nfa`states, nfa`nstates, nfa`ins, nfa`outs, nfa`arcs, nfa`tmp
    ensures Going(nfa, g, w, t, keys, tmp0, kids2, cov2, handled2) && Barred(g, w, cov2, done2) && cov <= cov2
    ensures handled2 == handled + {a} + Since(g, cov, cov2)
    decreases g.keys - done, 1
  {
    hide Agree, StatesAgree, Within, Filling, Spine, Sure;
    var sto := a.to;
    done2, kids2, cov2, handled2 := done, kids, cov, handled + {a};
    SinceNothing(g, cov);
    TargetIn(g, w, t, a);
    FillingOld(g, w, t, nfa.arcs, kids, cov, handled, sto);
    var out := SeeConstraintOut(nfa, sto);
    if IsConstraint(a) && out {
      if sto in done {
        FillSkip(g, w, nfa.arcs, kids, cov, handled, a);
        return;
      }
      var prevclone := FindClone(nfa, x, sto);
      KidsSeen(nfa, g, w, t, keys, tmp0, kids, cov, handled, sto, prevclone);
      FillingSpine(g, w, t, nfa.arcs, kids, cov, handled);
      var canmerge := Implied(nfa, x, a, refarc, g, t);
      if canmerge {
        DropClone(nfa, a, prevclone, g, w, t, keys, tmp0, kids, cov, handled);
        done2, kids2, cov2, handled2 := CloneInto(nfa, sto, x, done, refarc, g, w, t, keys, tmp0, Fewer(kids, prevclone), cov + {sto}, handled + {a});
        SinceMore(g, cov, sto, cov2);
      } else if prevclone.Some? {
        AnotherArc(nfa, a, x, prevclone.value, g, w, t, keys, tmp0, kids, cov, handled);
      } else {
        kids2 := NewClone(nfa, a, x, g, w, t, keys, tmp0, kids, cov, handled);
      }
    } else {
      CopyOut(nfa, a, x, g, w, t, keys, tmp0, kids, cov, handled);
    }
  }

  lemma SinceNothing(g: Ground, cov: set<nat>)
    ensures Since(g, cov, cov) == {}
  {
  }

  lemma TargetIn(g: Ground, w: Site, t: Tree, a: Arc)
    requires Solid(g, w, t) && a in g.arcs
    ensures a.to in g.keys && a.from in g.keys
  {
  }

  lemma SinceMore(g: Ground, cov: set<nat>, s: nat, cov2: set<nat>)
    requires s !in cov && cov + {s} <= cov2
    ensures Since(g, cov, cov2) == OutSet(g.arcs, s) + Since(g, cov + {s}, cov2)
  {
  }

  /** The first i arcs of a chain and those of the states merged meanwhile. */
  lemma SinceStep(g: Ground, handled: set<Arc>, chain: seq<Arc>, i: nat, cov: set<nat>, cov1: set<nat>, cov2: set<nat>, handled1: set<Arc>, handled2: set<Arc>)
    requires i < |chain| && cov <= cov1 <= cov2 && handled1 == handled + ArcsOf(chain[..i]) + Since(g, cov, cov1)
    requires handled2 == handled1 + {chain[i]} + Since(g, cov1, cov2)
    ensures handled2 == handled + ArcsOf(chain[..i + 1]) + Since(g, cov, cov2)
  {
    assert chain[..i + 1] == chain[..i] + [chain[i]];
    assert Since(g, cov, cov2) == Since(g, cov, cov1) + Since(g, cov1, cov2);
  }

  ghost function ArcsOf(chain: seq<Arc>): set<Arc> { set a | a in chain }

  /** clonesuccessorstates() up to the recursion into the children, for a state merged into the clone x
      (regc_nfa.c:2533-2658). */
  method CloneInto(nfa: Nfa, s: nat, x: nat, done: set<nat>, refarc: Option<Label>, ghost g: Ground, ghost w: Site, ghost t: Tree, ghost keys: set<nat>,
                   ghost tmp0: map<nat, nat>, ghost kids: map<nat, nat>, ghost cov: set<nat>, ghost handled: set<Arc>)
    returns (done2: set<nat>, ghost kids2: map<nat, nat>, ghost cov2: set<nat>, ghost handled2: set<Arc>)
    requires Going(nfa, g, w, t, keys, tmp0, kids, cov, handled) && x == w.x && s in cov && s !in done && Barred(g, w, cov, done + {s}) && Known(g, refarc)
    modifies nfa`states, nfa`nstates, nfa`ins, nfa`outs, nfa`arcs, nfa`tmp
    ensures Going(nfa, g, w, t, keys, tmp0, kids2, cov2, handled2) && Barred(g, w, cov2, done2) && cov <= cov2
    ensures handled2 == handled + OutSet(g.arcs, s) + Since(g, cov, cov2)
    decreases g.keys - done, 0
  {
    hide Agree, StatesAgree, Within, Filling, Spine, Sure, Solid, Follows;
    MergedOld(g, w, nfa.arcs, kids, cov, handled, s);
    done2, kids2, cov2, handled2 := done + {s}, kids, cov, handled;
    assert g.keys - done2 < g.keys - done by { assert s in g.keys - done; }
    var chain := nfa.outs[s];
    ChainOld(nfa, g, w, t, keys, tmp0, kids, cov, handled, s);
    SinceNothing(g, cov);
    var i := 0;
    while i < |chain|
      invariant i <= |chain| && done + {s} <= done2 && cov <= cov2
      invariant Going(nfa, g, w, t, keys, tmp0, kids2, cov2, handled2) && Barred(g, w, cov2, done2)
      invariant handled2 == handled + ArcsOf(chain[..i]) + Since(g, cov, cov2)
    {
      ghost var cov1, handled1 := cov2, handled2;
      assert g.keys - done2 < g.keys - done by { assert s in g.keys - done; }
      done2, kids2, cov2, handled2 := CloneArc(nfa, chain[i], x, done2, refarc, g, w, t, keys, tmp0, kids2, cov2, handled2);
      SinceStep(g, handled, chain, i, cov, cov1, cov2, handled1, handled2);
      i := i + 1;
    }
    assert chain[..|chain|] == chain;
  }

  lemma MergedOld(g: Ground, w: Site, b: set<Arc>, kids: map<nat, nat>, cov: set<nat>, handled: set<Arc>, s: nat)
    requires Filling(g, w, b, kids, cov, handled) && s in cov
    ensures s in g.keys
  {
    assert Fits(g, w, s);
  }

  lemma ChainOld(nfa: Nfa, g: Ground, w: Site, t: Tree, keys: set<nat>, tmp0: map<nat, nat>, kids: map<nat, nat>, cov: set<nat>, handled: set<Arc>, s: nat)
    requires Going(nfa, g, w, t, keys, tmp0, kids, cov, handled) && s in cov
    ensures s in nfa.outs && ArcsOf(nfa.outs[s]) == OutSet(g.arcs, s)
    ensures forall i :: 0 <= i < |nfa.outs[s]| ==> nfa.outs[s][i] in g.arcs && nfa.outs[s][i].from == s
  {
    hide Spine, Sure;
    MergedOld(g, w, nfa.arcs, kids, cov, handled, s);
    FillingOld(g, w, t, nfa.arcs, kids, cov, handled, s);
    hide Filling;
    var chain := nfa.outs[s];
    assert Lists(chain, OutSet(nfa.arcs, s)) by { assert OutSet(nfa.arcs, s) == SideSet(nfa.arcs, s, false); }
    forall i | 0 <= i < |chain| ensures chain[i] in OutSet(g.arcs, s) { assert chain[i] in chain; }
    forall a ensures a in ArcsOf(chain) <==> a in OutSet(g.arcs, s) {}
  }

  // ---------------------------------------------------------------- the tree grows

  /** x and the clones above it are filled. */
  predicate Lineage(t: Tree, x: nat)
    decreases x
  {
    x in t.cover && x in t.src && (x in t.up ==> t.up[x] < x && Lineage(t, t.up[x]))
  }

  ghost predicate Extended(t: Tree, t2: Tree) {
    && (forall x :: x in t.src ==> x in t2.src && t2.src[x] == t.src[x]) && (forall x :: x in t.up ==> x in t2.up && t2.up[x] == t.up[x])
    && (forall x :: x in t.cover ==> x in t2.cover && t2.cover[x] == t.cover[x])
  }

  /** Clones have been added and filled; only those filled since have gained arcs, and these lead to no clone there was. */
  ghost predicate Grows(b: set<Arc>, t: Tree, b2: set<Arc>, t2: Tree) {
    && Extended(t, t2) && b <= b2 && (forall y :: y in t2.up && y !in t.up ==> y !in t.src && y in t2.src && t2.up[y] in t2.src && t2.up[y] < y)
    && (forall y :: y in t2.src && y !in t.src ==> y in t2.up)
    && (forall e :: e in b2 && e !in b ==> e.from in t2.cover && e.from !in t.cover && e.to !in t.src)
  }

  lemma GrowsSelf(b: set<Arc>, t: Tree)
    ensures Grows(b, t, b, t)
  {
  }

  lemma GrowsTrans(b: set<Arc>, t: Tree, b2: set<Arc>, t2: Tree, b3: set<Arc>, t3: Tree)
    requires Grows(b, t, b2, t2) && Grows(b2, t2, b3, t3)
    ensures Grows(b, t, b3, t3)
  {
  }

  lemma {:induction false} AboveStays(t: Tree, t2: Tree, x: nat)
    requires Extended(t, t2) && Lineage(t, x) && forall y :: y in t2.up && y !in t.up ==> y !in t.src
    ensures Above(t2, x) == Above(t, x) && Lineage(t2, x)
    decreases x
  {
    if x in t.up { AboveStays(t, t2, t.up[x]); }
  }

  lemma {:induction false} SureStays(g: Ground, b: set<Arc>, t: Tree, b2: set<Arc>, t2: Tree, x: nat)
    requires Grows(b, t, b2, t2) && Lineage(t, x)
    ensures Sure(g, b2, t2, x) == Sure(g, b, t, x)
    decreases x
  {
    if x in t.up {
      SureStays(g, b, t, b2, t2, t.up[x]);
      assert InSet(b2, x) == InSet(b, x);
      SoleSame(b, b2, x);
    }
  }

  /** A filled clone stays complete. */
  lemma CompleteStays(g: Ground, b: set<Arc>, t: Tree, b2: set<Arc>, t2: Tree, x: nat)
    requires Complete(g, b, t, x) && Grows(b, t, b2, t2) && Lineage(t, x)
    ensures Complete(g, b2, t2, x) && Lineage(t2, x)
  {
    hide Follows, Inner, Free;
    AboveStays(t, t2, x);
    SureStays(g, b, t, b2, t2, x);
    hide Above, Sure, Lineage;
    forall s | s in t2.cover[x] ensures Mergeable(g, b2, t2, x, s) { assert Mergeable(g, b, t, x, s); }
    forall a | a in g.arcs && a.from in t2.cover[x] ensures Given(g, b2, t2, x, a) {
      assert Given(g, b, t, x, a);
      if y :| ChildFor(b, t, x, a, y) { assert ChildFor(b2, t2, x, a, y); }
    }
    forall e | e in b2 && e.from == x ensures Stems(g, t2, x, e) {
      assert Stems(g, t, x, e);
      var a :| StemsFrom(g, t, x, e, a);
      assert StemsFrom(g, t2, x, e, a);
    }
  }

  /** The tree with x filled and its children added. */
  function Filled(t: Tree, x: nat, cov: set<nat>, kids: map<nat, nat>): Tree {
    Tree(t.src + kids, t.up + (map y | y in kids :: x), t.cover[x := cov])
  }

  /** A child is waiting to be filled. */
  ghost predicate Waiting(g: Ground, b: set<Arc>, t: Tree, x: nat, y: nat) {
    && y in t.up && t.up[y] == x < y && y in t.src && y !in t.cover && y !in g.keys
    && t.src[y] in g.keys && t.src[y] != g.head && t.src[y] !in Above(t, x) && Inner(g.arcs, t.src[y])
    && OutSet(b, y) == {} && InSet(b, y) != {} && forall e :: e in InSet(b, y) ==> e.from == x
  }

  /** Where x hangs in the tree, before it is filled. */
  ghost predicate Hung(t: Tree, x: nat) {
    x in t.src && x !in t.cover && (x in t.up ==> t.up[x] < x && Lineage(t, t.up[x]))
  }

  /** x has been filled. */
  lemma FilledComplete(g: Ground, w: Site, t: Tree, b: set<Arc>, kids: map<nat, nat>, cov: set<nat>, handled: set<Arc>)
    requires Solid(g, w, t) && Filling(g, w, b, kids, cov, handled) && Hung(t, w.x) && t.src[w.x] == w.origin && w.above == Above(t, w.x)
    requires handled == (set a | a in g.arcs && a.from in cov) && kids.Keys !! t.src.Keys && t.up.Keys <= t.src.Keys
    ensures var t2 := Filled(t, w.x, cov, kids);
      && Extended(t, t2) && Lineage(t2, w.x) && Above(t2, w.x) == w.above + cov && Complete(g, b, t2, w.x)
  {
    hide Spine, Follows, Inner, Free, Sure;
    var x, t2 := w.x, Filled(t, w.x, cov, kids);
    FilledAbove(t, x, cov, kids);
    FillingSpine(g, w, t, b, kids, cov, handled);
    FilledSure(g, b, t, x, cov, kids);
    hide Above, Lineage, Sure;
    forall s | s in cov ensures Mergeable(g, b, t2, x, s) { assert Fits(g, w, s); }
    forall a | a in g.arcs && a.from in cov ensures Given(g, b, t2, x, a) {
      assert Treated(g, w, b, kids, cov, a);
      if y :| KidFor(b, kids, x, a, y) { assert ChildFor(b, t2, x, a, y); }
    }
    forall e | e in b && e.from == x ensures Stems(g, t2, x, e) {
      assert Comes(g, kids, handled, e);
      var a :| ComesFrom(g, kids, handled, e, a);
      assert StemsFrom(g, t2, x, e, a);
    }
  }

  lemma FilledAbove(t: Tree, x: nat, cov: set<nat>, kids: map<nat, nat>)
    requires Hung(t, x) && kids.Keys !! t.src.Keys && t.up.Keys <= t.src.Keys
    ensures var t2 := Filled(t, x, cov, kids);
      Extended(t, t2) && Lineage(t2, x) && Above(t2, x) == Above(t, x) + cov && forall z :: z in t2.up && z !in t.up ==> z !in t.src
  {
    var t2 := Filled(t, x, cov, kids);
    if x in t.up { AboveStays(t, t2, t.up[x]); }
  }

  lemma {:induction false} FilledSure(g: Ground, b: set<Arc>, t: Tree, x: nat, cov: set<nat>, kids: map<nat, nat>)
    requires x in t.src && kids.Keys !! t.src.Keys && t.up.Keys <= t.src.Keys && (x in t.up ==> t.up[x] < x && Lineage(t, t.up[x]))
    ensures forall c :: Sure(g, b, Filled(t, c, cov, kids), x) == Sure(g, b, t, x)
    decreases x
  {
    if x in t.up { FilledSure(g, b, t, t.up[x], cov, kids); }
  }

  // ---------------------------------------------------------------- clonesuccessorstates(), a clone and those below it

  /** The automaton between the filling of one clone and of another: its states are the old ones and the clones, and the
      tmp pointers of clones waiting to be filled tell what they stand for. */
  ghost predicate Growing(nfa: Nfa, g: Ground, t: Tree)
    reads nfa
  {
    && nfa.Valid() && nfa.ins.Keys == g.keys + t.src.Keys && t.src.Keys !! g.keys && t.up.Keys <= t.src.Keys && t.cover.Keys <= t.src.Keys
    && Within(g.arcs, g.keys) && g.arcs <= nfa.arcs && (forall e :: e in nfa.arcs ==> e in g.arcs || e.from in t.src)
    && nfa.pre in g.keys && nfa.post in g.keys && Waits(nfa.tmp, t)
  }

  /** The marked clones are not filled yet, and their marks tell what they stand for. */
  ghost predicate Waits(tmp: map<nat, nat>, t: Tree) {
    forall y :: y in tmp ==> y in t.src && y !in t.cover && tmp[y] == t.src[y]
  }

  lemma WaitsLess(tmp: map<nat, nat>, t: Tree, y: nat)
    requires Waits(tmp, t) && y in tmp
    ensures Waits(tmp - {y}, t) && tmp[y] == t.src[y] && y !in tmp - {y}
  {
  }

  /** x is to be filled next. */
  ghost predicate ToFill(b: set<Arc>, g: Ground, t: Tree, x: nat) {
    && Hung(t, x) && OutSet(b, x) == {} && Spine(b, g, t, x)
    && t.src[x] in g.keys && t.src[x] != g.head && t.src[x] !in Above(t, x) && Inner(g.arcs, t.src[x])
  }

  /** What has been filled between two trees is complete. */
  ghost predicate Finished(g: Ground, b: set<Arc>, t0: Tree, t: Tree) {
    forall z :: z in t.cover && z !in t0.cover ==> Complete(g, b, t, z) && Lineage(t, z)
  }

  ghost function SiteOf(nfa: Nfa, g: Ground, t: Tree, x: nat): Site
    requires x in t.src
    reads nfa
  {
    Site(x, t.src[x], Above(t, x), Sure(g, nfa.arcs, t, x), nfa.arcs)
  }

  lemma FillStart(nfa: Nfa, g: Ground, t: Tree, x: nat)
    requires Growing(nfa, g, t) && ToFill(nfa.arcs, g, t, x)
    ensures Going(nfa, g, SiteOf(nfa, g, t, x), t, nfa.ins.Keys, nfa.tmp, map[], {t.src[x]}, {})
  {
    hide Agree, StatesAgree, Within, Spine, Sure, Above, Inner, Filling, Lineage;
    assert nfa.tmp + map[] == nfa.tmp;
    FillingStart(g, SiteOf(nfa, g, t, x));
  }

  lemma FillingStart(g: Ground, w: Site)
    requires OutSet(w.before, w.x) == {} && w.x !in g.keys
    requires w.origin in g.keys && w.origin != g.head && w.origin !in w.above && Inner(g.arcs, w.origin)
    ensures Filling(g, w, w.before, map[], {w.origin}, {})
  {
    hide Inner;
    assert Freely(g.arcs, w.sure, w.origin, w.origin, 0);
    assert Fits(g, w, w.origin);
    forall e | e in w.before ensures e.from != w.x { assert e in OutSet(w.before, w.x) <==> e.from == w.x; }
  }

  lemma HandledAll(g: Ground, s: nat, cov: set<nat>, handled: set<Arc>)
    requires s in cov && handled == {} + OutSet(g.arcs, s) + Since(g, {s}, cov)
    ensures handled == set a | a in g.arcs && a.from in cov
  {
  }

  /** With x filled and its children added. */
  lemma GrowFilled(nfa: Nfa, g: Ground, w: Site, t: Tree, tmp0: map<nat, nat>, kids: map<nat, nat>, cov: set<nat>, handled: set<Arc>)
    requires Going(nfa, g, w, t, g.keys + t.src.Keys, tmp0, kids, cov, handled) && Grows(w.before, t, nfa.arcs, Filled(t, w.x, cov, kids))
    requires w.x in t.src && t.src.Keys !! g.keys && t.up.Keys <= t.src.Keys && t.cover.Keys <= t.src.Keys
    requires (forall e :: e in w.before ==> e in g.arcs || e.from in t.src) && forall y :: y in kids ==> y !in g.keys
    requires w.x !in tmp0 && forall y :: y in tmp0 ==> y in t.src && y !in t.cover && tmp0[y] == t.src[y]
    ensures Growing(nfa, g, Filled(t, w.x, cov, kids))
  {
    hide Agree, StatesAgree, Within, Spine, Sure, Fits, Treated, Comes, Kid, Grows;
    FilledWaits(nfa.tmp, nfa.ins.Keys, g, t, w.x, cov, tmp0, kids);
  }

  /** The new children are marked, and wait. */
  lemma FilledWaits(tmp: map<nat, nat>, states: set<nat>, g: Ground, t: Tree, x: nat, cov: set<nat>, tmp0: map<nat, nat>, kids: map<nat, nat>)
    requires Tended(tmp, states, g, g.keys + t.src.Keys, tmp0, kids) && x in t.src && x !in tmp0 && x !in kids && t.cover.Keys <= t.src.Keys
    requires forall y :: y in tmp0 ==> y in t.src && y !in t.cover && tmp0[y] == t.src[y]
    ensures var t1 := Filled(t, x, cov, kids);
      states == g.keys + t1.src.Keys && Waits(tmp, t1)
  {
  }

  lemma FilledTargets(g: Ground, w: Site, t: Tree, b: set<Arc>, kids: map<nat, nat>, cov: set<nat>, handled: set<Arc>)
    requires Solid(g, w, t) && Filling(g, w, b, kids, cov, handled)
    ensures w.before <= b && forall e :: e in b && e.from == w.x ==> e.to in g.keys || e.to in kids
  {
    hide Fits, Treated, Comes, Kid, Spine, Sure;
    FillingTargets(g, w, b, kids, cov, handled);
  }

  lemma FilledGrows(g: Ground, w: Site, t: Tree, b: set<Arc>, kids: map<nat, nat>, cov: set<nat>, handled: set<Arc>)
    requires Solid(g, w, t) && Filling(g, w, b, kids, cov, handled) && handled == (set a | a in g.arcs && a.from in cov)
    requires Hung(t, w.x) && t.src[w.x] == w.origin && w.above == Above(t, w.x) && kids.Keys !! t.src.Keys
    requires t.src.Keys !! g.keys && t.up.Keys <= t.src.Keys && t.cover.Keys <= t.src.Keys && forall z :: z in t.up ==> t.up[z] in t.src
    ensures var t1 := Filled(t, w.x, cov, kids);
      && Grows(w.before, t, b, t1) && Finished(g, b, t, t1) && Lineage(t1, w.x) && Above(t1, w.x) == w.above + cov && Spine(b, g, t1, w.x)
      && (forall y :: y in kids ==> Waiting(g, b, t1, w.x, y) && y !in g.keys) && forall z :: z in t1.up ==> t1.up[z] in t1.src
  {
    hide Spine, Sure, Follows, Inner, Free, Complete, Lineage, Above, Fits, Treated, Comes, Kid;
    var t1 := Filled(t, w.x, cov, kids);
    FilledComplete(g, w, t, b, kids, cov, handled);
    FillingTargets(g, w, b, kids, cov, handled);
    forall y | y in kids ensures Waiting(g, b, t1, w.x, y) && w.x < y && y !in g.keys {
      KidWaits(g, w, b, t, kids, cov, handled, y);
    }
    FilledOnly(g, w, t, b, kids, cov, handled);
    SpineStays(g, w.before, t, b, t1, w.x);
  }

  lemma FilledOnly(g: Ground, w: Site, t: Tree, b: set<Arc>, kids: map<nat, nat>, cov: set<nat>, handled: set<Arc>)
    requires Filling(g, w, b, kids, cov, handled) && Extended(t, Filled(t, w.x, cov, kids)) && Hung(t, w.x) && kids.Keys !! t.src.Keys
    requires t.src.Keys !! g.keys && t.cover.Keys <= t.src.Keys && forall y :: y in kids ==> w.x < y
    requires forall e :: e in b && e.from == w.x ==> (e.to in g.keys && e.to !in kids) || (e.to in kids && w.x < e.to)
    ensures Grows(w.before, t, b, Filled(t, w.x, cov, kids))
  {
    hide Spine, Sure, Follows, Inner, Free, Complete, Lineage, Above, Fits, Treated, Comes, Kid;
  }

  lemma KidWaits(g: Ground, w: Site, b: set<Arc>, t: Tree, kids: map<nat, nat>, cov: set<nat>, handled: set<Arc>, y: nat)
    requires Filling(g, w, b, kids, cov, handled) && y in kids && kids.Keys !! t.src.Keys && t.cover.Keys <= t.src.Keys && w.x in t.src
    requires Above(Filled(t, w.x, cov, kids), w.x) == w.above + cov
    ensures Waiting(g, b, Filled(t, w.x, cov, kids), w.x, y)
  {
    hide Above, Fits, Treated, Comes, Inner;
    assert Kid(g, w, b, kids, cov, y);
    var e :| e in b && e.from == w.x && e.to == y;
    assert e in InSet(b, y);
  }

  /** Filling others, a waiting child goes on waiting. */
  lemma WaitsOn(g: Ground, b: set<Arc>, t: Tree, b2: set<Arc>, t2: Tree, x: nat, y: nat)
    requires Waiting(g, b, t, x, y) && Grows(b, t, b2, t2) && y !in t2.cover && Lineage(t, x)
    ensures Waiting(g, b2, t2, x, y)
  {
    AboveStays(t, t2, x);
    hide Inner, Above, Lineage;
    assert InSet(b2, y) == InSet(b, y);
    forall e | e in b2 ensures e.from != y { assert e in b ==> (e in OutSet(b, y) <==> e.from == y); }
  }

  /** Its turn has come. */
  lemma WaitedFor(g: Ground, b: set<Arc>, t: Tree, x: nat, y: nat)
    requires Waiting(g, b, t, x, y) && Lineage(t, x) && Spine(b, g, t, x)
    ensures ToFill(b, g, t, y) && y in t.src
  {
    hide Inner;
    assert Above(t, y) == Above(t, x);
  }

  lemma {:induction false} SpineStays(g: Ground, b: set<Arc>, t: Tree, b2: set<Arc>, t2: Tree, x: nat)
    requires Spine(b, g, t, x) && Grows(b, t, b2, t2) && x in t.src && (forall z :: z in t.up ==> z in t.src && t.up[z] in t.src)
    ensures Spine(b2, g, t2, x)
    decreases x
  {
    assert InSet(b2, x) == InSet(b, x);
    if x in t.up { SpineStays(g, b, t, b2, t2, t.up[x]); }
  }

  lemma FinishedTrans(g: Ground, t0: Tree, b: set<Arc>, t: Tree, b2: set<Arc>, t2: Tree)
    requires Finished(g, b, t0, t) && Grows(b, t, b2, t2) && Finished(g, b2, t, t2)
    ensures Finished(g, b2, t0, t2)
  {
    hide Complete, Lineage;
    forall z | z in t2.cover && z !in t0.cover ensures Complete(g, b2, t2, z) && Lineage(t2, z) {
      if z in t.cover { CompleteStays(g, b, t, b2, t2, z); }
    }
  }

  lemma FinishedSelf(g: Ground, b: set<Arc>, t: Tree)
    ensures Finished(g, b, t, t)
  {
  }

  /** clonesuccessorstates(), regc_nfa.c:2489-2682, at the outer level of the clone x of s: x is filled, with what can be
      merged into it, and then its children. */
  method CloneTree(nfa: Nfa, s: nat, x: nat, spredecessor: nat, refarc: Option<Label>, outerdone: Option<set<nat>>, ghost g: Ground, ghost t: Tree)
    returns (ghost t2: Tree)
    requires Growing(nfa, g, t) && ToFill(nfa.arcs, g, t, x) && t.src[x] == s && x !in nfa.tmp && Known(g, refarc)
    requires (if outerdone.Some? then outerdone.value else {spredecessor}) == {g.head} + Above(t, x)
    requires forall z :: z in t.up ==> t.up[z] in t.src
    modifies nfa`states, nfa`nstates, nfa`ins, nfa`outs, nfa`arcs, nfa`tmp
    ensures Growing(nfa, g, t2) && nfa.tmp == old(nfa.tmp) && Grows(old(nfa.arcs), t, nfa.arcs, t2) && Finished(g, nfa.arcs, t, t2)
    ensures t2.cover.Keys == t.cover.Keys + {x} + (t2.src.Keys - t.src.Keys) && forall z :: z in t2.up ==> t2.up[z] in t2.src
    decreases g.keys - (if outerdone.Some? then outerdone.value else {spredecessor}), 0
  {
    hide Agree, StatesAgree, Within, Spine, Sure, Filling, Solid, Above, Lineage, Complete, Waiting, Inner, Grows, Finished, Tended, Filled;
    var done := if outerdone.Some? then outerdone.value else {spredecessor};
    ghost var w, tmp0, was := SiteOf(nfa, g, t, x), nfa.tmp, nfa.arcs;
    FillStart(nfa, g, t, x);
    var done1;
    ghost var kids, cov, handled;
    done1, kids, cov, handled := CloneInto(nfa, s, x, done, refarc, g, w, t, nfa.ins.Keys, tmp0, map[], {s}, {});
    HandledAll(g, s, cov, handled);
    TendedKids(nfa.tmp, nfa.ins.Keys, g, t.src.Keys, tmp0, kids);
    FilledGrows(g, w, t, nfa.arcs, kids, cov, handled);
    GrowFilled(nfa, g, w, t, tmp0, kids, cov, handled);
    FilledTargets(g, w, t, nfa.arcs, kids, cov, handled);
    ghost var t1 := Filled(t, x, cov, kids);
    assert g.keys - done1 < g.keys - done by { assert s in g.keys - done; }
    ghost var arcs1 := nfa.arcs;
    t2 := CloneKids(nfa, x, spredecessor, refarc, done1, g, t1, kids, tmp0);
    ThenKids(g, w.before, t, arcs1, x, cov, kids, nfa.arcs, t2);
  }

  lemma ThenKids(g: Ground, b: set<Arc>, t: Tree, b1: set<Arc>, x: nat, cov: set<nat>, kids: map<nat, nat>, b2: set<Arc>, t2: Tree)
    requires Grows(b, t, b1, Filled(t, x, cov, kids)) && Finished(g, b1, t, Filled(t, x, cov, kids))
    requires Grows(b1, Filled(t, x, cov, kids), b2, t2) && Finished(g, b2, Filled(t, x, cov, kids), t2)
    requires var t1 := Filled(t, x, cov, kids); t2.cover.Keys == t1.cover.Keys + kids.Keys + (t2.src.Keys - t1.src.Keys)
    requires kids.Keys !! t.src.Keys && x in t.src
    ensures Grows(b, t, b2, t2) && Finished(g, b2, t, t2) && t2.cover.Keys == t.cover.Keys + {x} + (t2.src.Keys - t.src.Keys)
  {
    hide Complete, Lineage;
    var t1 := Filled(t, x, cov, kids);
    GrowsTrans(b, t, b1, t1, b2, t2);
    FinishedTrans(g, t, b1, t1, b2, t2);
    SourcesGrow(b, t, b1, t1);
    SourcesGrow(b1, t1, b2, t2);
    hide Grows, Finished;
    FilledKeys(t, x, cov, kids);
    KeysAdd(t.src.Keys, kids.Keys, t2.src.Keys);
  }

  lemma SourcesGrow(b: set<Arc>, t: Tree, b2: set<Arc>, t2: Tree)
    requires Grows(b, t, b2, t2)
    ensures t.src.Keys <= t2.src.Keys
  {
  }

  lemma FilledKeys(t: Tree, x: nat, cov: set<nat>, kids: map<nat, nat>)
    ensures var t1 := Filled(t, x, cov, kids); t1.src.Keys == t.src.Keys + kids.Keys && t1.cover.Keys == t.cover.Keys + {x}
  {
  }

  lemma KeysAdd(a: set<nat>, b: set<nat>, c: set<nat>)
    requires a !! b && a + b <= c
    ensures c - a == b + (c - (a + b))
  {
  }

  /** Another child has been filled. */
  lemma ThenKid(g: Ground, b: set<Arc>, t: Tree, b1: set<Arc>, t1: Tree, b2: set<Arc>, t2: Tree, kids: set<nat>, left: set<nat>, y: nat)
    requires Grows(b, t, b1, t1) && Finished(g, b1, t, t1) && t1.cover.Keys == t.cover.Keys + (kids - left) + (t1.src.Keys - t.src.Keys)
    requires Grows(b1, t1, b2, t2) && Finished(g, b2, t1, t2) && t2.cover.Keys == t1.cover.Keys + {y} + (t2.src.Keys - t1.src.Keys) && y in left && left <= kids
    ensures Grows(b, t, b2, t2) && Finished(g, b2, t, t2) && t2.cover.Keys == t.cover.Keys + (kids - (left - {y})) + (t2.src.Keys - t.src.Keys)
  {
    hide Complete, Lineage;
    GrowsTrans(b, t, b1, t1, b2, t2);
    FinishedTrans(g, t, b1, t1, b2, t2);
    SourcesGrow(b, t, b1, t1);
    SourcesGrow(b1, t1, b2, t2);
    hide Grows, Finished;
    assert t2.src.Keys - t.src.Keys == (t1.src.Keys - t.src.Keys) + (t2.src.Keys - t1.src.Keys);
    assert kids - (left - {y}) == (kids - left) + {y};
  }

  /** The children not filled yet: those whose tmp pointers are set. */
  ghost predicate Left(g: Ground, b: set<Arc>, t: Tree, x: nat, kids: map<nat, nat>, left: set<nat>) {
    left <= kids.Keys && forall y :: y in left ==> Waiting(g, b, t, x, y)
  }

  ghost predicate Marks(tmp: map<nat, nat>, tmp0: map<nat, nat>, kids: map<nat, nat>, left: set<nat>) {
    left <= kids.Keys && tmp0.Keys !! kids.Keys && tmp == tmp0 + (map y | y in left && y in kids :: kids[y])
  }

  lemma MarksAll(tmp0: map<nat, nat>, kids: map<nat, nat>)
    requires tmp0.Keys !! kids.Keys
    ensures Marks(tmp0 + kids, tmp0, kids, kids.Keys)
  {
    assert (map y | y in kids.Keys && y in kids :: kids[y]) == kids;
  }

  lemma MarksLess(tmp: map<nat, nat>, tmp0: map<nat, nat>, kids: map<nat, nat>, left: set<nat>, y: nat)
    requires Marks(tmp, tmp0, kids, left) && y in left
    ensures y in tmp && tmp[y] == kids[y] && Marks(tmp - {y}, tmp0, kids, left - {y})
  {
  }

  lemma MarksNone(tmp: map<nat, nat>, tmp0: map<nat, nat>, kids: map<nat, nat>)
    requires Marks(tmp, tmp0, kids, {})
    ensures tmp == tmp0
  {
  }

  /** Only children are marked among the targets of the clone's arcs. */
  lemma MarkedIsKid(nfa: Nfa, g: Ground, t: Tree, tmp0: map<nat, nat>, kids: map<nat, nat>, left: set<nat>, y: nat)
    requires Growing(nfa, g, t) && Marks(nfa.tmp, tmp0, kids, left) && (y in g.keys || y in kids)
    ensures y in nfa.tmp <==> y in left
  {
    hide Agree, StatesAgree, Within;
  }

  ghost predicate Visited(chain: seq<Arc>, i: nat, left: set<nat>) {
    forall j :: 0 <= j < i && j < |chain| ==> chain[j].to !in left
  }

  lemma VisitedNone(chain: seq<Arc>, left: set<nat>)
    ensures Visited(chain, 0, left)
  {
  }

  lemma VisitedNext(chain: seq<Arc>, i: nat, left: set<nat>, left2: set<nat>)
    requires Visited(chain, i, left) && i < |chain| && left2 <= left && chain[i].to !in left2
    ensures Visited(chain, i + 1, left2)
  {
  }

  /** The recursion into the children (regc_nfa.c:2667-2677). */
  method CloneKids(nfa: Nfa, x: nat, spredecessor: nat, refarc: Option<Label>, done: set<nat>, ghost g: Ground, ghost t: Tree, ghost kids: map<nat, nat>,
                   ghost tmp0: map<nat, nat>)
    returns (ghost t2: Tree)
    requires Growing(nfa, g, t) && Lineage(t, x) && Spine(nfa.arcs, g, t, x) && done == {g.head} + Above(t, x) && Known(g, refarc)
    requires nfa.tmp == tmp0 + kids && tmp0.Keys !! kids.Keys && forall y :: y in kids ==> Waiting(g, nfa.arcs, t, x, y)
    requires (forall z :: z in t.up ==> t.up[z] in t.src) && forall e :: e in nfa.arcs && e.from == x ==> e.to in g.keys || e.to in kids
    modifies nfa`states, nfa`nstates, nfa`ins, nfa`outs, nfa`arcs, nfa`tmp
    ensures Growing(nfa, g, t2) && nfa.tmp == tmp0 && Grows(old(nfa.arcs), t, nfa.arcs, t2) && Finished(g, nfa.arcs, t, t2)
    ensures forall z :: z in t2.up ==> t2.up[z] in t2.src
    ensures t2.cover.Keys == t.cover.Keys + kids.Keys + (t2.src.Keys - t.src.Keys)
    decreases g.keys - done, 2
  {
    hide Agree, StatesAgree, Within, Spine, Sure, Above, Lineage, Complete, Waiting, Inner, Grows, Finished, Growing, Marks, Visited;
    ghost var was, left := nfa.arcs, kids.Keys;
    t2 := t;
    GrowsSelf(was, t);
    FinishedSelf(g, was, t);
    MarksAll(tmp0, kids);
    ClonesIn(nfa, g, t, x);
    var chain := nfa.outs[x];
    ChainTargets(nfa, g, x, kids);
    VisitedNone(chain, left);
    var i := 0;
    while i < |chain|
      invariant i <= |chain| && Growing(nfa, g, t2) && Grows(was, t, nfa.arcs, t2) && Finished(g, nfa.arcs, t, t2)
      invariant Lineage(t2, x) && Spine(nfa.arcs, g, t2, x) && done == {g.head} + Above(t2, x) && (forall z :: z in t2.up ==> t2.up[z] in t2.src)
      invariant Left(g, nfa.arcs, t2, x, kids, left) && Marks(nfa.tmp, tmp0, kids, left) && Visited(chain, i, left)
      invariant t2.cover.Keys == t.cover.Keys + (kids.Keys - left) + (t2.src.Keys - t.src.Keys)
    {
      var y := chain[i].to;
      MarkedIsKid(nfa, g, t2, tmp0, kids, left, y);
      ghost var left1 := left;
      if y in nfa.tmp {
        ghost var arcs1, t1 := nfa.arcs, t2;
        t2, left := CloneKid(nfa, x, y, spredecessor, refarc, done, g, t2, kids, tmp0, left);
        ThenKid(g, was, t, arcs1, t1, nfa.arcs, t2, kids.Keys, left1, y);
      }
      VisitedNext(chain, i, left1, left);
      i := i + 1;
    }
    NoneLeft(nfa, g, was, t, t2, x, chain, left);
    MarksNone(nfa.tmp, tmp0, kids);
  }

  lemma ClonesIn(nfa: Nfa, g: Ground, t: Tree, x: nat)
    requires Growing(nfa, g, t) && Lineage(t, x)
    ensures nfa.Valid() && x in nfa.ins && x in nfa.outs && x in t.src && x in t.cover
  {
  }

  lemma ChainTargets(nfa: Nfa, g: Ground, x: nat, kids: map<nat, nat>)
    requires nfa.Valid() && x in nfa.ins && forall e :: e in nfa.arcs && e.from == x ==> e.to in g.keys || e.to in kids
    ensures forall j :: 0 <= j < |nfa.outs[x]| ==> nfa.outs[x][j].to in g.keys || nfa.outs[x][j].to in kids
    ensures forall e :: e in nfa.outs[x] <==> e in OutSet(nfa.arcs, x)
  {
    var chain := nfa.outs[x];
    assert Lists(chain, OutSet(nfa.arcs, x)) by { assert OutSet(nfa.arcs, x) == SideSet(nfa.arcs, x, false); }
    forall j | 0 <= j < |chain| ensures chain[j].to in g.keys || chain[j].to in kids { assert chain[j] in OutSet(nfa.arcs, x); }
  }

  /** Every child has been come to, for there is an arc to it. */
  lemma NoneLeft(nfa: Nfa, g: Ground, was: set<Arc>, t: Tree, t2: Tree, x: nat, chain: seq<Arc>, left: set<nat>)
    requires Grows(was, t, nfa.arcs, t2) && x in t.cover && (forall e :: e in chain <==> e in OutSet(was, x))
    requires Visited(chain, |chain|, left) && forall y :: y in left ==> Waiting(g, nfa.arcs, t2, x, y)
    ensures left == {}
  {
    hide Inner, Above, Waiting, Grows;
    forall y ensures y !in left {
      if y in left { KidMet(nfa, g, was, t, t2, x, chain, y); }
    }
  }

  lemma KidMet(nfa: Nfa, g: Ground, was: set<Arc>, t: Tree, t2: Tree, x: nat, chain: seq<Arc>, y: nat)
    requires Grows(was, t, nfa.arcs, t2) && x in t.cover && (forall e :: e in chain <==> e in OutSet(was, x)) && Waiting(g, nfa.arcs, t2, x, y)
    ensures exists j :: 0 <= j < |chain| && chain[j].to == y
  {
    hide Inner, Above;
    var e :| e in InSet(nfa.arcs, y);
    assert e.from == x && e in was;
    assert e in OutSet(was, x);
  }

  /** One child. */
  method CloneKid(nfa: Nfa, x: nat, y: nat, spredecessor: nat, refarc: Option<Label>, done: set<nat>, ghost g: Ground, ghost t: Tree, ghost kids: map<nat, nat>,
                  ghost tmp0: map<nat, nat>, ghost left: set<nat>)
    returns (ghost t2: Tree, ghost left2: set<nat>)
    requires Growing(nfa, g, t) && Lineage(t, x) && Spine(nfa.arcs, g, t, x) && done == {g.head} + Above(t, x) && Known(g, refarc)
    requires Left(g, nfa.arcs, t, x, kids, left) && Marks(nfa.tmp, tmp0, kids, left) && y in left && forall z :: z in t.up ==> t.up[z] in t.src
    modifies nfa`states, nfa`nstates, nfa`ins, nfa`outs, nfa`arcs, nfa`tmp
    ensures Growing(nfa, g, t2) && Grows(old(nfa.arcs), t, nfa.arcs, t2) && Finished(g, nfa.arcs, t, t2)
    ensures Lineage(t2, x) && Spine(nfa.arcs, g, t2, x) && Above(t2, x) == Above(t, x) && forall z :: z in t2.up ==> t2.up[z] in t2.src
    ensures left2 == left - {y} && Left(g, nfa.arcs, t2, x, kids, left2) && Marks(nfa.tmp, tmp0, kids, left2) && t2.cover.Keys == t.cover.Keys + {y} + (t2.src.Keys - t.src.Keys)
    decreases g.keys - done, 1
  {
    hide Agree, StatesAgree, Within, Spine, Sure, Above, Lineage, Complete, Inner, Finished, Waiting, Waits, Marks, Grows, ToFill, Left;
    ghost var was := nfa.arcs;
    left2 := left - {y};
    LeftHas(g, was, t, x, kids, left, y);
    WaitingIs(g, was, t, x, y);
    WaitedFor(g, was, t, x, y);
    AboveWaiting(g, was, t, x, y);
    MarksLess(nfa.tmp, tmp0, kids, left, y);
    WaitsLess(nfa.tmp, t, y);
    var sto := nfa.tmp[y];
    nfa.tmp := nfa.tmp - {y};
    t2 := CloneTree(nfa, sto, y, spredecessor, refarc, Some(done), g, t);
    AboveGrown(was, t, nfa.arcs, t2, x);
    SpineStays(g, was, t, nfa.arcs, t2, x);
    LeftOn(g, was, t, nfa.arcs, t2, x, kids, left, y);
  }

  lemma LeftHas(g: Ground, b: set<Arc>, t: Tree, x: nat, kids: map<nat, nat>, left: set<nat>, y: nat)
    requires Left(g, b, t, x, kids, left) && y in left
    ensures Waiting(g, b, t, x, y)
  {
  }

  lemma WaitingIs(g: Ground, b: set<Arc>, t: Tree, x: nat, y: nat)
    requires Waiting(g, b, t, x, y)
    ensures y in t.src && t.src[y] in g.keys
  {
  }

  lemma LeftOn(g: Ground, b: set<Arc>, t: Tree, b2: set<Arc>, t2: Tree, x: nat, kids: map<nat, nat>, left: set<nat>, y: nat)
    requires Left(g, b, t, x, kids, left) && Grows(b, t, b2, t2) && Lineage(t, x) && t2.cover.Keys == t.cover.Keys + {y} + (t2.src.Keys - t.src.Keys)
    ensures Left(g, b2, t2, x, kids, left - {y})
  {
    hide Grows, Lineage, Inner, Above;
    forall z | z in left - {y} ensures Waiting(g, b2, t2, x, z) { WaitsOn(g, b, t, b2, t2, x, z); }
  }

  lemma AboveWaiting(g: Ground, b: set<Arc>, t: Tree, x: nat, y: nat)
    requires Waiting(g, b, t, x, y)
    ensures Above(t, y) == Above(t, x)
  {
  }

  lemma AboveGrown(b: set<Arc>, t: Tree, b2: set<Arc>, t2: Tree, x: nat)
    requires Grows(b, t, b2, t2) && Lineage(t, x)
    ensures Above(t2, x) == Above(t, x) && Lineage(t2, x) && x in t.src
  {
    AboveStays(t, t2, x);
  }

  // ---------------------------------------------------------------- breakconstraintloop()

  lemma {:induction false} JoinPaths(arcs: set<Arc>, p: nat, q: nat, r: nat, n: nat, m: nat)
    requires Constrained(arcs, p, q, n) && Constrained(arcs, q, r, m)
    ensures Constrained(arcs, p, r, n + m)
    decreases m
  {
    if m == 0 {
      NoStep(arcs, q, r);
    } else {
      var e := LastConstraint(arcs, q, r, m);
      JoinPaths(arcs, p, q, e.from, n, m - 1);
      MoreConstraints(arcs, p, e, n + m);
    }
  }

  lemma {:induction false} AlongPath(arcs: set<Arc>, tmp: map<nat, nat>, path: seq<nat>, i: nat, j: nat)
    requires Linked(arcs, tmp, path) && i <= j < |path|
    ensures Constrained(arcs, path[i], path[j], j - i)
    decreases j - i
  {
    if i < j {
      AlongPath(arcs, tmp, path, i, j - 1);
      assert LinkAt(arcs, tmp, path, j - 1);
      var e :| e in arcs && IsConstraint(e) && e.from == path[j - 1] && e.to == path[j];
      MoreConstraints(arcs, path[i], e, j - i);
    }
  }

  /** The step from p to q is one of a loop. */
  ghost predicate OnWay(arcs: set<Arc>, p: nat, q: nat) {
    Step(arcs, p, q) && p != q && exists n: nat :: Constrained(arcs, q, p, n)
  }

  lemma RoundLoop(arcs: set<Arc>, tmp: map<nat, nat>, loop: seq<nat>, i: nat)
    requires Loop(arcs, tmp, loop) && i < |loop| && NoSelfLoops(arcs)
    ensures var path := loop + [loop[0]]; path[i] in tmp && tmp[path[i]] == path[i + 1] && OnWay(arcs, path[i], path[i + 1])
  {
    var path := loop + [loop[0]];
    PathMoves(arcs, tmp, path, i);
    assert LinkAt(arcs, tmp, path, i);
    AlongPath(arcs, tmp, path, i + 1, |loop|);
    AlongPath(arcs, tmp, path, 0, i);
    JoinPaths(arcs, path[i + 1], path[|loop|], path[i], |loop| - i - 1, i);
  }

  ghost function Links(arcs: set<Arc>, p: nat, q: nat): set<Arc> {
    set a | a in arcs && a.from == p && a.to == q && IsConstraint(a)
  }

  /** The constraint arc from s to nexts, if there is only one (regc_nfa.c:2372-2383). */
  method SoleLink(nfa: Nfa, s: nat, nexts: nat) returns (refarc: Option<Arc>)
    requires nfa.Valid() && s in nfa.ins
    ensures refarc.Some? <==> exists a :: Links(nfa.arcs, s, nexts) == {a}
    ensures refarc.Some? ==> Links(nfa.arcs, s, nexts) == {refarc.value}
  {
    hide Agree, StatesAgree, Within, Linking, Links, Lists, InSet, OutSet;
    HeadChain(nfa, s);
    var chain := nfa.outs[s];
    LinksAll(nfa.arcs, chain, s, nexts);
    refarc := None;
    var narcs, i := 0, 0;
    ghost var met: set<Arc> := {};
    LinkingNone(chain, nexts);
    while i < |chain|
      invariant i <= |chain| && narcs == |met| && met == Linking(chain, i, nexts)
      invariant narcs == 0 <==> refarc.None?
      invariant narcs == 1 ==> met == {refarc.value}
    {
      LinkingNext(chain, i, nexts);
      if chain[i].to == nexts && IsConstraint(chain[i]) {
        refarc := Some(chain[i]);
        narcs := narcs + 1;
        met := met + {chain[i]};
      }
      i := i + 1;
    }
    if narcs != 1 {
      refarc := None;
      NotSole(met);
    }
  }

  lemma LinkingNone(chain: seq<Arc>, q: nat)
    ensures Linking(chain, 0, q) == {}
  {
  }

  lemma NotSole(met: set<Arc>)
    requires |met| != 1
    ensures forall a :: met != {a}
  {
    forall a ensures met != {a} { assert |{a}| == 1; }
  }

  ghost function Linking(chain: seq<Arc>, i: nat, q: nat): set<Arc>
    requires i <= |chain|
  {
    set a | a in chain[..i] && a.to == q && IsConstraint(a)
  }

  lemma LinkingNext(chain: seq<Arc>, i: nat, q: nat)
    requires i < |chain| && NoDup(chain)
    ensures chain[i] !in Linking(chain, i, q)
    ensures Linking(chain, i + 1, q) == Linking(chain, i, q) + if chain[i].to == q && IsConstraint(chain[i]) then {chain[i]} else {}
  {
    assert chain[..i + 1] == chain[..i] + [chain[i]];
  }

  /** Which step of the loop is to be broken (regc_nfa.c:2366-2397): one of a single constraint arc, if there is any. */
  method PickStep(nfa: Nfa, sinitial: nat) returns (shead: nat, stail: nat, refarc: Option<Arc>)
    requires nfa.Valid() && NoSelfLoops(nfa.arcs) && OnLoop(nfa.arcs, nfa.tmp, sinitial)
    ensures OnWay(nfa.arcs, shead, stail) && (refarc.Some? ==> Links(nfa.arcs, shead, stail) == {refarc.value})
  {
    ghost var loop: seq<nat> :| Loop(nfa.arcs, nfa.tmp, loop) && loop[0] == sinitial;
    hide Agree, StatesAgree, Within, Loop, OnWay;
    refarc := None;
    RoundLoop(nfa.arcs, nfa.tmp, loop, 0);
    WayIn(nfa, sinitial, nfa.tmp[sinitial]);
    var s := sinitial;
    ghost var i := 0;
    var first := true;
    while first || s != sinitial
      invariant i <= |loop| && (first <==> i == 0) && s == (loop + [loop[0]])[i]
      invariant refarc.Some? ==> Links(nfa.arcs, refarc.value.from, refarc.value.to) == {refarc.value} && OnWay(nfa.arcs, refarc.value.from, refarc.value.to)
      decreases |loop| - i
    {
      RoundLoop(nfa.arcs, nfa.tmp, loop, i);
      var nexts := nfa.tmp[s];
      if refarc.None? {
        WayIn(nfa, s, nexts);
        refarc := SoleLink(nfa, s, nexts);
        if refarc.Some? { assert refarc.value in Links(nfa.arcs, s, nexts); }
      }
      s, i, first := nexts, i + 1, false;
    }
    if refarc.Some? {
      shead, stail := refarc.value.from, refarc.value.to;
    } else {
      shead, stail := sinitial, nfa.tmp[sinitial];
    }
  }

  lemma WayIn(nfa: Nfa, p: nat, q: nat)
    requires nfa.Valid() && OnWay(nfa.arcs, p, q)
    ensures p in nfa.ins && q in nfa.ins
  {
    var a :| a in nfa.arcs && IsConstraint(a) && a.from == p && a.to == q;
    Ends(nfa.arcs, a, nfa.ins.Keys);
  }

  ghost function RefOf(refarc: Option<Arc>): set<Label> { if refarc.Some? then {LabelOf(refarc.value)} else {} }

  function RefLabel(refarc: Option<Arc>): Option<Label> { if refarc.Some? then Some(LabelOf(refarc.value)) else None }

  lemma StepBroken(g: Ground, tail: nat, refarc: Option<Arc>)
    requires OnWay(g.arcs, g.head, tail) && Within(g.arcs, g.keys) && g.ref == RefOf(refarc) && NoSelfLoops(g.arcs)
    requires refarc.Some? ==> Links(g.arcs, g.head, tail) == {refarc.value}
    ensures Broken(g, Links(g.arcs, g.head, tail), tail) && tail in g.keys && Links(g.arcs, g.head, tail) <= Loopy(g.arcs)
  {
    var a :| a in g.arcs && IsConstraint(a) && a.from == g.head && a.to == tail;
    assert a in Links(g.arcs, g.head, tail);
    var n: nat :| Constrained(g.arcs, tail, g.head, n);
    WayOn(g.arcs, g.head, tail, n);
    forall l | l in Links(g.arcs, g.head, tail) ensures g.ref <= {LabelOf(l)} && Looping(g.arcs, l) {}
  }

  /** Of a step of a loop either end is entered and left by constraint arcs. */
  lemma WayOn(arcs: set<Arc>, p: nat, q: nat, n: nat)
    requires Step(arcs, p, q) && p != q && Constrained(arcs, q, p, n)
    ensures Inner(arcs, p) && Inner(arcs, q)
  {
    hide Constrained;
    if n == 0 { NoStep(arcs, q, p); }
    var e := LastConstraint(arcs, q, p, n);
    FirstOut(arcs, q, p, n);
  }

  lemma {:induction false} FirstOut(arcs: set<Arc>, q: nat, p: nat, n: nat)
    requires n > 0 && Constrained(arcs, q, p, n)
    ensures HasConstraintOut(arcs, q)
    decreases n
  {
    var e := LastConstraint(arcs, q, p, n);
    if n == 1 { NoStep(arcs, q, e.from); } else { FirstOut(arcs, q, e.from, n - 1); }
  }

  function Sapling(root: nat, tail: nat): Tree { Tree(map[root := tail], map[], map[]) }

  /** The root of the clones before it is filled. */
  lemma Planted(nfa: Nfa, g: Ground, root: nat, tail: nat, l: set<Arc>)
    requires nfa.Valid() && nfa.arcs == g.arcs && nfa.ins.Keys == g.keys + {root} && root !in g.keys && nfa.tmp == map[]
    requires Broken(g, l, tail) && tail in g.keys && nfa.pre in g.keys && nfa.post in g.keys
    ensures Growing(nfa, g, Sapling(root, tail)) && ToFill(nfa.arcs, g, Sapling(root, tail), root) && Above(Sapling(root, tail), root) == {}
  {
    hide Agree, StatesAgree, Inner;
  }

  lemma Grown(nfa: Nfa, g: Ground, root: nat, tail: nat, t: Tree)
    requires Growing(nfa, g, t) && Grows(g.arcs, Sapling(root, tail), nfa.arcs, t) && Finished(g, nfa.arcs, Sapling(root, tail), t)
    requires t.cover.Keys == {} + {root} + (t.src.Keys - {root})
    ensures Grove(g, nfa.arcs, t, root) && t.src[root] == tail && nfa.Valid() && g.keys <= nfa.ins.Keys && root in nfa.ins
  {
    hide Agree, StatesAgree, Complete, Lineage;
    assert root in Sapling(root, tail).src;
  }

  /** Nothing leads to the root yet. */
  lemma RootFresh(g: Ground, b: set<Arc>, t: Tree, root: nat)
    requires Grove(g, b, t, root) && Within(g.arcs, g.keys)
    ensures InSet(b, root) == {} && root !in g.keys && forall e :: e in b ==> e.to != root
  {
    forall e | e in b ensures e.to != root {
      if e in g.arcs {
      } else {
        assert Complete(g, b, t, e.from) && Stems(g, t, e.from, e);
        var a :| StemsFrom(g, t, e.from, e, a);
      }
    }
  }

  /** The first i arcs of the chain have been redirected. */
  ghost function RedirectedUpto(b: set<Arc>, chain: seq<Arc>, i: nat, tail: nat, root: nat, kept: bool): set<Arc>
    requires i <= |chain|
  {
    b - Linking(chain, i, tail) + if kept then AllRehung(Linking(chain, i, tail), true, root) else {}
  }

  /** The out-chain of s, where no arc leads to root. */
  ghost predicate OutChain(b: set<Arc>, chain: seq<Arc>, s: nat, root: nat) {
    NoDup(chain) && (forall k :: 0 <= k < |chain| ==> chain[k] in b && chain[k].from == s) && forall e :: e in b ==> e.to != root
  }

  lemma RedirectNext(b: set<Arc>, chain: seq<Arc>, i: nat, s: nat, tail: nat, root: nat, kept: bool)
    requires i < |chain| && root != tail && OutChain(b, chain, s, root)
    ensures chain[i].from == s
    ensures var now, next := RedirectedUpto(b, chain, i, tail, root, kept), RedirectedUpto(b, chain, i + 1, tail, root, kept);
      if chain[i].to == tail && IsConstraint(chain[i])
      then chain[i] in now && next == (if kept then now + {chain[i].(to := root)} else now) - {chain[i]}
      else next == now
  {
    LinkingNext(chain, i, tail);
    var l := Linking(chain, i, tail);
    if chain[i].to == tail && IsConstraint(chain[i]) { RehungGrows(l, true, root, chain[i]); }
  }

  /** The last loop of breakconstraintloop(), regc_nfa.c:2438-2449. */
  method Redirect(nfa: Nfa, shead: nat, stail: nat, sclone: nat, kept: bool)
    requires nfa.Valid() && shead in nfa.ins && (kept ==> sclone in nfa.ins) && sclone != stail && forall e :: e in nfa.arcs ==> e.to != sclone
    modifies nfa`ins, nfa`outs, nfa`arcs
    ensures nfa.Valid() && nfa.ins.Keys == old(nfa.ins.Keys)
    ensures var l := Links(old(nfa.arcs), shead, stail); nfa.arcs == old(nfa.arcs) - l + if kept then AllRehung(l, true, sclone) else {}
  {
    hide Agree, StatesAgree, Within, RedirectedUpto, Linking, Links, AllRehung, Lists, InSet, OutSet, NoDup;
    ghost var b := nfa.arcs;
    var chain := nfa.outs[shead];
    HeadChain(nfa, shead);
    LinksAll(b, chain, shead, stail);
    RedirectEnds(b, chain, shead, stail, sclone, kept);
    assert OutChain(b, chain, shead, sclone);
    RedirectAll(nfa, shead, stail, sclone, kept, chain, b);
  }

  method RedirectAll(nfa: Nfa, shead: nat, stail: nat, sclone: nat, kept: bool, chain: seq<Arc>, ghost b: set<Arc>)
    requires nfa.Valid() && shead in nfa.ins && (kept ==> sclone in nfa.ins) && sclone != stail && OutChain(b, chain, shead, sclone)
    requires nfa.arcs == RedirectedUpto(b, chain, 0, stail, sclone, kept)
    modifies nfa`ins, nfa`outs, nfa`arcs
    ensures nfa.Valid() && nfa.ins.Keys == old(nfa.ins.Keys) && nfa.arcs == RedirectedUpto(b, chain, |chain|, stail, sclone, kept)
  {
    hide Agree, StatesAgree, Within, RedirectedUpto, OutChain;
    var i := 0;
    while i < |chain|
      invariant i <= |chain| && nfa.Valid() && nfa.ins.Keys == old(nfa.ins.Keys) && nfa.arcs == RedirectedUpto(b, chain, i, stail, sclone, kept)
    {
      RedirectNext(b, chain, i, shead, stail, sclone, kept);
      if chain[i].to == stail && IsConstraint(chain[i]) {
        RedirectArc(nfa, chain[i], shead, sclone, kept);
      }
      i := i + 1;
    }
  }

  /** cparc() and freearc() (regc_nfa.c:2441-2444). */
  method RedirectArc(nfa: Nfa, a: Arc, shead: nat, sclone: nat, kept: bool)
    requires nfa.Valid() && a in nfa.arcs && a.from == shead && shead in nfa.ins && (kept ==> sclone in nfa.ins)
    modifies nfa`ins, nfa`outs, nfa`arcs
    ensures nfa.Valid() && nfa.ins.Keys == old(nfa.ins.Keys)
    ensures nfa.arcs == (if kept then old(nfa.arcs) + {a.(to := sclone)} else old(nfa.arcs)) - {a}
  {
    hide Agree, StatesAgree, Within;
    if kept { nfa.LinkUnlessPresent(Arc(a.typ, a.co, shead, sclone)); }
    nfa.Unlink(a);
  }

  lemma HeadChain(nfa: Nfa, s: nat)
    requires nfa.Valid() && s in nfa.ins
    ensures s in nfa.outs && Lists(nfa.outs[s], OutSet(nfa.arcs, s)) && NoDup(nfa.outs[s])
    ensures forall k :: 0 <= k < |nfa.outs[s]| ==> nfa.outs[s][k] in nfa.arcs && nfa.outs[s][k].from == s
  {
    var chain := nfa.outs[s];
    assert Lists(chain, OutSet(nfa.arcs, s)) by { assert OutSet(nfa.arcs, s) == SideSet(nfa.arcs, s, false); }
    forall k | 0 <= k < |chain| ensures chain[k] in nfa.arcs && chain[k].from == s { assert chain[k] in OutSet(nfa.arcs, s); }
  }

  lemma RedirectEnds(b: set<Arc>, chain: seq<Arc>, shead: nat, stail: nat, root: nat, kept: bool)
    requires Linking(chain, |chain|, stail) == Links(b, shead, stail)
    ensures RedirectedUpto(b, chain, 0, stail, root, kept) == b
    ensures RedirectedUpto(b, chain, |chain|, stail, root, kept) == b - Links(b, shead, stail) + if kept then AllRehung(Links(b, shead, stail), true, root) else {}
  {
    assert Linking(chain, 0, stail) == {};
  }

  lemma LinksAll(b: set<Arc>, chain: seq<Arc>, shead: nat, stail: nat)
    requires Lists(chain, OutSet(b, shead))
    ensures Linking(chain, |chain|, stail) == Links(b, shead, stail)
  {
    assert chain[..|chain|] == chain;
    forall a ensures a in Linking(chain, |chain|, stail) <==> a in Links(b, shead, stail) { assert a in OutSet(b, shead) <==> a in chain; }
  }

  /** Nothing changes for the texts, the ends are as they were, and no label is new. */
  ghost predicate Mended(was: set<Arc>, now: set<Arc>, pre: nat, post: nat) {
    && SameTexts(was, now, pre, post) && Ended(now, pre, post) && NoSelfLoops(now)
    && forall e :: e in now ==> exists a :: a in was && LabelsAlike(a, e)
  }

  predicate LabelsAlike(a: Arc, e: Arc) { LabelOf(a) == LabelOf(e) }

  lemma MendedSelf(was: set<Arc>, pre: nat, post: nat)
    requires Ended(was, pre, post) && NoSelfLoops(was)
    ensures Mended(was, was, pre, post)
  {
    SameTextsRefl(was, pre, post);
    forall e | e in was ensures exists a :: a in was && LabelsAlike(a, e) { assert LabelsAlike(e, e); }
  }

  lemma MendedTrans(a: set<Arc>, b: set<Arc>, c: set<Arc>, pre: nat, post: nat)
    requires Mended(a, b, pre, post) && Mended(b, c, pre, post)
    ensures Mended(a, c, pre, post)
  {
    SameTextsTrans(a, b, c, pre, post);
    forall e | e in c ensures exists d :: d in a && LabelsAlike(d, e) {
      var f :| f in b && LabelsAlike(f, e);
      var d :| d in a && LabelsAlike(d, f);
      assert LabelsAlike(d, e);
    }
  }

  lemma MendedLess(was: set<Arc>, now: set<Arc>, pre: nat, post: nat)
    requires Ended(was, pre, post) && now <= was && SameTexts(was, now, pre, post) && NoSelfLoops(now)
    ensures Mended(was, now, pre, post)
  {
    hide SameTexts;
    forall e | e in now ensures exists a :: a in was && LabelsAlike(a, e) { assert LabelsAlike(e, e); }
  }

  lemma ArcsWithin(nfa: Nfa)
    requires nfa.Valid()
    ensures Within(nfa.arcs, nfa.ins.Keys) && nfa.pre in nfa.ins && nfa.post in nfa.ins
  {
    assert nfa.pre in nfa.states && nfa.post in nfa.states;
  }

  lemma LoopBroken(g: Ground, b: set<Arc>, t: Tree, root: nat, l: set<Arc>, tail: nat, pre: nat, post: nat)
    requires Grove(g, b, t, root) && Broken(g, l, tail) && t.src[root] == tail && Ended(g.arcs, pre, post) && pre in g.keys && post in g.keys
    requires NoSelfLoops(g.arcs) && l <= Loopy(g.arcs)
    ensures Mended(g.arcs, Redirected(b, l, root), pre, post) && |Loopy(Redirected(b, l, root))| < |Loopy(g.arcs)|
  {
    BrokenTexts(g, b, t, root, l, tail, pre, post);
    BrokenShape(g, b, t, root, l, tail, pre, post);
    LoopsFewer(g, b, t, root, l, tail);
    BrokenSome(g, l, tail);
    forall e | e in Redirected(b, l, root) ensures exists a :: a in g.arcs && LabelsAlike(a, e) {
      var a :| a in g.arcs && LabelOf(a) == LabelOf(e);
      assert LabelsAlike(a, e);
    }
    hide Grove, Broken, SameTexts, Ended, NoSelfLoops, Loopy, Redirected;
    var some :| some in l;
    SetLess(Loopy(Redirected(b, l, root)), Loopy(g.arcs), some);
  }

  lemma BrokenSome(g: Ground, l: set<Arc>, tail: nat)
    requires Broken(g, l, tail)
    ensures l != {}
  {
  }

  lemma SetLess(a: set<Arc>, b: set<Arc>, x: Arc)
    requires a <= b && x in b && x !in a
    ensures |a| < |b|
  {
    SetSize(a, b - {x});
  }

  lemma SetSize(a: set<Arc>, b: set<Arc>)
    requires a <= b
    ensures |a| <= |b|
  {
    if a != {} {
      var x :| x in a;
      SetSize(a - {x}, b - {x});
    }
  }

  lemma LinksSame(g: Ground, b: set<Arc>, t: Tree, root: nat, tail: nat)
    requires Grove(g, b, t, root) && g.head in g.keys
    ensures Links(b, g.head, tail) == Links(g.arcs, g.head, tail)
  {
  }

  lemma RedirectedIs(b: set<Arc>, l: set<Arc>, root: nat, kept: bool)
    requires kept <==> OutSet(b, root) != {}
    ensures Redirected(b, l, root) == b - l + if kept then AllRehung(l, true, root) else {}
    ensures InSet(b, root) == {} && !kept ==> b - InSet(b, root) - OutSet(b, root) == b
  {
  }

  lemma RootArcs(nfa: Nfa, s: nat)
    requires nfa.Valid() && s in nfa.ins
    ensures s in nfa.outs && (nfa.outs[s] == [] <==> OutSet(nfa.arcs, s) == {})
  {
    HeadChain(nfa, s);
    var chain := nfa.outs[s];
    if chain == [] { forall e ensures e !in OutSet(nfa.arcs, s) { assert e in OutSet(nfa.arcs, s) <==> e in chain; } }
    if chain != [] { assert chain[0] in OutSet(nfa.arcs, s) by { assert chain[0] in chain; } }
  }

  /** breakconstraintloop(), regc_nfa.c:2349-2450: the loop is broken, the same texts are matched, and there are fewer arcs
      on loops. */
  method BreakConstraintLoop(nfa: Nfa, sinitial: nat)
    requires nfa.Valid() && NoSelfLoops(nfa.arcs) && OnLoop(nfa.arcs, nfa.tmp, sinitial) && Ended(nfa.arcs, nfa.pre, nfa.post)
    modifies nfa`states, nfa`nstates, nfa`ins, nfa`outs, nfa`arcs, nfa`tmp
    ensures nfa.Valid() && nfa.tmp == map[]
    ensures Mended(old(nfa.arcs), nfa.arcs, nfa.pre, nfa.post) && |Loopy(nfa.arcs)| < |Loopy(old(nfa.arcs))|
  {
    hide Agree, StatesAgree, Within, OnLoop, OnWay, Ended, SameTexts, Grove, Broken, Growing, ToFill, Grows, Finished, Loopy, NoSelfLoops, Links, Redirected, Above, Mended;
    var shead, stail, refarc := PickStep(nfa, sinitial);
    WayIn(nfa, shead, stail);
    ghost var g := Ground(nfa.arcs, nfa.ins.Keys, shead, RefOf(refarc));
    ghost var l := Links(nfa.arcs, shead, stail);
    ArcsWithin(nfa);
    StepBroken(g, stail, refarc);
    nfa.tmp := map[];
    var sclone := nfa.NewState();
    Planted(nfa, g, sclone, stail, l);
    ghost var t := CloneTree(nfa, stail, sclone, shead, RefLabel(refarc), None, g, Sapling(sclone, stail));
    Grown(nfa, g, sclone, stail, t);
    ghost var b := nfa.arcs;
    LoopBroken(g, b, t, sclone, l, stail, nfa.pre, nfa.post);
    RootFresh(g, b, t, sclone);
    LinksSame(g, b, t, sclone, stail);
    RootArcs(nfa, sclone);
    var kept := |nfa.outs[sclone]| != 0;
    RedirectedIs(b, l, sclone, kept);
    if !kept {
      nfa.DropState(sclone);
    }
    Redirect(nfa, shead, stail, sclone, kept);
  }

  // ---------------------------------------------------------------- fixconstraintloops()

  /** Searching for loops and breaking them (regc_nfa.c:2209-2214), until there is none. */
  method BreakLoops(nfa: Nfa)
    requires nfa.Valid() && nfa.tmp == map[] && NoSelfLoops(nfa.arcs) && Ended(nfa.arcs, nfa.pre, nfa.post)
    modifies nfa`states, nfa`nstates, nfa`ins, nfa`outs, nfa`arcs, nfa`tmp
    ensures nfa.Valid() && nfa.tmp.Keys <= nfa.ins.Keys
    ensures Mended(old(nfa.arcs), nfa.arcs, nfa.pre, nfa.post) && exists rank :: Ranked(nfa.arcs, rank)
  {
    hide Agree, StatesAgree, Within, OnLoop, Ended, SameTexts, Loopy, NoSelfLoops, Mended, Ranked;
    ghost var was := nfa.arcs;
    MendedSelf(was, nfa.pre, nfa.post);
    var loop := SearchLoops(nfa);
    while loop.Some?
      invariant nfa.Valid() && Mended(was, nfa.arcs, nfa.pre, nfa.post)
      invariant loop.Some? ==> OnLoop(nfa.arcs, nfa.tmp, loop.value)
      invariant loop.None? ==> nfa.tmp.Keys <= nfa.ins.Keys && exists rank :: Ranked(nfa.arcs, rank)
      decreases |Loopy(nfa.arcs)|, if loop.Some? then 1 else 0
    {
      ghost var now := nfa.arcs;
      MendedParts(was, now, nfa.pre, nfa.post);
      BreakConstraintLoop(nfa, loop.value);
      MendedTrans(was, now, nfa.arcs, nfa.pre, nfa.post);
      MendedParts(was, nfa.arcs, nfa.pre, nfa.post);
      loop := SearchLoops(nfa);
    }
  }

  lemma MendedParts(was: set<Arc>, now: set<Arc>, pre: nat, post: nat)
    requires Mended(was, now, pre, post)
    ensures Ended(now, pre, post) && NoSelfLoops(now) && SameTexts(was, now, pre, post)
  {
  }

  /** fixconstraintloops(), regc_nfa.c:2159-2240: it ends, no loop of constraint arcs is left, and the same pieces of every
      text are matched. */
  method FixConstraintLoops(nfa: Nfa)
    requires nfa.Valid() && nfa.tmp == map[] && Ended(nfa.arcs, nfa.pre, nfa.post)
    modifies nfa`states, nfa`nstates, nfa`ins, nfa`outs, nfa`arcs, nfa`tmp
    ensures nfa.Valid() && nfa.tmp == map[]
    ensures Mended(old(nfa.arcs), nfa.arcs, nfa.pre, nfa.post) && exists rank :: Ranked(nfa.arcs, rank)
  {
    hide Agree, StatesAgree, Within, Ended, SameTexts, NoSelfLoops, Mended, Ranked;
    ghost var was := nfa.arcs;
    EndedFenced(was, nfa.pre, nfa.post);
    var hasconstraints := DropSelfLoops(nfa);
    ghost var trimmed := nfa.arcs;
    MendedLess(was, trimmed, nfa.pre, nfa.post);
    MendedParts(was, trimmed, nfa.pre, nfa.post);
    if !hasconstraints {
      Unconstrained(nfa.arcs);
      return;
    }
    BreakLoops(nfa);
    ghost var broken := nfa.arcs;
    MendedParts(trimmed, broken, nfa.pre, nfa.post);
    MendedTrans(was, trimmed, broken, nfa.pre, nfa.post);
    ghost var keys := nfa.states;
    StatesThere(nfa);
    ClearAndDrop(nfa);
    assert nfa.tmp.Keys == {};
    SelfLoopsLess(broken, nfa.arcs);
    MendedLess(broken, nfa.arcs, nfa.pre, nfa.post);
    MendedTrans(was, broken, nfa.arcs, nfa.pre, nfa.post);
    RankedLess(broken, nfa.arcs);
  }

  lemma StatesThere(nfa: Nfa)
    requires nfa.Valid()
    ensures forall s :: s in nfa.ins <==> s in nfa.states
  {
  }

  lemma EndedFenced(arcs: set<Arc>, pre: nat, post: nat)
    requires Ended(arcs, pre, post)
    ensures Fenced(arcs, pre, post)
  {
  }

  lemma SelfLoopsLess(was: set<Arc>, now: set<Arc>)
    requires NoSelfLoops(was) && now <= was
    ensures NoSelfLoops(now)
  {
  }
}
