/** repeat(), regcomp.c:1344-1423: a fragment for x becomes one for x{m,n}. */
module Repeat {
  import opened Nfa
  import opened Words
  import opened Fragments
  import opened SubNfa

  /** Whatever does not belong to the fragment is as it was. */
  ghost predicate RestKept(arcs: set<Arc>, zone: set<nat>, arcs2: set<Arc>, zone2: set<nat>) {
    arcs2 - Leaving(arcs2, zone2) == arcs - Leaving(arcs, zone)
  }

  /** The states of the new zone are those of the old one or new. */
  ghost predicate Renewed(keys: set<nat>, zone: set<nat>, keys2: set<nat>, zone2: set<nat>) {
    zone2 <= keys2 && forall x :: x in zone2 ==> x in zone || x !in keys
  }

  /** The fragment between lp and rp now spells the words of l, and nothing else has changed. */
  ghost predicate Refitted(arcs: set<Arc>, keys: set<nat>, zone: set<nat>, lp: nat, rp: nat, arcs2: set<Arc>, keys2: set<nat>, zone2: set<nat>, l: Language) {
    && Strung(arcs2, zone2, lp, rp) && Renewed(keys, zone, keys2, zone2) && RestKept(arcs, zone, arcs2, zone2)
    && Lang(arcs2, zone2, lp, rp) == l
  }

  lemma StrungOneWay(arcs: set<Arc>, zone: set<nat>, lp: nat, rp: nat)
    requires Strung(arcs, zone, lp, rp)
    ensures OneWay(Leaving(arcs, zone), lp, rp) && Enclosed(arcs, zone, rp)
  {
  }

  // ---------------------------------------------------------------- x| , and nothing at all

  lemma Bypassed(arcs: set<Arc>, zone: set<nat>, lp: nat, rp: nat)
    requires Strung(arcs, zone, lp, rp)
    ensures var arcs2 := arcs + {Arc(EMPTY, 0, lp, rp)}; Strung(arcs2, zone, lp, rp) && RestKept(arcs, zone, arcs2, zone)
    ensures Lang(arcs + {Arc(EMPTY, 0, lp, rp)}, zone, lp, rp) == Lang(arcs, zone, lp, rp) + iset{[]}
  {
    var e := Arc(EMPTY, 0, lp, rp);
    assert Leaving(arcs + {e}, zone) == Leaving(arcs, zone) + {e};
    StrungOneWay(arcs, zone, lp, rp);
    BypassLang(Leaving(arcs, zone), lp, rp);
  }

  /** With the fragment bypassed, x{m,n} for m >= 1 becomes x{0,n}. */
  lemma MadeOptional(arcs: set<Arc>, keys: set<nat>, zone: set<nat>, lp: nat, rp: nat, arcs2: set<Arc>, keys2: set<nat>, zone2: set<nat>, l: Language, n: nat)
    requires Refitted(arcs, keys, zone, lp, rp, arcs2, keys2, zone2, Times(l, 1, n)) && n >= 1
    ensures Refitted(arcs, keys, zone, lp, rp, arcs2 + {Arc(EMPTY, 0, lp, rp)}, keys2, zone2, Times(l, 0, n))
  {
    Bypassed(arcs2, zone2, lp, rp);
    TimesOptional(l, n);
  }

  lemma Unchanged(arcs: set<Arc>, keys: set<nat>, zone: set<nat>, lp: nat, rp: nat)
    requires Strung(arcs, zone, lp, rp) && zone <= keys
    ensures Refitted(arcs, keys, zone, lp, rp, arcs, keys, zone, Times(Lang(arcs, zone, lp, rp), 1, 1))
  {
    TimesOne(Lang(arcs, zone, lp, rp));
  }

  lemma {:induction false} BarePath(arcs: set<Arc>, lp: nat, rp: nat, q: nat, w: Word, n: nat)
    requires lp != rp && arcs == {Arc(EMPTY, 0, lp, rp)} && Reach(arcs, lp, q, w, n)
    ensures w == [] && (q == lp || q == rp)
    decreases n
  {
    if n > 0 {
      var e, u := Unroll(arcs, lp, q, w, n);
      BarePath(arcs, lp, rp, e.from, u, n - 1);
    }
  }

  lemma BareLang(lp: nat, rp: nat)
    requires lp != rp
    ensures SpelledBy({Arc(EMPTY, 0, lp, rp)}, lp, rp) == iset{[]}
  {
    var f := {Arc(EMPTY, 0, lp, rp)};
    OneArc(f, Arc(EMPTY, 0, lp, rp));
    forall w: Word ensures w in SpelledBy(f, lp, rp) <==> w == [] {
      if Spells(f, lp, rp, w) {
        var n: nat :| Reach(f, lp, rp, w, n);
        BarePath(f, lp, rp, rp, w, n);
      }
    }
  }

  /** The fragment deleted but for an EMPTY arc. Of what could not be reached, only lp's part matters: nothing. */
  lemma Emptied(arcs: set<Arc>, arcs1: set<Arc>, keys: set<nat>, keys2: set<nat>, zone: set<nat>, lp: nat, rp: nat)
    requires Strung(arcs, zone, lp, rp) && arcs1 == arcs - Reachable(arcs, zone, lp) && OutSet(arcs1, lp) == {} && lp in keys2
    requires Within(arcs1, keys2)
    ensures Refitted(arcs, keys, zone, lp, rp, arcs1 + {Arc(EMPTY, 0, lp, rp)}, keys2, zone * keys2, Times(Lang(arcs, zone, lp, rp), 0, 0))
  {
    var e, zone2 := Arc(EMPTY, 0, lp, rp), zone * keys2;
    var arcs2 := arcs1 + {e};
    TimesNone(Lang(arcs, zone, lp, rp));
    assert forall a :: a in arcs1 ==> a.from in keys2 && a.to in keys2;
    var f := Leaving(arcs2, zone2);
    assert forall a :: a in arcs1 ==> (a in OutSet(arcs1, lp) <==> a.from == lp);
    assert forall a :: a in f && a.from in {lp} ==> a == e;
    assert Leaving(f, {lp}) == {e};
    KeptLang(f, {lp}, lp, rp);
    BareLang(lp, rp);
  }

  // ---------------------------------------------------------------- loops

  lemma MovedEnds(arcs: set<Arc>, zone: set<nat>, lp: nat, rp: nat, s: nat, s2: nat, keys: set<nat>)
    requires Strung(arcs, zone, lp, rp) && Within(arcs, keys) && lp in keys && rp in keys && s !in keys && s2 !in keys
    ensures Moved(Moved(arcs, false, lp, s), true, rp, s2) == arcs - Leaving(arcs, zone) + Images(Leaving(arcs, zone), map[lp := s, rp := s2])
  {
    var c := map[lp := s, rp := s2];
    var m1 := Moved(arcs, false, lp, s);
    var m2 := Moved(m1, true, rp, s2);
    forall e ensures e in m2 <==> e in arcs - Leaving(arcs, zone) + Images(Leaving(arcs, zone), c) {
      MovedEndsAt(arcs, zone, lp, rp, s, s2, keys, e);
    }
  }

  lemma MovedEndsAt(arcs: set<Arc>, zone: set<nat>, lp: nat, rp: nat, s: nat, s2: nat, keys: set<nat>, e: Arc)
    requires Strung(arcs, zone, lp, rp) && Within(arcs, keys) && lp in keys && rp in keys && s !in keys && s2 !in keys
    ensures e in Moved(Moved(arcs, false, lp, s), true, rp, s2) <==> e in arcs - Leaving(arcs, zone) + Images(Leaving(arcs, zone), map[lp := s, rp := s2])
  {
    var c := map[lp := s, rp := s2];
    var m1 := Moved(arcs, false, lp, s);
    var m2 := Moved(m1, true, rp, s2);
    assert forall a :: a in arcs ==> (a in OutSet(arcs, lp) <==> a.from == lp);
    if e in m2 {
      var e1 := if e in m1 && e.to != rp then e else e.(to := rp);
      assert e1 in m1 by {
        if !(e in m1 && e.to != rp) {
          assert e in AllRehung(InSet(m1, rp), true, s2);
          var d :| d in InSet(m1, rp) && e == Rehung(d, true, s2);
          assert d == e1;
        }
      }
      var a := if e1.from == s then e1.(from := lp) else e1;
      assert a in arcs by {
        if e1 !in arcs {
          var d :| d in OutSet(arcs, lp) && e1 == Rehung(d, false, s);
          assert d == a;
        }
      }
      if a.from in zone { assert ArcImg(c, a) == e; }
    }
    if e in Images(Leaving(arcs, zone), c) {
      var a :| a in Leaving(arcs, zone) && ArcImg(c, a) == e;
      var e1 := a.(from := Img(c, a.from));
      if a.from == lp { assert e1 == Rehung(a, false, s) && a in OutSet(arcs, lp); }
      assert e1 in m1;
      if a.to == rp { assert e1 in InSet(m1, rp) && e == Rehung(e1, true, s2); } else { assert e == e1; }
    }
    if e in arcs - Leaving(arcs, zone) {
      assert e.from != lp && e.to != rp;
      assert e in m1;
    }
  }

  /** The fragment looped around: x* or x+. */
  lemma Looped(arcs: set<Arc>, arcs2: set<Arc>, keys: set<nat>, keys2: set<nat>, zone: set<nat>, lp: nat, rp: nat, s: nat, s2: nat)
    requires Strung(arcs, zone, lp, rp) && Within(arcs, keys) && zone <= keys && rp in keys && s !in keys && s2 !in keys && keys2 == keys + {s, s2}
    requires arcs2 == arcs - Leaving(arcs, zone) + Loop(Leaving(arcs, zone), lp, rp, s, s2)
    ensures Refitted(arcs, keys, zone, lp, rp, arcs2, keys2, zone + {s, s2}, Times(Lang(arcs, zone, lp, rp), if s == s2 then 0 else 1, DUPINF))
  {
    var f, zone2 := Leaving(arcs, zone), zone + {s, s2};
    var g := Loop(f, lp, rp, s, s2);
    StrungOneWay(arcs, zone, lp, rp);
    forall e | e in g ensures e.from in zone2 && (e.to in zone2 || e.to == rp) && e.to != lp {
      if e in Images(f, map[lp := s, rp := s2]) { var a :| a in f && ArcImg(map[lp := s, rp := s2], a) == e; }
    }
    assert Leaving(arcs2, zone2) == g;
    LoopLang(f, lp, rp, s, s2);
  }

  // ---------------------------------------------------------------- copies in front

  /** The fragment begins at s instead of lp, which has no out-arcs any more. */
  lemma FrontMoved(arcs: set<Arc>, keys: set<nat>, zone: set<nat>, lp: nat, rp: nat, s: nat)
    requires Strung(arcs, zone, lp, rp) && Within(arcs, keys) && zone <= keys && rp in keys && s !in keys
    ensures var arcs1, zb := Moved(arcs, false, lp, s), zone - {lp} + {s};
      && Strung(arcs1, zb, s, rp) && RestKept(arcs, zone, arcs1, zb) && Lang(arcs1, zb, s, rp) == Lang(arcs, zone, lp, rp)
      && OutSet(arcs1, lp) == {} && InSet(arcs1, s) == {}
  {
    var arcs1, zb, c := Moved(arcs, false, lp, s), zone - {lp} + {s}, map[lp := s];
    var f := Leaving(arcs, zone);
    assert forall a :: a in arcs ==> (a in OutSet(arcs, lp) <==> a.from == lp);
    forall e ensures e in arcs1 <==> e in arcs - f + Images(f, c) {
      if e in arcs1 && e !in arcs {
        var d :| d in OutSet(arcs, lp) && e == Rehung(d, false, s);
        assert e == ArcImg(c, d);
      }
      if e in arcs1 && e in f { assert e == ArcImg(c, e); }
      if e in Images(f, c) {
        var a :| a in f && ArcImg(c, a) == e;
        if a.from == lp { assert e == Rehung(a, false, s); }
      }
    }
    assert arcs1 == arcs - f + Images(f, c);
    forall e | e in Images(f, c) ensures e.from in zb && (e.to in zb || e.to == rp) && e.to != s && e.to != lp {
      var a :| a in f && ArcImg(c, a) == e;
    }
    assert Leaving(arcs1, zb) == Images(f, c);
    ImageLang(f, c, zone + {rp}, lp, rp);
  }

  /** The states of a copy. */
  ghost function CopyZone(c: map<nat, nat>, stop: nat): set<nat> {
    set x | x in c.Keys && x != stop :: c[x]
  }

  /** A fragment has been copied: both are strung, and they spell the same. */
  lemma CopyStrung(arcs: set<Arc>, keys: set<nat>, zone: set<nat>, start: nat, stop: nat, from: nat, to: nat, c: map<nat, nat>)
    requires Strung(arcs, zone, start, stop) && Within(arcs, keys) && zone <= keys && stop in keys && from in keys && to in keys
    requires from !in zone && from != stop && from != to && to != stop && to !in zone - {start}
    requires OutSet(arcs, from) == {} && InSet(arcs, to) == {}
    requires Duplicates(c, zone, start, stop, from, to, keys) && Duplicated(Leaving(arcs, zone), c, start, stop)
    ensures var arcs2, za := arcs + Images(Leaving(arcs, c.Keys - {stop}), c), CopyZone(c, stop);
      && Strung(arcs2, za, from, to) && Strung(arcs2, zone, start, stop) && za !! zone && stop !in za
      && Leaving(arcs2, zone) == Leaving(arcs, zone) && Leaving(arcs2, za) == arcs2 - arcs && (forall x :: x in za ==> x == from || x !in keys)
  {
    hide Connected;
    var f := Leaving(arcs, c.Keys - {stop});
    var arcs2, za := arcs + Images(f, c), CopyZone(c, stop);
    assert Leaving(Leaving(arcs, zone), c.Keys - {stop}) == f;
    assert forall a :: a in arcs ==> (a in OutSet(arcs, from) <==> a.from == from) && (a in InSet(arcs, to) <==> a.to == to);
    forall x | x in za ensures (x == from || x !in keys) && x !in zone && x != stop && x != to {
      var y :| y in c && y != stop && c[y] == x;
    }
    assert c[start] in za;
    forall e | e in Images(f, c) ensures e.from in za && (e.to in za || e.to == to) && e.to != from && e !in arcs {
      CopyArc(arcs, keys, zone, start, stop, from, to, c, e);
    }
  }

  lemma CopyArc(arcs: set<Arc>, keys: set<nat>, zone: set<nat>, start: nat, stop: nat, from: nat, to: nat, c: map<nat, nat>, e: Arc)
    requires Strung(arcs, zone, start, stop) && Within(arcs, keys) && from in keys && from != to && OutSet(arcs, from) == {}
    requires Duplicates(c, zone, start, stop, from, to, keys) && Duplicated(Leaving(arcs, zone), c, start, stop)
    requires e in Images(Leaving(arcs, c.Keys - {stop}), c)
    ensures e.from in CopyZone(c, stop) && (e.to in CopyZone(c, stop) || e.to == to) && e.to != from && e !in arcs
  {
    hide Connected;
    var a :| a in Leaving(arcs, c.Keys - {stop}) && ArcImg(c, a) == e;
    assert a in Leaving(Leaving(arcs, zone), c.Keys - {stop});
    assert c[a.from] in CopyZone(c, stop);
    if a.to != stop { assert c[a.to] in CopyZone(c, stop); }
    if e in arcs && e.from == from { HasOut(arcs, e); }
  }

  lemma CopyLang(arcs: set<Arc>, keys: set<nat>, zone: set<nat>, start: nat, stop: nat, from: nat, to: nat, c: map<nat, nat>)
    requires Strung(arcs, zone, start, stop) && Within(arcs, keys) && zone <= keys && stop in keys && from in keys && to in keys
    requires from !in zone && from != stop && from != to && to != stop && to !in zone - {start}
    requires OutSet(arcs, from) == {} && InSet(arcs, to) == {}
    requires Duplicates(c, zone, start, stop, from, to, keys) && Duplicated(Leaving(arcs, zone), c, start, stop)
    ensures Lang(arcs + Images(Leaving(arcs, c.Keys - {stop}), c), CopyZone(c, stop), from, to) == Lang(arcs, zone, start, stop)
  {
    hide Connected, Strung;
    CopyStrung(arcs, keys, zone, start, stop, from, to, c);
    var f, k := Leaving(arcs, zone), c.Keys - {stop};
    var fk := Leaving(f, k);
    var arcs2, za := arcs + Images(Leaving(arcs, k), c), CopyZone(c, stop);
    assert Leaving(arcs, k) == fk;
    assert Leaving(arcs2, za) == Images(fk, c) by {
      forall e | e in Images(fk, c) ensures e !in arcs { CopyArc(arcs, keys, zone, start, stop, from, to, c, e); }
    }
    CopyFaithful(arcs, zone, start, stop, from, to, c, keys, fk);
    ImageLang(fk, c, c.Keys, start, stop);
    ReachedOnly(arcs, zone, start, stop, c, k);
  }

  lemma CopyFaithful(arcs: set<Arc>, zone: set<nat>, start: nat, stop: nat, from: nat, to: nat, c: map<nat, nat>, keys: set<nat>, fk: set<Arc>)
    requires Duplicates(c, zone, start, stop, from, to, keys) && Duplicated(Leaving(arcs, zone), c, start, stop)
    requires fk == Leaving(Leaving(arcs, zone), c.Keys - {stop}) && from != to && to in keys && start != stop
    ensures Faithful(fk, c, c.Keys)
  {
    hide Connected;
    assert Known(fk, c);
  }

  lemma ReachedOnly(arcs: set<Arc>, zone: set<nat>, start: nat, stop: nat, c: map<nat, nat>, k: set<nat>)
    requires Strung(arcs, zone, start, stop) && Duplicated(Leaving(arcs, zone), c, start, stop) && k == c.Keys - {stop}
    ensures SpelledBy(Leaving(Leaving(arcs, zone), k), start, stop) == Lang(arcs, zone, start, stop)
  {
    hide Connected;
    var f := Leaving(arcs, zone);
    assert start in k;
    forall a | a in f && a.from in k ensures a.to in k || forall b :: b in f ==> b.from != a.to {
      assert a in Leaving(f, c.Keys - {stop});
    }
    KeptLang(f, k, start, stop);
  }

  /** Refitting one fragment leaves another one alone; the one that is refitted may lead to the other. */
  lemma OtherKept(arcs2: set<Arc>, keys2: set<nat>, za: set<nat>, p: nat, q: nat, arcs3: set<Arc>, keys3: set<nat>, za3: set<nat>, l: Language,
                  zone: set<nat>, begin: nat, end: nat)
    requires Refitted(arcs2, keys2, za, p, q, arcs3, keys3, za3, l) && Strung(arcs2, zone, begin, end) && za !! zone && end !in za
    requires zone <= keys2 && end in keys2 && q !in zone - {begin} && q != end
    ensures za3 !! zone && end !in za3 && Strung(arcs3, zone, begin, end) && Leaving(arcs3, zone) == Leaving(arcs2, zone)
    ensures arcs3 - Leaving(arcs3, za3 + zone) == arcs2 - Leaving(arcs2, za + zone)
  {
    assert za3 !! zone;
    forall a | a in arcs3 ensures a in arcs3 - Leaving(arcs3, za3) <==> a in arcs2 - Leaving(arcs2, za) {}
    assert forall a :: a in arcs2 - Leaving(arcs2, za) ==> a in arcs3;
    forall a ensures a in Leaving(arcs3, zone) <==> a in Leaving(arcs2, zone) {
      if a in Leaving(arcs3, zone) { assert a in arcs3 - Leaving(arcs3, za3); }
      if a in Leaving(arcs2, zone) { assert a in arcs2 - Leaving(arcs2, za); }
    }
    assert Strung(arcs3, zone, begin, end) by {
      forall a | a in arcs3 && (a.to in zone || a.to == end) && a.to != begin ensures a.from in zone {
        if a.from !in za3 { assert a in arcs3 - Leaving(arcs3, za3); }
      }
    }
  }

  /** The copy in front has been refitted; the fragment behind it is untouched, and the two are chained. */
  lemma CopiesChained(arcs2: set<Arc>, keys2: set<nat>, za: set<nat>, zb: set<nat>, lp: nat, s: nat, rp: nat,
                      arcs3: set<Arc>, keys3: set<nat>, za3: set<nat>, la: Language)
    requires Strung(arcs2, zb, s, rp) && za !! zb && rp !in za && zb <= keys2 && rp in keys2
    requires Refitted(arcs2, keys2, za, lp, s, arcs3, keys3, za3, la)
    ensures za3 !! zb && rp !in za3 && Strung(arcs3, za3 + zb, lp, rp) && Lang(arcs3, za3 + zb, lp, rp) == Cat(la, Lang(arcs2, zb, s, rp))
    ensures arcs3 - Leaving(arcs3, za3 + zb) == arcs2 - Leaving(arcs2, za + zb)
    ensures Strung(arcs3, zb, s, rp) && Leaving(arcs3, zb) == Leaving(arcs2, zb)
  {
    OtherKept(arcs2, keys2, za, lp, s, arcs3, keys3, za3, la, zb, s, rp);
    ChainedStrung(arcs3, za3, zb, lp, s, rp);
    ChainedLang(arcs3, za3, zb, lp, s, rp);
  }

  // ---------------------------------------------------------------- the methods

  /** EMPTYARC(x, y), regcomp.c:243. */
  method EmptyArc(nfa: Nfa, x: nat, y: nat)
    requires nfa.Valid() && x in nfa.ins && y in nfa.ins
    modifies nfa`ins, nfa`outs, nfa`arcs
    ensures nfa.Valid() && nfa.ins.Keys == old(nfa.ins.Keys) && nfa.arcs == old(nfa.arcs) + {Arc(EMPTY, 0, x, y)}
  {
    nfa.LinkUnlessPresent(Arc(EMPTY, 0, x, y));
  }

  /** The cases (0, 0), (0, 1) and (1, 1): nothing, x| and x itself. */
  method AtMostOnce(nfa: Nfa, lp: nat, rp: nat, m: nat, n: nat, ghost zone: set<nat>) returns (ghost zone2: set<nat>)
    requires nfa.Valid() && nfa.tmp == map[] && Strung(nfa.arcs, zone, lp, rp) && zone <= nfa.ins.Keys && rp in nfa.ins
    requires (forall x :: x in zone && x != lp ==> !nfa.Flagged(x)) && m <= n <= 1
    modifies nfa`states, nfa`ins, nfa`outs, nfa`arcs, nfa`tmp
    ensures nfa.Valid() && nfa.tmp == map[] && old(nfa.ins.Keys) - zone <= nfa.ins.Keys && (n > 0 ==> nfa.ins.Keys == old(nfa.ins.Keys))
    ensures Refitted(old(nfa.arcs), old(nfa.ins.Keys), zone, lp, rp, nfa.arcs, nfa.ins.Keys, zone2, Times(Lang(old(nfa.arcs), zone, lp, rp), m, n))
  {
    hide Agree, StatesAgree, Lang, Times, Reachable, Strung, Renewed, RestKept;
    ghost var arcs0, keys0 := nfa.arcs, nfa.ins.Keys;
    zone2 := zone;
    InZone(nfa.arcs, zone, lp, rp);
    if n == 0 {
      DelSub(nfa, lp, rp, zone);
      assert keys0 - zone <= nfa.ins.Keys by { assert forall x :: x in keys0 - zone ==> x !in zone - {lp}; }
      Emptied(arcs0, nfa.arcs, keys0, nfa.ins.Keys, zone, lp, rp);
      zone2 := zone * nfa.ins.Keys;
      EmptyArc(nfa, lp, rp);
    } else if m == 0 {
      Unchanged(nfa.arcs, keys0, zone, lp, rp);
      MadeOptional(arcs0, keys0, zone, lp, rp, nfa.arcs, keys0, zone, Lang(arcs0, zone, lp, rp), 1);
      EmptyArc(nfa, lp, rp);
    } else {
      Unchanged(nfa.arcs, keys0, zone, lp, rp);
    }
  }

  lemma InZone(arcs: set<Arc>, zone: set<nat>, lp: nat, rp: nat)
    requires Strung(arcs, zone, lp, rp)
    ensures lp in zone && lp != rp
  {
  }

  /** The cases (0, INF) and (1, INF): loop x around, or add a loopback arc. */
  method LoopAround(nfa: Nfa, lp: nat, rp: nat, m: nat, ghost zone: set<nat>) returns (ghost zone2: set<nat>)
    requires nfa.Valid() && Strung(nfa.arcs, zone, lp, rp) && zone <= nfa.ins.Keys && rp in nfa.ins && m <= 1
    modifies nfa`states, nfa`nstates, nfa`ins, nfa`outs, nfa`arcs
    ensures nfa.Valid() && old(nfa.ins.Keys) <= nfa.ins.Keys
    ensures Refitted(old(nfa.arcs), old(nfa.ins.Keys), zone, lp, rp, nfa.arcs, nfa.ins.Keys, zone2, Times(Lang(old(nfa.arcs), zone, lp, rp), m, DUPINF))
  {
    hide Agree, StatesAgree, Lang, Times, Leaving, Images, Strung, Renewed, RestKept, Within;
    ghost var arcs0, keys0 := nfa.arcs, nfa.ins.Keys;
    InZone(nfa.arcs, zone, lp, rp);
    var s, s2 := Restring(nfa, lp, rp, m, zone);
    EmptyArc(nfa, lp, s);
    EmptyArc(nfa, s2, rp);
    if m == 1 {
      EmptyArc(nfa, s2, s);
    }
    LoopIs(nfa.arcs, arcs0, zone, lp, rp, s, s2);
    Looped(arcs0, nfa.arcs, keys0, nfa.ins.Keys, zone, lp, rp, s, s2);
    zone2 := zone + {s, s2};
  }

  /** The fragment is strung between new states, the same one for x* and two for x+. */
  method Restring(nfa: Nfa, lp: nat, rp: nat, m: nat, ghost zone: set<nat>) returns (s: nat, s2: nat)
    requires nfa.Valid() && Strung(nfa.arcs, zone, lp, rp) && zone <= nfa.ins.Keys && rp in nfa.ins && m <= 1
    modifies nfa`states, nfa`nstates, nfa`ins, nfa`outs, nfa`arcs
    ensures nfa.Valid() && s !in old(nfa.ins.Keys) && s2 !in old(nfa.ins.Keys) && (s == s2 <==> m == 0) && nfa.ins.Keys == old(nfa.ins.Keys) + {s, s2}
    ensures nfa.arcs == old(nfa.arcs) - Leaving(old(nfa.arcs), zone) + Images(Leaving(old(nfa.arcs), zone), map[lp := s, rp := s2])
  {
    hide Agree, StatesAgree, Leaving, Images, Moved, Strung;
    ghost var arcs0, keys0 := nfa.arcs, nfa.ins.Keys;
    InZone(nfa.arcs, zone, lp, rp);
    s := nfa.NewState();
    s2 := s;
    if m == 1 {
      s2 := nfa.NewState();
    }
    MovedEnds(arcs0, zone, lp, rp, s, s2, keys0);
    nfa.MoveOuts(lp, s);
    nfa.MoveIns(rp, s2);
  }

  lemma LoopIs(arcs: set<Arc>, arcs0: set<Arc>, zone: set<nat>, lp: nat, rp: nat, s: nat, s2: nat)
    requires arcs == arcs0 - Leaving(arcs0, zone) + Images(Leaving(arcs0, zone), map[lp := s, rp := s2]) + {Arc(EMPTY, 0, lp, s)} + {Arc(EMPTY, 0, s2, rp)}
      + (if s == s2 then {} else {Arc(EMPTY, 0, s2, s)})
    ensures arcs == arcs0 - Leaving(arcs0, zone) + Loop(Leaving(arcs0, zone), lp, rp, s, s2)
  {
    hide Leaving, Images;
  }

  /** A copy of x between lp and a new state s, x itself behind it. */
  ghost predicate Doubled(arcs: set<Arc>, keys: set<nat>, zone: set<nat>, lp: nat, rp: nat, arcs2: set<Arc>, keys2: set<nat>, s: nat, za: set<nat>) {
    var zb := zone - {lp} + {s};
    && Strung(arcs2, za, lp, s) && Strung(arcs2, zb, s, rp) && za !! zb && rp !in za && za <= keys2 && zb <= keys2 && keys <= keys2
    && (forall x :: x in za ==> x == lp || x !in keys) && s !in keys && s in keys2 && lp in zone
    && Lang(arcs2, za, lp, s) == Lang(arcs, zone, lp, rp) && Lang(arcs2, zb, s, rp) == Lang(arcs, zone, lp, rp)
    && arcs2 - Leaving(arcs2, za + zb) == arcs - Leaving(arcs, zone)
  }

  lemma DoubledIs(arcs: set<Arc>, keys: set<nat>, zone: set<nat>, lp: nat, rp: nat, s: nat, c: map<nat, nat>, keys2: set<nat>)
    requires Strung(arcs, zone, lp, rp) && Within(arcs, keys) && zone <= keys && rp in keys && s !in keys && keys + {s} <= keys2
    requires Within(Moved(arcs, false, lp, s), keys + {s}) && Duplicates(c, zone - {lp} + {s}, s, rp, lp, s, keys + {s})
    requires Duplicated(Leaving(Moved(arcs, false, lp, s), zone - {lp} + {s}), c, s, rp) && forall x :: x in c ==> c[x] in keys2
    ensures var arcs1 := Moved(arcs, false, lp, s);
      Doubled(arcs, keys, zone, lp, rp, arcs1 + Images(Leaving(arcs1, c.Keys - {rp}), c), keys2, s, CopyZone(c, rp))
  {
    hide Moved, Connected, Images, Within, Duplicated, Duplicates, Strung;
    var arcs1, zb := Moved(arcs, false, lp, s), zone - {lp} + {s};
    FrontMoved(arcs, keys, zone, lp, rp, s);
    InZone(arcs, zone, lp, rp);
    CopyStrung(arcs1, keys + {s}, zb, s, rp, lp, s, c);
    CopyLang(arcs1, keys + {s}, zb, s, rp, lp, s, c);
    var arcs2, za := arcs1 + Images(Leaving(arcs1, c.Keys - {rp}), c), CopyZone(c, rp);
    assert Leaving(arcs2, za + zb) == Leaving(arcs2, za) + Leaving(arcs2, zb);
  }

  /** moveouts() and dupnfa() as repeat() uses them. */
  method Double(nfa: Nfa, lp: nat, rp: nat, ghost zone: set<nat>) returns (s: nat, ghost za: set<nat>)
    requires nfa.Valid() && nfa.tmp == map[] && Strung(nfa.arcs, zone, lp, rp) && zone <= nfa.ins.Keys && rp in nfa.ins
    modifies nfa`states, nfa`nstates, nfa`ins, nfa`outs, nfa`arcs, nfa`tmp
    ensures nfa.Valid() && nfa.tmp == map[] && s in nfa.ins
    ensures Doubled(old(nfa.arcs), old(nfa.ins.Keys), zone, lp, rp, nfa.arcs, nfa.ins.Keys, s, za)
  {
    hide Agree, StatesAgree, Lang, Doubled, Moved, Images, Duplicates, Duplicated, RestKept;
    ghost var arcs0, keys0 := nfa.arcs, nfa.ins.Keys;
    s := nfa.NewState();
    nfa.MoveOuts(lp, s);
    FrontMoved(arcs0, keys0, zone, lp, rp, s);
    ghost var arcs1, zb := nfa.arcs, zone - {lp} + {s};
    assert nfa.ins.Keys == keys0 + {s};
    StrungOneWay(arcs1, zb, s, rp);
    ghost var c := DupNfa(nfa, s, rp, lp, s, zb);
    DoubledIs(arcs0, keys0, zone, lp, rp, s, c, nfa.ins.Keys);
    za := CopyZone(c, rp);
  }

  /** What repeat() makes of the copy, followed by x. */
  lemma DoubledDone(arcs: set<Arc>, keys: set<nat>, zone: set<nat>, lp: nat, rp: nat, arcs2: set<Arc>, keys2: set<nat>, s: nat, za: set<nat>,
                    arcs3: set<Arc>, keys3: set<nat>, za3: set<nat>, m: nat, n: nat)
    requires Doubled(arcs, keys, zone, lp, rp, arcs2, keys2, s, za) && rp in keys && zone <= keys && rp !in zone
    requires 1 <= m <= n <= DUPINF && keys2 <= keys3
    requires Refitted(arcs2, keys2, za, lp, s, arcs3, keys3, za3, Times(Lang(arcs, zone, lp, rp), m - 1, Less(n)))
    ensures Refitted(arcs, keys, zone, lp, rp, arcs3, keys3, za3 + (zone - {lp} + {s}), Times(Lang(arcs, zone, lp, rp), m, n))
  {
    var zb := zone - {lp} + {s};
    TimesLast(Lang(arcs, zone, lp, rp), m, n);
    hide Lang, Times, Strung, Leaving;
    CopiesChained(arcs2, keys2, za, zb, lp, s, rp, arcs3, keys3, za3, Times(Lang(arcs, zone, lp, rp), m - 1, Less(n)));
  }

  /** REDUCE(x): 0, 1, SOME or INF. */
  const SOME: nat := 2
  const INF: nat := 3

  function Reduce(x: nat): nat {
    if x == DUPINF then INF else if x > 1 then SOME else x
  }

  /** repeat(), regcomp.c:1344-1423: afterwards the fragment spells between m and n words of x in a row, whatever
      the bounds; it fails, with REG_ASSERT, exactly when m exceeds n. */
  method Repeat(nfa: Nfa, lp: nat, rp: nat, m: nat, n: nat, ghost zone: set<nat>) returns (ok: bool, ghost zone2: set<nat>)
    requires nfa.Valid() && nfa.tmp == map[] && Strung(nfa.arcs, zone, lp, rp) && zone <= nfa.ins.Keys && rp in nfa.ins
    requires (forall x :: x in zone && x != lp ==> !nfa.Flagged(x)) && nfa.pre in nfa.ins && nfa.post in nfa.ins
    requires m <= DUPMAX && n <= DUPINF
    modifies nfa`states, nfa`nstates, nfa`ins, nfa`outs, nfa`arcs, nfa`tmp
    ensures ok <==> m <= n
    ensures ok ==> nfa.Valid() && nfa.tmp == map[] && old(nfa.ins.Keys) - zone <= nfa.ins.Keys && (n > 0 ==> old(nfa.ins.Keys) <= nfa.ins.Keys)
    ensures ok ==> Refitted(old(nfa.arcs), old(nfa.ins.Keys), zone, lp, rp, nfa.arcs, nfa.ins.Keys, zone2, Times(Lang(old(nfa.arcs), zone, lp, rp), m, n))
    decreases n, m == 0, m, 1
  {
    hide Agree, StatesAgree, Lang, Times, Strung, Renewed, RestKept, Doubled, Within;
    ok, zone2 := true, zone;
    var rm, rn := Reduce(m), Reduce(n);
    ghost var arcs0, keys0 := nfa.arcs, nfa.ins.Keys;
    InZone(arcs0, zone, lp, rp);
    if (rm, rn) == (0, 0) || (rm, rn) == (0, 1) || (rm, rn) == (1, 1) {
      zone2 := AtMostOnce(nfa, lp, rp, m, n, zone);
    } else if (rm, rn) == (0, SOME) {                   // do as x{1,n}|
      ok, zone2 := Repeat(nfa, lp, rp, 1, n, zone);
      MadeOptional(arcs0, keys0, zone, lp, rp, nfa.arcs, nfa.ins.Keys, zone2, Lang(arcs0, zone, lp, rp), n);
      EmptyArc(nfa, lp, rp);
    } else if (rm, rn) == (0, INF) || (rm, rn) == (1, INF) {
      zone2 := LoopAround(nfa, lp, rp, m, zone);
    } else if (rm, rn) == (1, SOME) {                   // do as x{0,n-1}x = (x{1,n-1}|)x
      zone2 := UnfoldOptional(nfa, lp, rp, n, zone);
    } else if (rm, rn) == (SOME, SOME) {                // do as x{m-1,n-1}x
      ok, zone2 := Unfold(nfa, lp, rp, m, n, n - 1, zone);
    } else if (rm, rn) == (SOME, INF) {                 // do as x{m-1,}x
      ok, zone2 := Unfold(nfa, lp, rp, m, n, n, zone);
    } else {
      ok := false;
    }
  }

  /** The case (1, SOME). */
  method UnfoldOptional(nfa: Nfa, lp: nat, rp: nat, n: nat, ghost zone: set<nat>) returns (ghost zone2: set<nat>)
    requires nfa.Valid() && nfa.tmp == map[] && Strung(nfa.arcs, zone, lp, rp) && zone <= nfa.ins.Keys && rp in nfa.ins
    requires nfa.pre in nfa.ins && nfa.post in nfa.ins && 1 < n <= DUPMAX
    modifies nfa`states, nfa`nstates, nfa`ins, nfa`outs, nfa`arcs, nfa`tmp
    ensures nfa.Valid() && nfa.tmp == map[] && old(nfa.ins.Keys) <= nfa.ins.Keys
    ensures Refitted(old(nfa.arcs), old(nfa.ins.Keys), zone, lp, rp, nfa.arcs, nfa.ins.Keys, zone2, Times(Lang(old(nfa.arcs), zone, lp, rp), 1, n))
    decreases n, false, 1, 0
  {
    hide Agree, StatesAgree, Lang, Times, Strung, Renewed, RestKept, Doubled, Within, Refitted;
    ghost var arcs0, keys0 := nfa.arcs, nfa.ins.Keys;
    InZone(arcs0, zone, lp, rp);
    var s, za := Double(nfa, lp, rp, zone);
    ghost var arcs2, keys2 := nfa.arcs, nfa.ins.Keys;
    DoubledFits(arcs0, keys0, zone, lp, rp, arcs2, keys2, s, za);
    var ok, za3 := Repeat(nfa, lp, s, 1, n - 1, za);
    MadeOptional(arcs2, keys2, za, lp, s, nfa.arcs, nfa.ins.Keys, za3, Lang(arcs2, za, lp, s), n - 1);
    EmptyArc(nfa, lp, s);
    DoubledDone(arcs0, keys0, zone, lp, rp, arcs2, keys2, s, za, nfa.arcs, nfa.ins.Keys, za3, 1, n);
    zone2 := za3 + (zone - {lp} + {s});
  }

  /** The cases (SOME, SOME) and (SOME, INF). */
  method Unfold(nfa: Nfa, lp: nat, rp: nat, m: nat, n: nat, less: nat, ghost zone: set<nat>) returns (ok: bool, ghost zone2: set<nat>)
    requires nfa.Valid() && nfa.tmp == map[] && Strung(nfa.arcs, zone, lp, rp) && zone <= nfa.ins.Keys && rp in nfa.ins
    requires nfa.pre in nfa.ins && nfa.post in nfa.ins && 1 < m <= DUPMAX && 1 < n <= DUPINF && less == Less(n)
    modifies nfa`states, nfa`nstates, nfa`ins, nfa`outs, nfa`arcs, nfa`tmp
    ensures ok <==> m <= n
    ensures ok ==> nfa.Valid() && nfa.tmp == map[] && old(nfa.ins.Keys) <= nfa.ins.Keys
    ensures ok ==> Refitted(old(nfa.arcs), old(nfa.ins.Keys), zone, lp, rp, nfa.arcs, nfa.ins.Keys, zone2, Times(Lang(old(nfa.arcs), zone, lp, rp), m, n))
    decreases n, false, m, 0
  {
    hide Agree, StatesAgree, Lang, Times, Strung, Renewed, RestKept, Doubled, Within, Refitted;
    ghost var arcs0, keys0 := nfa.arcs, nfa.ins.Keys;
    InZone(arcs0, zone, lp, rp);
    var s, za := Double(nfa, lp, rp, zone);
    ghost var arcs2, keys2 := nfa.arcs, nfa.ins.Keys;
    DoubledFits(arcs0, keys0, zone, lp, rp, arcs2, keys2, s, za);
    ghost var za3;
    ok, za3 := Repeat(nfa, lp, s, m - 1, less, za);
    if ok {
      DoubledDone(arcs0, keys0, zone, lp, rp, arcs2, keys2, s, za, nfa.arcs, nfa.ins.Keys, za3, m, n);
    }
    zone2 := za3 + (zone - {lp} + {s});
  }

  lemma DoubledFits(arcs: set<Arc>, keys: set<nat>, zone: set<nat>, lp: nat, rp: nat, arcs2: set<Arc>, keys2: set<nat>, s: nat, za: set<nat>)
    requires Doubled(arcs, keys, zone, lp, rp, arcs2, keys2, s, za) && Strung(arcs, zone, lp, rp)
    ensures Strung(arcs2, za, lp, s) && za <= keys2 && keys <= keys2 && s in keys2 && (forall x :: x in za && x != lp ==> x !in keys)
    ensures Lang(arcs2, za, lp, s) == Lang(arcs, zone, lp, rp) && rp !in zone
  {
  }

  // ---------------------------------------------------------------- the quantifier of a messy atom

  /** The atom between begin and end is as it was, and from s to stop its m to n repetitions can be read. */
  ghost predicate Quantified(arcs: set<Arc>, zone: set<nat>, begin: nat, end: nat, s: nat, m: nat, n: nat, arcs2: set<Arc>, zone2: set<nat>, stop: nat) {
    && Strung(arcs2, zone2, s, stop) && Lang(arcs2, zone2, s, stop) == Times(Lang(arcs, zone, begin, end), m, n)
    && Strung(arcs2, zone, begin, end) && Leaving(arcs2, zone) == Leaving(arcs, zone)
    && arcs2 - Leaving(arcs2, zone2 + zone) == arcs - Leaving(arcs, zone)
  }

  /** The skeleton parseqatom() has set up: begin has no in-arcs yet, end and s no out-arcs. */
  ghost predicate Skeleton(arcs: set<Arc>, keys: set<nat>, zone: set<nat>, begin: nat, end: nat, s: nat) {
    && Strung(arcs, zone, begin, end) && zone <= keys && end in keys && s in keys && s !in zone && s != end
    && OutSet(arcs, s) == {} && OutSet(arcs, end) == {} && InSet(arcs, begin) == {}
  }

  lemma EmptyPrefix(arcs: set<Arc>, keys: set<nat>, zone: set<nat>, begin: nat, end: nat, s: nat)
    requires Skeleton(arcs, keys, zone, begin, end, s)
    ensures Quantified(arcs, zone, begin, end, s, 1, 1, arcs + {Arc(EMPTY, 0, s, begin)}, {s} + zone, end)
  {
    var e, l := Arc(EMPTY, 0, s, begin), Lang(arcs, zone, begin, end);
    var arcs2 := arcs + {e};
    assert forall a :: a in arcs ==> (a in OutSet(arcs, s) <==> a.from == s) && (a in InSet(arcs, begin) <==> a.to == begin);
    assert Leaving(arcs2, {s}) == {e} && Leaving(arcs2, zone) == Leaving(arcs, zone);
    BareLang(s, begin);
    ChainedStrung(arcs2, {s}, zone, s, begin, end);
    ChainedLang(arcs2, {s}, zone, s, begin, end);
    TimesOne(l);
    forall w ensures w in Cat(iset{[]}, l) <==> w in l {
      if w in l { assert [] + w == w; }
    }
  }

  /** The copy of the atom that is to be repeated. */
  ghost predicate CopyMade(arcs: set<Arc>, keys: set<nat>, zone: set<nat>, begin: nat, end: nat, s: nat, to: nat, arcs2: set<Arc>, keys2: set<nat>, za: set<nat>) {
    && Strung(arcs2, za, s, to) && Strung(arcs2, zone, begin, end) && za !! zone && end !in za && za <= keys2 && keys <= keys2
    && Leaving(arcs2, zone) == Leaving(arcs, zone) && Lang(arcs2, za, s, to) == Lang(arcs, zone, begin, end)
    && arcs2 - Leaving(arcs2, za + zone) == arcs - Leaving(arcs, zone) && (forall x :: x in za ==> x == s || x !in keys)
  }

  lemma CopyIs(arcs: set<Arc>, keys: set<nat>, zone: set<nat>, begin: nat, end: nat, s: nat, to: nat, c: map<nat, nat>, keys2: set<nat>)
    requires Skeleton(arcs, keys, zone, begin, end, s) && Within(arcs, keys) && to in keys && to != s && to != end && to !in zone - {begin}
    requires InSet(arcs, to) == {} && keys <= keys2
    requires Duplicates(c, zone, begin, end, s, to, keys) && Duplicated(Leaving(arcs, zone), c, begin, end) && forall x :: x in c ==> c[x] in keys2
    ensures CopyMade(arcs, keys, zone, begin, end, s, to, arcs + Images(Leaving(arcs, c.Keys - {end}), c), keys2, CopyZone(c, end))
  {
    hide Connected, Images, Within, Duplicated, Duplicates, Strung;
    CopyStrung(arcs, keys, zone, begin, end, s, to, c);
    CopyLang(arcs, keys, zone, begin, end, s, to, c);
    var arcs2, za := arcs + Images(Leaving(arcs, c.Keys - {end}), c), CopyZone(c, end);
    assert Leaving(arcs2, za + zone) == Leaving(arcs2, za) + Leaving(arcs2, zone);
  }

  method CopyAtom(nfa: Nfa, begin: nat, end: nat, s: nat, to: nat, ghost zone: set<nat>) returns (ghost za: set<nat>)
    requires nfa.Valid() && nfa.tmp == map[] && Skeleton(nfa.arcs, nfa.ins.Keys, zone, begin, end, s)
    requires to in nfa.ins && to != s && to != end && to !in zone - {begin} && InSet(nfa.arcs, to) == {}
    modifies nfa`states, nfa`nstates, nfa`ins, nfa`outs, nfa`arcs, nfa`tmp
    ensures nfa.Valid() && nfa.tmp == map[]
    ensures CopyMade(old(nfa.arcs), old(nfa.ins.Keys), zone, begin, end, s, to, nfa.arcs, nfa.ins.Keys, za)
  {
    hide Agree, StatesAgree, Lang, Images, Duplicates, Duplicated, CopyMade;
    ghost var arcs0, keys0 := nfa.arcs, nfa.ins.Keys;
    StrungOneWay(arcs0, zone, begin, end);
    ghost var c := DupNfa(nfa, begin, end, s, to, zone);
    CopyIs(arcs0, keys0, zone, begin, end, s, to, c, nfa.ins.Keys);
    za := CopyZone(c, end);
  }

  lemma PrefixDone(arcs: set<Arc>, keys: set<nat>, zone: set<nat>, begin: nat, end: nat, s: nat, arcs2: set<Arc>, keys2: set<nat>, za: set<nat>,
                   arcs3: set<Arc>, keys3: set<nat>, za3: set<nat>, m: nat, n: nat)
    requires Skeleton(arcs, keys, zone, begin, end, s) && CopyMade(arcs, keys, zone, begin, end, s, begin, arcs2, keys2, za) && 1 <= m <= n <= DUPINF
    requires Refitted(arcs2, keys2, za, s, begin, arcs3, keys3, za3, Times(Lang(arcs, zone, begin, end), m - 1, Less(n)))
    ensures Quantified(arcs, zone, begin, end, s, m, n, arcs3, za3 + zone, end)
  {
    var l := Lang(arcs, zone, begin, end);
    TimesLast(l, m, n);
    CopiesChained(arcs2, keys2, za, zone, s, begin, end, arcs3, keys3, za3, Times(l, m - 1, Less(n)));
    assert za3 + zone + zone == za3 + zone;
  }

  lemma IterationDone(arcs: set<Arc>, keys: set<nat>, zone: set<nat>, begin: nat, end: nat, s: nat, s2: nat, arcs2: set<Arc>, keys2: set<nat>, za: set<nat>,
                      arcs3: set<Arc>, keys3: set<nat>, za3: set<nat>, m: nat, n: nat)
    requires zone <= keys && end in keys && CopyMade(arcs, keys, zone, begin, end, s, s2, arcs2, keys2, za) && s2 !in zone && s2 != end
    requires Refitted(arcs2, keys2, za, s, s2, arcs3, keys3, za3, Times(Lang(arcs, zone, begin, end), m, n))
    ensures Quantified(arcs, zone, begin, end, s, m, n, arcs3, za3, s2)
  {
    OtherKept(arcs2, keys2, za, s, s2, arcs3, keys3, za3, Times(Lang(arcs, zone, begin, end), m, n), zone, begin, end);
  }

  lemma NothingMoved(arcs: set<Arc>, keys: set<nat>, zone: set<nat>, begin: nat, end: nat, s: nat, s2: nat)
    requires Skeleton(arcs, keys, zone, begin, end, s) && Within(arcs, keys) && s2 !in keys
    ensures Moved(arcs, false, end, s2) == arcs && InSet(arcs, s2) == {} && Skeleton(arcs, keys + {s2}, zone, begin, end, s)
    ensures s2 !in zone && s2 != end && s2 != s
  {
  }

  /** The quantifier of an atom with captures or back references inside (regcomp.c:1210-1256): nothing to do for
      x{1,1}, a prefix for x{m-1,n-1} when that will do, else a copy of its own for an iteration node. Whichever
      is chosen, m to n repetitions of the atom lead from s to the state the rest is strung from. */
  method Quantify(nfa: Nfa, begin: nat, end: nat, s: nat, m: nat, n: nat, backr: bool, ghost zone: set<nat>) returns (stop: nat, ghost zone2: set<nat>)
    requires nfa.Valid() && nfa.tmp == map[] && Skeleton(nfa.arcs, nfa.ins.Keys, zone, begin, end, s)
    requires nfa.pre in nfa.ins && nfa.post in nfa.ins && m <= DUPMAX && m <= n && 1 <= n <= DUPINF
    modifies nfa`states, nfa`nstates, nfa`ins, nfa`outs, nfa`arcs, nfa`tmp
    ensures nfa.Valid() && nfa.tmp == map[]
    ensures Quantified(old(nfa.arcs), zone, begin, end, s, m, n, nfa.arcs, zone2, stop)
    ensures (m > 0 && !backr) || n == 1 == m ==> stop == end
    ensures !((m > 0 && !backr) || n == 1 == m) ==> stop !in old(nfa.ins) && zone !! zone2
  {
    hide Agree, StatesAgree, Within, Lang, Strung, Times, Quantified, Renewed, RestKept, Refitted, Moved;
    ghost var arcs0, keys0 := nfa.arcs, nfa.ins.Keys;
    InZone(arcs0, zone, begin, end);
    if m == 1 && n == 1 {
      EmptyPrefix(arcs0, keys0, zone, begin, end, s);
      EmptyArc(nfa, s, begin);
      return end, {s} + zone;
    }
    if m > 0 && !backr {
      ghost var za := CopyAtom(nfa, begin, end, s, begin, zone);
      ghost var arcs2, keys2 := nfa.arcs, nfa.ins.Keys;
      var ok, za3 := Repeat(nfa, s, begin, m - 1, if n == DUPINF then n else n - 1, za);
      PrefixDone(arcs0, keys0, zone, begin, end, s, arcs2, keys2, za, nfa.arcs, nfa.ins.Keys, za3, m, n);
      return end, za3 + zone;
    }
    var s2 := nfa.NewState();
    NothingMoved(arcs0, keys0, zone, begin, end, s, s2);
    nfa.MoveOuts(end, s2);
    ghost var za := CopyAtom(nfa, begin, end, s, s2, zone);
    ghost var arcs2, keys2 := nfa.arcs, nfa.ins.Keys;
    var ok, za3 := Repeat(nfa, s, s2, m, n, za);
    IterationDone(arcs0, keys0 + {s2}, zone, begin, end, s, s2, arcs2, keys2, za, nfa.arcs, nfa.ins.Keys, za3, m, n);
    OtherZone(arcs2, keys2, za, s, s2, nfa.arcs, nfa.ins.Keys, za3, Times(Lang(arcs2, za, s, s2), m, n), zone);
    return s2, za3;
  }

  lemma OtherZone(arcs2: set<Arc>, keys2: set<nat>, za: set<nat>, p: nat, q: nat, arcs3: set<Arc>, keys3: set<nat>, za3: set<nat>, l: Language, zone: set<nat>)
    requires Refitted(arcs2, keys2, za, p, q, arcs3, keys3, za3, l) && za !! zone && zone <= keys2
    ensures zone !! za3
  {
  }
}
