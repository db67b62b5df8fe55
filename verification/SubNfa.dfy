/** Copying and deleting a fragment: dupnfa() and delsub() with their recursive hearts, regc_nfa.c:1199-1357. */
module SubNfa {
  import opened Options
  import opened Nfa
  import opened Words
  import opened Fragments

  /** The arcs of the zone stay in it or go to stop. */
  ghost predicate Enclosed(arcs: set<Arc>, zone: set<nat>, stop: nat) {
    stop !in zone && forall a :: a in arcs && a.from in zone ==> a.to in zone || a.to == stop
  }

  /** Some path leads from p to q. */
  ghost predicate Connected(arcs: set<Arc>, p: nat, q: nat) {
    exists w :: Spells(arcs, p, q, w)
  }

  lemma ConnectedSelf(arcs: set<Arc>, p: nat)
    ensures Connected(arcs, p, p)
  {
    SpellsEmpty(arcs, p);
  }

  lemma ConnectedArc(arcs: set<Arc>, p: nat, a: Arc)
    requires a in arcs && Connected(arcs, p, a.from)
    ensures Connected(arcs, p, a.to)
  {
    var w :| Spells(arcs, p, a.from, w);
    SpellsArc(arcs, p, w, a);
  }

  lemma ConnectedTrans(arcs: set<Arc>, p: nat, q: nat, r: nat)
    requires Connected(arcs, p, q) && Connected(arcs, q, r)
    ensures Connected(arcs, p, r)
  {
    var u, v :| Spells(arcs, p, q, u) && Spells(arcs, q, r, v);
    Joined(arcs, p, q, r, u, v);
  }

  // ---------------------------------------------------------------- the map of duplicates

  /** The tmp pointers of a traversal from start: stop stands for to, start for from, every other state for a
      state of its own that is new. */
  ghost predicate Duplicates(tmp: map<nat, nat>, zone: set<nat>, start: nat, stop: nat, from: nat, to: nat, keys: set<nat>) {
    && stop in tmp && tmp[stop] == to && tmp.Keys <= zone + {stop}
    && (start in tmp ==> tmp[start] == from)
    && (forall x :: x in tmp && x != start && x != stop ==> tmp[x] !in keys)
    && (forall x, y :: x in tmp && y in tmp && x != y && x != stop && y != stop ==> tmp[x] != tmp[y])
  }

  ghost predicate Extends(tmp: map<nat, nat>, tmp2: map<nat, nat>) {
    forall x :: x in tmp ==> x in tmp2 && tmp2[x] == tmp[x]
  }

  /** Both ends of every arc have a duplicate. */
  ghost predicate Known(es: set<Arc>, tmp: map<nat, nat>) {
    forall a :: a in es ==> a.from in tmp && a.to in tmp
  }

  lemma ImagesKept(es: set<Arc>, tmp: map<nat, nat>, tmp2: map<nat, nat>)
    requires Known(es, tmp) && Extends(tmp, tmp2)
    ensures Images(es, tmp2) == Images(es, tmp) && Known(es, tmp2)
  {
    forall a | a in es ensures ArcImg(tmp2, a) == ArcImg(tmp, a) {}
    forall e | e in Images(es, tmp) ensures e in Images(es, tmp2) {
      var a :| a in es && ArcImg(tmp, a) == e;
      assert ArcImg(tmp2, a) == e;
    }
    forall e | e in Images(es, tmp2) ensures e in Images(es, tmp) {
      var a :| a in es && ArcImg(tmp2, a) == e;
      assert ArcImg(tmp, a) == e;
    }
  }

  lemma ImagesJoin(a: set<Arc>, b: set<Arc>, c: map<nat, nat>)
    ensures Images(a + b, c) == Images(a, c) + Images(b, c)
  {
    forall e ensures e in Images(a + b, c) <==> e in Images(a, c) + Images(b, c) {
      if e in Images(a + b, c) {
        var x :| x in a + b && ArcImg(c, x) == e;
      }
    }
  }

  /** What a traversal adds to the automaton whose arcs were was: the images of all arcs leaving the states in
      young and of those in part. */
  ghost predicate Grown(was: set<Arc>, arcs: set<Arc>, f: set<Arc>, tmp: map<nat, nat>, young: set<nat>, part: set<Arc>) {
    && Known(Leaving(f, young), tmp) && Known(part, tmp)
    && arcs == was + Images(Leaving(f, young), tmp) + Images(part, tmp)
  }

  lemma GrownStart(was: set<Arc>, f: set<Arc>, tmp: map<nat, nat>)
    ensures Grown(was, was, f, tmp, {}, {})
  {
  }

  /** One more arc: first the traversal from its target, then its copy. */
  lemma GrownNext(was: set<Arc>, arcs: set<Arc>, arcs2: set<Arc>, f: set<Arc>, tmp: map<nat, nat>, tmp2: map<nat, nat>,
                  young: set<nat>, young2: set<nat>, part: set<Arc>, a: Arc)
    requires Grown(was, arcs, f, tmp, young, part) && Grown(arcs, arcs2, f, tmp2, young2, {}) && Extends(tmp, tmp2)
    requires a.from in tmp2 && a.to in tmp2
    ensures Grown(was, arcs2 + {ArcImg(tmp2, a)}, f, tmp2, young + young2, part + {a})
  {
    ImagesKept(Leaving(f, young), tmp, tmp2);
    ImagesKept(part, tmp, tmp2);
    assert Leaving(f, young + young2) == Leaving(f, young) + Leaving(f, young2);
    ImagesJoin(Leaving(f, young), Leaving(f, young2), tmp2);
    ImagesJoin(part, {a}, tmp2);
    assert Images({}, tmp2) == {} && Images({a}, tmp2) == {ArcImg(tmp2, a)};
  }

  /** All arcs of s have been copied. */
  lemma GrownDone(was: set<Arc>, arcs: set<Arc>, f: set<Arc>, tmp: map<nat, nat>, young: set<nat>, s: nat)
    requires Grown(was, arcs, f, tmp, young, OutSet(f, s)) && s !in young
    ensures Grown(was, arcs, f, tmp, young + {s}, {})
  {
    assert Leaving(f, young + {s}) == Leaving(f, young) + OutSet(f, s);
    ImagesJoin(Leaving(f, young), OutSet(f, s), tmp);
    assert Images({}, tmp) == {};
  }

  /** The out-chains of the zone. */
  ghost predicate SameOuts(zone: set<nat>, outs: map<nat, seq<Arc>>, outs2: map<nat, seq<Arc>>) {
    forall x :: x in zone && x in outs ==> x in outs2 && outs2[x] == outs[x]
  }

  /** Images leave duplicates, which are not in the zone. */
  lemma ImageOutside(tmp: map<nat, nat>, zone: set<nat>, start: nat, stop: nat, from: nat, to: nat, keys: set<nat>, a: Arc)
    requires Duplicates(tmp, zone, start, stop, from, to, keys) && a.from in tmp && a.from != stop && from !in zone && zone <= keys
    ensures ArcImg(tmp, a).from !in zone
  {
  }

  // ---------------------------------------------------------------- dupnfa

  /** The state of the traversal. */
  ghost predicate Traversing(arcs: set<Arc>, tmp: map<nat, nat>, f: set<Arc>, zone: set<nat>, start: nat, stop: nat, from: nat, to: nat, keys: set<nat>, now: set<nat>) {
    && Duplicates(tmp, zone, start, stop, from, to, keys)
    && f == Leaving(arcs, zone) && Enclosed(arcs, zone, stop) && from !in zone && zone <= keys <= now && from in keys && stop in keys
    && forall x :: x in tmp ==> tmp[x] in now
  }

  /** s gets its duplicate. */
  lemma Entered(arcs: set<Arc>, tmp: map<nat, nat>, f: set<Arc>, zone: set<nat>, start: nat, stop: nat, from: nat, to: nat, keys: set<nat>,
                now: set<nat>, now2: set<nat>, s: nat, d: nat)
    requires Traversing(arcs, tmp, f, zone, start, stop, from, to, keys, now) && now <= now2 && s !in tmp && (s in zone || s == stop)
    requires if s == start then d == from else start in tmp && d !in now && d in now2
    ensures s in zone && Traversing(arcs, tmp[s := d], f, zone, start, stop, from, to, keys, now2) && Extends(tmp, tmp[s := d])
  {
  }

  lemma ExtendsTrans(a: map<nat, nat>, b: map<nat, nat>, c: map<nat, nat>)
    requires Extends(a, b) && Extends(b, c)
    ensures Extends(a, c) && c.Keys - a.Keys == (b.Keys - a.Keys) + (c.Keys - b.Keys)
  {
  }

  lemma SameOutsTrans(zone: set<nat>, a: map<nat, seq<Arc>>, b: map<nat, seq<Arc>>, c: map<nat, seq<Arc>>)
    requires SameOuts(zone, a, b) && SameOuts(zone, b, c)
    ensures SameOuts(zone, a, c)
  {
  }

  /** Where the loop over the out-arcs of s stands. */
  ghost predicate Copying(arcs0: set<Arc>, arcs: set<Arc>, f: set<Arc>, tmp1: map<nat, nat>, tmp: map<nat, nat>, s: nat, part: set<Arc>) {
    && Extends(tmp1, tmp) && Grown(arcs0, arcs, f, tmp, tmp.Keys - tmp1.Keys, part)
    && forall x :: x in tmp.Keys - tmp1.Keys ==> Connected(f, s, x)
  }

  lemma CopyingStart(arcs: set<Arc>, f: set<Arc>, tmp: map<nat, nat>, s: nat, chain: seq<Arc>)
    ensures Copying(arcs, arcs, f, tmp, tmp, s, Set(chain[..0]))
  {
  }

  lemma CopyingNext(arcs0: set<Arc>, arcs: set<Arc>, arcs2: set<Arc>, f: set<Arc>, tmp1: map<nat, nat>, tmp: map<nat, nat>, tmp2: map<nat, nat>, s: nat, part: set<Arc>, a: Arc)
    requires Copying(arcs0, arcs, f, tmp1, tmp, s, part) && Extends(tmp, tmp2) && Grown(arcs, arcs2, f, tmp2, tmp2.Keys - tmp.Keys, {})
    requires a in f && a.from == s && s in tmp2 && a.to in tmp2 && forall x :: x in tmp2.Keys - tmp.Keys ==> Connected(f, a.to, x)
    ensures Copying(arcs0, arcs2 + {ArcImg(tmp2, a)}, f, tmp1, tmp2, s, part + {a})
  {
    hide Grown, Connected;
    ExtendsTrans(tmp1, tmp, tmp2);
    GrownNext(arcs0, arcs, arcs2, f, tmp, tmp2, tmp.Keys - tmp1.Keys, tmp2.Keys - tmp.Keys, part, a);
    ConnectedSelf(f, s);
    ConnectedArc(f, s, a);
    forall x | x in tmp2.Keys - tmp1.Keys ensures Connected(f, s, x) {
      if x !in tmp { ConnectedTrans(f, s, a.to, x); }
    }
  }

  lemma CopyingDone(arcs0: set<Arc>, arcs: set<Arc>, f: set<Arc>, tmp0: map<nat, nat>, tmp1: map<nat, nat>, tmp: map<nat, nat>, s: nat)
    requires Copying(arcs0, arcs, f, tmp1, tmp, s, OutSet(f, s)) && s !in tmp0 && s in tmp1 && tmp1 == tmp0[s := tmp1[s]]
    ensures Extends(tmp0, tmp) && Grown(arcs0, arcs, f, tmp, tmp.Keys - tmp0.Keys, {})
    ensures forall x :: x in tmp.Keys - tmp0.Keys ==> Connected(f, s, x)
  {
    GrownDone(arcs0, arcs, f, tmp, tmp.Keys - tmp1.Keys, s);
    ConnectedSelf(f, s);
    assert tmp.Keys - tmp0.Keys == tmp.Keys - tmp1.Keys + {s};
  }

  lemma Shrinks(zone: set<nat>, tmp: map<nat, nat>, tmp1: map<nat, nat>, tmp2: map<nat, nat>, s: nat)
    requires s in zone && s !in tmp && s in tmp1 && Extends(tmp, tmp1) && Extends(tmp1, tmp2)
    ensures zone - tmp2.Keys < zone - tmp.Keys
  {
    assert s !in zone - tmp2.Keys;
  }

  lemma TraversingEnds(arcs: set<Arc>, tmp: map<nat, nat>, f: set<Arc>, zone: set<nat>, start: nat, stop: nat, from: nat, to: nat, keys: set<nat>, now: set<nat>)
    requires Traversing(arcs, tmp, f, zone, start, stop, from, to, keys, now)
    ensures stop in tmp && f == Leaving(arcs, zone) && zone <= now && stop in now
  {
  }

  lemma TraversingArc(arcs: set<Arc>, tmp: map<nat, nat>, f: set<Arc>, zone: set<nat>, start: nat, stop: nat, from: nat, to: nat, keys: set<nat>, now: set<nat>,
                      tmp1: map<nat, nat>, s: nat, a: Arc)
    requires Traversing(arcs, tmp, f, zone, start, stop, from, to, keys, now) && a in f && Extends(tmp1, tmp) && (s == start || start in tmp1) && s in tmp
    ensures (a.to in zone || a.to == stop) && start in tmp
  {
  }

  lemma SameSelf(zone: set<nat>, tmp: map<nat, nat>, outs: map<nat, seq<Arc>>)
    ensures Extends(tmp, tmp) && SameOuts(zone, outs, outs)
  {
  }

  lemma Opened(zone: set<nat>, outs0: map<nat, seq<Arc>>, outs: map<nat, seq<Arc>>, tmp: map<nat, nat>, s: nat)
    requires s in outs0 && s in zone && (outs == outs0 || exists d: nat :: d !in outs0 && outs == outs0[d := []])
    ensures SameOuts(zone, outs0, outs) && s in outs && outs[s] == outs0[s] && Extends(tmp, tmp)
  {
  }

  lemma ExtendsHolds(tmp: map<nat, nat>, tmp2: map<nat, nat>, s: nat)
    requires Extends(tmp, tmp2) && s in tmp
    ensures s in tmp2
  {
  }

  lemma SameOutsAt(zone: set<nat>, outs0: map<nat, seq<Arc>>, outs: map<nat, seq<Arc>>, s: nat)
    requires SameOuts(zone, outs0, outs) && s in zone && s in outs0
    ensures s in outs && outs[s] == outs0[s]
  {
  }

  lemma ChainIs(outs: map<nat, seq<Arc>>, arcs: set<Arc>, zone: set<nat>, s: nat, f: set<Arc>)
    requires Agree(outs, arcs, false) && s in outs && s in zone && f == Leaving(arcs, zone)
    ensures Set(outs[s][..|outs[s]|]) == OutSet(f, s)
    ensures forall i :: 0 <= i < |outs[s]| ==> outs[s][i] in f && outs[s][i].from == s
  {
    SetAll(outs[s], SideSet(arcs, s, false));
    forall i | 0 <= i < |outs[s]| ensures outs[s][i] in Leaving(arcs, zone) && outs[s][i].from == s { assert outs[s][i] in outs[s]; }
  }

  /** duptraverse(), regc_nfa.c:1297-1336, without its depth limit. */
  method DupTraverse(nfa: Nfa, s: nat, stmp: Option<nat>, ghost f: set<Arc>, ghost zone: set<nat>, ghost start: nat, ghost stop: nat,
                     ghost from: nat, ghost to: nat, ghost keys: set<nat>)
    requires nfa.Valid() && Traversing(nfa.arcs, nfa.tmp, f, zone, start, stop, from, to, keys, nfa.ins.Keys)
    requires (s in zone || s == stop) && (if stmp.Some? then s == start && stmp.value == from else start in nfa.tmp)
    modifies nfa`states, nfa`nstates, nfa`ins, nfa`outs, nfa`arcs, nfa`tmp
    ensures nfa.Valid() && Traversing(nfa.arcs, nfa.tmp, f, zone, start, stop, from, to, keys, nfa.ins.Keys)
    ensures Extends(old(nfa.tmp), nfa.tmp) && s in nfa.tmp && SameOuts(zone, old(nfa.outs), nfa.outs) && old(nfa.ins.Keys) <= nfa.ins.Keys
    ensures Grown(old(nfa.arcs), nfa.arcs, f, nfa.tmp, nfa.tmp.Keys - old(nfa.tmp).Keys, {})
    ensures forall x :: x in nfa.tmp.Keys - old(nfa.tmp).Keys ==> Connected(f, s, x)
    decreases zone - nfa.tmp.Keys, 0
  {
    hide Duplicates, Images, Leaving, Grown, Known, Extends, SameOuts, Enclosed, Traversing, Agree, StatesAgree, Within, Connected, Copying, Set;
    TraversingEnds(nfa.arcs, nfa.tmp, f, zone, start, stop, from, to, keys, nfa.ins.Keys);
    if s in nfa.tmp {
      GrownStart(nfa.arcs, f, nfa.tmp);
      SameSelf(zone, nfa.tmp, nfa.outs);
      assert nfa.tmp.Keys - nfa.tmp.Keys == {};
      return;
    }
    ghost var tmp0, arcs0, outs0, keys0 := nfa.tmp, nfa.arcs, nfa.outs, nfa.ins.Keys;
    var d;
    if stmp.None? {
      d := nfa.NewState();
    } else {
      d := stmp.value;
    }
    Entered(nfa.arcs, nfa.tmp, f, zone, start, stop, from, to, keys, keys0, nfa.ins.Keys, s, d);
    nfa.tmp := nfa.tmp[s := d];
    ghost var tmp1 := nfa.tmp;
    Opened(zone, outs0, nfa.outs, nfa.tmp, s);
    Shrinks(zone, tmp0, tmp1, tmp1, s);
    CopyingStart(nfa.arcs, f, nfa.tmp, s, nfa.outs[s]);
    var i := 0;
    while i < |nfa.outs[s]|
      invariant nfa.Valid() && Traversing(nfa.arcs, nfa.tmp, f, zone, start, stop, from, to, keys, nfa.ins.Keys)
      invariant s in nfa.outs && nfa.outs[s] == outs0[s] && i <= |outs0[s]| && s in nfa.tmp
      invariant Copying(arcs0, nfa.arcs, f, tmp1, nfa.tmp, s, Set(outs0[s][..i])) && Extends(tmp1, nfa.tmp)
      invariant SameOuts(zone, outs0, nfa.outs) && keys0 <= nfa.ins.Keys
    {
      Shrinks(zone, tmp0, tmp1, nfa.tmp, s);
      DupArc(nfa, s, i, f, zone, start, stop, from, to, keys, arcs0, tmp1, outs0);
      i := i + 1;
    }
    TraversingEnds(nfa.arcs, nfa.tmp, f, zone, start, stop, from, to, keys, nfa.ins.Keys);
    ChainIs(nfa.outs, nfa.arcs, zone, s, f);
    CopyingDone(arcs0, nfa.arcs, f, tmp0, tmp1, nfa.tmp, s);
  }

  /** One turn of duptraverse()'s loop. */
  method DupArc(nfa: Nfa, s: nat, i: nat, ghost f: set<Arc>, ghost zone: set<nat>, ghost start: nat, ghost stop: nat, ghost from: nat, ghost to: nat,
                ghost keys: set<nat>, ghost arcs0: set<Arc>, ghost tmp1: map<nat, nat>, ghost outs0: map<nat, seq<Arc>>)
    requires nfa.Valid() && Traversing(nfa.arcs, nfa.tmp, f, zone, start, stop, from, to, keys, nfa.ins.Keys) && (s == start || start in tmp1)
    requires s in zone && s in nfa.outs && s in outs0 && nfa.outs[s] == outs0[s] && i < |outs0[s]| && s in nfa.tmp
    requires Copying(arcs0, nfa.arcs, f, tmp1, nfa.tmp, s, Set(outs0[s][..i])) && Extends(tmp1, nfa.tmp) && SameOuts(zone, outs0, nfa.outs)
    modifies nfa`states, nfa`nstates, nfa`ins, nfa`outs, nfa`arcs, nfa`tmp
    ensures nfa.Valid() && Traversing(nfa.arcs, nfa.tmp, f, zone, start, stop, from, to, keys, nfa.ins.Keys)
    ensures s in nfa.outs && nfa.outs[s] == outs0[s] && s in nfa.tmp && old(nfa.ins.Keys) <= nfa.ins.Keys
    ensures Copying(arcs0, nfa.arcs, f, tmp1, nfa.tmp, s, Set(outs0[s][..i + 1])) && Extends(tmp1, nfa.tmp) && SameOuts(zone, outs0, nfa.outs)
    decreases zone - nfa.tmp.Keys, 1
  {
    hide Duplicates, Images, Leaving, Grown, Known, Extends, SameOuts, Enclosed, Traversing, Agree, StatesAgree, Within, Connected, Copying, Set;
    ghost var arcs1, tmp2, outs2 := nfa.arcs, nfa.tmp, nfa.outs;
    TraversingEnds(nfa.arcs, nfa.tmp, f, zone, start, stop, from, to, keys, nfa.ins.Keys);
    ChainIs(nfa.outs, nfa.arcs, zone, s, f);
    var a := nfa.outs[s][i];
    SetGrows(nfa.outs[s], i);
    TraversingArc(nfa.arcs, nfa.tmp, f, zone, start, stop, from, to, keys, nfa.ins.Keys, tmp1, s, a);
    DupTraverse(nfa, a.to, None, f, zone, start, stop, from, to, keys);
    ExtendsHolds(tmp2, nfa.tmp, s);
    CopyingNext(arcs0, arcs1, nfa.arcs, f, tmp1, tmp2, nfa.tmp, s, Set(outs0[s][..i]), a);
    ExtendsTrans(tmp1, tmp2, nfa.tmp);
    SameOutsTrans(zone, outs0, outs2, nfa.outs);
    ghost var outs3 := nfa.outs;
    CopyOne(nfa, a, f, zone, start, stop, from, to, keys);
    SameOutsTrans(zone, outs0, outs3, nfa.outs);
    SameOutsAt(zone, outs0, nfa.outs, s);
  }

  /** cparc(): the copy of a runs between the duplicates (regc_nfa.c:575-583). */
  method CopyOne(nfa: Nfa, a: Arc, ghost f: set<Arc>, ghost zone: set<nat>, ghost start: nat, ghost stop: nat,
                 ghost from: nat, ghost to: nat, ghost keys: set<nat>)
    requires nfa.Valid() && Traversing(nfa.arcs, nfa.tmp, f, zone, start, stop, from, to, keys, nfa.ins.Keys)
    requires a in f && a.from in nfa.tmp && a.to in nfa.tmp
    modifies nfa`ins, nfa`outs, nfa`arcs
    ensures nfa.Valid() && Traversing(nfa.arcs, nfa.tmp, f, zone, start, stop, from, to, keys, nfa.ins.Keys)
    ensures nfa.arcs == old(nfa.arcs) + {ArcImg(nfa.tmp, a)} && SameOuts(zone, old(nfa.outs), nfa.outs) && nfa.ins.Keys == old(nfa.ins.Keys)
  {
    hide Agree, StatesAgree, Within, Traversing, SameOuts;
    ImageFits(nfa.arcs, nfa.tmp, f, zone, start, stop, from, to, keys, nfa.ins.Keys, a, nfa.outs);
    SameSelf(zone, nfa.tmp, nfa.outs);
    ghost var now := nfa.ins.Keys;
    nfa.NewArc(Arc(a.typ, a.co, nfa.tmp[a.from], nfa.tmp[a.to]));
    assert nfa.ins.Keys == now;
  }

  lemma ImageFits(arcs: set<Arc>, tmp: map<nat, nat>, f: set<Arc>, zone: set<nat>, start: nat, stop: nat, from: nat, to: nat, keys: set<nat>, now: set<nat>,
                  a: Arc, outs: map<nat, seq<Arc>>)
    requires Traversing(arcs, tmp, f, zone, start, stop, from, to, keys, now) && a in f && a.from in tmp && a.to in tmp && outs.Keys == now
    ensures tmp[a.from] in now && tmp[a.to] in now && Traversing(arcs + {ArcImg(tmp, a)}, tmp, f, zone, start, stop, from, to, keys, now)
    ensures var e := ArcImg(tmp, a); e.from in outs && SameOuts(zone, outs, outs[e.from := [e] + outs[e.from]])
  {
    ImageOutside(tmp, zone, start, stop, from, to, keys, a);
  }

  /** The tmp pointers that have been cleared: none leads on to one that has not. */
  ghost predicate Cleared(arcs: set<Arc>, tmp: map<nat, nat>, tmp2: map<nat, nat>) {
    && Extends(tmp2, tmp)
    && forall a :: a in arcs && a.from in tmp && a.from !in tmp2 ==> a.to !in tmp2
  }

  /** Some out-arcs of s are still to be followed. */
  ghost predicate Clearing(arcs: set<Arc>, tmp: map<nat, nat>, tmp2: map<nat, nat>, s: nat, chain: seq<Arc>, i: nat)
    requires i <= |chain|
  {
    && Extends(tmp2, tmp) && s !in tmp2
    && (forall a :: a in arcs && a.from in tmp && a.from !in tmp2 && a.from != s ==> a.to !in tmp2)
    && (forall j :: 0 <= j < i ==> chain[j].to !in tmp2)
  }

  lemma ClearingNext(arcs: set<Arc>, tmp: map<nat, nat>, tmp2: map<nat, nat>, tmp3: map<nat, nat>, s: nat, chain: seq<Arc>, i: nat)
    requires i < |chain| && Clearing(arcs, tmp, tmp2, s, chain, i) && Cleared(arcs, tmp2, tmp3) && chain[i].to !in tmp3
    ensures Clearing(arcs, tmp, tmp3, s, chain, i + 1) && (s in tmp ==> tmp3.Keys < tmp.Keys)
  {
  }

  lemma ClearingDone(arcs: set<Arc>, outs: map<nat, seq<Arc>>, tmp: map<nat, nat>, tmp2: map<nat, nat>, s: nat)
    requires Agree(outs, arcs, false) && s in outs && Clearing(arcs, tmp, tmp2, s, outs[s], |outs[s]|)
    ensures Cleared(arcs, tmp, tmp2)
  {
    forall a | a in arcs && a.from == s ensures a.to !in tmp2 {
      ChainMember(outs, arcs, false, a);
    }
  }

  /** cleartraverse(), regc_nfa.c:1342-1357. */
  method ClearTraverse(nfa: Nfa, s: nat)
    requires nfa.Valid() && s in nfa.ins
    modifies nfa`tmp
    ensures Cleared(nfa.arcs, old(nfa.tmp), nfa.tmp) && s !in nfa.tmp
    decreases nfa.tmp.Keys
  {
    hide Agree, StatesAgree;
    if s !in nfa.tmp { return; }
    ghost var tmp0 := nfa.tmp;
    nfa.tmp := nfa.tmp - {s};
    var i := 0;
    while i < |nfa.outs[s]|
      invariant i <= |nfa.outs[s]| && Clearing(nfa.arcs, tmp0, nfa.tmp, s, nfa.outs[s], i)
      invariant nfa.tmp.Keys < tmp0.Keys
    {
      var a := nfa.outs[s][i];
      ChainArc(nfa.outs, nfa.arcs, s, i);
      ghost var tmp2 := nfa.tmp;
      ClearTraverse(nfa, a.to);
      ClearingNext(nfa.arcs, tmp0, tmp2, nfa.tmp, s, nfa.outs[s], i);
      i := i + 1;
    }
    ClearingDone(nfa.arcs, nfa.outs, tmp0, nfa.tmp, s);
  }

  lemma ChainArc(outs: map<nat, seq<Arc>>, arcs: set<Arc>, s: nat, i: nat)
    requires Agree(outs, arcs, false) && s in outs && i < |outs[s]|
    ensures outs[s][i] in arcs && outs[s][i].from == s
  {
    assert outs[s][i] in outs[s];
  }

  /** What has been duplicated: the states that can be reached from start inside the zone, and stop. */
  ghost predicate Duplicated(f: set<Arc>, c: map<nat, nat>, start: nat, stop: nat) {
    && start in c && Known(Leaving(f, c.Keys - {stop}), c)
    && forall x :: x in c && x != stop ==> Connected(f, start, x)
  }

  lemma {:induction false} ReachedCleared(f: set<Arc>, arcs: set<Arc>, c: map<nat, nat>, tmp2: map<nat, nat>, zone: set<nat>, start: nat, stop: nat,
                                          q: nat, w: Word, n: nat)
    requires Duplicated(f, c, start, stop) && f <= arcs && stop !in zone && (forall a :: a in f ==> a.from in zone)
    requires Cleared(arcs, c - {stop}, tmp2) && start !in tmp2 && Reach(f, start, q, w, n)
    ensures q in c && q !in tmp2
    decreases n
  {
    if n > 0 {
      var e, u := Unroll(f, start, q, w, n);
      ReachedCleared(f, arcs, c, tmp2, zone, start, stop, e.from, u, n - 1);
      assert e in Leaving(f, c.Keys - {stop});
    }
  }

  lemma AllCleared(f: set<Arc>, arcs: set<Arc>, c: map<nat, nat>, tmp2: map<nat, nat>, zone: set<nat>, start: nat, stop: nat)
    requires Duplicated(f, c, start, stop) && f <= arcs && stop !in zone && (forall a :: a in f ==> a.from in zone)
    requires Cleared(arcs, c - {stop}, tmp2) && start !in tmp2
    ensures tmp2 == map[]
  {
    forall x | x in tmp2 ensures false {
      assert x in c && x != stop && Connected(f, start, x);
      var w :| Spells(f, start, x, w);
      var n: nat :| Reach(f, start, x, w, n);
      ReachedCleared(f, arcs, c, tmp2, zone, start, stop, x, w, n);
    }
    assert tmp2.Keys == {};
  }

  lemma DupStart(arcs: set<Arc>, zone: set<nat>, start: nat, stop: nat, from: nat, to: nat, keys: set<nat>)
    requires Enclosed(arcs, zone, stop) && start in zone && from !in zone && zone <= keys && from in keys && stop in keys && to in keys
    ensures Traversing(arcs, map[stop := to], Leaving(arcs, zone), zone, start, stop, from, to, keys, keys) && start !in map[stop := to]
  {
  }

  lemma DupDone(arcs0: set<Arc>, arcs: set<Arc>, c: map<nat, nat>, zone: set<nat>, start: nat, stop: nat, from: nat, to: nat, keys: set<nat>, now: set<nat>)
    requires Traversing(arcs, c, Leaving(arcs0, zone), zone, start, stop, from, to, keys, now) && start in c
    requires Grown(arcs0, arcs, Leaving(arcs0, zone), c, c.Keys - {stop}, {})
    requires forall x :: x in c.Keys - {stop} ==> Connected(Leaving(arcs0, zone), start, x)
    ensures arcs == arcs0 + Images(Leaving(arcs0, c.Keys - {stop}), c) && Leaving(arcs0, zone) <= arcs
    ensures Duplicated(Leaving(arcs0, zone), c, start, stop) && Duplicates(c, zone, start, stop, from, to, keys) && stop !in zone
  {
    assert Leaving(Leaving(arcs0, zone), c.Keys - {stop}) == Leaving(arcs0, c.Keys - {stop});
    assert Images({}, c) == {};
  }

  /** dupnfa(), regc_nfa.c:1272-1291: strung between from and to there is now a copy of what can be reached from
      start before stop, each state but the ends having become a state of its own that is new. */
  method DupNfa(nfa: Nfa, start: nat, stop: nat, from: nat, to: nat, ghost zone: set<nat>) returns (ghost c: map<nat, nat>)
    requires nfa.Valid() && nfa.tmp == map[] && from in nfa.ins && to in nfa.ins && start in nfa.ins && stop in nfa.ins
    requires start != stop ==> Enclosed(nfa.arcs, zone, stop) && start in zone && from !in zone && zone <= nfa.ins.Keys
    modifies nfa`states, nfa`nstates, nfa`ins, nfa`outs, nfa`arcs, nfa`tmp
    ensures nfa.Valid() && nfa.tmp == map[] && old(nfa.ins.Keys) <= nfa.ins.Keys
    ensures start == stop ==> nfa.arcs == old(nfa.arcs) + {Arc(EMPTY, 0, from, to)}
    ensures start != stop ==> nfa.arcs == old(nfa.arcs) + Images(Leaving(old(nfa.arcs), c.Keys - {stop}), c)
    ensures start != stop ==> Duplicates(c, zone, start, stop, from, to, old(nfa.ins.Keys)) && Duplicated(Leaving(old(nfa.arcs), zone), c, start, stop)
    ensures start != stop ==> forall x :: x in c ==> c[x] in nfa.ins
  {
    hide Agree, StatesAgree, Within, Duplicates, Images, Leaving, Enclosed, Connected, Duplicated, Grown, Cleared, Known;
    c := map[];
    if start == stop {
      nfa.NewArc(Arc(EMPTY, 0, from, to));
      return;
    }
    ghost var arcs0, keys := nfa.arcs, nfa.ins.Keys;
    ghost var f := Leaving(nfa.arcs, zone);
    nfa.tmp := nfa.tmp[stop := to];
    DupStart(nfa.arcs, zone, start, stop, from, to, keys);
    DupTraverse(nfa, start, Some(from), f, zone, start, stop, from, to, keys);
    c := nfa.tmp;
    assert c.Keys - (map[stop := to]).Keys == c.Keys - {stop};
    DupDone(arcs0, nfa.arcs, c, zone, start, stop, from, to, keys, nfa.ins.Keys);
    nfa.tmp := nfa.tmp - {stop};
    ClearTraverse(nfa, start);
    LeavingFrom(arcs0, zone);
    AllCleared(f, nfa.arcs, c, nfa.tmp, zone, start, stop);
  }

  lemma LeavingFrom(arcs: set<Arc>, zone: set<nat>)
    ensures forall a :: a in Leaving(arcs, zone) ==> a.from in zone
  {
  }

  // ---------------------------------------------------------------- delsub

  /** Nothing leaves q any more, or q is still being worked on. */
  ghost predicate Spent(arcs: set<Arc>, tmp: map<nat, nat>, q: nat) {
    q in tmp || OutSet(arcs, q) == {}
  }

  /** The arcs that are gone: all of them left states of the zone that can be reached from s and have no arcs any
      more, for states that have none either. Marked states have lost nothing. */
  ghost predicate Deleted(arcs0: set<Arc>, arcs: set<Arc>, tmp: map<nat, nat>, zone: set<nat>, s: nat) {
    && arcs <= arcs0
    && forall a :: a in arcs0 - arcs ==>
      a.from in zone && a.from !in tmp && OutSet(arcs, a.from) == {} && Spent(arcs, tmp, a.to) && Connected(Leaving(arcs0, zone), s, a.from)
  }

  /** The same while the arcs of s are being freed. */
  ghost predicate Deleting(arcs0: set<Arc>, arcs: set<Arc>, tmp: map<nat, nat>, zone: set<nat>, s: nat) {
    && arcs <= arcs0
    && forall a :: a in arcs0 - arcs ==>
      a.from in zone && (a.from == s || (a.from !in tmp && OutSet(arcs, a.from) == {})) && Spent(arcs, tmp, a.to)
      && Connected(Leaving(arcs0, zone), s, a.from)
  }

  /** Only states of the zone other than lp that were not marked have been freed. */
  ghost predicate Freed(keys0: set<nat>, keys: set<nat>, tmp: map<nat, nat>, zone: set<nat>, lp: nat) {
    keys <= keys0 && forall x :: x in keys0 - keys ==> x in zone && x != lp && x !in tmp
  }

  lemma FewerConnected(a: set<Arc>, b: set<Arc>, p: nat, q: nat)
    requires a <= b && Connected(a, p, q)
    ensures Connected(b, p, q)
  {
    var w :| Spells(a, p, q, w);
    MoreArcs(a, b, p, q, w);
  }

  /** One more arc of s: the traversal from its target, then the arc itself. */
  lemma DeletingNext(arcs0: set<Arc>, arcs1: set<Arc>, arcs2: set<Arc>, tmp: map<nat, nat>, zone: set<nat>, s: nat, a: Arc)
    requires Deleting(arcs0, arcs1, tmp, zone, s) && Deleted(arcs1, arcs2, tmp, zone, a.to) && Spent(arcs2, tmp, a.to)
    requires a in arcs1 && a.from == s && s in tmp && s in zone
    ensures a in arcs2 && Deleting(arcs0, arcs2 - {a}, tmp, zone, s)
  {
    var f0, f1, arcs3 := Leaving(arcs0, zone), Leaving(arcs1, zone), arcs2 - {a};
    ConnectedSelf(f0, s);
    ConnectedArc(f0, s, a);
    assert a in arcs2;
    forall x | OutSet(arcs1, x) == {} || OutSet(arcs2, x) == {} ensures OutSet(arcs3, x) == {} { FewerOuts(arcs1, arcs2, arcs3, x); }
    forall b | b in arcs0 - arcs3
      ensures b.from in zone && (b.from == s || (b.from !in tmp && OutSet(arcs3, b.from) == {})) && Spent(arcs3, tmp, b.to) && Connected(f0, s, b.from)
    {
      if b in arcs1 && b != a {
        FewerConnected(f1, f0, a.to, b.from);
        ConnectedTrans(f0, s, a.to, b.from);
      }
    }
  }

  lemma FewerOuts(arcs1: set<Arc>, arcs2: set<Arc>, arcs3: set<Arc>, x: nat)
    requires arcs3 <= arcs2 <= arcs1
    ensures OutSet(arcs1, x) == {} || OutSet(arcs2, x) == {} ==> OutSet(arcs3, x) == {}
  {
    assert OutSet(arcs3, x) <= OutSet(arcs2, x) <= OutSet(arcs1, x);
  }

  lemma DeletingDone(arcs0: set<Arc>, arcs: set<Arc>, tmp: map<nat, nat>, zone: set<nat>, s: nat)
    requires Deleting(arcs0, arcs, tmp[s := s], zone, s) && OutSet(arcs, s) == {} && s !in tmp
    ensures Deleted(arcs0, arcs, tmp, zone, s)
  {
  }

  /** A state the traversal may come to: its arcs are those of the zone, or it is marked. */
  ghost predicate Removable(arcs: set<Arc>, keys: set<nat>, tmp: map<nat, nat>, zone: set<nat>, lp: nat, rp: nat) {
    && Enclosed(arcs, zone, rp) && rp in tmp && tmp.Keys <= keys && tmp.Keys <= zone + {rp}
    && forall a :: a in arcs && a.from in zone ==> a.to != lp
  }

  lemma RemovableLess(arcs: set<Arc>, arcs2: set<Arc>, keys: set<nat>, keys2: set<nat>, tmp: map<nat, nat>, zone: set<nat>, lp: nat, rp: nat)
    requires Removable(arcs, keys, tmp, zone, lp, rp) && arcs2 <= arcs && Freed(keys, keys2, tmp, zone, lp)
    ensures Removable(arcs2, keys2, tmp, zone, lp, rp)
  {
  }

  lemma FreedTrans(k0: set<nat>, k1: set<nat>, k2: set<nat>, tmp: map<nat, nat>, zone: set<nat>, lp: nat)
    requires Freed(k0, k1, tmp, zone, lp) && Freed(k1, k2, tmp, zone, lp)
    ensures Freed(k0, k2, tmp, zone, lp)
  {
  }

  lemma NoOuts(outs: map<nat, seq<Arc>>, arcs: set<Arc>, s: nat)
    requires Agree(outs, arcs, false) && s in outs
    ensures outs[s] == [] <==> OutSet(arcs, s) == {}
  {
    if outs[s] != [] { ChainHead(outs, arcs, false, s); assert outs[s][0] in OutSet(arcs, s); }
    if outs[s] == [] { ChainEmpty(outs, arcs, false, s); }
  }

  lemma NoIns(ins: map<nat, seq<Arc>>, arcs: set<Arc>, s: nat)
    requires Agree(ins, arcs, true) && s in ins
    ensures ins[s] == [] <==> InSet(arcs, s) == {}
  {
    if ins[s] != [] { ChainHead(ins, arcs, true, s); assert ins[s][0] in InSet(arcs, s); }
    if ins[s] == [] { ChainEmpty(ins, arcs, true, s); }
  }

  lemma MarkedKept(arcs0: set<Arc>, arcs: set<Arc>, tmp: map<nat, nat>, zone: set<nat>, s: nat, a: Arc)
    requires Deleted(arcs0, arcs, tmp, zone, s) && a in arcs0 && a.from in tmp
    ensures a in arcs
  {
  }

  /** deltraverse(), regc_nfa.c:1228-1262: frees every out-arc of s and what hangs on them; via is the arc it was
      reached by, which is still there at the end. Its assertions are stated on the way. */
  method DelTraverse(nfa: Nfa, leftend: nat, s: nat, ghost via: Option<Arc>, ghost zone: set<nat>, ghost rp: nat)
    requires nfa.Valid() && Removable(nfa.arcs, nfa.ins.Keys, nfa.tmp, zone, leftend, rp) && (s in zone || s == rp) && s in nfa.ins
    requires forall x :: x in zone && x != leftend ==> !nfa.Flagged(x)
    requires via.None? ==> s == leftend
    requires via.Some? ==> via.value in nfa.arcs && via.value.to == s && via.value.from in nfa.tmp
    modifies nfa`states, nfa`ins, nfa`outs, nfa`arcs, nfa`tmp
    ensures nfa.Valid() && nfa.tmp == old(nfa.tmp) && s in nfa.ins
    ensures Deleted(old(nfa.arcs), nfa.arcs, nfa.tmp, zone, s) && Spent(nfa.arcs, nfa.tmp, s)
    ensures Freed(old(nfa.ins.Keys), nfa.ins.Keys, nfa.tmp, zone, leftend)
    decreases zone - nfa.tmp.Keys, 0
  {
    hide Agree, StatesAgree, Within, Deleting, Deleted, Freed, Removable;
    NothingDeleted(nfa.arcs, nfa.ins.Keys, nfa.tmp, zone, leftend, s);
    NoOuts(nfa.outs, nfa.arcs, s);
    if |nfa.outs[s]| == 0 { return; }
    if s in nfa.tmp { return; }
    ghost var tmp0, arcs0, keys0 := nfa.tmp, nfa.arcs, nfa.ins.Keys;
    RemovableMark(nfa.arcs, nfa.ins.Keys, nfa.tmp, zone, leftend, rp, s);
    nfa.tmp := nfa.tmp[s := s];
    ghost var tmp1 := nfa.tmp;
    NothingDeleted(nfa.arcs, nfa.ins.Keys, tmp1, zone, leftend, s);
    while nfa.outs[s] != []
      invariant nfa.Valid() && nfa.tmp == tmp1 && s in nfa.ins && Removable(nfa.arcs, nfa.ins.Keys, tmp1, zone, leftend, rp)
      invariant Deleting(arcs0, nfa.arcs, tmp1, zone, s) && Freed(keys0, nfa.ins.Keys, tmp1, zone, leftend)
      invariant via.Some? ==> via.value in nfa.arcs
      decreases nfa.arcs
    {
      ghost var keys1 := nfa.ins.Keys;
      FreeFirst(nfa, leftend, s, zone, rp, arcs0, via);
      FreedTrans(keys0, keys1, nfa.ins.Keys, tmp1, zone, leftend);
    }
    NoOuts(nfa.outs, nfa.arcs, s);
    NoIns(nfa.ins, nfa.arcs, s);
    if via.Some? { HasIn(nfa.arcs, via.value); }
    assert s == leftend || nfa.ins[s] != [];
    nfa.tmp := nfa.tmp - {s};
    assert nfa.tmp == tmp0;
    DeletingDone(arcs0, nfa.arcs, tmp0, zone, s);
    FreedUnmarked(keys0, nfa.ins.Keys, tmp0, zone, leftend, s);
  }

  lemma NothingDeleted(arcs: set<Arc>, keys: set<nat>, tmp: map<nat, nat>, zone: set<nat>, lp: nat, s: nat)
    ensures Deleted(arcs, arcs, tmp, zone, s) && Deleting(arcs, arcs, tmp, zone, s) && Freed(keys, keys, tmp, zone, lp)
  {
  }

  lemma RemovableMark(arcs: set<Arc>, keys: set<nat>, tmp: map<nat, nat>, zone: set<nat>, lp: nat, rp: nat, s: nat)
    requires Removable(arcs, keys, tmp, zone, lp, rp) && (s in zone || s == rp) && s in keys && s !in tmp
    ensures Removable(arcs, keys, tmp[s := s], zone, lp, rp) && s in zone && zone - (tmp[s := s]).Keys < zone - tmp.Keys
  {
    assert s in zone - tmp.Keys;
  }

  lemma FreedUnmarked(k0: set<nat>, k1: set<nat>, tmp: map<nat, nat>, zone: set<nat>, lp: nat, s: nat)
    requires Freed(k0, k1, tmp[s := s], zone, lp)
    ensures Freed(k0, k1, tmp, zone, lp)
  {
  }

  lemma HasIn(arcs: set<Arc>, a: Arc)
    requires a in arcs
    ensures InSet(arcs, a.to) != {}
  {
    assert a in InSet(arcs, a.to);
  }

  /** One turn of deltraverse()'s loop. */
  method FreeFirst(nfa: Nfa, leftend: nat, s: nat, ghost zone: set<nat>, ghost rp: nat, ghost arcs0: set<Arc>, ghost via: Option<Arc>)
    requires nfa.Valid() && Removable(nfa.arcs, nfa.ins.Keys, nfa.tmp, zone, leftend, rp) && s in zone && s in nfa.tmp
    requires forall x :: x in zone && x != leftend ==> !nfa.Flagged(x)
    requires s in nfa.ins && nfa.outs[s] != [] && Deleting(arcs0, nfa.arcs, nfa.tmp, zone, s)
    requires via.Some? ==> via.value in nfa.arcs && via.value.to == s && via.value.from in nfa.tmp && via.value.from != s
    modifies nfa`states, nfa`ins, nfa`outs, nfa`arcs, nfa`tmp
    ensures nfa.Valid() && Removable(nfa.arcs, nfa.ins.Keys, nfa.tmp, zone, leftend, rp) && nfa.tmp == old(nfa.tmp) && s in nfa.ins
    ensures Deleting(arcs0, nfa.arcs, nfa.tmp, zone, s) && nfa.arcs < old(nfa.arcs) && Freed(old(nfa.ins.Keys), nfa.ins.Keys, nfa.tmp, zone, leftend)
    ensures via.Some? ==> via.value in nfa.arcs
    decreases zone - nfa.tmp.Keys, 1
  {
    hide Agree, StatesAgree, Within, Deleting, Deleted, Removable, Spent, Freed;
    ghost var arcs1, keys1 := nfa.arcs, nfa.ins.Keys;
    ChainArc(nfa.outs, nfa.arcs, s, 0);
    var a := nfa.outs[s][0];
    var to := a.to;
    RemovableArc(nfa.arcs, nfa.ins.Keys, nfa.tmp, zone, leftend, rp, a);
    Ends(nfa.arcs, a, nfa.ins.Keys);
    DelTraverse(nfa, leftend, to, Some(a), zone, rp);
    ghost var arcs2, keys2 := nfa.arcs, nfa.ins.Keys;
    MarkedKept(arcs1, arcs2, nfa.tmp, zone, to, a);
    DeletingNext(arcs0, arcs1, arcs2, nfa.tmp, zone, s, a);
    if via.Some? { MarkedKept(arcs1, arcs2, nfa.tmp, zone, to, via.value); }
    nfa.Unlink(a);
    FreeIfBare(nfa, to, arcs2, zone, leftend, rp);
    DeletedLess(arcs1, arcs2, nfa.tmp, zone, to);
    FreedTrans(keys1, keys2, nfa.ins.Keys, nfa.tmp, zone, leftend);
    RemovableLess(arcs1, nfa.arcs, keys1, nfa.ins.Keys, nfa.tmp, zone, leftend, rp);
    RemovableKeys(nfa.arcs, nfa.ins.Keys, nfa.tmp, zone, leftend, rp);
  }

  lemma RemovableArc(arcs: set<Arc>, keys: set<nat>, tmp: map<nat, nat>, zone: set<nat>, lp: nat, rp: nat, a: Arc)
    requires Removable(arcs, keys, tmp, zone, lp, rp) && a in arcs && a.from in zone
    ensures (a.to in zone || a.to == rp) && a.to != lp && rp in tmp
  {
  }

  lemma RemovableKeys(arcs: set<Arc>, keys: set<nat>, tmp: map<nat, nat>, zone: set<nat>, lp: nat, rp: nat)
    requires Removable(arcs, keys, tmp, zone, lp, rp)
    ensures forall x :: x in tmp ==> x in keys
  {
  }

  lemma DeletedLess(arcs0: set<Arc>, arcs: set<Arc>, tmp: map<nat, nat>, zone: set<nat>, s: nat)
    requires Deleted(arcs0, arcs, tmp, zone, s)
    ensures arcs <= arcs0
  {
  }

  /** The end of deltraverse()'s loop: the state the arc led to goes too if nothing holds it any more. */
  method FreeIfBare(nfa: Nfa, to: nat, ghost arcs2: set<Arc>, ghost zone: set<nat>, ghost leftend: nat, ghost rp: nat)
    requires nfa.Valid() && to in nfa.ins && Spent(arcs2, nfa.tmp, to) && nfa.arcs <= arcs2 && (to in zone || to in nfa.tmp) && to != leftend
    requires forall x :: x in zone && x != leftend ==> !nfa.Flagged(x)
    modifies nfa`states, nfa`ins, nfa`outs
    ensures nfa.Valid() && Freed(old(nfa.ins.Keys), nfa.ins.Keys, nfa.tmp, zone, leftend)
  {
    hide Agree, StatesAgree, Within, Removed;
    NoOuts(nfa.outs, nfa.arcs, to);
    NoIns(nfa.ins, nfa.arcs, to);
    FewerOuts(arcs2, arcs2, nfa.arcs, to);
    assert |nfa.outs[to]| == 0 || to in nfa.tmp;
    if nfa.ins[to] == [] && to !in nfa.tmp {
      Bare(nfa.arcs, to);
      nfa.FreeState(to);
    }
  }

  lemma Bare(arcs: set<Arc>, s: nat)
    requires InSet(arcs, s) == {} && OutSet(arcs, s) == {}
    ensures forall a :: a in arcs ==> a.from != s && a.to != s
  {
    forall a | a in arcs ensures a.from != s && a.to != s {
      assert (a in InSet(arcs, s) <==> a.to == s) && (a in OutSet(arcs, s) <==> a.from == s);
    }
  }

  lemma HasOut(arcs: set<Arc>, a: Arc)
    requires a in arcs
    ensures OutSet(arcs, a.from) != {}
  {
    assert a in OutSet(arcs, a.from);
  }

  lemma {:induction false} ReachedSpent(f: set<Arc>, arcs0: set<Arc>, arcs: set<Arc>, zone: set<nat>, lp: nat, rp: nat, q: nat, w: Word, n: nat)
    requires Deleted(arcs0, arcs, map[rp := rp], zone, lp) && Spent(arcs, map[rp := rp], lp) && f == Leaving(arcs0, zone)
    requires rp !in zone && Reach(f, lp, q, w, n)
    ensures Spent(arcs, map[rp := rp], q)
    decreases n
  {
    if n > 0 {
      var e, u := Unroll(f, lp, q, w, n);
      ReachedSpent(f, arcs0, arcs, zone, lp, rp, e.from, u, n - 1);
      if e in arcs { HasOut(arcs, e); }
    }
  }

  /** The arcs of the zone that can be reached from lp. */
  ghost function Reachable(arcs: set<Arc>, zone: set<nat>, lp: nat): set<Arc> {
    set a | a in arcs && a.from in zone && Connected(Leaving(arcs, zone), lp, a.from)
  }

  lemma ReachableGone(arcs0: set<Arc>, arcs: set<Arc>, zone: set<nat>, lp: nat, rp: nat)
    requires Deleted(arcs0, arcs, map[rp := rp], zone, lp) && Spent(arcs, map[rp := rp], lp) && rp !in zone
    ensures arcs == arcs0 - Reachable(arcs0, zone, lp)
  {
    var f := Leaving(arcs0, zone);
    forall a | a in Reachable(arcs0, zone, lp) ensures a !in arcs {
      var w :| Spells(f, lp, a.from, w);
      var n: nat :| Reach(f, lp, a.from, w, n);
      ReachedSpent(f, arcs0, arcs, zone, lp, rp, a.from, w, n);
      if a in arcs { HasOut(arcs, a); }
    }
  }

  lemma AllIns(arcs0: set<Arc>, arcs: set<Arc>, zone: set<nat>, lp: nat, rp: nat)
    requires arcs == arcs0 - Reachable(arcs0, zone, lp) && Strung(arcs0, zone, lp, rp)
    ensures InSet(arcs, rp) == {} <==> forall a :: a in arcs0 && a.to == rp ==> Connected(Leaving(arcs0, zone), lp, a.from)
  {
    if InSet(arcs, rp) == {} {
      forall a | a in arcs0 && a.to == rp ensures Connected(Leaving(arcs0, zone), lp, a.from) {
        assert a in InSet(arcs, rp) <==> a in arcs;
      }
    }
  }

  /** delsub(), regc_nfa.c:1205-1221: what can be reached from lp before rp is gone. Its assertion that rp has lost
      all its in-arcs holds exactly when all of them could be reached. */
  method DelSub(nfa: Nfa, lp: nat, rp: nat, ghost zone: set<nat>)
    requires nfa.Valid() && nfa.tmp == map[] && Strung(nfa.arcs, zone, lp, rp) && lp in nfa.ins && rp in nfa.ins
    requires forall x :: x in zone && x != lp ==> !nfa.Flagged(x)
    modifies nfa`states, nfa`ins, nfa`outs, nfa`arcs, nfa`tmp
    ensures nfa.Valid() && nfa.tmp == map[] && nfa.arcs == old(nfa.arcs) - Reachable(old(nfa.arcs), zone, lp)
    ensures OutSet(nfa.arcs, lp) == {} && lp in nfa.ins && rp in nfa.ins
    ensures nfa.ins.Keys <= old(nfa.ins.Keys) && old(nfa.ins.Keys) - nfa.ins.Keys <= zone - {lp}
    ensures InSet(nfa.arcs, rp) == {} <==> forall a :: a in old(nfa.arcs) && a.to == rp ==> Connected(Leaving(old(nfa.arcs), zone), lp, a.from)
  {
    ghost var arcs0 := nfa.arcs;
    nfa.tmp := nfa.tmp[rp := rp];
    DelTraverse(nfa, lp, lp, None, zone, rp);
    ReachableGone(arcs0, nfa.arcs, zone, lp, rp);
    AllIns(arcs0, nfa.arcs, zone, lp, rp);
    nfa.tmp := nfa.tmp - {rp};
    nfa.tmp := nfa.tmp - {lp};
  }
}
