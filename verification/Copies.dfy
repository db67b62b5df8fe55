/** The automaton of a node of the tree: newnfa(), regc_nfa.c:46-89, and dupnfa(), regc_nfa.c:1272-1336, from one automaton
    into another, as nfanode() calls them (regcomp.c:1930-1932), and what the copy matches. */
module Copies {
  import opened Options
  import opened Nfa
  import opened Words
  import opened Runs
  import opened Fragments
  import opened SubNfa
  import opened Readings
  import R = Repeat

  // ---------------------------------------------------------------- newnfa()

  const PRE: nat := 1
  const POST: nat := 0
  const INIT: nat := 2
  const FINAL: nat := 3

  /** The arcs from pre and those into post: every colour, and the two kinds of string begin (end). */
  ghost function Frame(colors: seq<nat>, typ: ArcType, p: nat, q: nat): set<Arc> {
    (set co | co in colors :: Arc(PLAIN, co, p, q)) + {Arc(typ, 1, p, q), Arc(typ, 0, p, q)}
  }

  ghost function Skeleton(colors: seq<nat>): set<Arc> {
    Frame(colors, CARET, PRE, INIT) + Frame(colors, DOLLAR, FINAL, POST)
  }

  /** rainbow() and the two arcs for string begins or ends (regc_nfa.c:78-83). */
  method AddFrame(nfa: Nfa, colors: seq<nat>, typ: ArcType, p: nat, q: nat)
    requires nfa.Valid() && p in nfa.ins && q in nfa.ins
    modifies nfa`ins, nfa`outs, nfa`arcs
    ensures nfa.Valid() && nfa.ins.Keys == old(nfa.ins.Keys) && nfa.arcs == old(nfa.arcs) + Frame(colors, typ, p, q)
  {
    hide Agree, StatesAgree, Within;
    ghost var was := nfa.arcs;
    var i := 0;
    while i < |colors|
      invariant i <= |colors| && nfa.Valid() && nfa.ins.Keys == old(nfa.ins.Keys)
      invariant nfa.arcs == was + set co | co in colors[..i] :: Arc(PLAIN, co, p, q)
    {
      ghost var now := nfa.arcs;
      nfa.LinkUnlessPresent(Arc(PLAIN, colors[i], p, q));
      assert colors[..i + 1] == colors[..i] + [colors[i]];
      i := i + 1;
    }
    assert colors[..|colors|] == colors;
    nfa.LinkUnlessPresent(Arc(typ, 1, p, q));
    nfa.LinkUnlessPresent(Arc(typ, 0, p, q));
  }

  /** newnfa(), for the colours that are in use. */
  method NewNfa(colors: seq<nat>) returns (nfa: Nfa)
    ensures fresh(nfa) && nfa.Valid() && nfa.tmp == map[] && nfa.ins.Keys == {PRE, POST, INIT, FINAL} && nfa.arcs == Skeleton(colors)
  {
    hide Agree, StatesAgree, Within, Frame;
    nfa := new Nfa();
    AddFrame(nfa, colors, CARET, PRE, INIT);
    AddFrame(nfa, colors, DOLLAR, FINAL, POST);
  }

  // ---------------------------------------------------------------- dupnfa() across

  /** The tmp pointers of the automaton copied from stand for states of the one copied to. */
  ghost predicate Crossing(tmp: map<nat, nat>, zone: set<nat>, start: nat, stop: nat, from: nat, to: nat, keys: set<nat>, now: set<nat>) {
    && Duplicates(tmp, zone, start, stop, from, to, keys) && keys <= now && from in keys && to in keys
    && forall x :: x in tmp ==> tmp[x] in now
  }

  lemma CrossEntered(tmp: map<nat, nat>, zone: set<nat>, start: nat, stop: nat, from: nat, to: nat, keys: set<nat>, now: set<nat>, now2: set<nat>, s: nat, d: nat)
    requires Crossing(tmp, zone, start, stop, from, to, keys, now) && now <= now2 && s !in tmp && s in zone
    requires if s == start then d == from else start in tmp && d !in now && d in now2
    ensures Crossing(tmp[s := d], zone, start, stop, from, to, keys, now2) && Extends(tmp, tmp[s := d])
  {
  }

  lemma CrossEnds(tmp: map<nat, nat>, zone: set<nat>, start: nat, stop: nat, from: nat, to: nat, keys: set<nat>, now: set<nat>)
    requires Crossing(tmp, zone, start, stop, from, to, keys, now)
    ensures stop in tmp && forall x :: x in tmp ==> tmp[x] in now
  {
  }

  lemma CrossChain(outs: map<nat, seq<Arc>>, arcs: set<Arc>, zone: set<nat>, keys: set<nat>, stop: nat, s: nat, f: set<Arc>)
    requires Agree(outs, arcs, false) && Within(arcs, keys) && zone == keys - {stop} && s in outs && s in zone && f == Leaving(arcs, zone)
    ensures Set(outs[s][..|outs[s]|]) == OutSet(f, s)
    ensures forall i :: 0 <= i < |outs[s]| ==> outs[s][i] in f && outs[s][i].from == s && outs[s][i].to in keys
  {
    ChainIs(outs, arcs, zone, s, f);
  }

  /** duptraverse(): the states of src get duplicates in dst. */
  method CrossTraverse(src: Nfa, dst: Nfa, s: nat, stmp: Option<nat>, ghost f: set<Arc>, ghost zone: set<nat>, ghost start: nat, ghost stop: nat,
                       ghost from: nat, ghost to: nat, ghost keys: set<nat>)
    requires src != dst && src.Valid() && dst.Valid() && zone == src.ins.Keys - {stop} && f == Leaving(src.arcs, zone)
    requires Crossing(src.tmp, zone, start, stop, from, to, keys, dst.ins.Keys)
    requires s in src.ins && (if stmp.Some? then s == start && stmp.value == from else start in src.tmp)
    modifies src`tmp, dst`states, dst`nstates, dst`ins, dst`outs, dst`arcs
    ensures dst.Valid() && Crossing(src.tmp, zone, start, stop, from, to, keys, dst.ins.Keys)
    ensures Extends(old(src.tmp), src.tmp) && s in src.tmp && start in src.tmp && old(dst.ins.Keys) <= dst.ins.Keys
    ensures Grown(old(dst.arcs), dst.arcs, f, src.tmp, src.tmp.Keys - old(src.tmp).Keys, {})
    ensures forall x :: x in src.tmp.Keys - old(src.tmp).Keys ==> Connected(f, s, x)
    decreases zone - src.tmp.Keys, 0
  {
    hide Crossing, Images, Leaving, Grown, SubNfa.Known, Extends, Agree, StatesAgree, Within, Connected, Copying, Set;
    CrossEnds(src.tmp, zone, start, stop, from, to, keys, dst.ins.Keys);
    if s in src.tmp {
      GrownStart(dst.arcs, f, src.tmp);
      ExtendsSelf(src.tmp);
      assert src.tmp.Keys - src.tmp.Keys == {};
      return;
    }
    ghost var tmp0, arcs0, keys0 := src.tmp, dst.arcs, dst.ins.Keys;
    var d;
    if stmp.None? {
      d := dst.NewState();
    } else {
      d := stmp.value;
    }
    CrossEntered(src.tmp, zone, start, stop, from, to, keys, keys0, dst.ins.Keys, s, d);
    src.tmp := src.tmp[s := d];
    ghost var tmp1 := src.tmp;
    ExtendsSelf(tmp1);
    Shrinks(zone, tmp0, tmp1, tmp1, s);
    var chain := src.outs[s];
    CrossChain(src.outs, src.arcs, zone, src.ins.Keys, stop, s, f);
    CopyingStart(dst.arcs, f, src.tmp, s, chain);
    var i := 0;
    while i < |chain|
      invariant i <= |chain| && dst.Valid() && Crossing(src.tmp, zone, start, stop, from, to, keys, dst.ins.Keys)
      invariant s in src.tmp && start in src.tmp && keys0 <= dst.ins.Keys && Extends(tmp1, src.tmp)
      invariant Copying(arcs0, dst.arcs, f, tmp1, src.tmp, s, Set(chain[..i]))
    {
      Shrinks(zone, tmp0, tmp1, src.tmp, s);
      CrossArc(src, dst, s, chain, i, f, zone, start, stop, from, to, keys, arcs0, tmp1);
      i := i + 1;
    }
    CopyingDone(arcs0, dst.arcs, f, tmp0, tmp1, src.tmp, s);
  }

  lemma ExtendsSelf(tmp: map<nat, nat>)
    ensures Extends(tmp, tmp)
  {
  }

  /** One turn of duptraverse()'s loop. */
  method CrossArc(src: Nfa, dst: Nfa, s: nat, chain: seq<Arc>, i: nat, ghost f: set<Arc>, ghost zone: set<nat>, ghost start: nat, ghost stop: nat,
                  ghost from: nat, ghost to: nat, ghost keys: set<nat>, ghost arcs0: set<Arc>, ghost tmp1: map<nat, nat>)
    requires src != dst && src.Valid() && dst.Valid() && zone == src.ins.Keys - {stop} && f == Leaving(src.arcs, zone)
    requires Crossing(src.tmp, zone, start, stop, from, to, keys, dst.ins.Keys) && s in src.tmp && start in src.tmp
    requires i < |chain| && chain[i] in f && chain[i].from == s && chain[i].to in src.ins
    requires Copying(arcs0, dst.arcs, f, tmp1, src.tmp, s, Set(chain[..i])) && Extends(tmp1, src.tmp)
    modifies src`tmp, dst`states, dst`nstates, dst`ins, dst`outs, dst`arcs
    ensures dst.Valid() && Crossing(src.tmp, zone, start, stop, from, to, keys, dst.ins.Keys)
    ensures s in src.tmp && start in src.tmp && old(dst.ins.Keys) <= dst.ins.Keys && Extends(tmp1, src.tmp)
    ensures Copying(arcs0, dst.arcs, f, tmp1, src.tmp, s, Set(chain[..i + 1]))
    decreases zone - src.tmp.Keys, 1
  {
    hide Crossing, Images, Leaving, Grown, SubNfa.Known, Extends, Agree, StatesAgree, Within, Connected, Copying, Set;
    ghost var arcs1, tmp2 := dst.arcs, src.tmp;
    var a := chain[i];
    SetGrows(chain, i);
    CrossTraverse(src, dst, a.to, None, f, zone, start, stop, from, to, keys);
    ExtendsHolds(tmp2, src.tmp, s);
    CopyingNext(arcs0, arcs1, dst.arcs, f, tmp1, tmp2, src.tmp, s, Set(chain[..i]), a);
    ExtendsTrans(tmp1, tmp2, src.tmp);
    CrossEnds(src.tmp, zone, start, stop, from, to, keys, dst.ins.Keys);
    dst.LinkUnlessPresent(Arc(a.typ, a.co, src.tmp[s], src.tmp[a.to]));
  }

  /** dupnfa(): what can be reached from start before stop is strung between from and to. */
  method CrossDup(src: Nfa, dst: Nfa, start: nat, stop: nat, from: nat, to: nat) returns (ghost c: map<nat, nat>)
    requires src != dst && src.Valid() && dst.Valid() && src.tmp == map[] && start in src.ins && stop in src.ins && start != stop
    requires from in dst.ins && to in dst.ins
    modifies src`tmp, dst`states, dst`nstates, dst`ins, dst`outs, dst`arcs
    ensures dst.Valid() && src.tmp == map[]
    ensures var zone := src.ins.Keys - {stop};
      && Duplicates(c, zone, start, stop, from, to, old(dst.ins.Keys)) && Duplicated(Leaving(src.arcs, zone), c, start, stop)
      && dst.arcs == old(dst.arcs) + Images(Leaving(src.arcs, c.Keys - {stop}), c)
  {
    hide Crossing, Duplicates, Duplicated, Images, Leaving, Grown, Extends, Agree, StatesAgree, Within, Connected, Cleared;
    ghost var arcs0, keys, zone := dst.arcs, dst.ins.Keys, src.ins.Keys - {stop};
    ghost var f := Leaving(src.arcs, zone);
    src.tmp := src.tmp[stop := to];
    CrossStart(zone, start, stop, from, to, keys);
    CrossTraverse(src, dst, start, Some(from), f, zone, start, stop, from, to, keys);
    c := src.tmp;
    CrossDone(src.arcs, arcs0, dst.arcs, c, zone, start, stop, from, to, keys, dst.ins.Keys);
    src.tmp := src.tmp - {stop};
    ClearTraverse(src, start);
    LeavingFrom(src.arcs, zone);
    LeavingLess(src.arcs, zone);
    AllCleared(f, src.arcs, c, src.tmp, zone, start, stop);
  }

  lemma LeavingLess(arcs: set<Arc>, zone: set<nat>)
    ensures Leaving(arcs, zone) <= arcs
  {
  }

  lemma CrossStart(zone: set<nat>, start: nat, stop: nat, from: nat, to: nat, keys: set<nat>)
    requires stop !in zone && from in keys && to in keys && start != stop
    ensures Crossing(map[stop := to], zone, start, stop, from, to, keys, keys) && start !in map[stop := to]
  {
  }

  lemma CrossDone(arcs: set<Arc>, arcs0: set<Arc>, now: set<Arc>, c: map<nat, nat>, zone: set<nat>, start: nat, stop: nat, from: nat, to: nat,
                  keys: set<nat>, ins: set<nat>)
    requires Crossing(c, zone, start, stop, from, to, keys, ins) && start in c && stop !in zone
    requires Grown(arcs0, now, Leaving(arcs, zone), c, c.Keys - (map[stop := to]).Keys, {})
    requires forall x :: x in c.Keys - (map[stop := to]).Keys ==> Connected(Leaving(arcs, zone), start, x)
    ensures now == arcs0 + Images(Leaving(arcs, c.Keys - {stop}), c)
    ensures Duplicated(Leaving(arcs, zone), c, start, stop) && Duplicates(c, zone, start, stop, from, to, keys)
  {
    hide Connected;
    assert (map[stop := to]).Keys == {stop};
    assert Leaving(Leaving(arcs, zone), c.Keys - {stop}) == Leaving(arcs, c.Keys - {stop});
    assert Images({}, c) == {};
  }

  // ---------------------------------------------------------------- words from pre to post

  /** w is a word of l between the label of an arc of pre and that of an arc into post. */
  ghost predicate Bracketed(colors: seq<nat>, l: Language, w: Word) {
    exists a, u: Word, b :: InFrame(colors, l, w, a, u, b)
  }

  ghost predicate InFrame(colors: seq<nat>, l: Language, w: Word, a: Arc, u: Word, b: Arc) {
    a in Frame(colors, CARET, PRE, INIT) && b in Frame(colors, DOLLAR, FINAL, POST) && u in l && w == WordOf(a) + u + WordOf(b)
  }

  /** The arcs inside neither meet pre nor post. */
  ghost predicate Inside(inner: set<Arc>) {
    forall a :: a in inner ==> a.from != PRE && a.to != PRE && a.from != POST && a.to != POST
  }

  lemma {:induction false} StaysInside(colors: seq<nat>, inner: set<Arc>, p: nat, q: nat, w: Word, n: nat)
    requires Inside(inner) && p != PRE && p != POST && Reach(Skeleton(colors) + inner, p, q, w, n)
    ensures q != PRE && (q != POST ==> Spells(inner, p, q, w))
    decreases n
  {
    if n == 0 {
      SpellsEmpty(inner, p);
    } else {
      var e, u := Unroll(Skeleton(colors) + inner, p, q, w, n);
      StaysInside(colors, inner, p, e.from, u, n - 1);
      if e in inner { SpellsArc(inner, p, u, e); }
    }
  }

  /** A path from pre begins with an arc to init. */
  lemma {:induction false} FromPre(arcs: set<Arc>, pre: nat, init: nat, q: nat, w: Word, n: nat) returns (a: Arc, u: Word)
    requires (forall e :: e in arcs ==> e.to != pre && (e.from == pre ==> e.to == init)) && Reach(arcs, pre, q, w, n) && n > 0
    ensures a in arcs && a.from == pre && w == WordOf(a) + u && Spells(arcs, init, q, u)
    decreases n
  {
    var e, v := Unroll(arcs, pre, q, w, n);
    if n == 1 {
      a, u := e, [];
      assert v == [] && w == WordOf(e) + [];
      SpellsEmpty(arcs, init);
    } else {
      var u0;
      a, u0 := FromPre(arcs, pre, init, e.from, v, n - 1);
      SpellsArc(arcs, init, u0, e);
      u := u0 + WordOf(e);
      assert w == WordOf(a) + u0 + WordOf(e) == WordOf(a) + u;
    }
  }

  lemma FrameArcs(colors: seq<nat>, inner: set<Arc>)
    requires Inside(inner)
    ensures var arcs := Skeleton(colors) + inner;
      && (forall e :: e in arcs ==> e.to != PRE && (e.from == PRE ==> e.to == INIT && e in Frame(colors, CARET, PRE, INIT)))
      && (forall e :: e in arcs && e.to == POST ==> e.from == FINAL && e in Frame(colors, DOLLAR, FINAL, POST))
  {
  }

  lemma FramedWords(colors: seq<nat>, inner: set<Arc>, w: Word)
    requires Inside(inner)
    ensures Spells(Skeleton(colors) + inner, PRE, POST, w) <==> Bracketed(colors, SpelledBy(inner, INIT, FINAL), w)
  {
    var arcs := Skeleton(colors) + inner;
    if Spells(arcs, PRE, POST, w) {
      var n: nat :| Reach(arcs, PRE, POST, w, n);
      FrameArcs(colors, inner);
      var a, v := FromPre(arcs, PRE, INIT, POST, w, n);
      var m: nat :| Reach(arcs, INIT, POST, v, m);
      var b, u := Unroll(arcs, INIT, POST, v, m);
      StaysInside(colors, inner, INIT, b.from, u, m - 1);
      assert w == WordOf(a) + u + WordOf(b);
      assert InFrame(colors, SpelledBy(inner, INIT, FINAL), w, a, u, b);
    }
    if Bracketed(colors, SpelledBy(inner, INIT, FINAL), w) {
      var a, u: Word, b :| InFrame(colors, SpelledBy(inner, INIT, FINAL), w, a, u, b);
      OneArc(arcs, a);
      MoreArcs(inner, arcs, INIT, FINAL, u);
      OneArc(arcs, b);
      Joined(arcs, PRE, INIT, FINAL, WordOf(a), u);
      Joined(arcs, PRE, FINAL, POST, WordOf(a) + u, WordOf(b));
    }
  }

  // ---------------------------------------------------------------- the automaton of a node

  /** What lies between two states. */
  ghost function Between(arcs: set<Arc>, keys: set<nat>, start: nat, stop: nat): Language {
    SpelledBy(Leaving(arcs, keys - {stop}), start, stop)
  }

  /** newnfa() and dupnfa(): the new automaton spells, between pre and post, what lies between the two states, framed. */
  method NodeNfa(src: Nfa, colors: seq<nat>, start: nat, stop: nat) returns (nfa: Nfa)
    requires src.Valid() && src.tmp == map[] && start in src.ins && stop in src.ins && start != stop
    modifies src`tmp
    ensures fresh(nfa) && nfa.Valid() && nfa.tmp == map[] && src.tmp == map[]
    ensures forall w: Word :: Spells(nfa.arcs, PRE, POST, w) <==> Bracketed(colors, Between(src.arcs, src.ins.Keys, start, stop), w)
    ensures forall e :: e in nfa.arcs - Skeleton(colors) ==> e.from !in {PRE, POST} && e.to !in {PRE, POST} && exists a :: a in src.arcs && Alike(a, e)
    ensures Skeleton(colors) <= nfa.arcs
  {
    hide Agree, StatesAgree, Within, Skeleton, Bracketed, Between, Duplicates, Duplicated, Images, Leaving;
    nfa := NewNfa(colors);
    ghost var c := CrossDup(src, nfa, start, stop, INIT, FINAL);
    NodeWords(src.arcs, src.ins.Keys, colors, start, stop, c);
  }

  ghost predicate Alike(a: Arc, e: Arc) { a.typ == e.typ && a.co == e.co }

  lemma NodeWords(arcs: set<Arc>, keys: set<nat>, colors: seq<nat>, start: nat, stop: nat, c: map<nat, nat>)
    requires start in keys && stop in keys && start != stop
    requires Duplicates(c, keys - {stop}, start, stop, INIT, FINAL, {PRE, POST, INIT, FINAL}) && Duplicated(Leaving(arcs, keys - {stop}), c, start, stop)
    ensures var now := Skeleton(colors) + Images(Leaving(arcs, c.Keys - {stop}), c);
      && (forall w: Word :: Spells(now, PRE, POST, w) <==> Bracketed(colors, Between(arcs, keys, start, stop), w))
      && (forall e :: e in now - Skeleton(colors) ==> e.from !in {PRE, POST} && e.to !in {PRE, POST} && exists a :: a in arcs && Alike(a, e))
  {
    var zone, k := keys - {stop}, c.Keys - {stop};
    var f, fk := Leaving(arcs, zone), Leaving(arcs, k);
    assert Leaving(f, k) == fk;
    var inner := Images(fk, c);
    hide Connected;
    forall e | e in inner ensures e.from !in {PRE, POST} && e.to !in {PRE, POST} && exists a :: a in arcs && Alike(a, e) {
      var a :| a in fk && ArcImg(c, a) == e;
      assert a in Leaving(f, k) && a.from in c && a.to in c;
      assert Alike(a, e);
    }
    R.CopyFaithful(arcs, zone, start, stop, INIT, FINAL, c, {PRE, POST, INIT, FINAL}, fk);
    ImageLang(fk, c, c.Keys, start, stop);
    KeptLang(f, k, start, stop) by {
      assert start in k;
      forall a | a in f && a.from in k ensures a.to in k || forall b :: b in f ==> b.from != a.to { assert a in Leaving(f, k); }
    }
    forall w: Word ensures Spells(Skeleton(colors) + inner, PRE, POST, w) <==> Bracketed(colors, Between(arcs, keys, start, stop), w) {
      FramedWords(colors, inner, w);
    }
  }

  // ---------------------------------------------------------------- the root of the tree

  /** The root spans all there is between init and final: it is strung between them, or, being a single branch, between
      two states that EMPTY arcs tie to them (regcomp.c:665-688, 702-711). */
  ghost predicate Rooted(arcs: set<Arc>, colors: seq<nat>, inner: set<Arc>, begin: nat, end: nat) {
    && arcs == Skeleton(colors) + inner && Inside(inner) && (forall a :: a in inner ==> a.from != FINAL)
    && begin != end
    && if begin == INIT then end == FINAL else Tied(inner, begin, end)
  }

  ghost predicate Tied(inner: set<Arc>, begin: nat, end: nat) {
    && end != INIT && end != FINAL && begin != PRE && begin != POST
    && Arc(EMPTY, 0, INIT, begin) in inner && Arc(EMPTY, 0, end, FINAL) in inner
    && (forall a :: a in inner ==> a.to != INIT && (a.from == INIT ==> a == Arc(EMPTY, 0, INIT, begin)))
    && (forall a :: a in inner && (a.from == end || a.to == FINAL) ==> a == Arc(EMPTY, 0, end, FINAL))
  }

  lemma {:induction false} BeforeEnd(arcs: set<Arc>, keys: set<nat>, inner: set<Arc>, begin: nat, end: nat, q: nat, w: Word, n: nat)
    requires Within(arcs, keys) && inner <= arcs && Tied(inner, begin, end) && (forall a :: a in inner ==> a.from != FINAL)
    requires Reach(inner, begin, q, w, n) && q != FINAL
    ensures Spells(Leaving(arcs, keys - {end}), begin, q, w)
    decreases n
  {
    var f := Leaving(arcs, keys - {end});
    if n == 0 {
      SpellsEmpty(f, begin);
    } else {
      var e, u := Unroll(inner, begin, q, w, n);
      BeforeEnd(arcs, keys, inner, begin, end, e.from, u, n - 1);
      SpellsArc(f, begin, u, e);
    }
  }

  lemma TiedWords(arcs: set<Arc>, keys: set<nat>, colors: seq<nat>, inner: set<Arc>, begin: nat, end: nat, w: Word)
    requires Within(arcs, keys) && Rooted(arcs, colors, inner, begin, end) && begin != INIT
    ensures Spells(inner, INIT, FINAL, w) <==> Spells(Leaving(arcs, keys - {end}), begin, end, w)
  {
    var f, a, b := Leaving(arcs, keys - {end}), Arc(EMPTY, 0, INIT, begin), Arc(EMPTY, 0, end, FINAL);
    if Spells(inner, INIT, FINAL, w) {
      var n: nat :| Reach(inner, INIT, FINAL, w, n);
      var e, u := Unroll(inner, INIT, FINAL, w, n);
      assert e == b && u + [] == w;
      var e2, v := FromPre(inner, INIT, begin, end, u, n - 1);
      assert e2 == a && [] + v == u;
      var m: nat :| Reach(inner, begin, end, v, m);
      BeforeEnd(arcs, keys, inner, begin, end, end, v, m);
      assert v == w;
    }
    if Spells(f, begin, end, w) {
      MoreArcs(f, arcs, begin, end, w);
      var n: nat :| Reach(arcs, begin, end, w, n);
      StaysInside(colors, inner, begin, end, w, n);
      assert Spells(inner, begin, end, w);
      OneArc(inner, a);
      OneArc(inner, b);
      var none: Word := [];
      assert WordOf(a) == none && WordOf(b) == none && none + w == w && w + none == w;
      Joined(inner, INIT, begin, end, none, w);
      Joined(inner, INIT, end, FINAL, w, none);
    }
  }

  lemma RootBetween(arcs: set<Arc>, keys: set<nat>, colors: seq<nat>, inner: set<Arc>, begin: nat, end: nat)
    requires Within(arcs, keys) && Rooted(arcs, colors, inner, begin, end)
    ensures Between(arcs, keys, begin, end) == SpelledBy(inner, INIT, FINAL)
  {
    var f := Leaving(arcs, keys - {end});
    forall w: Word ensures Spells(f, begin, end, w) <==> Spells(inner, INIT, FINAL, w) {
      if begin != INIT {
        TiedWords(arcs, keys, colors, inner, begin, end, w);
      } else {
        assert inner <= f;
        if Spells(inner, INIT, FINAL, w) { MoreArcs(inner, f, INIT, FINAL, w); }
        if Spells(f, INIT, FINAL, w) {
          MoreArcs(f, arcs, INIT, FINAL, w);
          var n: nat :| Reach(arcs, INIT, FINAL, w, n);
          StaysInside(colors, inner, INIT, FINAL, w, n);
        }
      }
    }
  }

  /** The automaton made for the root spells what the parsed one does. */
  lemma RootWords(arcs: set<Arc>, keys: set<nat>, colors: seq<nat>, inner: set<Arc>, begin: nat, end: nat, copy: set<Arc>)
    requires Within(arcs, keys) && Rooted(arcs, colors, inner, begin, end)
    requires forall w: Word :: Spells(copy, PRE, POST, w) <==> Bracketed(colors, Between(arcs, keys, begin, end), w)
    ensures SameWords(arcs, copy, PRE, POST)
  {
    RootBetween(arcs, keys, colors, inner, begin, end);
    forall w: Word ensures Spells(arcs, PRE, POST, w) <==> Spells(copy, PRE, POST, w) { FramedWords(colors, inner, w); }
  }

  /** So it matches the same pieces of every text. */
  lemma RootTexts(arcs: set<Arc>, keys: set<nat>, colors: seq<nat>, inner: set<Arc>, begin: nat, end: nat, copy: set<Arc>)
    requires Within(arcs, keys) && Rooted(arcs, colors, inner, begin, end) && Ended(arcs, PRE, POST) && Ended(copy, PRE, POST)
    requires forall w: Word :: Spells(copy, PRE, POST, w) <==> Bracketed(colors, Between(arcs, keys, begin, end), w)
    ensures forall v: Env, i: nat, k: nat :: v.pre == PRE && v.post == POST ==> (Accepts(arcs, v, i, k) <==> Accepts(copy, v, i, k))
  {
    RootWords(arcs, keys, colors, inner, begin, end, copy);
    WordsTexts(arcs, copy, PRE, POST);
  }
}
