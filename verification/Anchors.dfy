/** The ends of pullback() and pushfwd(), regc_nfa.c:1502-1509 and 1681-1688: the '^' arcs of pre and the '$' arcs
    of post become PLAIN arcs of the colours that stand for the string's begin and end. */
module Anchors {
  import opened Nfa
  import opened Runs

  /** A '^' arc of pre, or a '$' arc of post. */
  predicate IsAnchor(a: Arc, pre: nat, post: nat, back: bool) {
    if back then a.typ == CARET && a.from == pre else a.typ == DOLLAR && a.to == post
  }

  function Plained(a: Arc, pre: nat, post: nat, back: bool, colors: (nat, nat)): Arc {
    if IsAnchor(a, pre, post, back) then Arc(PLAIN, Pick(colors, a.co), a.from, a.to) else a
  }

  ghost function AllPlained(arcs: set<Arc>, pre: nat, post: nat, back: bool, colors: (nat, nat)): set<Arc> {
    set a | a in arcs :: Plained(a, pre, post, back, colors)
  }

  lemma {:induction false} PlainedRuns(arcs: set<Arc>, v: Env, back: bool, p: nat, i: nat, q: nat, k: nat, n: nat)
    requires Run(arcs, v, p, i, q, k, n)
    ensures Goes(AllPlained(arcs, v.pre, v.post, back, if back then v.bos else v.eos), v, p, i, q, k)
    decreases n
  {
    var colors := if back then v.bos else v.eos;
    var b := AllPlained(arcs, v.pre, v.post, back, colors);
    if n == 0 {
      GoesNowhere(b, v, p, i);
    } else {
      var a, j := LastOf(arcs, v, p, i, q, k, n);
      PlainedRuns(arcs, v, back, p, i, a.from, j, n - 1);
      var e := Plained(a, v.pre, v.post, back, colors);
      assert e in b && e.from == a.from && e.to == a.to && Takes(v, e, j, k);
      GoesOn(b, v, p, i, e, j, k);
    }
  }

  lemma {:induction false} UnplainedRuns(arcs: set<Arc>, v: Env, back: bool, p: nat, i: nat, q: nat, k: nat, n: nat)
    requires Run(AllPlained(arcs, v.pre, v.post, back, if back then v.bos else v.eos), v, p, i, q, k, n)
    ensures Goes(arcs, v, p, i, q, k)
    decreases n
  {
    var colors := if back then v.bos else v.eos;
    if n == 0 {
      GoesNowhere(arcs, v, p, i);
    } else {
      var e, j := LastOf(AllPlained(arcs, v.pre, v.post, back, colors), v, p, i, q, k, n);
      UnplainedRuns(arcs, v, back, p, i, e.from, j, n - 1);
      var a :| a in arcs && Plained(a, v.pre, v.post, back, colors) == e;
      assert e.from == a.from && e.to == a.to && Takes(v, a, j, k);
      GoesOn(arcs, v, p, i, a, j, k);
    }
  }

  /** The same pieces of every text are matched. */
  lemma PlainedTexts(arcs: set<Arc>, v: Env, back: bool, i: nat, k: nat)
    ensures Accepts(AllPlained(arcs, v.pre, v.post, back, if back then v.bos else v.eos), v, i, k) <==> Accepts(arcs, v, i, k)
  {
    var b := AllPlained(arcs, v.pre, v.post, back, if back then v.bos else v.eos);
    if Accepts(arcs, v, i, k) {
      var n: nat :| Run(arcs, v, v.pre, i, v.post, k, n);
      PlainedRuns(arcs, v, back, v.pre, i, v.post, k, n);
    }
    if Accepts(b, v, i, k) {
      var n: nat :| Run(b, v, v.pre, i, v.post, k, n);
      UnplainedRuns(arcs, v, back, v.pre, i, v.post, k, n);
    }
  }

  /** The arcs once the first i of the chain have been looked at. */
  ghost predicate PlainedUpto(was: set<Arc>, now: set<Arc>, pre: nat, post: nat, back: bool, colors: (nat, nat), chain: seq<Arc>, i: nat)
    requires i <= |chain|
  {
    forall e :: e in now <==> (e in was && !(IsAnchor(e, pre, post, back) && e in chain[..i])) || IsNew(was, pre, post, back, colors, chain, i, e)
  }

  ghost predicate IsNew(was: set<Arc>, pre: nat, post: nat, back: bool, colors: (nat, nat), chain: seq<Arc>, i: nat, e: Arc)
    requires i <= |chain|
  {
    exists a :: a in chain[..i] && IsAnchor(a, pre, post, back) && e == Plained(a, pre, post, back, colors)
  }

  lemma PlainedNext(was: set<Arc>, now: set<Arc>, pre: nat, post: nat, back: bool, colors: (nat, nat), chain: seq<Arc>, i: nat)
    requires i < |chain| && NoDup(chain) && (forall a :: a in chain ==> a in was) && PlainedUpto(was, now, pre, post, back, colors, chain, i)
    ensures var a := chain[i]; a in now && PlainedUpto(was, if IsAnchor(a, pre, post, back) then now + {Plained(a, pre, post, back, colors)} - {a} else now,
                                                      pre, post, back, colors, chain, i + 1)
  {
    var a := chain[i];
    assert chain[..i + 1] == chain[..i] + [a] && a !in chain[..i] && a in chain;
    var now2 := if IsAnchor(a, pre, post, back) then now + {Plained(a, pre, post, back, colors)} - {a} else now;
    forall e ensures IsNew(was, pre, post, back, colors, chain, i + 1, e) <==>
      IsNew(was, pre, post, back, colors, chain, i, e) || (IsAnchor(a, pre, post, back) && e == Plained(a, pre, post, back, colors))
    {
      if IsNew(was, pre, post, back, colors, chain, i, e) {
        var x :| x in chain[..i] && IsAnchor(x, pre, post, back) && e == Plained(x, pre, post, back, colors);
        assert x in chain[..i + 1];
      }
      if IsAnchor(a, pre, post, back) { assert a in chain[..i + 1]; }
    }
  }

  lemma PlainedDone(was: set<Arc>, now: set<Arc>, pre: nat, post: nat, back: bool, colors: (nat, nat), chain: seq<Arc>)
    requires PlainedUpto(was, now, pre, post, back, colors, chain, |chain|)
    requires forall a :: a in chain <==> a in was && if back then a.from == pre else a.to == post
    ensures now == AllPlained(was, pre, post, back, colors)
  {
    assert chain[..|chain|] == chain;
    forall e ensures e in now <==> e in AllPlained(was, pre, post, back, colors) {
      if e in now && IsNew(was, pre, post, back, colors, chain, |chain|, e) {
        var a :| a in chain[..|chain|] && IsAnchor(a, pre, post, back) && e == Plained(a, pre, post, back, colors);
        assert a in was;
      }
      if e in AllPlained(was, pre, post, back, colors) {
        var a :| a in was && Plained(a, pre, post, back, colors) == e;
        if IsAnchor(a, pre, post, back) {
          assert a in chain[..|chain|];
          assert IsNew(was, pre, post, back, colors, chain, |chain|, e);
        }
      }
    }
  }

  lemma AllPlainedTexts(was: set<Arc>, pre: nat, post: nat, back: bool, colors: (nat, nat))
    ensures var now := AllPlained(was, pre, post, back, colors);
      && (forall a :: a in now ==> !IsAnchor(a, pre, post, back))
      && forall v: Env, i: nat, k: nat :: v.pre == pre && v.post == post && colors == (if back then v.bos else v.eos) ==>
           (Accepts(now, v, i, k) <==> Accepts(was, v, i, k))
  {
    hide Accepts;
    forall v: Env, i: nat, k: nat | v.pre == pre && v.post == post && colors == (if back then v.bos else v.eos)
      ensures Accepts(AllPlained(was, pre, post, back, colors), v, i, k) <==> Accepts(was, v, i, k)
    {
      PlainedTexts(was, v, back, i, k);
    }
  }

  /** The loop over the out-arcs of pre at the end of pullback() (back), or over the in-arcs of post at the end of
      pushfwd(). */
  method PlainAnchors(nfa: Nfa, back: bool, colors: (nat, nat))
    requires nfa.Valid() && nfa.pre in nfa.ins && nfa.post in nfa.ins
    modifies nfa`ins, nfa`outs, nfa`arcs
    ensures nfa.Valid() && nfa.ins.Keys == old(nfa.ins.Keys) && nfa.arcs == AllPlained(old(nfa.arcs), nfa.pre, nfa.post, back, colors)
    ensures forall a :: a in nfa.arcs ==> !IsAnchor(a, nfa.pre, nfa.post, back)
    ensures forall v: Env, i: nat, k: nat :: v.pre == nfa.pre && v.post == nfa.post && colors == (if back then v.bos else v.eos) ==>
      (Accepts(nfa.arcs, v, i, k) <==> Accepts(old(nfa.arcs), v, i, k))
  {
    hide Agree, StatesAgree, Within, PlainedUpto, Accepts;
    ghost var was, keys := nfa.arcs, nfa.ins.Keys;
    var s := if back then nfa.pre else nfa.post;
    var chain := if back then nfa.outs[s] else nfa.ins[s];
    ChainOf(nfa, back, chain);
    var i := 0;
    PlainedNone(was, nfa.pre, nfa.post, back, colors, chain);
    while i < |chain|
      invariant nfa.Valid() && nfa.ins.Keys == keys && 0 <= i <= |chain|
      invariant PlainedUpto(was, nfa.arcs, nfa.pre, nfa.post, back, colors, chain, i)
    {
      var a := chain[i];
      PlainedNext(was, nfa.arcs, nfa.pre, nfa.post, back, colors, chain, i);
      if IsAnchor(a, nfa.pre, nfa.post, back) {
        Ends(nfa.arcs, a, nfa.ins.Keys);
        nfa.LinkUnlessPresent(Arc(PLAIN, Pick(colors, a.co), a.from, a.to));
        nfa.Unlink(a);
      }
      i := i + 1;
    }
    PlainedDone(was, nfa.arcs, nfa.pre, nfa.post, back, colors, chain);
    AllPlainedTexts(was, nfa.pre, nfa.post, back, colors);
  }

  lemma ChainOf(nfa: Nfa, back: bool, chain: seq<Arc>)
    requires nfa.Valid() && nfa.pre in nfa.ins && nfa.post in nfa.ins && chain == if back then nfa.outs[nfa.pre] else nfa.ins[nfa.post]
    ensures NoDup(chain) && forall a :: a in chain <==> a in nfa.arcs && if back then a.from == nfa.pre else a.to == nfa.post
  {
    assert Lists(chain, SideSet(nfa.arcs, if back then nfa.pre else nfa.post, !back));
  }

  lemma PlainedNone(was: set<Arc>, pre: nat, post: nat, back: bool, colors: (nat, nat), chain: seq<Arc>)
    ensures PlainedUpto(was, was, pre, post, back, colors, chain, 0)
  {
  }
}
