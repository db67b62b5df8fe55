/** makesearch(), regcomp.c:551-639: an automaton for ".*?" followed by the original one, in which a
    state tells whether progress has been made since pre. */
module MakeSearch {
  import opened Options
  import opened Nfa
  import opened Runs
  import C = Compact

  // ---------------------------------------------------------------- what the splits amount to

  /** The loops on pre that stand for the implicit prefix. */
  ghost function Looped(arcs: set<Arc>, pre: nat, loops: set<nat>): set<Arc> {
    arcs + (set co | co in loops :: Arc(PLAIN, co, pre, pre))
  }

  /** Where arc a leads once the states of cp have been split: only arcs from pre still reach the
      original (no-progress) half. */
  function Target(a: Arc, pre: nat, cp: map<nat, nat>): nat {
    if a.from != pre && a.to in cp then cp[a.to] else a.to
  }

  /** e is a's image, leaving either half of a's source. */
  ghost predicate Carries(a: Arc, e: Arc, pre: nat, cp: map<nat, nat>) {
    e.typ == a.typ && e.co == a.co && Over(cp, e.from, a.from) && e.to == Target(a, pre, cp)
  }

  /** q is x or the copy of x. */
  ghost predicate Over(cp: map<nat, nat>, q: nat, x: nat) {
    q == x || (x in cp && q == cp[x])
  }

  ghost predicate HasSource(arcs: set<Arc>, e: Arc, pre: nat, cp: map<nat, nat>) {
    exists a :: a in arcs && Carries(a, e, pre, cp)
  }

  ghost predicate IsImage(b: set<Arc>, arcs: set<Arc>, pre: nat, cp: map<nat, nat>) {
    forall e :: e in b <==> HasSource(arcs, e, pre, cp)
  }

  /** Copies are new states, one for each split state; pre is never split. */
  ghost predicate CopiesOk(cp: map<nat, nat>, keys: set<nat>, pre: nat) {
    && (forall s :: s in cp ==> s in keys && s != pre && cp[s] !in keys)
    && (forall s, t :: s in cp && t in cp && s != t ==> cp[s] != cp[t])
  }

  /** Must state s be split? It is entered from pre and from elsewhere. */
  ghost predicate Mixed(arcs: set<Arc>, pre: nat, s: nat) {
    && (exists a :: a in arcs && a.from == pre && a.to == s)
    && (exists a :: a in arcs && a.from != pre && a.to == s)
  }

  /** The state after a split of s into s and s2. */
  ghost function Split(b: set<Arc>, pre: nat, s: nat, s2: nat): set<Arc> {
    var b1 := Copied(b, false, s, s2);
    var m := Entering(b1, pre, s);
    b1 - m + AllRehung(m, true, s2)
  }

  ghost function Entering(b: set<Arc>, pre: nat, s: nat): set<Arc> {
    set e | e in b && e.to == s && e.from != pre
  }

  lemma SplitForward(b: set<Arc>, arcs: set<Arc>, keys: set<nat>, pre: nat, cp: map<nat, nat>, s: nat, s2: nat, e: Arc)
    requires IsImage(b, arcs, pre, cp) && CopiesOk(cp, keys, pre) && Within(arcs, keys) && pre in keys
    requires s in keys && s !in cp && s != pre && s2 !in keys && (forall t :: t in cp ==> cp[t] != s2)
    requires e in Split(b, pre, s, s2)
    ensures HasSource(arcs, e, pre, cp[s := s2])
  {
    var b1 := Copied(b, false, s, s2);
    var e1 := if e in b1 && e !in Entering(b1, pre, s) then e else e.(to := s);
    assert e1 in b1 by {
      if !(e in b1 && e !in Entering(b1, pre, s)) {
        var d :| d in Entering(b1, pre, s) && e == Rehung(d, true, s2);
        assert d.(to := s) == d;
      }
    }
    var e0 := if e1 in b then e1 else e1.(from := s);
    assert e0 in b by {
      if e1 !in b {
        var d :| d in OutSet(b, s) && e1 == Rehung(d, false, s2);
        assert d.(from := s) == d;
      }
    }
    var a :| a in arcs && Carries(a, e0, pre, cp);
    assert Carries(a, e, pre, cp[s := s2]);
  }

  lemma SplitBackward(b: set<Arc>, arcs: set<Arc>, keys: set<nat>, pre: nat, cp: map<nat, nat>, s: nat, s2: nat, e: Arc)
    requires IsImage(b, arcs, pre, cp) && CopiesOk(cp, keys, pre) && Within(arcs, keys) && pre in keys
    requires s in keys && s !in cp && s != pre && s2 !in keys && (forall t :: t in cp ==> cp[t] != s2)
    requires HasSource(arcs, e, pre, cp[s := s2])
    ensures e in Split(b, pre, s, s2)
  {
    var cp2 := cp[s := s2];
    var a :| a in arcs && Carries(a, e, pre, cp2);
    var b1 := Copied(b, false, s, s2);
    var e0 := Arc(e.typ, e.co, if e.from == s2 then s else e.from, Target(a, pre, cp));
    assert Carries(a, e0, pre, cp) && e0 in b;
    var e1 := e0.(from := e.from);
    assert e1 in b1 by {
      if e.from == s2 { assert e0 in OutSet(b, s) && e1 == Rehung(e0, false, s2); }
    }
    if e1 in Entering(b1, pre, s) {
      assert e == Rehung(e1, true, s2);
    } else {
      assert e == e1;
    }
  }

  /** Splitting one more state keeps the image relation. */
  lemma SplitImage(b: set<Arc>, arcs: set<Arc>, keys: set<nat>, pre: nat, cp: map<nat, nat>, s: nat, s2: nat)
    requires IsImage(b, arcs, pre, cp) && CopiesOk(cp, keys, pre) && Within(arcs, keys) && pre in keys
    requires s in keys && s !in cp && s != pre && s2 !in keys && (forall t :: t in cp ==> cp[t] != s2)
    ensures IsImage(Split(b, pre, s, s2), arcs, pre, cp[s := s2]) && CopiesOk(cp[s := s2], keys, pre)
  {
    forall e ensures e in Split(b, pre, s, s2) <==> HasSource(arcs, e, pre, cp[s := s2]) {
      if e in Split(b, pre, s, s2) { SplitForward(b, arcs, keys, pre, cp, s, s2, e); }
      if HasSource(arcs, e, pre, cp[s := s2]) { SplitBackward(b, arcs, keys, pre, cp, s, s2, e); }
    }
  }

  // ---------------------------------------------------------------- runs of the search automaton

  /** A NOPROGRESS state of the search automaton: pre, or a direct successor of pre. */
  ghost predicate Early(b: set<Arc>, pre: nat, q: nat) {
    q == pre || exists e :: e in b && e.from == pre && e.to == q
  }

  /** arcs is an optimized automaton, b what makesearch turns it into. */
  ghost predicate SearchOf(b: set<Arc>, arcs: set<Arc>, keys: set<nat>, pre: nat, post: nat, loops: set<nat>, cp: map<nat, nat>) {
    && IsImage(b, Looped(arcs, pre, loops), pre, cp)
    && CopiesOk(cp, keys, pre) && Within(arcs, keys) && pre in keys && post in keys
    && (forall s :: s in cp <==> Mixed(Looped(arcs, pre, loops), pre, s))
    && Optimized(arcs, pre, post)
  }

  /** The shape optimize() leaves: plain and LACON arcs, nothing into pre, no arc from pre to post,
      and only PLAIN arcs out of pre and into post. */
  ghost predicate Optimized(arcs: set<Arc>, pre: nat, post: nat) {
    && pre != post
    && (forall a :: a in arcs ==> (a.typ == PLAIN || a.typ == LACON) && a.to != pre && a.from != post)
    && (forall a :: a in arcs && a.from == pre ==> a.typ == PLAIN && a.to != post)
    && (forall a :: a in arcs && a.to == post ==> a.typ == PLAIN)
  }

  lemma {:induction false} OnlyStartAtPre(arcs: set<Arc>, v: Env, i: nat, k: nat, n: nat)
    requires forall a :: a in arcs ==> a.to != v.pre
    requires Run(arcs, v, v.pre, i, v.pre, k, n)
    ensures n == 0 && i == k
  {
    if n > 0 { var a, j := LastOf(arcs, v, v.pre, i, v.pre, k, n); }
  }

  /** A run of the original automaton is matched by one of the search automaton, which stands in a
      progress state once it is more than one symbol past pre. */
  lemma {:induction false} Lift(b: set<Arc>, arcs: set<Arc>, keys: set<nat>, v: Env, loops: set<nat>, cp: map<nat, nat>,
                                i: nat, s: nat, x: nat, k: nat, n: nat) returns (q: nat)
    requires SearchOf(b, arcs, keys, v.pre, v.post, loops, cp)
    requires Goes(b, v, v.pre, i, v.pre, s) && Run(arcs, v, v.pre, s, x, k, n)
    ensures Over(cp, q, x) && Goes(b, v, v.pre, i, q, k)
    ensures k > s + 1 || n >= 2 ==> !Early(b, v.pre, q)
    decreases n
  {
    if n == 0 {
      q := x;
    } else {
      var a, j := LastOf(arcs, v, v.pre, s, x, k, n);
      var y := Lift(b, arcs, keys, v, loops, cp, i, s, a.from, j, n - 1);
      q := Target(a, v.pre, cp);
      var e := Arc(a.typ, a.co, y, q);
      assert a in Looped(arcs, v.pre, loops) && Carries(a, e, v.pre, cp);
      GoesOn(b, v, v.pre, i, e, j, k);
      if a.from == v.pre {
        OnlyStartAtPre(arcs, v, s, j, n - 1);
      } else {
        LandsLate(b, arcs, keys, v, loops, cp, a);
      }
    }
  }

  /** An arc that does not leave pre never leads to a no-progress state. */
  lemma LandsLate(b: set<Arc>, arcs: set<Arc>, keys: set<nat>, v: Env, loops: set<nat>, cp: map<nat, nat>, a: Arc)
    requires SearchOf(b, arcs, keys, v.pre, v.post, loops, cp) && a in arcs && a.from != v.pre
    ensures !Early(b, v.pre, Target(a, v.pre, cp))
  {
    var q := Target(a, v.pre, cp);
    var all := Looped(arcs, v.pre, loops);
    assert a in all;
    if e :| e in b && e.from == v.pre && e.to == q {
      var d :| d in all && Carries(d, e, v.pre, cp);
      assert d.from == v.pre && d.to == q;
      assert d in arcs || q == v.pre;
      assert q in keys;
      assert a.to == q && Mixed(all, v.pre, q);
    }
  }

  /** The run has left the first state it came to. */
  ghost predicate GoesOnFrom(arcs: set<Arc>, v: Env, s: nat, x: nat, k: nat) {
    exists n: nat :: n >= 2 && Run(arcs, v, v.pre, s, x, k, n)
  }

  lemma GoesFurther(arcs: set<Arc>, v: Env, s: nat, a: Arc, j: nat, k: nat)
    requires a in arcs && a.from != v.pre && Goes(arcs, v, v.pre, s, a.from, j) && Takes(v, a, j, k)
    ensures GoesOnFrom(arcs, v, s, a.to, k)
  {
    var n: nat :| Run(arcs, v, v.pre, s, a.from, j, n);
    assert n >= 1;
    assert LastStep(arcs, v, v.pre, s, a.to, k, n + 1, a, j);
    assert Run(arcs, v, v.pre, s, a.to, k, n + 1);
  }

  /** Every run of the search automaton that has left pre for good began at some symbol as a run of
      the original one. */
  lemma {:induction false} Lower(b: set<Arc>, arcs: set<Arc>, keys: set<nat>, v: Env, loops: set<nat>, cp: map<nat, nat>,
                                 i: nat, q: nat, k: nat, n: nat) returns (s: nat, x: nat)
    requires SearchOf(b, arcs, keys, v.pre, v.post, loops, cp)
    requires Run(b, v, v.pre, i, q, k, n) && q != v.pre
    ensures i <= s && Over(cp, q, x) && Goes(arcs, v, v.pre, s, x, k)
    ensures !Early(b, v.pre, q) ==> GoesOnFrom(arcs, v, s, x, k)
    decreases n
  {
    var e, j := LastOf(b, v, v.pre, i, q, k, n);
    var a :| a in Looped(arcs, v.pre, loops) && Carries(a, e, v.pre, cp);
    assert a in arcs;
    RunForward(b, v, v.pre, i, e.from, j, n - 1);
    x := a.to;
    if e.from == v.pre {
      s := j;
      assert a.from == v.pre;
      GoesNowhere(arcs, v, v.pre, j);
    } else {
      var y;
      s, y := Lower(b, arcs, keys, v, loops, cp, i, e.from, j, n - 1);
      OriginalsInKeys(arcs, keys, v, s, y, j);
      assert y == a.from;
    }
    GoesOn(arcs, v, v.pre, s, a, j, k);
    if e.from != v.pre { GoesFurther(arcs, v, s, a, j, k); }
  }

  lemma OriginalsInKeys(arcs: set<Arc>, keys: set<nat>, v: Env, s: nat, y: nat, j: nat)
    requires Within(arcs, keys) && v.pre in keys && Goes(arcs, v, v.pre, s, y, j)
    ensures y in keys
  {
    var n: nat :| Run(arcs, v, v.pre, s, y, j, n);
    if n > 0 { var a, i := LastOf(arcs, v, v.pre, s, y, j, n); }
  }

  /** pre can wait for any symbol it has a loop for. */
  lemma {:induction false} Wait(b: set<Arc>, arcs: set<Arc>, keys: set<nat>, v: Env, loops: set<nat>, cp: map<nat, nat>, from: nat, s: nat)
    requires SearchOf(b, arcs, keys, v.pre, v.post, loops, cp) && from <= s
    requires forall i: nat :: from <= i < s ==> v.sym(i) in loops
    ensures Goes(b, v, v.pre, from, v.pre, s)
    decreases s
  {
    if s == from {
      GoesNowhere(b, v, v.pre, from);
    } else {
      Wait(b, arcs, keys, v, loops, cp, from, s - 1);
      var a := Arc(PLAIN, v.sym(s - 1), v.pre, v.pre);
      assert a in Looped(arcs, v.pre, loops) && Carries(a, a, v.pre, cp);
      GoesOn(b, v, v.pre, from, a, s - 1, s);
    }
  }

  /** A match is at least two symbols long: the one before it and the one after it. */
  lemma MatchSpan(arcs: set<Arc>, v: Env, s: nat, k: nat)
    requires Optimized(arcs, v.pre, v.post) && Accepts(arcs, v, s, k)
    ensures k >= s + 2
  {
    var n: nat :| Run(arcs, v, v.pre, s, v.post, k, n);
    var a, j := LastOf(arcs, v, v.pre, s, v.post, k, n);
    RunForward(arcs, v, v.pre, s, a.from, j, n - 1);
    if j == s { LeavesPre(arcs, v, s, a.from, j, n - 1); }
  }

  /** A run that has left pre has consumed a symbol, the first one on an arc out of pre. */
  lemma {:induction false} LeavesPre(arcs: set<Arc>, v: Env, s: nat, x: nat, k: nat, n: nat)
    requires Optimized(arcs, v.pre, v.post) && Run(arcs, v, v.pre, s, x, k, n)
    ensures x != v.pre ==> k > s && exists a :: a in arcs && a.from == v.pre && a.co == v.sym(s)
    decreases n
  {
    if n > 0 {
      var a, j := LastOf(arcs, v, v.pre, s, x, k, n);
      LeavesPre(arcs, v, s, a.from, j, n - 1);
      if a.from == v.pre { OnlyStartAtPre(arcs, v, s, j, n - 1); }
    }
  }

  // ---------------------------------------------------------------- the pass itself

  /** Is some arc of pre free of the begin-of-string colours? (regcomp.c:564-568) */
  method Unanchored(nfa: Nfa, bos: (nat, nat)) returns (r: bool)
    requires nfa.Valid() && nfa.pre in nfa.ins
    ensures r <==> exists a :: a in nfa.arcs && a.from == nfa.pre && a.co != bos.0 && a.co != bos.1
  {
    var chain := nfa.outs[nfa.pre];
    assert Lists(chain, OutSet(nfa.arcs, nfa.pre));
    var i := 0;
    while i < |chain|
      invariant 0 <= i <= |chain|
      invariant forall k :: 0 <= k < i ==> chain[k].co == bos.0 || chain[k].co == bos.1
    {
      if chain[i].co != bos.0 && chain[i].co != bos.1 {
        assert chain[i] in OutSet(nfa.arcs, nfa.pre);
        return true;
      }
      i := i + 1;
    }
    forall a | a in nfa.arcs && a.from == nfa.pre ensures a.co == bos.0 || a.co == bos.1 {
      assert a in OutSet(nfa.arcs, nfa.pre) && a in chain;
    }
    r := false;
  }

  /** Add PLAIN loops on pre for the colours listed (rainbow(), regc_color.c:694-713, on the full colours). */
  method AddLoops(nfa: Nfa, colors: seq<nat>)
    requires nfa.Valid() && nfa.pre in nfa.ins
    modifies nfa`ins, nfa`outs, nfa`arcs
    ensures nfa.Valid() && nfa.ins.Keys == old(nfa.ins).Keys
    ensures nfa.arcs == Looped(old(nfa.arcs), nfa.pre, ColorSet(colors, |colors|))
  {
    ghost var was := nfa.arcs;
    hide Agree, StatesAgree, Within;
    var i := 0;
    while i < |colors|
      invariant 0 <= i <= |colors| && nfa.Valid() && nfa.ins.Keys == old(nfa.ins).Keys
      invariant nfa.arcs == Looped(was, nfa.pre, ColorSet(colors, i))
    {
      nfa.LinkUnlessPresent(Arc(PLAIN, colors[i], nfa.pre, nfa.pre));
      LoopedMore(was, nfa.pre, colors, i);
      i := i + 1;
    }
  }

  lemma LoopedMore(arcs: set<Arc>, pre: nat, colors: seq<nat>, i: nat)
    requires i < |colors|
    ensures Looped(arcs, pre, ColorSet(colors, i + 1)) == Looped(arcs, pre, ColorSet(colors, i)) + {Arc(PLAIN, colors[i], pre, pre)}
  {
    assert colors[..i + 1] == colors[..i] + [colors[i]];
    assert ColorSet(colors, i + 1) == ColorSet(colors, i) + {colors[i]};
  }

  ghost function ColorSet(colors: seq<nat>, i: nat): set<nat>
    requires i <= |colors|
  {
    var l := colors[..i];
    set co | co in l
  }

  /** Does s have an in-arc from a state other than pre? (regcomp.c:601-605) */
  method EnteredElsewhere(nfa: Nfa, s: nat) returns (r: bool)
    requires nfa.Valid() && s in nfa.ins
    ensures r <==> exists a :: a in nfa.arcs && a.from != nfa.pre && a.to == s
  {
    var chain := nfa.ins[s];
    assert Lists(chain, InSet(nfa.arcs, s));
    var i := 0;
    while i < |chain|
      invariant 0 <= i <= |chain|
      invariant forall k :: 0 <= k < i ==> chain[k].from == nfa.pre
    {
      if chain[i].from != nfa.pre {
        assert chain[i] in InSet(nfa.arcs, s);
        return true;
      }
      i := i + 1;
    }
    forall a | a in nfa.arcs && a.to == s ensures a.from == nfa.pre {
      assert a in InSet(nfa.arcs, s) && a in chain;
    }
    r := false;
  }

  /** The tmp pointers once the states of the list have been marked, one after the other: each points
      to the state marked before it, the first one to itself. */
  function Links(list: seq<nat>): map<nat, nat> {
    if list == [] then map[]
    else var last := list[|list| - 1];
      Links(list[..|list| - 1])[last := if |list| > 1 then list[|list| - 2] else last]
  }

  ghost predicate Distinct(list: seq<nat>) {
    forall i, j :: 0 <= i < j < |list| ==> list[i] != list[j]
  }

  lemma {:induction false} LinksKeys(list: seq<nat>)
    ensures forall s :: s in Links(list) <==> s in list
  {
    if list != [] {
      LinksKeys(list[..|list| - 1]);
      assert list == list[..|list| - 1] + [list[|list| - 1]];
    }
  }

  lemma LinksUnfold(list: seq<nat>, s: nat)
    ensures Links(list + [s]) == Links(list)[s := if |list| > 0 then list[|list| - 1] else s]
  {
    var l2 := list + [s];
    assert l2[..|l2| - 1] == list && l2[|l2| - 1] == s;
    if |list| > 0 { assert l2[|l2| - 2] == list[|list| - 1]; }
  }

  lemma LinksGrow(list: seq<nat>, s: nat)
    requires Distinct(list) && s !in Links(list)
    ensures Links(list + [s]) == Links(list)[s := if |list| > 0 then list[|list| - 1] else s]
    ensures Distinct(list + [s])
  {
    LinksKeys(list);
    LinksUnfold(list, s);
    hide Links;
    var l2 := list + [s];
    forall i, j | 0 <= i < j < |l2| ensures l2[i] != l2[j] { assert l2[i] in list; }
  }

  lemma LinksShrink(list: seq<nat>, n: nat)
    requires Distinct(list) && 0 < n <= |list|
    ensures list[n - 1] in Links(list[..n])
    ensures Links(list[..n])[list[n - 1]] == if n > 1 then list[n - 2] else list[n - 1]
    ensures n > 1 ==> list[n - 2] != list[n - 1]
    ensures Links(list[..n]) - {list[n - 1]} == Links(list[..n - 1])
  {
    assert list[..n][..n - 1] == list[..n - 1];
    LinksKeys(list[..n - 1]);
    assert list[n - 1] !in list[..n - 1];
  }

  lemma Heads(nfa: Nfa)
    requires nfa.Valid() && nfa.pre in nfa.ins
    ensures Lists(nfa.outs[nfa.pre], OutSet(nfa.arcs, nfa.pre)) && Within(nfa.arcs, nfa.ins.Keys)
  {
  }

  /** Make a list of the states to split (regcomp.c:594-617). */
  method ListStates(nfa: Nfa) returns (slist: Option<nat>, ghost list: seq<nat>)
    requires nfa.Valid() && nfa.pre in nfa.ins && nfa.tmp == map[]
    modifies nfa`tmp
    ensures nfa.tmp == Links(list) && Distinct(list) && slist == (if |list| > 0 then Some(list[|list| - 1]) else None)
    ensures forall s :: s in list <==> Mixed(nfa.arcs, nfa.pre, s)
  {
    hide Agree, StatesAgree, Within, Mixed, Distinct, Lists, Links, OutSet;
    var chain := nfa.outs[nfa.pre];
    Heads(nfa);
    slist, list := None, [];
    LinksStart();
    var i := 0;
    while i < |chain|
      invariant 0 <= i <= |chain| && nfa.tmp == Links(list) && Distinct(list)
      invariant slist == (if |list| > 0 then Some(list[|list| - 1]) else None)
      invariant forall s :: s in list ==> Mixed(nfa.arcs, nfa.pre, s)
      invariant forall k :: 0 <= k < i && Mixed(nfa.arcs, nfa.pre, chain[k].to) ==> chain[k].to in list
    {
      var s := chain[i].to;
      HeadArc(nfa.arcs, nfa.pre, chain, i, nfa.ins.Keys);
      var mixed := EnteredElsewhere(nfa, s);
      LinksKeys(list);
      if mixed && s !in nfa.tmp {
        LinksGrow(list, s);
        nfa.tmp := nfa.tmp[s := if slist.Some? then slist.value else s];
        slist := Some(s);
        list := list + [s];
      }
      i := i + 1;
    }
    forall s | Mixed(nfa.arcs, nfa.pre, s) ensures s in list {
      MixedListed(nfa.arcs, nfa.pre, chain, s);
    }
  }

  lemma LinksStart()
    ensures Links([]) == map[] && Distinct([])
  {
  }

  lemma HeadArc(arcs: set<Arc>, pre: nat, chain: seq<Arc>, i: nat, keys: set<nat>)
    requires Lists(chain, OutSet(arcs, pre)) && i < |chain| && Within(arcs, keys)
    ensures chain[i].to in keys
    ensures Mixed(arcs, pre, chain[i].to) <==> exists a :: a in arcs && a.from != pre && a.to == chain[i].to
  {
    assert chain[i] in OutSet(arcs, pre);
  }

  lemma MixedListed(arcs: set<Arc>, pre: nat, chain: seq<Arc>, s: nat)
    requires Lists(chain, OutSet(arcs, pre)) && Mixed(arcs, pre, s)
    ensures exists k :: 0 <= k < |chain| && chain[k].to == s
  {
    var a :| a in arcs && a.from == pre && a.to == s;
    assert a in OutSet(arcs, pre) && a in chain;
  }

  /** Give s's in-arcs from elsewhere than pre to its copy (regcomp.c:628-635). */
  method MoveEntering(nfa: Nfa, s: nat, s2: nat)
    requires nfa.Valid() && s in nfa.ins && s2 in nfa.ins && s != s2
    modifies nfa`ins, nfa`outs, nfa`arcs
    ensures nfa.Valid() && nfa.ins.Keys == old(nfa.ins).Keys
    ensures nfa.arcs == old(nfa.arcs) - Entering(old(nfa.arcs), nfa.pre, s) + AllRehung(Entering(old(nfa.arcs), nfa.pre, s), true, s2)
  {
    ghost var was := nfa.arcs;
    var chain := nfa.ins[s];
    assert Lists(chain, InSet(was, s));
    EnteringStart(was, nfa.pre, s2, chain);
    hide Agree, StatesAgree, Within, Lists, Handed;
    var i := 0;
    while i < |chain|
      invariant 0 <= i <= |chain| && nfa.Valid() && nfa.ins.Keys == old(nfa.ins).Keys
      invariant nfa.arcs == Handed(was, nfa.pre, s2, chain, i)
    {
      var a := chain[i];
      EnteringNext(was, nfa.pre, s, s2, chain, i, nfa.ins.Keys);
      if a.from != nfa.pre {
        HandOver(nfa, a, s2);
      }
      i := i + 1;
    }
    EnteringDone(was, nfa.pre, s, s2, chain);
  }

  /** cparc() then freearc() (regcomp.c:632-633). */
  method HandOver(nfa: Nfa, a: Arc, s2: nat)
    requires nfa.Valid() && a in nfa.arcs && s2 in nfa.ins && s2 != a.to
    modifies nfa`ins, nfa`outs, nfa`arcs
    ensures nfa.Valid() && nfa.ins.Keys == old(nfa.ins).Keys
    ensures nfa.arcs == old(nfa.arcs) - {a} + {a.(to := s2)}
  {
    hide Agree, StatesAgree;
    nfa.LinkUnlessPresent(a.(to := s2));
    nfa.Unlink(a);
  }

  /** The arcs once the first i in-arcs of the chain have been looked at. */
  ghost function Handed(arcs: set<Arc>, pre: nat, s2: nat, chain: seq<Arc>, i: nat): set<Arc>
    requires i <= |chain|
  {
    var done := set a | a in chain[..i] && a.from != pre;
    arcs - done + AllRehung(done, true, s2)
  }

  lemma EnteringStart(arcs: set<Arc>, pre: nat, s2: nat, chain: seq<Arc>)
    ensures Handed(arcs, pre, s2, chain, 0) == arcs
  {
  }

  lemma EnteringNext(arcs: set<Arc>, pre: nat, s: nat, s2: nat, chain: seq<Arc>, i: nat, keys: set<nat>)
    requires Lists(chain, InSet(arcs, s)) && i < |chain| && s != s2
    ensures chain[i].to == s && chain[i] in Handed(arcs, pre, s2, chain, i)
    ensures Handed(arcs, pre, s2, chain, i + 1) ==
      if chain[i].from != pre then Handed(arcs, pre, s2, chain, i) - {chain[i]} + {chain[i].(to := s2)}
      else Handed(arcs, pre, s2, chain, i)
  {
    assert forall k :: 0 <= k < |chain| ==> chain[k] in InSet(arcs, s);
    assert chain[..i + 1] == chain[..i] + [chain[i]];
    var done := set a | a in chain[..i] && a.from != pre;
    var done2 := set a | a in chain[..i + 1] && a.from != pre;
    assert chain[i] !in done;
    if chain[i].from != pre {
      assert done2 == done + {chain[i]};
      RehungGrows(done, true, s2, chain[i]);
    } else {
      assert done2 == done;
    }
    assert forall b :: b in AllRehung(done, true, s2) ==> b.to == s2;
  }

  lemma EnteringDone(arcs: set<Arc>, pre: nat, s: nat, s2: nat, chain: seq<Arc>)
    requires Lists(chain, InSet(arcs, s))
    ensures Handed(arcs, pre, s2, chain, |chain|)
         == arcs - Entering(arcs, pre, s) + AllRehung(Entering(arcs, pre, s), true, s2)
  {
    assert chain[..|chain|] == chain;
    forall a ensures a in chain && a.from != pre <==> a in Entering(arcs, pre, s) {
      assert a in InSet(arcs, s) <==> a in chain;
    }
    assert (set a | a in chain[..|chain|] && a.from != pre) == Entering(arcs, pre, s);
  }

  /** Split one state (regcomp.c:624-635). */
  method SplitOne(nfa: Nfa, s: nat) returns (s2: nat)
    requires nfa.Valid() && s in nfa.ins
    modifies nfa`states, nfa`nstates, nfa`ins, nfa`outs, nfa`arcs
    ensures nfa.Valid() && s2 == old(nfa.nstates) && nfa.nstates == s2 + 1 && s2 !in old(nfa.ins)
    ensures nfa.states == old(nfa.states) + [s2] && nfa.ins.Keys == old(nfa.ins.Keys) + {s2}
    ensures nfa.arcs == Split(old(nfa.arcs), nfa.pre, s, s2)
  {
    hide Agree, StatesAgree, Within, Copied, Entering, AllRehung;
    s2 := nfa.NewState();
    nfa.CopyOuts(s, s2);
    MoveEntering(nfa, s, s2);
  }

  /** Where the splits stand: the states of the list from index n on have been split. */
  ghost predicate SplitsAt(b: set<Arc>, looped: set<Arc>, keys: set<nat>, pre: nat, cp: map<nat, nat>, list: seq<nat>, n: nat) {
    && n <= |list|
    && IsImage(b, looped, pre, cp) && CopiesOk(cp, keys, pre) && Within(looped, keys) && pre in keys
    && (forall s :: s in cp <==> exists i :: n <= i < |list| && list[i] == s)
    && (forall i :: 0 <= i < |list| ==> list[i] in keys && list[i] != pre)
  }

  lemma SplitsStart(looped: set<Arc>, keys: set<nat>, pre: nat, list: seq<nat>)
    requires Within(looped, keys) && pre in keys
    requires forall s :: s in list ==> Mixed(looped, pre, s)
    requires forall a :: a in looped && a.to == pre ==> a.from == pre
    ensures SplitsAt(looped, looped, keys, pre, map[], list, |list|)
  {
    forall e ensures e in looped <==> HasSource(looped, e, pre, map[]) {
      if e in looped { assert Carries(e, e, pre, map[]); }
    }
    forall i | 0 <= i < |list| ensures list[i] in keys && list[i] != pre {
      assert list[i] in list && Mixed(looped, pre, list[i]);
    }
  }

  lemma SplitsNext(b: set<Arc>, looped: set<Arc>, keys: set<nat>, pre: nat, cp: map<nat, nat>, list: seq<nat>, n: nat, s2: nat)
    requires SplitsAt(b, looped, keys, pre, cp, list, n) && n > 0
    requires Distinct(list)
    requires s2 !in keys && forall t :: t in cp ==> cp[t] != s2
    ensures SplitsAt(Split(b, pre, list[n - 1], s2), looped, keys, pre, cp[list[n - 1] := s2], list, n - 1)
  {
    var s := list[n - 1];
    assert s !in cp;
    SplitImage(b, looped, keys, pre, cp, s, s2);
    var cp2 := cp[s := s2];
    hide IsImage, CopiesOk, Split;
    forall t ensures t in cp2 <==> exists i :: n - 1 <= i < |list| && list[i] == t {
      if t in cp2 && t != s { var i :| n <= i < |list| && list[i] == t; }
    }
  }

  /** New states are numbered from base on; the copies in cp are among them. */
  ghost predicate Numbered(now: set<nat>, keys: set<nat>, base: nat, nstates: nat, cp: map<nat, nat>) {
    && base <= nstates
    && (forall t :: t in now <==> t in keys || base <= t < nstates)
    && (forall t :: t in keys ==> t < base)
    && (forall t :: t in cp ==> base <= cp[t] < nstates)
  }

  lemma NumberedStart(nfa: Nfa)
    requires nfa.Valid()
    ensures Numbered(nfa.ins.Keys, nfa.ins.Keys, nfa.nstates, nfa.nstates, map[])
  {
  }

  lemma NumberedNext(now: set<nat>, keys: set<nat>, base: nat, nstates: nat, cp: map<nat, nat>, s: nat)
    requires Numbered(now, keys, base, nstates, cp)
    ensures Numbered(now + {nstates}, keys, base, nstates + 1, cp[s := nstates])
    ensures nstates !in keys && forall t :: t in cp ==> cp[t] != nstates
    ensures forall t :: t in keys ==> t in now
  {
  }

  /** Split the newest state of the list (regcomp.c:619-637), clearing its tmp pointer on the way. */
  method SplitNext(nfa: Nfa, cur: nat, ghost looped: set<Arc>, ghost keys: set<nat>, ghost base: nat,
                   ghost cp: map<nat, nat>, ghost list: seq<nat>, ghost n: nat) returns (next: Option<nat>, ghost cp2: map<nat, nat>)
    requires nfa.Valid() && Distinct(list) && 0 < n <= |list| && cur == list[n - 1] && nfa.tmp == Links(list[..n])
    requires SplitsAt(nfa.arcs, looped, keys, nfa.pre, cp, list, n)
    requires Numbered(nfa.ins.Keys, keys, base, nfa.nstates, cp)
    modifies nfa`states, nfa`nstates, nfa`ins, nfa`outs, nfa`arcs, nfa`tmp
    ensures nfa.Valid() && nfa.tmp == Links(list[..n - 1])
    ensures next == if n > 1 then Some(list[n - 2]) else None
    ensures SplitsAt(nfa.arcs, looped, keys, nfa.pre, cp2, list, n - 1)
    ensures Numbered(nfa.ins.Keys, keys, base, nfa.nstates, cp2)
    ensures nfa.nstates - |nfa.states| == old(nfa.nstates - |nfa.states|)
  {
    hide SplitsAt, Distinct, Links, Split, Agree, StatesAgree, Within, Numbered;
    LinksShrink(list, n);
    SplitsHead(nfa.arcs, looped, keys, nfa.pre, cp, list, n);
    NumberedNext(nfa.ins.Keys, keys, base, nfa.nstates, cp, cur);
    SplitsNext(nfa.arcs, looped, keys, nfa.pre, cp, list, n, nfa.nstates);
    var s2 := SplitOne(nfa, cur);
    cp2 := cp[cur := s2];
    var link := nfa.tmp[cur];
    nfa.tmp := nfa.tmp - {cur};
    next := if link != cur then Some(link) else None;
  }

  /** Do the splits (regcomp.c:619-638). */
  method DoSplits(nfa: Nfa, slist: Option<nat>, ghost list: seq<nat>) returns (ghost cp: map<nat, nat>)
    requires nfa.Valid() && nfa.tmp == Links(list) && Distinct(list)
    requires slist == (if |list| > 0 then Some(list[|list| - 1]) else None)
    requires SplitsAt(nfa.arcs, nfa.arcs, nfa.ins.Keys, nfa.pre, map[], list, |list|)
    modifies nfa`states, nfa`nstates, nfa`ins, nfa`outs, nfa`arcs, nfa`tmp
    ensures nfa.Valid() && nfa.tmp == map[]
    ensures SplitsAt(nfa.arcs, old(nfa.arcs), old(nfa.ins.Keys), nfa.pre, cp, list, 0)
    ensures Numbered(nfa.ins.Keys, old(nfa.ins.Keys), old(nfa.nstates), nfa.nstates, cp)
    ensures nfa.nstates - |nfa.states| == old(nfa.nstates - |nfa.states|)
  {
    hide SplitsAt, Distinct, Links, Split, Agree, StatesAgree, Within, Numbered;
    ghost var looped := nfa.arcs;
    ghost var keys := nfa.ins.Keys;
    ghost var base := nfa.nstates;
    NumberedStart(nfa);
    assert list[..|list|] == list;
    cp := map[];
    ghost var n: nat := |list|;
    var s := slist;
    while s.Some?
      invariant nfa.Valid() && n <= |list| && s == (if n > 0 then Some(list[n - 1]) else None)
      invariant nfa.tmp == Links(list[..n])
      invariant nfa.nstates - |nfa.states| == old(nfa.nstates - |nfa.states|)
      invariant Numbered(nfa.ins.Keys, keys, base, nfa.nstates, cp)
      invariant SplitsAt(nfa.arcs, looped, keys, nfa.pre, cp, list, n)
      decreases n
    {
      s, cp := SplitNext(nfa, s.value, looped, keys, base, cp, list, n);
      n := n - 1;
    }
    LinksStart();
    assert list[..0] == [];
  }

  lemma SplitsHead(b: set<Arc>, looped: set<Arc>, keys: set<nat>, pre: nat, cp: map<nat, nat>, list: seq<nat>, n: nat)
    requires SplitsAt(b, looped, keys, pre, cp, list, n) && 0 < n <= |list|
    ensures list[n - 1] in keys
  {
  }

  /** The search automaton can be compacted just as the original one can. */
  lemma SearchFramed(b: set<Arc>, arcs: set<Arc>, keys: set<nat>, pre: nat, post: nat, loops: set<nat>, cp: map<nat, nat>)
    requires SearchOf(b, arcs, keys, pre, post, loops, cp)
    ensures C.Framed(b, pre, post)
    ensures forall e :: e in b ==> e.typ == PLAIN || e.typ == LACON
    ensures forall e :: e in b && e.typ == PLAIN ==> e.co in loops || exists a :: a in arcs && a.typ == PLAIN && a.co == e.co
  {
    forall e | e in b
      ensures e.typ == PLAIN || e.typ == LACON
      ensures e.from == pre ==> e.typ == PLAIN && e.to != post
      ensures e.to == post ==> e.typ == PLAIN
      ensures e.typ == PLAIN ==> e.co in loops || exists a :: a in arcs && a.typ == PLAIN && a.co == e.co
    {
      var a :| a in Looped(arcs, pre, loops) && Carries(a, e, pre, cp);
    }
  }

  /** Add the implicit prefix, unless every arc of pre is a begin-of-string arc (regcomp.c:560-583). */
  method AddPrefix(nfa: Nfa, rainbow: seq<nat>, bos: (nat, nat)) returns (ghost loops: set<nat>)
    requires nfa.Valid() && nfa.pre in nfa.ins
    modifies nfa`ins, nfa`outs, nfa`arcs
    ensures nfa.Valid() && nfa.ins.Keys == old(nfa.ins.Keys)
    ensures nfa.arcs == Looped(old(nfa.arcs), nfa.pre, loops)
    ensures loops == if Anchored(old(nfa.arcs), nfa.pre, bos) then {} else Rainbow(rainbow, bos)
  {
    hide Agree, StatesAgree, Within, Looped, Rainbow, ColorSet;
    loops := {};
    LoopedNone(nfa.arcs, nfa.pre);
    var unanchored := Unanchored(nfa, bos);
    if unanchored {
      var colors := rainbow + [bos.0, bos.1];
      AddLoops(nfa, colors);
      loops := ColorSet(colors, |colors|);
      RainbowSet(rainbow, bos);
    }
  }

  /** Split every state that is entered both from pre and from elsewhere (regcomp.c:585-638). */
  method SplitMixed(nfa: Nfa) returns (ghost cp: map<nat, nat>)
    requires nfa.Valid() && nfa.tmp == map[] && nfa.pre in nfa.ins
    requires forall a :: a in nfa.arcs && a.to == nfa.pre ==> a.from == nfa.pre
    modifies nfa`states, nfa`nstates, nfa`ins, nfa`outs, nfa`arcs, nfa`tmp
    ensures nfa.Valid() && nfa.tmp == map[]
    ensures IsImage(nfa.arcs, old(nfa.arcs), nfa.pre, cp) && CopiesOk(cp, old(nfa.ins.Keys), nfa.pre)
    ensures forall s :: s in cp <==> Mixed(old(nfa.arcs), nfa.pre, s)
    ensures Numbered(nfa.ins.Keys, old(nfa.ins.Keys), old(nfa.nstates), nfa.nstates, cp)
    ensures nfa.nstates - |nfa.states| == old(nfa.nstates - |nfa.states|)
  {
    ghost var looped, keys := nfa.arcs, nfa.ins.Keys;
    StaysWithin(nfa);
    hide Agree, StatesAgree, Within, IsImage, CopiesOk, Mixed, Distinct, Links, SplitsAt, Numbered;
    var slist;
    ghost var list;
    slist, list := ListStates(nfa);
    SplitsStart(looped, keys, nfa.pre, list);
    cp := DoSplits(nfa, slist, list);
    SplitsFinish(nfa.arcs, looped, keys, nfa.pre, cp, list);
  }

  /** makesearch(). The loops added on pre are those of every colour given and of the begin-of-string
      colours, unless all the arcs of pre are begin-of-string arcs. */
  method MakeSearch(nfa: Nfa, rainbow: seq<nat>, bos: (nat, nat)) returns (ghost loops: set<nat>, ghost cp: map<nat, nat>)
    requires nfa.Valid() && C.Dense(nfa) && nfa.tmp == map[] && nfa.pre in nfa.ins && nfa.post in nfa.ins
    requires Optimized(nfa.arcs, nfa.pre, nfa.post)
    modifies nfa`states, nfa`nstates, nfa`ins, nfa`outs, nfa`arcs, nfa`tmp
    ensures nfa.Valid() && C.Dense(nfa) && nfa.tmp == map[] && nfa.pre in nfa.ins && nfa.post in nfa.ins
    ensures SearchOf(nfa.arcs, old(nfa.arcs), old(nfa.ins.Keys), nfa.pre, nfa.post, loops, cp)
    ensures loops == if Anchored(old(nfa.arcs), nfa.pre, bos) then {} else Rainbow(rainbow, bos)
  {
    hide Agree, StatesAgree, Within, IsImage, CopiesOk, Optimized, Mixed, Distinct, Links, Looped, Anchored, Rainbow, SplitsAt, Numbered;
    ghost var was, keys := nfa.arcs, nfa.ins.Keys;
    assert Within(was, keys) by { hide Agree, StatesAgree; }
    loops := AddPrefix(nfa, rainbow, bos);
    LoopedPre(was, nfa.pre, nfa.post, loops);
    cp := SplitMixed(nfa);
    StaysDense(nfa.ins.Keys, keys, old(nfa.nstates), nfa.nstates, cp);
  }

  lemma StaysWithin(nfa: Nfa)
    requires nfa.Valid()
    ensures Within(nfa.arcs, nfa.ins.Keys)
  {
  }

  ghost predicate Anchored(arcs: set<Arc>, pre: nat, bos: (nat, nat)) {
    forall a :: a in arcs && a.from == pre ==> a.co == bos.0 || a.co == bos.1
  }

  ghost function Rainbow(colors: seq<nat>, bos: (nat, nat)): set<nat> {
    (set co | co in colors) + {bos.0, bos.1}
  }

  lemma LoopedNone(arcs: set<Arc>, pre: nat)
    ensures Looped(arcs, pre, {}) == arcs
  {
  }

  lemma RainbowSet(rainbow: seq<nat>, bos: (nat, nat))
    ensures var colors := rainbow + [bos.0, bos.1]; ColorSet(colors, |colors|) == Rainbow(rainbow, bos)
  {
    var colors := rainbow + [bos.0, bos.1];
    assert colors[..|colors|] == colors;
  }

  lemma LoopedPre(arcs: set<Arc>, pre: nat, post: nat, loops: set<nat>)
    requires Optimized(arcs, pre, post)
    ensures forall a :: a in Looped(arcs, pre, loops) && a.to == pre ==> a.from == pre
  {
  }

  lemma SplitsFinish(b: set<Arc>, looped: set<Arc>, keys: set<nat>, pre: nat, cp: map<nat, nat>, list: seq<nat>)
    requires SplitsAt(b, looped, keys, pre, cp, list, 0)
    ensures IsImage(b, looped, pre, cp) && CopiesOk(cp, keys, pre) && forall s :: s in cp <==> s in list
  {
  }

  lemma StaysDense(now: set<nat>, keys: set<nat>, base: nat, nstates: nat, cp: map<nat, nat>)
    requires Numbered(now, keys, base, nstates, cp) && forall s :: s in keys <==> 0 <= s < base
    ensures forall s :: s in now <==> 0 <= s < nstates
    ensures keys <= now
  {
  }
}
