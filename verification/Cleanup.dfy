/** cleanup() and analyze(), regc_nfa.c:2684-2799: what no path from pre to post uses goes, and the states left
    are numbered without gaps. */
module Cleanup {
  import opened Options
  import opened Nfa
  import opened Runs
  import opened Words
  import opened SubNfa
  import K = Compact
  import L = ConstraintLoops

  /** Some path from pre to post passes x. */
  ghost predicate Useful(arcs: set<Arc>, pre: nat, post: nat, x: nat) {
    Connected(arcs, pre, x) && Connected(arcs, x, post)
  }

  // ---------------------------------------------------------------- markreachable() and markcanreach()

  /** Only states with this mark are considered; None stands for a tmp pointer that is NULL. */
  predicate Open(tmp: map<nat, nat>, x: nat, okay: Option<nat>) {
    if okay.None? then x !in tmp else x in tmp && tmp[x] == okay.value
  }

  ghost function OpenOnes(keys: set<nat>, tmp: map<nat, nat>, okay: Option<nat>): set<nat> {
    set x | x in keys && Open(tmp, x, okay)
  }

  /** A path leads from p to q, or for inward from q to p. */
  ghost predicate Leads(arcs: set<Arc>, p: nat, q: nat, inward: bool) {
    if inward then Connected(arcs, q, p) else Connected(arcs, p, q)
  }

  ghost predicate Visited(tmp: map<nat, nat>, tmp2: map<nat, nat>, okay: Option<nat>, x: nat) {
    Open(tmp, x, okay) && !Open(tmp2, x, okay)
  }

  /** The states visited have the mark, all others are as they were. */
  ghost predicate Touched(tmp: map<nat, nat>, tmp2: map<nat, nat>, okay: Option<nat>, mark: nat) {
    forall x :: if Visited(tmp, tmp2, okay, x) then x in tmp2 && tmp2[x] == mark
      else (x in tmp2 <==> x in tmp) && (x in tmp ==> tmp2[x] == tmp[x])
  }

  /** No arc leads on from a state visited, but for that of work, to one that is still to be visited. */
  ghost predicate Closed(arcs: set<Arc>, tmp: map<nat, nat>, tmp2: map<nat, nat>, okay: Option<nat>, inward: bool, work: Option<nat>) {
    forall a :: a in arcs && Visited(tmp, tmp2, okay, End(a, inward)) && work != Some(End(a, inward)) ==> !Open(tmp2, End(a, !inward), okay)
  }

  /** The marks after a call for s. */
  ghost predicate Marked(arcs: set<Arc>, tmp: map<nat, nat>, tmp2: map<nat, nat>, okay: Option<nat>, mark: nat, s: nat, inward: bool) {
    && Touched(tmp, tmp2, okay, mark) && Closed(arcs, tmp, tmp2, okay, inward, None) && !Open(tmp2, s, okay)
    && forall x :: Visited(tmp, tmp2, okay, x) ==> Leads(arcs, s, x, inward)
  }

  /** The marks when i arcs of s have been followed. */
  ghost predicate Marking(arcs: set<Arc>, tmp: map<nat, nat>, tmp2: map<nat, nat>, okay: Option<nat>, mark: nat, s: nat, inward: bool,
                          chain: seq<Arc>, i: nat)
    requires i <= |chain|
  {
    && Touched(tmp, tmp2, okay, mark) && Closed(arcs, tmp, tmp2, okay, inward, Some(s)) && Visited(tmp, tmp2, okay, s)
    && (forall x :: Visited(tmp, tmp2, okay, x) ==> Leads(arcs, s, x, inward))
    && forall j :: 0 <= j < i ==> !Open(tmp2, End(chain[j], !inward), okay)
  }

  lemma MarkingStart(arcs: set<Arc>, tmp: map<nat, nat>, okay: Option<nat>, mark: nat, s: nat, inward: bool, chain: seq<Arc>)
    requires Open(tmp, s, okay) && okay != Some(mark)
    ensures Marking(arcs, tmp, tmp[s := mark], okay, mark, s, inward, chain, 0)
  {
    ConnectedSelf(arcs, s);
  }

  lemma LeadsOn(arcs: set<Arc>, a: Arc, x: nat, inward: bool)
    requires a in arcs && Leads(arcs, End(a, !inward), x, inward)
    ensures Leads(arcs, End(a, inward), x, inward)
  {
    ConnectedSelf(arcs, a.from);
    ConnectedArc(arcs, a.from, a);
    if inward { ConnectedTrans(arcs, x, a.from, a.to); } else { ConnectedTrans(arcs, a.from, a.to, x); }
  }

  lemma MarkingNext(arcs: set<Arc>, tmp: map<nat, nat>, tmp2: map<nat, nat>, tmp3: map<nat, nat>, okay: Option<nat>, mark: nat, s: nat,
                    inward: bool, chain: seq<Arc>, i: nat)
    requires i < |chain| && chain[i] in arcs && End(chain[i], inward) == s
    requires Marking(arcs, tmp, tmp2, okay, mark, s, inward, chain, i)
    requires Marked(arcs, tmp2, tmp3, okay, mark, End(chain[i], !inward), inward)
    ensures Marking(arcs, tmp, tmp3, okay, mark, s, inward, chain, i + 1)
  {
    hide Leads;
    forall x | Visited(tmp, tmp3, okay, x) ensures Leads(arcs, s, x, inward) {
      if Visited(tmp2, tmp3, okay, x) { LeadsOn(arcs, chain[i], x, inward); }
    }
  }

  lemma MarkingDone(m: map<nat, seq<Arc>>, arcs: set<Arc>, tmp: map<nat, nat>, tmp2: map<nat, nat>, okay: Option<nat>, mark: nat, s: nat, inward: bool)
    requires Agree(m, arcs, inward) && s in m && Marking(arcs, tmp, tmp2, okay, mark, s, inward, m[s], |m[s]|)
    ensures Marked(arcs, tmp, tmp2, okay, mark, s, inward)
  {
    hide Leads, Agree;
    forall a | a in arcs && Visited(tmp, tmp2, okay, End(a, inward)) ensures !Open(tmp2, End(a, !inward), okay) {
      if End(a, inward) == s { ChainMember(m, arcs, inward, a); }
    }
  }

  lemma FewerOpen(keys: set<nat>, arcs: set<Arc>, tmp: map<nat, nat>, tmp2: map<nat, nat>, okay: Option<nat>, mark: nat, s: nat, inward: bool,
                  chain: seq<Arc>, i: nat)
    requires i <= |chain| && s in keys && Marking(arcs, tmp, tmp2, okay, mark, s, inward, chain, i) && okay != Some(mark)
    ensures OpenOnes(keys, tmp2, okay) < OpenOnes(keys, tmp, okay)
  {
    hide Leads;
    assert s in OpenOnes(keys, tmp, okay) && s !in OpenOnes(keys, tmp2, okay);
  }

  lemma NothingMarked(arcs: set<Arc>, tmp: map<nat, nat>, okay: Option<nat>, mark: nat, s: nat, inward: bool)
    requires !Open(tmp, s, okay)
    ensures Marked(arcs, tmp, tmp, okay, mark, s, inward)
  {
  }

  lemma ChainFact(m: map<nat, seq<Arc>>, arcs: set<Arc>, inward: bool, s: nat, i: nat)
    requires Agree(m, arcs, inward) && s in m && i < |m[s]|
    ensures m[s][i] in arcs && End(m[s][i], inward) == s
  {
    assert m[s][i] in m[s];
  }

  /** markreachable(), regc_nfa.c:2729-2747, along the out-arcs, or for inward markcanreach(), regc_nfa.c:2753-2771. */
  method Mark(nfa: Nfa, s: nat, okay: Option<nat>, mark: nat, inward: bool)
    requires nfa.Valid() && s in nfa.ins && okay != Some(mark)
    modifies nfa`tmp
    ensures Marked(nfa.arcs, old(nfa.tmp), nfa.tmp, okay, mark, s, inward)
    decreases OpenOnes(nfa.ins.Keys, nfa.tmp, okay)
  {
    hide Agree, StatesAgree, Marked, Marking;
    ghost var tmp0 := nfa.tmp;
    if !Open(nfa.tmp, s, okay) {
      NothingMarked(nfa.arcs, tmp0, okay, mark, s, inward);
      return;
    }
    var chain := if inward then nfa.ins[s] else nfa.outs[s];
    MarkingStart(nfa.arcs, tmp0, okay, mark, s, inward, chain);
    nfa.tmp := nfa.tmp[s := mark];
    var i := 0;
    while i < |chain|
      invariant i <= |chain| && Marking(nfa.arcs, tmp0, nfa.tmp, okay, mark, s, inward, chain, i)
    {
      ghost var tmp1 := nfa.tmp;
      var a := chain[i];
      ChainFact(if inward then nfa.ins else nfa.outs, nfa.arcs, inward, s, i);
      Ends(nfa.arcs, a, nfa.ins.Keys);
      FewerOpen(nfa.ins.Keys, nfa.arcs, tmp0, tmp1, okay, mark, s, inward, chain, i);
      Mark(nfa, if inward then a.from else a.to, okay, mark, inward);
      MarkingNext(nfa.arcs, tmp0, tmp1, nfa.tmp, okay, mark, s, inward, chain, i);
      i := i + 1;
    }
    MarkingDone(if inward then nfa.ins else nfa.outs, nfa.arcs, tmp0, nfa.tmp, okay, mark, s, inward);
  }

  // ---------------------------------------------------------------- what the marks mean

  lemma {:induction false} ReachedMarked(arcs: set<Arc>, tmp: map<nat, nat>, pre: nat, q: nat, w: seq<Label>, n: nat)
    requires Marked(arcs, map[], tmp, None, pre, pre, false) && Reach(arcs, pre, q, w, n)
    ensures q in tmp
    decreases n
  {
    if n > 0 {
      var e, u := Unroll(arcs, pre, q, w, n);
      ReachedMarked(arcs, tmp, pre, e.from, u, n - 1);
      assert Visited(map[], tmp, None, End(e, false));
    }
  }

  /** After the first marking exactly what can be reached from pre has its mark. */
  lemma MarkedReachable(arcs: set<Arc>, tmp: map<nat, nat>, pre: nat)
    requires Marked(arcs, map[], tmp, None, pre, pre, false)
    ensures forall x :: x in tmp <==> Connected(arcs, pre, x)
    ensures forall x :: x in tmp ==> tmp[x] == pre
  {
    forall x ensures x in tmp <==> Connected(arcs, pre, x) {
      if x in tmp { assert Visited(map[], tmp, None, x); }
      if Connected(arcs, pre, x) {
        var w :| Spells(arcs, pre, x, w);
        var n: nat :| Reach(arcs, pre, x, w, n);
        ReachedMarked(arcs, tmp, pre, x, w, n);
      }
    }
    forall x | x in tmp ensures tmp[x] == pre { assert Visited(map[], tmp, None, x); }
  }

  lemma {:induction false} ReachingMarked(arcs: set<Arc>, tmp: map<nat, nat>, tmp2: map<nat, nat>, pre: nat, post: nat, x: nat, q: nat,
                                          w: seq<Label>, n: nat)
    requires pre != post && (forall y :: y in tmp <==> Connected(arcs, pre, y)) && (forall y :: y in tmp ==> tmp[y] == pre)
    requires Marked(arcs, tmp, tmp2, Some(pre), post, post, true)
    requires x in tmp && Reach(arcs, x, q, w, n) && Visited(tmp, tmp2, Some(pre), q)
    ensures Visited(tmp, tmp2, Some(pre), x)
    decreases n
  {
    if n > 0 {
      var e, u := Unroll(arcs, x, q, w, n);
      assert Connected(arcs, x, e.from) by { assert Spells(arcs, x, e.from, u); }
      ConnectedTrans(arcs, pre, x, e.from);
      assert !Open(tmp2, End(e, false), Some(pre)) by { assert Visited(tmp, tmp2, Some(pre), End(e, true)); }
      ReachingMarked(arcs, tmp, tmp2, pre, post, x, e.from, u, n - 1);
    }
  }

  /** After the second marking exactly what lies on a path from pre to post has the mark of post. */
  lemma MarkedUseful(arcs: set<Arc>, tmp: map<nat, nat>, tmp2: map<nat, nat>, pre: nat, post: nat)
    requires pre != post && Marked(arcs, map[], tmp, None, pre, pre, false) && Marked(arcs, tmp, tmp2, Some(pre), post, post, true)
    ensures forall x :: x in tmp2 && tmp2[x] == post <==> Useful(arcs, pre, post, x)
    ensures forall x :: x in tmp2 && tmp2[x] != post ==> tmp2[x] == pre && Connected(arcs, pre, x)
  {
    MarkedReachable(arcs, tmp, pre);
    forall x | Visited(tmp, tmp2, Some(pre), x) ensures x in tmp2 && tmp2[x] == post && Useful(arcs, pre, post, x) {
      assert Leads(arcs, post, x, true);
    }
    forall x | Useful(arcs, pre, post, x) ensures x in tmp2 && tmp2[x] == post {
      ConnectedTrans(arcs, pre, x, post);
      assert Visited(tmp, tmp2, Some(pre), post);
      var w :| Spells(arcs, x, post, w);
      var n: nat :| Reach(arcs, x, post, w, n);
      ReachingMarked(arcs, tmp, tmp2, pre, post, x, post, w, n);
    }
  }

  // ---------------------------------------------------------------- dropping the rest

  ghost function Live(keys: set<nat>, arcs: set<Arc>, pre: nat, post: nat): set<nat> {
    set x | x in keys && (x == pre || x == post || Useful(arcs, pre, post, x))
  }

  ghost function Kept(arcs: set<Arc>, live: set<nat>): set<Arc> {
    set a | a in arcs && a.from in live && a.to in live
  }

  ghost function Restrict(tmp: map<nat, nat>, live: set<nat>): map<nat, nat> {
    map x | x in tmp && x in live :: tmp[x]
  }

  /** The members of the list that are in the set, in order. */
  ghost function Only(list: seq<nat>, live: set<nat>): seq<nat>
    decreases |list|
  {
    if list == [] then []
    else
      var n := |list| - 1;
      Only(list[..n], live) + if list[n] in live then [list[n]] else []
  }

  lemma {:induction false} OnlyMembers(list: seq<nat>, live: set<nat>)
    ensures forall x :: x in Only(list, live) <==> x in list && x in live
    decreases |list|
  {
    if list != [] {
      var n := |list| - 1;
      OnlyMembers(list[..n], live);
      assert list == list[..n] + [list[n]];
    }
  }

  lemma OnlyAll(list: seq<nat>, live: set<nat>, n: nat)
    requires n <= |list|
    ensures n < |list| ==> Only(list[..n + 1], live) == Only(list[..n], live) + if list[n] in live then [list[n]] else []
  {
    if n < |list| { assert list[..n + 1][..n] == list[..n]; }
  }

  /** The states from the i-th on are still to be looked at; those before it are left if they are to live. */
  ghost predicate Dropping(list: seq<nat>, i: nat, live: set<nat>, states: seq<nat>, keys: set<nat>, was: set<Arc>, arcs: set<Arc>,
                           tmp0: map<nat, nat>, tmp: map<nat, nat>)
    requires i <= |list|
  {
    && (forall j, k :: 0 <= j < k < |list| ==> list[j] != list[k])
    && states == Only(list[..i], live) + list[i..]
    && (forall j :: 0 <= j < |list| ==> (list[j] in keys <==> list[j] in live || j >= i))
    && (forall x :: x in keys ==> x in list)
    && arcs == Kept(was, keys) && tmp == Restrict(tmp0, keys)
  }

  lemma DroppingStart(nfa: Nfa, live: set<nat>)
    requires nfa.Valid() && nfa.tmp.Keys <= nfa.ins.Keys
    ensures Dropping(nfa.states, 0, live, nfa.states, nfa.ins.Keys, nfa.arcs, nfa.arcs, nfa.tmp, nfa.tmp)
  {
    hide Agree;
    assert nfa.states[..0] == [] && nfa.states[0..] == nfa.states;
  }

  lemma DroppingKeeps(list: seq<nat>, i: nat, live: set<nat>, states: seq<nat>, keys: set<nat>, was: set<Arc>, arcs: set<Arc>,
                      tmp0: map<nat, nat>, tmp: map<nat, nat>)
    requires i < |list| && Dropping(list, i, live, states, keys, was, arcs, tmp0, tmp) && list[i] in live
    ensures Dropping(list, i + 1, live, states, keys, was, arcs, tmp0, tmp)
  {
    OnlyAll(list, live, i);
  }

  lemma DroppingDrops(list: seq<nat>, i: nat, live: set<nat>, states: seq<nat>, keys: set<nat>, was: set<Arc>, arcs: set<Arc>,
                      tmp0: map<nat, nat>, tmp: map<nat, nat>)
    requires i < |list| && Dropping(list, i, live, states, keys, was, arcs, tmp0, tmp) && list[i] !in live
    requires forall j, k :: 0 <= j < k < |states| ==> states[j] != states[k]
    ensures var s := list[i];
      Dropping(list, i + 1, live, Removed(states, s), keys - {s}, was, arcs - InSet(arcs, s) - OutSet(arcs, s), tmp0, tmp - {s})
  {
    DropsChain(list, i, live, states);
    DropsSets(list, i, live, keys, was, arcs, tmp0, tmp);
    hide Only, Removed, Kept, Restrict;
  }

  lemma DropsChain(list: seq<nat>, i: nat, live: set<nat>, states: seq<nat>)
    requires i < |list| && states == Only(list[..i], live) + list[i..] && list[i] !in live
    requires forall j, k :: 0 <= j < k < |states| ==> states[j] != states[k]
    ensures Removed(states, list[i]) == Only(list[..i + 1], live) + list[i + 1..]
  {
    OnlyAll(list, live, i);
    var k := |Only(list[..i], live)|;
    RemovedAt(states, k);
    hide Only, Removed;
    assert states[k] == list[i] && states[..k] == Only(list[..i], live) && states[k + 1..] == list[i + 1..];
  }

  lemma DropsSets(list: seq<nat>, i: nat, live: set<nat>, keys: set<nat>, was: set<Arc>, arcs: set<Arc>, tmp0: map<nat, nat>, tmp: map<nat, nat>)
    requires i < |list| && arcs == Kept(was, keys) && tmp == Restrict(tmp0, keys)
    ensures var s := list[i]; arcs - InSet(arcs, s) - OutSet(arcs, s) == Kept(was, keys - {s}) && tmp - {s} == Restrict(tmp0, keys - {s})
  {
  }

  lemma DroppingDone(list: seq<nat>, live: set<nat>, states: seq<nat>, keys: set<nat>, was: set<Arc>, arcs: set<Arc>, tmp0: map<nat, nat>,
                     tmp: map<nat, nat>)
    requires Dropping(list, |list|, live, states, keys, was, arcs, tmp0, tmp) && forall x :: x in live ==> x in list
    ensures keys == live && states == Only(list, live) && arcs == Kept(was, live) && tmp == Restrict(tmp0, live)
  {
    assert list[..|list|] == list && list[|list|..] == [];
  }

  lemma DroppingHere(list: seq<nat>, i: nat, live: set<nat>, states: seq<nat>, keys: set<nat>, was: set<Arc>, arcs: set<Arc>, tmp0: map<nat, nat>,
                     tmp: map<nat, nat>)
    requires i < |list| && Dropping(list, i, live, states, keys, was, arcs, tmp0, tmp)
    ensures list[i] in keys && (list[i] in tmp <==> list[i] in tmp0) && (list[i] in tmp ==> tmp[list[i]] == tmp0[list[i]])
  {
  }

  lemma Distinct(nfa: Nfa)
    requires nfa.Valid()
    ensures forall i, j :: 0 <= i < j < |nfa.states| ==> nfa.states[i] != nfa.states[j]
    ensures forall x :: x in nfa.ins <==> x in nfa.states
  {
  }

  /** The states to live have the mark of post or a flag. */
  ghost predicate Chosen(list: seq<nat>, live: set<nat>, tmp: map<nat, nat>, pre: nat, post: nat) {
    forall j :: 0 <= j < |list| ==> (list[j] in live <==> (list[j] in tmp && tmp[list[j]] == post) || list[j] == pre || list[j] == post)
  }

  lemma ChosenAt(list: seq<nat>, live: set<nat>, tmp: map<nat, nat>, pre: nat, post: nat, j: nat)
    requires Chosen(list, live, tmp, pre, post) && j < |list|
    ensures list[j] in live <==> (list[j] in tmp && tmp[list[j]] == post) || list[j] == pre || list[j] == post
  {
  }

  method DropNext(nfa: Nfa, list: seq<nat>, i: nat, ghost live: set<nat>, ghost was: set<Arc>, ghost tmp0: map<nat, nat>)
    requires nfa.Valid() && i < |list| && Dropping(list, i, live, nfa.states, nfa.ins.Keys, was, nfa.arcs, tmp0, nfa.tmp)
    requires Chosen(list, live, tmp0, nfa.pre, nfa.post)
    modifies nfa`states, nfa`ins, nfa`outs, nfa`arcs, nfa`tmp
    ensures nfa.Valid() && Dropping(list, i + 1, live, nfa.states, nfa.ins.Keys, was, nfa.arcs, tmp0, nfa.tmp)
  {
    hide Agree, StatesAgree, Within, Dropping, Only, Removed, Chosen, InSet, OutSet;
    Distinct(nfa);
    var s := list[i];
    ChosenAt(list, live, tmp0, nfa.pre, nfa.post, i);
    DroppingHere(list, i, live, nfa.states, nfa.ins.Keys, was, nfa.arcs, tmp0, nfa.tmp);
    if !(s in nfa.tmp && nfa.tmp[s] == nfa.post) && !nfa.Flagged(s) {
      DroppingDrops(list, i, live, nfa.states, nfa.ins.Keys, was, nfa.arcs, tmp0, nfa.tmp);
      nfa.DropState(s);
      nfa.tmp := nfa.tmp - {s};
    } else {
      DroppingKeeps(list, i, live, nfa.states, nfa.ins.Keys, was, nfa.arcs, tmp0, nfa.tmp);
    }
  }

  /** Clear out what is not marked (regc_nfa.c:2703-2708). A state that is gone has no tmp pointer. */
  method DropUnmarked(nfa: Nfa, ghost live: set<nat>)
    requires nfa.Valid() && nfa.tmp.Keys <= nfa.ins.Keys && live <= nfa.ins.Keys
    requires Chosen(nfa.states, live, nfa.tmp, nfa.pre, nfa.post)
    modifies nfa`states, nfa`ins, nfa`outs, nfa`arcs, nfa`tmp
    ensures nfa.Valid() && nfa.ins.Keys == live && nfa.states == Only(old(nfa.states), live)
    ensures nfa.arcs == Kept(old(nfa.arcs), live) && nfa.tmp == Restrict(old(nfa.tmp), live)
  {
    hide Agree, StatesAgree, Within, Dropping, Only, Kept, Restrict, Chosen;
    var list := nfa.states;
    DroppingStart(nfa, live);
    Distinct(nfa);
    ghost var was, tmp0 := nfa.arcs, nfa.tmp;
    var i := 0;
    while i < |list|
      invariant i <= |list| && nfa.Valid()
      invariant Dropping(list, i, live, nfa.states, nfa.ins.Keys, was, nfa.arcs, tmp0, nfa.tmp)
    {
      DropNext(nfa, list, i, live, was, tmp0);
      i := i + 1;
    }
    DroppingDone(list, live, nfa.states, nfa.ins.Keys, was, nfa.arcs, tmp0, nfa.tmp);
  }

  // ---------------------------------------------------------------- what is kept

  lemma {:induction false} RunConnects(arcs: set<Arc>, v: Env, p: nat, i: nat, q: nat, k: nat, n: nat)
    requires Run(arcs, v, p, i, q, k, n)
    ensures Connected(arcs, p, q)
    decreases n
  {
    if n == 0 {
      ConnectedSelf(arcs, p);
    } else {
      var a, j := LastOf(arcs, v, p, i, q, k, n);
      RunConnects(arcs, v, p, i, a.from, j, n - 1);
      ConnectedArc(arcs, p, a);
    }
  }

  lemma UsefulArc(arcs: set<Arc>, keys: set<nat>, pre: nat, post: nat, a: Arc)
    requires Within(arcs, keys) && a in arcs && Connected(arcs, pre, a.from) && Connected(arcs, a.to, post)
    ensures Useful(arcs, pre, post, a.from) && Useful(arcs, pre, post, a.to) && a in Kept(arcs, Live(keys, arcs, pre, post))
  {
    ConnectedArc(arcs, pre, a);
    LeadsOn(arcs, a, post, false);
    hide Connected;
  }

  /** A run from pre that can go on to post passes useful states only. */
  lemma {:induction false} RunKept(arcs: set<Arc>, keys: set<nat>, v: Env, i: nat, q: nat, k: nat, n: nat)
    requires Within(arcs, keys) && Run(arcs, v, v.pre, i, q, k, n) && Connected(arcs, q, v.post)
    ensures Run(Kept(arcs, Live(keys, arcs, v.pre, v.post)), v, v.pre, i, q, k, n)
    decreases n
  {
    if n > 0 {
      var a, j := LastOf(arcs, v, v.pre, i, q, k, n);
      RunConnects(arcs, v, v.pre, i, a.from, j, n - 1);
      UsefulArc(arcs, keys, v.pre, v.post, a);
      hide Kept, Live;
      RunKept(arcs, keys, v, i, a.from, j, n - 1);
      assert LastStep(Kept(arcs, Live(keys, arcs, v.pre, v.post)), v, v.pre, i, q, k, n, a, j);
    }
  }

  lemma {:induction false} RunMore(a: set<Arc>, b: set<Arc>, v: Env, p: nat, i: nat, q: nat, k: nat, n: nat)
    requires a <= b && Run(a, v, p, i, q, k, n)
    ensures Run(b, v, p, i, q, k, n)
    decreases n
  {
    if n > 0 {
      var e, j := LastOf(a, v, p, i, q, k, n);
      RunMore(a, b, v, p, i, e.from, j, n - 1);
      assert LastStep(b, v, p, i, q, k, n, e, j);
    }
  }

  /** What goes takes no text along. */
  lemma KeptTexts(arcs: set<Arc>, keys: set<nat>, pre: nat, post: nat)
    requires Within(arcs, keys)
    ensures L.SameTexts(arcs, Kept(arcs, Live(keys, arcs, pre, post)), pre, post)
  {
    var kept := Kept(arcs, Live(keys, arcs, pre, post));
    assert kept <= arcs;
    forall v: Env, i: nat, k: nat | v.pre == pre && v.post == post ensures Accepts(arcs, v, i, k) <==> Accepts(kept, v, i, k) {
      if Accepts(arcs, v, i, k) {
        var n: nat :| Run(arcs, v, pre, i, post, k, n);
        ConnectedSelf(arcs, post);
        RunKept(arcs, keys, v, i, post, k, n);
      }
      if Accepts(kept, v, i, k) {
        var n: nat :| Run(kept, v, pre, i, post, k, n);
        RunMore(kept, arcs, v, pre, i, post, k, n);
      }
    }
  }

  lemma {:induction false} ReachKept(arcs: set<Arc>, keys: set<nat>, pre: nat, post: nat, q: nat, w: seq<Label>, n: nat)
    requires Within(arcs, keys) && Reach(arcs, pre, q, w, n) && Connected(arcs, q, post)
    ensures Connected(Kept(arcs, Live(keys, arcs, pre, post)), pre, q)
    decreases n
  {
    var kept := Kept(arcs, Live(keys, arcs, pre, post));
    if n == 0 {
      ConnectedSelf(kept, pre);
    } else {
      var e, u := Unroll(arcs, pre, q, w, n);
      assert Connected(arcs, pre, e.from) by { assert Spells(arcs, pre, e.from, u); }
      UsefulArc(arcs, keys, pre, post, e);
      hide Kept, Live, Connected;
      ReachKept(arcs, keys, pre, post, e.from, u, n - 1);
      ConnectedArc(kept, pre, e);
    }
  }

  // ---------------------------------------------------------------- clearing the marks

  lemma {:induction false} PathCleared(kept: set<Arc>, tmp: map<nat, nat>, tmp2: map<nat, nat>, pre: nat, q: nat, w: seq<Label>, n: nat)
    requires Cleared(kept, tmp, tmp2) && pre !in tmp2 && Reach(kept, pre, q, w, n)
    requires pre in tmp && forall a :: a in kept ==> a.from in tmp
    ensures q !in tmp2
    decreases n
  {
    if n > 0 {
      var e, u := Unroll(kept, pre, q, w, n);
      PathCleared(kept, tmp, tmp2, pre, e.from, u, n - 1);
    }
  }

  /** Every mark left can be reached from pre over what is kept. */
  lemma AllMarksCleared(arcs: set<Arc>, keys: set<nat>, pre: nat, post: nat, tmp: map<nat, nat>, tmp2: map<nat, nat>)
    requires Within(arcs, keys) && Cleared(Kept(arcs, Live(keys, arcs, pre, post)), tmp, tmp2) && pre !in tmp2 && pre in tmp
    requires forall x :: x in tmp ==> x in Live(keys, arcs, pre, post) && Connected(arcs, pre, x)
    requires forall x :: x in keys && Useful(arcs, pre, post, x) ==> x in tmp
    requires forall a :: a in arcs ==> a.from != post
    ensures tmp2 == map[]
  {
    var kept := Kept(arcs, Live(keys, arcs, pre, post));
    assert forall a :: a in kept ==> a.from in tmp;
    forall x | x in tmp2 ensures false {
      assert x in tmp && x != pre;
      if x == post { ConnectedSelf(arcs, post); }
      assert Useful(arcs, pre, post, x);
      var w :| Spells(arcs, pre, x, w);
      var n: nat :| Reach(arcs, pre, x, w, n);
      ReachKept(arcs, keys, pre, post, x, w, n);
      var u :| Spells(kept, pre, x, u);
      var m: nat :| Reach(kept, pre, x, u, m);
      PathCleared(kept, tmp, tmp2, pre, x, u, m);
    }
    assert tmp2.Keys == {};
  }

  // ---------------------------------------------------------------- renumbering

  /** Each state's new number is its place in the chain. */
  ghost predicate Numbering(no: map<nat, nat>, states: seq<nat>) {
    (forall x :: x in no <==> x in states) && forall k :: 0 <= k < |states| ==> no[states[k]] == k
  }

  function At(no: map<nat, nat>, s: nat): nat { if s in no then no[s] else s }

  function Named(a: Arc, no: map<nat, nat>): Arc { a.(from := At(no, a.from), to := At(no, a.to)) }

  ghost function AllNamed(arcs: set<Arc>, no: map<nat, nat>): set<Arc> { set a | a in arcs :: Named(a, no) }

  function NamedChain(ch: seq<Arc>, no: map<nat, nat>): seq<Arc> { seq(|ch|, i requires 0 <= i < |ch| => Named(ch[i], no)) }

  lemma Injective(no: map<nat, nat>, states: seq<nat>)
    requires Numbering(no, states)
    ensures forall x, y :: x in no && y in no && no[x] == no[y] ==> x == y
    ensures forall x :: x in no ==> no[x] < |states| && states[no[x]] == x
  {
    forall x | x in no ensures no[x] < |states| && states[no[x]] == x {
      var k :| 0 <= k < |states| && states[k] == x;
    }
  }

  lemma NamedApart(a: Arc, b: Arc, no: map<nat, nat>, states: seq<nat>)
    requires Numbering(no, states) && a.from in no && a.to in no && b.from in no && b.to in no && a != b
    ensures Named(a, no) != Named(b, no)
  {
    Injective(no, states);
  }

  lemma NamedLists(ch: seq<Arc>, es: set<Arc>, no: map<nat, nat>, states: seq<nat>)
    requires Lists(ch, es) && Numbering(no, states) && forall a :: a in es ==> a.from in no && a.to in no
    ensures Lists(NamedChain(ch, no), AllNamed(es, no))
  {
    var nc := NamedChain(ch, no);
    forall i, j | 0 <= i < j < |nc| ensures nc[i] != nc[j] {
      assert ch[i] in ch && ch[j] in ch;
      NamedApart(ch[i], ch[j], no, states);
    }
    forall e ensures e in nc <==> e in AllNamed(es, no) {
      if e in nc {
        var i :| 0 <= i < |nc| && nc[i] == e;
        assert ch[i] in ch;
      }
      if e in AllNamed(es, no) {
        var a :| a in es && Named(a, no) == e;
        var i :| 0 <= i < |ch| && ch[i] == a;
        assert nc[i] == e;
      }
    }
  }

  lemma NamedSide(arcs: set<Arc>, no: map<nat, nat>, states: seq<nat>, k: nat, inward: bool)
    requires Numbering(no, states) && Within(arcs, no.Keys) && k < |states|
    ensures SideSet(AllNamed(arcs, no), k, inward) == AllNamed(SideSet(arcs, states[k], inward), no)
  {
    Injective(no, states);
  }

  /** All chains of one direction, renumbered. */
  lemma NamedAgree(m: map<nat, seq<Arc>>, arcs: set<Arc>, inward: bool, no: map<nat, nat>, states: seq<nat>)
    requires Agree(m, arcs, inward) && Numbering(no, states) && Within(arcs, no.Keys) && m.Keys == no.Keys
    ensures forall k :: 0 <= k < |states| ==> states[k] in m
    ensures Agree(NamedChains(m, states, no), AllNamed(arcs, no), inward)
  {
    hide Lists, SideSet;
    forall k: nat | k < |states| ensures states[k] in m && Lists(NamedChain(m[states[k]], no), SideSet(AllNamed(arcs, no), k, inward)) {
      assert states[k] in no;
      NamedSide(arcs, no, states, k, inward);
      SideWithin(arcs, no.Keys, states[k], inward);
      NamedLists(m[states[k]], SideSet(arcs, states[k], inward), no, states);
    }
  }

  lemma SideWithin(arcs: set<Arc>, keys: set<nat>, s: nat, inward: bool)
    requires Within(arcs, keys)
    ensures forall a :: a in SideSet(arcs, s, inward) ==> a.from in keys && a.to in keys
  {
  }

  lemma NamedWithin(arcs: set<Arc>, no: map<nat, nat>, states: seq<nat>, keys: set<nat>)
    requires Numbering(no, states) && Within(arcs, no.Keys) && forall k: nat :: k < |states| ==> k in keys
    ensures Within(AllNamed(arcs, no), keys)
  {
    Injective(no, states);
  }

  /** The numbers handed out (regc_nfa.c:2718-2721). */
  method Number(states: seq<nat>) returns (no: map<nat, nat>)
    requires forall i, j :: 0 <= i < j < |states| ==> states[i] != states[j]
    ensures Numbering(no, states)
  {
    no := map[];
    var n := 0;
    while n < |states|
      invariant n <= |states| && (forall x :: x in no <==> x in states[..n]) && forall k :: 0 <= k < n ==> states[k] in no && no[states[k]] == k
    {
      assert states[..n + 1] == states[..n] + [states[n]];
      no := no[states[n] := n];
      n := n + 1;
    }
    assert states[..|states|] == states;
  }

  function NamedChains(m: map<nat, seq<Arc>>, states: seq<nat>, no: map<nat, nat>): map<nat, seq<Arc>>
    requires forall k :: 0 <= k < |states| ==> states[k] in m
  {
    map k: nat | 0 <= k < |states| :: NamedChain(m[states[k]], no)
  }

  function Upto(n: nat): (r: seq<nat>)
    ensures |r| == n
  {
    seq(n, i requires 0 <= i < n => i)
  }

  ghost function Below(n: nat): set<nat> { set k | k in Upto(n) }

  /** What Valid() asks of the chain of states after renumbering. */
  lemma Renumbered(states: seq<nat>, nstates: nat, no: map<nat, nat>, m: map<nat, seq<Arc>>, arcs: set<Arc>)
    requires StatesAgree(states, nstates, m.Keys) && Numbering(no, states) && Within(arcs, m.Keys)
    ensures m.Keys == no.Keys && forall k :: 0 <= k < |states| ==> states[k] in m
    ensures var now := NamedChains(m, states, no);
      && StatesAgree(Upto(|states|), |states|, now.Keys) && Within(AllNamed(arcs, no), now.Keys)
      && now.Keys == Below(|states|) && (forall s :: s in now <==> 0 <= s < |states|) && (|states| >= 2 ==> Upto(|states|)[0] == 0 && Upto(|states|)[1] == 1)
  {
    forall s: nat ensures s in Upto(|states|) <==> s < |states| {
      if s < |states| { assert Upto(|states|)[s] == s; }
    }
    NamedWithin(arcs, no, states, NamedChains(m, states, no).Keys);
  }

  /** Renumber the surviving states (regc_nfa.c:2714-2722). Here a state is its number, so all chains change with it. */
  method Renumber(nfa: Nfa) returns (ghost no: map<nat, nat>)
    requires nfa.Valid()
    modifies nfa`states, nfa`nstates, nfa`ins, nfa`outs, nfa`arcs
    ensures nfa.Valid() && K.Dense(nfa)
    ensures Numbering(no, old(nfa.states)) && nfa.arcs == AllNamed(old(nfa.arcs), no)
  {
    hide Agree, Numbering, StatesAgree, Within, AllNamed, NamedChains, Upto, Below, At, Named;
    Distinct(nfa);
    var states := nfa.states;
    var names := Number(states);
    no := names;
    Renumbered(states, nfa.nstates, no, nfa.ins, nfa.arcs);
    Renumbered(states, nfa.nstates, no, nfa.outs, nfa.arcs);
    NamedAgree(nfa.ins, nfa.arcs, true, no, states);
    NamedAgree(nfa.outs, nfa.arcs, false, no, states);
    nfa.ins := NamedChains(nfa.ins, states, names);
    nfa.outs := NamedChains(nfa.outs, states, names);
    nfa.arcs := AllNamed(nfa.arcs, no);
    nfa.states := Upto(|states|);
    nfa.nstates := |states|;
  }

  /** New names do not change what a run consumes, as long as pre and post keep theirs. */
  lemma {:induction false} RunNamed(arcs: set<Arc>, b: set<Arc>, no: map<nat, nat>, v: Env, p: nat, i: nat, q: nat, k: nat, n: nat)
    requires forall a :: a in arcs ==> Named(a, no) in b
    requires forall a :: a in arcs ==> (a.from == v.pre <==> At(no, a.from) == v.pre) && (a.to == v.post <==> At(no, a.to) == v.post)
    requires Run(arcs, v, p, i, q, k, n)
    ensures Run(b, v, At(no, p), i, At(no, q), k, n)
    decreases n
  {
    if n > 0 {
      var a, j := LastOf(arcs, v, p, i, q, k, n);
      RunNamed(arcs, b, no, v, p, i, a.from, j, n - 1);
      assert LastStep(b, v, At(no, p), i, At(no, q), k, n, Named(a, no), j);
    }
  }

  /** The numbers read backwards. */
  lemma Inverse(no: map<nat, nat>, states: seq<nat>, arcs: set<Arc>) returns (back: map<nat, nat>)
    requires Numbering(no, states) && Within(arcs, no.Keys)
    ensures forall k: nat :: k < |states| ==> At(back, k) == states[k]
    ensures forall e :: e in AllNamed(arcs, no) ==> Named(e, back) in arcs && e.from < |states| && e.to < |states|
  {
    Injective(no, states);
    back := map k: nat | 0 <= k < |states| :: states[k];
    forall e | e in AllNamed(arcs, no) ensures Named(e, back) in arcs && e.from < |states| && e.to < |states| {
      var a :| a in arcs && Named(a, no) == e;
      assert Named(e, back) == a;
    }
  }

  lemma NamedTexts(arcs: set<Arc>, no: map<nat, nat>, states: seq<nat>, pre: nat, post: nat)
    requires Numbering(no, states) && Within(arcs, no.Keys) && pre in no && post in no && no[pre] == pre && no[post] == post
    ensures L.SameTexts(arcs, AllNamed(arcs, no), pre, post)
  {
    var b := AllNamed(arcs, no);
    var back := Inverse(no, states, arcs);
    Injective(no, states);
    forall v: Env, i: nat, k: nat | v.pre == pre && v.post == post ensures Accepts(arcs, v, i, k) <==> Accepts(b, v, i, k) {
      if Accepts(arcs, v, i, k) {
        var n: nat :| Run(arcs, v, pre, i, post, k, n);
        RunNamed(arcs, b, no, v, pre, i, post, k, n);
      }
      if Accepts(b, v, i, k) {
        var n: nat :| Run(b, v, pre, i, post, k, n);
        RunNamed(b, arcs, back, v, pre, i, post, k, n);
      }
    }
  }

  /** Every arc has an old one's label and meets pre and post just as that does. */
  ghost predicate Mirrors(was: set<Arc>, now: set<Arc>, pre: nat, post: nat) {
    forall e :: e in now ==> exists a :: a in was && Alike(a, e, pre) && Alike(a, e, post)
  }

  ghost predicate Alike(a: Arc, e: Arc, s: nat) {
    a.typ == e.typ && a.co == e.co && (a.from == s <==> e.from == s) && (a.to == s <==> e.to == s)
  }

  lemma NamedMirrors(arcs: set<Arc>, no: map<nat, nat>, states: seq<nat>, live: set<nat>, pre: nat, post: nat)
    requires Numbering(no, states) && Within(Kept(arcs, live), no.Keys) && pre in no && post in no && no[pre] == pre && no[post] == post
    ensures Mirrors(arcs, AllNamed(Kept(arcs, live), no), pre, post)
  {
    Injective(no, states);
    forall e | e in AllNamed(Kept(arcs, live), no) ensures exists a :: a in arcs && Alike(a, e, pre) && Alike(a, e, post) {
      var a :| a in Kept(arcs, live) && Named(a, no) == e;
      assert Alike(a, e, pre) && Alike(a, e, post);
    }
  }

  // ---------------------------------------------------------------- cleanup()

  lemma LiveChosen(states: seq<nat>, keys: set<nat>, arcs: set<Arc>, tmp: map<nat, nat>, pre: nat, post: nat)
    requires forall x :: x in keys <==> x in states
    requires forall x :: x in tmp && tmp[x] == post <==> Useful(arcs, pre, post, x)
    ensures Chosen(states, Live(keys, arcs, pre, post), tmp, pre, post)
  {
  }

  lemma {:induction false} ReachWithin(arcs: set<Arc>, keys: set<nat>, p: nat, q: nat, w: seq<Label>, n: nat)
    requires Within(arcs, keys) && p in keys && Reach(arcs, p, q, w, n)
    ensures q in keys
  {
    if n > 0 { var e, u := Unroll(arcs, p, q, w, n); }
  }

  lemma ConnectedWithin(arcs: set<Arc>, keys: set<nat>, p: nat, q: nat)
    requires Within(arcs, keys) && p in keys && Connected(arcs, p, q)
    ensures q in keys
  {
    var w :| Spells(arcs, p, q, w);
    var n: nat :| Reach(arcs, p, q, w, n);
    ReachWithin(arcs, keys, p, q, w, n);
  }

  /** The marks once both traversals are over: of post on what is useful, of pre on what else can be reached. */
  ghost predicate BothMarked(arcs: set<Arc>, keys: set<nat>, tmp: map<nat, nat>, pre: nat, post: nat) {
    && (forall x :: x in tmp && tmp[x] == post <==> Useful(arcs, pre, post, x))
    && (forall x :: x in tmp ==> x in keys && Connected(arcs, pre, x)) && pre in tmp
  }

  lemma MarksDone(arcs: set<Arc>, keys: set<nat>, tmp: map<nat, nat>, tmp2: map<nat, nat>, pre: nat, post: nat)
    requires pre != post && Within(arcs, keys) && pre in keys
    requires Marked(arcs, map[], tmp, None, pre, pre, false) && Marked(arcs, tmp, tmp2, Some(pre), post, post, true)
    ensures BothMarked(arcs, keys, tmp2, pre, post)
  {
    MarkedReachable(arcs, tmp, pre);
    MarkedUseful(arcs, tmp, tmp2, pre, post);
    forall x | x in tmp2 ensures x in keys && Connected(arcs, pre, x) {
      assert x in tmp;
      ConnectedWithin(arcs, keys, pre, x);
    }
  }

  /** After dropping, the marks are on the states left that can be reached. */
  lemma MarksLeft(arcs: set<Arc>, keys: set<nat>, tmp: map<nat, nat>, tmp2: map<nat, nat>, pre: nat, post: nat)
    requires pre != post && BothMarked(arcs, keys, tmp, pre, post) && Within(arcs, keys) && (forall a :: a in arcs ==> a.from != post)
    requires var live := Live(keys, arcs, pre, post); Cleared(Kept(arcs, live), Restrict(tmp, live), tmp2) && pre !in tmp2
    ensures tmp2 == map[]
  {
    var live := Live(keys, arcs, pre, post);
    hide Useful, Connected;
    AllMarksCleared(arcs, keys, pre, post, Restrict(tmp, live), tmp2);
  }

  /** An arc into post that is left means that post has been marked (the assertion of regc_nfa.c:2709). */
  lemma PostMarked(arcs: set<Arc>, keys: set<nat>, tmp: map<nat, nat>, pre: nat, post: nat, a: Arc)
    requires BothMarked(arcs, keys, tmp, pre, post) && (forall e :: e in arcs ==> e.from != post)
    requires a in Kept(arcs, Live(keys, arcs, pre, post)) && a.to == post
    ensures var left := Restrict(tmp, Live(keys, arcs, pre, post)); post in left && left[post] == post
  {
    ConnectedSelf(arcs, pre);
    ConnectedSelf(arcs, post);
    ConnectedArc(arcs, pre, a);
    assert Useful(arcs, pre, post, post);
  }

  /** The outcome of cleanup(): the useful states and the two ends are left, in their order and numbered without
      gaps, with the arcs between them. */
  ghost predicate Cleaned(was: set<Arc>, states: seq<nat>, keys: set<nat>, now: set<Arc>, no: map<nat, nat>, pre: nat, post: nat) {
    var live := Live(keys, was, pre, post);
    Numbering(no, Only(states, live)) && now == AllNamed(Kept(was, live), no)
  }

  lemma CleanedMeans(was: set<Arc>, states: seq<nat>, keys: set<nat>, left: seq<nat>, now: set<Arc>, no: map<nat, nat>, pre: nat, post: nat)
    requires Within(was, keys) && (forall x :: x in keys <==> x in states)
    requires var live := Live(keys, was, pre, post); left == Only(states, live) && now == AllNamed(Kept(was, live), no)
    requires Numbering(no, left) && 2 <= |left| && left[0] == post == 0 && left[1] == pre == 1
    ensures Cleaned(was, states, keys, now, no, pre, post)
    ensures L.SameTexts(was, now, pre, post) && Mirrors(was, now, pre, post)
  {
    var live := Live(keys, was, pre, post);
    OnlyMembers(states, live);
    assert Within(Kept(was, live), no.Keys);
    KeptTexts(was, keys, pre, post);
    NamedTexts(Kept(was, live), no, left, pre, post);
    NamedMirrors(was, no, left, live, pre, post);
    hide Accepts;
    L.SameTextsTrans(was, Kept(was, live), now, pre, post);
  }

  /** cleanup(), regc_nfa.c:2684-2723. */
  method Cleanup(nfa: Nfa) returns (ghost no: map<nat, nat>)
    requires nfa.Valid() && nfa.tmp == map[] && forall a :: a in nfa.arcs ==> a.from != nfa.post
    modifies nfa`states, nfa`nstates, nfa`ins, nfa`outs, nfa`arcs, nfa`tmp
    ensures nfa.Valid() && K.Dense(nfa) && nfa.tmp == map[]
    ensures Cleaned(old(nfa.arcs), old(nfa.states), old(nfa.ins.Keys), nfa.arcs, no, nfa.pre, nfa.post)
    ensures L.SameTexts(old(nfa.arcs), nfa.arcs, nfa.pre, nfa.post) && Mirrors(old(nfa.arcs), nfa.arcs, nfa.pre, nfa.post)
  {
    hide Agree, StatesAgree, Within, Marked, BothMarked, Cleaned, Live, Kept, Restrict, Chosen, L.SameTexts, Mirrors, Numbering, AllNamed, Only, Cleared;
    ghost var was, states, keys := nfa.arcs, nfa.states, nfa.ins.Keys;
    Distinct(nfa);
    Mark(nfa, nfa.pre, None, nfa.pre, false);
    ghost var tmp1 := nfa.tmp;
    Mark(nfa, nfa.post, Some(nfa.pre), nfa.post, true);
    ghost var tmp2 := nfa.tmp;
    ghost var live := Sorted(nfa, was, states, keys, tmp1);
    DropUnmarked(nfa, live);
    if nfa.ins[nfa.post] != [] {
      ChainHead(nfa.ins, nfa.arcs, true, nfa.post);
      PostMarked(was, keys, tmp2, nfa.pre, nfa.post, nfa.ins[nfa.post][0]);
    }
    assert nfa.ins[nfa.post] == [] || (nfa.post in nfa.tmp && nfa.tmp[nfa.post] == nfa.post);
    ClearTraverse(nfa, nfa.pre);
    MarksLeft(was, keys, tmp2, nfa.tmp, nfa.pre, nfa.post);
    ghost var left := nfa.states;
    no := Renumber(nfa);
    CleanedMeans(was, states, keys, left, nfa.arcs, no, nfa.pre, nfa.post);
  }

  lemma Sorted(nfa: Nfa, was: set<Arc>, states: seq<nat>, keys: set<nat>, tmp1: map<nat, nat>) returns (live: set<nat>)
    requires nfa.Valid() && was == nfa.arcs && states == nfa.states && keys == nfa.ins.Keys
    requires Marked(was, map[], tmp1, None, nfa.pre, nfa.pre, false) && Marked(was, tmp1, nfa.tmp, Some(nfa.pre), nfa.post, nfa.post, true)
    ensures live == Live(keys, was, nfa.pre, nfa.post) && live <= keys && nfa.pre in live && nfa.post in live
    ensures BothMarked(was, keys, nfa.tmp, nfa.pre, nfa.post) && nfa.tmp.Keys <= keys && Within(was, keys)
    ensures Chosen(states, live, nfa.tmp, nfa.pre, nfa.post)
  {
    hide Agree, Marked, Connected, Useful;
    assert nfa.pre in nfa.states && nfa.post in nfa.states;
    live := Live(keys, was, nfa.pre, nfa.post);
    MarksDone(was, keys, tmp1, nfa.tmp, nfa.pre, nfa.post);
    LiveChosen(states, keys, was, nfa.tmp, nfa.pre, nfa.post);
  }

  // ---------------------------------------------------------------- analyze()

  datatype Info = Nothing | EmptyMatch | Impossible

  /** Two arcs lead from pre to post. */
  ghost predicate TwoArcs(arcs: set<Arc>, pre: nat, post: nat) {
    exists a, b :: a in arcs && b in arcs && Follows(a, b, pre, post)
  }

  predicate Follows(a: Arc, b: Arc, pre: nat, post: nat) { a.from == pre && b.from == a.to && b.to == post }

  /** analyze(), regc_nfa.c:2777-2799. */
  method Analyze(nfa: Nfa) returns (info: Info)
    requires nfa.Valid()
    ensures info.Impossible? <==> forall a :: a in nfa.arcs ==> a.from != nfa.pre
    ensures info.EmptyMatch? <==> TwoArcs(nfa.arcs, nfa.pre, nfa.post)
  {
    assert nfa.pre in nfa.states;
    var chain := nfa.outs[nfa.pre];
    if chain == [] {
      ChainEmpty(nfa.outs, nfa.arcs, false, nfa.pre);
      return Impossible;
    }
    ChainHead(nfa.outs, nfa.arcs, false, nfa.pre);
    var i := 0;
    while i < |chain|
      invariant i <= |chain|
      invariant forall j, b :: 0 <= j < i && b in nfa.arcs ==> !Follows(chain[j], b, nfa.pre, nfa.post)
    {
      var a := chain[i];
      ChainFact(nfa.outs, nfa.arcs, false, nfa.pre, i);
      var next := nfa.outs[a.to];
      var k := 0;
      while k < |next|
        invariant k <= |next| && forall j :: 0 <= j < k ==> next[j].to != nfa.post
      {
        ChainFact(nfa.outs, nfa.arcs, false, a.to, k);
        if next[k].to == nfa.post {
          assert Follows(a, next[k], nfa.pre, nfa.post);
          return EmptyMatch;
        }
        k := k + 1;
      }
      forall b | b in nfa.arcs ensures !Follows(a, b, nfa.pre, nfa.post) {
        if b.from == a.to { ChainMember(nfa.outs, nfa.arcs, false, b); }
      }
      i := i + 1;
    }
    forall a, b | a in nfa.arcs && b in nfa.arcs ensures !Follows(a, b, nfa.pre, nfa.post) {
      if a.from == nfa.pre { ChainMember(nfa.outs, nfa.arcs, false, a); }
    }
    info := Nothing;
  }

  lemma {:induction false} FirstArc(arcs: set<Arc>, p: nat, q: nat, w: seq<Label>, n: nat)
    requires Reach(arcs, p, q, w, n) && p != q
    ensures exists a :: a in arcs && a.from == p
    decreases n
  {
    var e, u := Unroll(arcs, p, q, w, n);
    if e.from != p { FirstArc(arcs, p, e.from, u, n - 1); }
  }

  /** No arc of pre is left exactly when no path leads from pre to post. */
  lemma ImpossibleMeans(was: set<Arc>, states: seq<nat>, keys: set<nat>, now: set<Arc>, no: map<nat, nat>, pre: nat, post: nat)
    requires Cleaned(was, states, keys, now, no, pre, post) && Within(was, keys) && Mirrors(was, now, pre, post) && Ended(was, pre, post)
    requires pre in no && no[pre] == pre
    ensures (forall e :: e in now ==> e.from != pre) <==> !Connected(was, pre, post)
  {
    var kept := Kept(was, Live(keys, was, pre, post));
    var left := Only(states, Live(keys, was, pre, post));
    if Connected(was, pre, post) {
      ConnectedSelf(was, post);
      var w :| Spells(was, pre, post, w);
      var n: nat :| Reach(was, pre, post, w, n);
      ReachKept(was, keys, pre, post, post, w, n);
      var u :| Spells(kept, pre, post, u);
      var m: nat :| Reach(kept, pre, post, u, m);
      FirstArc(kept, pre, post, u, m);
      var a :| a in kept && a.from == pre;
      assert Named(a, no) in now;
    }
    if e :| e in now && e.from == pre {
      var a :| a in kept && Named(a, no) == e;
      assert a.from == pre by { OnlyMembers(states, Live(keys, was, pre, post)); Injective(no, left); }
      ConnectedSelf(was, pre);
      ConnectedArc(was, pre, a);
      if a.to != post { ConnectedTrans(was, pre, a.to, post); }
    }
  }

  /** Who matches anything leaves pre. */
  lemma AcceptsLeaves(arcs: set<Arc>, v: Env, i: nat, k: nat)
    requires Accepts(arcs, v, i, k) && v.pre != v.post
    ensures exists a :: a in arcs && a.from == v.pre
  {
    NoPathNoText(arcs, v, i, k);
    var w :| Spells(arcs, v.pre, v.post, w);
    var n: nat :| Reach(arcs, v.pre, v.post, w, n);
    FirstArc(arcs, v.pre, v.post, w, n);
  }

  /** No text is matched where no path leads. */
  lemma NoPathNoText(arcs: set<Arc>, v: Env, i: nat, k: nat)
    requires Accepts(arcs, v, i, k)
    ensures Connected(arcs, v.pre, v.post)
  {
    var n: nat :| Run(arcs, v, v.pre, i, v.post, k, n);
    RunConnects(arcs, v, v.pre, i, v.post, k, n);
  }

  /** The arcs optimize() leaves. */
  ghost predicate Final(arcs: set<Arc>, pre: nat, post: nat) {
    && pre != post
    && (forall a :: a in arcs && (a.from == pre || a.to == post) ==> a.typ == PLAIN)
    && (forall a :: a in arcs ==> (a.typ == PLAIN || a.typ == LACON) && (a.from == pre ==> a.to != post))
  }
}
