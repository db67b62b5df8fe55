/** compact(), regc_nfa.c:2801-2889, and the agreement of subset simulation with paths. */
module Compact {
  import opened Options
  import opened Nfa
  import opened Cnfa
  import opened Runs

  /** The compacted form of an arc: a LACON is coded as ncolors plus its number. */
  function CarcOf(a: Arc, ncolors: nat): Carc {
    Carc(if a.typ == LACON then ncolors + a.co else a.co, a.to)
  }

  /** Only PLAIN arcs on known colours and LACON arcs can be compacted. */
  predicate Compactable(a: Arc, ncolors: nat) {
    a.typ == LACON || (a.typ == PLAIN && a.co < ncolors)
  }

  ghost predicate OutgoingListed(arcs: set<Arc>, ncolors: nat, p: nat, list: seq<Carc>) {
    forall ca :: ca in list <==> exists a :: a in arcs && a.from == p && ca == CarcOf(a, ncolors)
  }

  /** c is the compacted form of the arcs. */
  ghost predicate Compacted(c: Cnfa, arcs: set<Arc>) {
    && (forall a :: a in arcs ==> Compactable(a, c.ncolors) && a.from < |c.states| && a.to < |c.states|)
    && (forall p :: 0 <= p < |c.states| ==> OutgoingListed(arcs, c.ncolors, p, c.states[p]))
  }

  /** No arc leads from pre to post, post is entered by PLAIN arcs, pre left by PLAIN arcs only. */
  ghost predicate Framed(arcs: set<Arc>, pre: nat, post: nat) {
    && pre != post
    && (forall a :: a in arcs && a.from == pre ==> a.typ == PLAIN && a.to != post)
    && (forall a :: a in arcs && a.to == post ==> a.typ == PLAIN)
  }

  /** Symbol k of the text; a colour no arc carries when there is none. */
  function SymAt(c: Cnfa, v: Text, k: nat): nat {
    if k <= v.Stop() + 1 then Sym(c, v, k) else c.ncolors
  }

  /** The symbols of a text as the runs of an automaton see them. */
  ghost function EnvOf(c: Cnfa, v: Text): Env {
    Env((k: nat) => SymAt(c, v, k),
        (n: nat, k: nat) => k > 0 && v.lacon(n, Pos(v, k - 1)),
        c.bos, c.eos, c.pre, c.post)
  }

  lemma ListedEdge(c: Cnfa, arcs: set<Arc>, a: Arc)
    requires Compacted(c, arcs) && a in arcs
    ensures CarcOf(a, c.ncolors) in c.states[a.from]
  {
  }

  lemma EdgeArc(c: Cnfa, arcs: set<Arc>, p: nat, ca: Carc) returns (a: Arc)
    requires Compacted(c, arcs) && p < |c.states| && ca in c.states[p]
    ensures a in arcs && a.from == p && ca == CarcOf(a, c.ncolors)
  {
    a :| a in arcs && a.from == p && ca == CarcOf(a, c.ncolors);
  }

  /** Nothing but pre itself is reached before the first symbol is consumed. */
  lemma {:induction false} NothingYet(arcs: set<Arc>, v: Env, i: nat, q: nat, n: nat)
    requires forall a :: a in arcs ==> a.typ == PLAIN || a.typ == LACON
    requires forall a :: a in arcs && a.from == v.pre ==> a.typ == PLAIN
    requires Run(arcs, v, v.pre, i, q, i, n)
    ensures q == v.pre
    decreases n
  {
    if n > 0 {
      var a, j := LastOf(arcs, v, v.pre, i, q, i, n);
      RunForward(arcs, v, v.pre, i, a.from, j, n - 1);
      NothingYet(arcs, v, i, a.from, n - 1);
    }
  }

  /** Subset simulation misses no path. */
  lemma {:induction false} RunIsSimulated(c: Cnfa, arcs: set<Arc>, v: Text, start: nat, q: nat, k: nat, n: nat)
    requires Compacted(c, arcs) && Framed(arcs, c.pre, c.post) && WellFormed(c)
    requires start <= v.Stop() && start <= k <= v.Stop() + 1
    requires Run(arcs, EnvOf(c, v), c.pre, start, q, k + 1, n)
    ensures q in SimSet(c, v, start, k)
    decreases n
  {
    var e := EnvOf(c, v);
    var a, j := LastOf(arcs, e, c.pre, start, q, k + 1, n);
    ListedEdge(c, arcs, a);
    RunForward(arcs, e, c.pre, start, a.from, j, n - 1);
    var before := if k == start then {c.pre} else SimSet(c, v, start, k - 1);
    var plain := PlainStep(c, before, Sym(c, v, k));
    if a.typ == PLAIN {
      assert j == k;
      if k == start {
        NothingYet(arcs, e, start, a.from, n - 1);
      } else {
        RunIsSimulated(c, arcs, v, start, a.from, k - 1, n - 1);
      }
      assert PlainEdge(c, a.co, a.from, q);
      ClosureContains(c, v, Pos(v, k), plain, q);
    } else {
      RunIsSimulated(c, arcs, v, start, a.from, k, n - 1);
      assert LaconEdge(c, v, Pos(v, k), a.from, q);
      ClosureEdge(c, v, Pos(v, k), plain, a.from, q);
    }
  }

  lemma LaconEdgeRun(c: Cnfa, arcs: set<Arc>, v: Text, start: nat, p: nat, q: nat, k: nat)
    requires Compacted(c, arcs) && start <= v.Stop() && start <= k <= v.Stop() + 1
    requires Goes(arcs, EnvOf(c, v), c.pre, start, p, k + 1) && LaconEdge(c, v, Pos(v, k), p, q)
    ensures Goes(arcs, EnvOf(c, v), c.pre, start, q, k + 1)
  {
    hide Goes;
    var m: nat :| Carc(c.ncolors + m, q) in c.states[p] && v.lacon(m, Pos(v, k));
    var a := EdgeArc(c, arcs, p, Carc(c.ncolors + m, q));
    assert a.typ == LACON && a.co == m && a.to == q;
    assert Takes(EnvOf(c, v), a, k + 1, k + 1);
    hide *;
    GoesOn(arcs, EnvOf(c, v), c.pre, start, a, k + 1, k + 1);
  }

  lemma {:induction false} LaconReachIsRun(c: Cnfa, arcs: set<Arc>, v: Text, start: nat, s: set<nat>, q: nat, k: nat, n: nat)
    requires Compacted(c, arcs) && start <= v.Stop() && start <= k <= v.Stop() + 1
    requires forall p :: p in s ==> Goes(arcs, EnvOf(c, v), c.pre, start, p, k + 1)
    requires LaconReach(c, v, Pos(v, k), s, q, n)
    ensures Goes(arcs, EnvOf(c, v), c.pre, start, q, k + 1)
    decreases n
  {
    hide Goes, Compacted, LaconEdge;
    if n > 0 {
      var p: nat :| LaconReach(c, v, Pos(v, k), s, p, n - 1) && LaconEdge(c, v, Pos(v, k), p, q);
      LaconReachIsRun(c, arcs, v, start, s, p, k, n - 1);
      LaconEdgeRun(c, arcs, v, start, p, q, k);
    }
  }

  /** Every state subset simulation reports lies on a path. */
  lemma {:induction false} SimulatedIsRun(c: Cnfa, arcs: set<Arc>, v: Text, start: nat, q: nat, k: nat)
    requires Compacted(c, arcs) && start <= v.Stop() && start <= k <= v.Stop() + 1
    requires q in SimSet(c, v, start, k)
    ensures Goes(arcs, EnvOf(c, v), c.pre, start, q, k + 1)
    decreases k
  {
    var e := EnvOf(c, v);
    var before := if k == start then {c.pre} else SimSet(c, v, start, k - 1);
    var plain := PlainStep(c, before, Sym(c, v, k));
    forall p | p in plain ensures Goes(arcs, e, c.pre, start, p, k + 1) {
      var o :| o in before && PlainEdge(c, Sym(c, v, k), o, p);
      if k == start {
        GoesNowhere(arcs, e, c.pre, start);
      } else {
        SimulatedIsRun(c, arcs, v, start, o, k - 1);
      }
      var a := EdgeArc(c, arcs, o, Carc(Sym(c, v, k), p));
      GoesOn(arcs, e, c.pre, start, a, k, k + 1);
    }
    var n: nat :| LaconReach(c, v, Pos(v, k), plain, q, n);
    LaconReachIsRun(c, arcs, v, start, plain, q, k, n);
  }

  /** The states subset simulation reports are exactly those at the end of some path. */
  lemma SimulationIsPaths(c: Cnfa, arcs: set<Arc>, v: Text, start: nat, q: nat, k: nat)
    requires Compacted(c, arcs) && Framed(arcs, c.pre, c.post) && WellFormed(c)
    requires start <= v.Stop() && start <= k <= v.Stop() + 1
    ensures q in SimSet(c, v, start, k) <==> Goes(arcs, EnvOf(c, v), c.pre, start, q, k + 1)
  {
    if q in SimSet(c, v, start, k) { SimulatedIsRun(c, arcs, v, start, q, k); }
    if Goes(arcs, EnvOf(c, v), c.pre, start, q, k + 1) {
      var n: nat :| Run(arcs, EnvOf(c, v), c.pre, start, q, k + 1, n);
      RunIsSimulated(c, arcs, v, start, q, k, n);
    }
  }

  /** The out-arc list of one state (regc_nfa.c:2849-2877); None is the REG_ASSERT error. Entries keep
      the order of the out-chain: the sort of carcsort() is not modelled. */
  method CompactState(nfa: Nfa, s: nat, ncolors: nat) returns (list: Option<seq<Carc>>)
    requires nfa.Valid() && s in nfa.ins
    ensures list.Some? ==> OutgoingListed(nfa.arcs, ncolors, s, list.value)
    ensures list.Some? <==> forall a :: a in nfa.arcs && a.from == s ==> a.typ == PLAIN || a.typ == LACON
  {
    var chain := nfa.outs[s];
    assert Lists(chain, OutSet(nfa.arcs, s));
    var cas: seq<Carc> := [];
    var i := 0;
    while i < |chain|
      invariant 0 <= i <= |chain| == |chain|
      invariant |cas| == i && forall k :: 0 <= k < i ==> cas[k] == CarcOf(chain[k], ncolors)
      invariant forall k :: 0 <= k < i ==> chain[k].typ == PLAIN || chain[k].typ == LACON
    {
      var a := chain[i];
      if a.typ != PLAIN && a.typ != LACON {
        assert a in OutSet(nfa.arcs, s);
        return None;
      }
      cas := cas + [CarcOf(a, ncolors)];
      i := i + 1;
    }
    list := Some(cas);
    assert forall a :: a in chain <==> a in nfa.arcs && a.from == s by {
      forall a ensures a in chain <==> a in nfa.arcs && a.from == s { assert a in chain <==> a in OutSet(nfa.arcs, s); }
    }
    forall ca ensures ca in cas <==> exists a :: a in nfa.arcs && a.from == s && ca == CarcOf(a, ncolors) {
      if ca in cas {
        var k :| 0 <= k < |cas| && cas[k] == ca;
        assert chain[k] in chain;
      }
      if a :| a in nfa.arcs && a.from == s && ca == CarcOf(a, ncolors) {
        var k :| 0 <= k < |chain| && chain[k] == a;
        assert cas[k] == ca;
      }
    }
  }

  /** States are numbered without gaps (cleanup(), regc_nfa.c:2688-2723). */
  ghost predicate Dense(nfa: Nfa)
    reads nfa
  {
    nfa.nstates == |nfa.states| && forall s :: s in nfa.ins <==> 0 <= s < nfa.nstates
  }

  /** Is some LACON arc among the lists? */
  method HasLacons(lists: seq<seq<Carc>>, ncolors: nat) returns (r: bool)
    ensures !r ==> forall p, j :: 0 <= p < |lists| && 0 <= j < |lists[p]| ==> lists[p][j].co < ncolors
  {
    var i := 0;
    while i < |lists|
      invariant 0 <= i <= |lists|
      invariant forall p, j :: 0 <= p < i && 0 <= j < |lists[p]| ==> lists[p][j].co < ncolors
    {
      var k := 0;
      while k < |lists[i]|
        invariant 0 <= k <= |lists[i]|
        invariant forall j :: 0 <= j < k ==> lists[i][j].co < ncolors
      {
        if lists[i][k].co >= ncolors { return true; }
        k := k + 1;
      }
      i := i + 1;
    }
    r := false;
  }

  /** Mark the no-progress states (regc_nfa.c:2885-2888). */
  method MarkNoProgress(outs: seq<Carc>, pre: nat, n: nat) returns (flags: seq<bool>)
    requires pre < n && forall j :: 0 <= j < |outs| ==> outs[j].to < n
    ensures |flags| == n
    ensures forall q :: 0 <= q < n ==> (flags[q] <==> q == pre || exists co :: Carc(co, q) in outs)
  {
    flags := seq(n, _ => false);
    var i := 0;
    while i < |outs|
      invariant 0 <= i <= |outs| && |flags| == n
      invariant forall q :: 0 <= q < n ==> (flags[q] <==> exists j :: 0 <= j < i && outs[j].to == q)
    {
      flags := flags[outs[i].to := true];
      i := i + 1;
    }
    forall q: nat | q < n ensures flags[q] <==> exists co :: Carc(co, q) in outs {
      if flags[q] {
        var j :| 0 <= j < |outs| && outs[j].to == q;
        assert Carc(outs[j].co, q) in outs;
      }
      if co :| Carc(co, q) in outs {
        var j :| 0 <= j < |outs| && outs[j] == Carc(co, q);
      }
    }
    flags := flags[pre := true];
  }

  /** Every arc list of regc_nfa.c:2849-2877, or None when an arc cannot be compacted. */
  method CompactStates(nfa: Nfa, ncolors: nat) returns (lists: Option<seq<seq<Carc>>>)
    requires nfa.Valid() && Dense(nfa)
    ensures lists.Some? ==> |lists.value| == |nfa.states|
    ensures lists.Some? ==> forall p :: 0 <= p < |lists.value| ==> OutgoingListed(nfa.arcs, ncolors, p, lists.value[p])
    ensures lists.Some? <==> forall a :: a in nfa.arcs ==> a.typ == PLAIN || a.typ == LACON
  {
    var done: seq<seq<Carc>> := [];
    hide OutgoingListed;
    while |done| < nfa.nstates
      invariant |done| <= nfa.nstates
      invariant forall p :: 0 <= p < |done| ==> OutgoingListed(nfa.arcs, ncolors, p, done[p])
      invariant forall a :: a in nfa.arcs && a.from < |done| ==> a.typ == PLAIN || a.typ == LACON
      decreases nfa.nstates - |done|
    {
      var list := CompactState(nfa, |done|, ncolors);
      if list.None? { return None; }
      done := done + [list.value];
    }
    assert Within(nfa.arcs, nfa.ins.Keys);
    lists := Some(done);
  }

  /** compact(). The result is an automaton the executor can run. */
  method Compact(nfa: Nfa, ncolors: nat, bos: (nat, nat), eos: (nat, nat)) returns (r: Option<Cnfa>)
    requires nfa.Valid() && Dense(nfa) && nfa.pre in nfa.ins && nfa.post in nfa.ins
    requires Framed(nfa.arcs, nfa.pre, nfa.post)
    requires forall a :: a in nfa.arcs && a.typ == PLAIN ==> a.co < ncolors
    requires bos.0 < ncolors && bos.1 < ncolors && eos.0 < ncolors && eos.1 < ncolors
    ensures r.Some? <==> forall a :: a in nfa.arcs ==> a.typ == PLAIN || a.typ == LACON
    ensures r.Some? ==> WellFormed(r.value) && Compacted(r.value, nfa.arcs)
    ensures r.Some? ==> var c := r.value;
      c.pre == nfa.pre && c.post == nfa.post && c.ncolors == ncolors && c.bos == bos && c.eos == eos
  {
    var lists := CompactStates(nfa, ncolors);
    if lists.None? { return None; }
    ListsBounded(nfa.arcs, ncolors, lists.value, nfa.pre, nfa.post, nfa.ins.Keys);
    hide OutgoingListed;
    var lacons := HasLacons(lists.value, ncolors);
    var flags := MarkNoProgress(lists.value[nfa.pre], nfa.pre, |lists.value|);
    r := Some(Cnfa(ncolors, lacons, nfa.pre, nfa.post, bos, eos, flags, lists.value));
  }

  lemma ListsBounded(arcs: set<Arc>, ncolors: nat, lists: seq<seq<Carc>>, pre: nat, post: nat, keys: set<nat>)
    requires forall p :: 0 <= p < |lists| ==> OutgoingListed(arcs, ncolors, p, lists[p])
    requires Within(arcs, keys) && (forall s :: s in keys <==> 0 <= s < |lists|) && pre < |lists|
    requires Framed(arcs, pre, post) && forall a :: a in arcs && a.typ == PLAIN ==> a.co < ncolors
    ensures forall p, j :: 0 <= p < |lists| && 0 <= j < |lists[p]| ==> lists[p][j].to < |lists|
    ensures forall j :: 0 <= j < |lists[pre]| ==> lists[pre][j].co < ncolors && lists[pre][j].to != post
    ensures forall p, j :: 0 <= p < |lists| && 0 <= j < |lists[p]| && lists[p][j].to == post ==> lists[p][j].co < ncolors
  {
    forall p, j | 0 <= p < |lists| && 0 <= j < |lists[p]|
      ensures lists[p][j].to < |lists|
      ensures p == pre ==> lists[p][j].co < ncolors && lists[p][j].to != post
      ensures lists[p][j].to == post ==> lists[p][j].co < ncolors
    {
      assert lists[p][j] in lists[p];
      var a :| a in arcs && a.from == p && lists[p][j] == CarcOf(a, ncolors);
    }
  }
}
