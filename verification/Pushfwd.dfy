/** push() itself and the loop over the constraints of one state (regc_nfa.c:1626-1799). What is known of
    the arcs is said about them turned around, where a push is a pull. */
module Pushfwd {
  import opened Options
  import opened Nfa
  import opened Runs
  import opened Pulling
  import opened Pushing
  import opened Pullback
  import T = Potential

  ghost function TurnMids(mids: map<nat, (nat, nat)>): map<nat, (nat, nat)> {
    map m | m in mids :: (mids[m].1, mids[m].0)
  }

  lemma TurnedSearchable(arcs: set<Arc>, mids: map<nat, (nat, nat)>)
    requires Searchable(RevAll(arcs), mids)
    ensures Searchable(arcs, TurnMids(mids))
  {
    var mids2 := TurnMids(mids);
    forall m | m in mids2 ensures Between(arcs, m, mids2[m].0, mids2[m].1) {
      assert Between(RevAll(arcs), m, mids[m].0, mids[m].1);
      var e1 :| e1 in RevAll(arcs) && e1.to == m;
      var e2 :| e2 in RevAll(arcs) && e2.from == m;
      RevIn(arcs, e1);
      RevIn(arcs, e2);
      forall e | e in arcs ensures Rev(e) in RevAll(arcs) { RevIn(arcs, e); }
    }
  }

  lemma TurnedEnlisted(list: seq<nat>, mids: map<nat, (nat, nat)>)
    requires Enlisted(list, mids)
    ensures Enlisted(list, TurnMids(mids)) && TurnMids(mids).Keys == mids.Keys
  {
  }

  lemma TurnedUnmade(mids: map<nat, (nat, nat)>, p: nat, t: nat)
    requires Unmade(TurnMids(mids), p, t)
    ensures Unmade(mids, t, p)
  {
    forall m | m in mids ensures mids[m] != (t, p) { assert TurnMids(mids)[m] != (p, t); }
  }

  /** Swap the constraint with a passing out-arc (regc_nfa.c:1765-1784). */
  method SwapOut(nfa: Nfa, con: Arc, a: Arc, intermediates: Option<nat>, ghost list: seq<nat>, ghost mids2: map<nat, (nat, nat)>)
    returns (m: nat, newest: Option<nat>, ghost isNew: bool)
    requires nfa.Valid() && con.from in nfa.ins && con.to in nfa.ins && a in nfa.arcs && con.from != con.to && a.from == con.to
    requires con.to !in mids2 && Searchable(RevAll(nfa.arcs), mids2) && Enlisted(list, mids2) && mids2.Keys <= nfa.ins.Keys
    requires nfa.tmp == Chain(list) && intermediates == Newest(list)
    modifies nfa`states, nfa`nstates, nfa`ins, nfa`outs, nfa`arcs, nfa`tmp
    ensures nfa.Valid() && nfa.tmp == Chain(if isNew then list + [m] else list) && newest == Newest(if isNew then list + [m] else list)
    ensures nfa.arcs == old(nfa.arcs) + {con.(from := m, to := a.to), a.(from := con.from, to := m)} - {a}
    ensures nfa.ins.Keys == if isNew then old(nfa.ins.Keys) + {m} else old(nfa.ins.Keys)
    ensures if isNew then m !in old(nfa.ins) && Unmade(mids2, a.to, con.from) else m in mids2 && mids2[m] == (a.to, con.from)
  {
    hide Agree, StatesAgree, Within, Chain, Searchable, Enlisted, Unmade, Newest;
    Ends(nfa.arcs, a, nfa.ins.Keys);
    TurnedSearchable(nfa.arcs, mids2);
    TurnedEnlisted(list, mids2);
    m, newest, isNew := MidFor(nfa, con.from, a.to, intermediates, list, TurnMids(mids2));
    if isNew { TurnedUnmade(mids2, con.from, a.to); }
    Exchange(nfa, con.(from := m, to := a.to), a.(from := con.from, to := m), a);
  }

  lemma RevExchange(arcs: set<Arc>, con: Arc, a: Arc, m: nat)
    ensures RevAll(arcs + {con.(from := m, to := a.to), a.(from := con.from, to := m)} - {a})
         == RevAll(arcs) + {Rev(con).(from := a.to, to := m), Rev(a).(from := m, to := con.from)} - {Rev(a)}
  {
    var e1, e2 := con.(from := m, to := a.to), a.(from := con.from, to := m);
    assert arcs + {e1, e2} == arcs + {e1} + {e2};
    RevAdd(arcs, e1);
    RevAdd(arcs + {e1}, e2);
    RevRemove(arcs + {e1, e2}, a);
  }

  /** One passing out-arc of the loop. */
  method SwapOutNext(nfa: Nfa, con: Arc, a: Arc, intermediates: Option<nat>, ghost arcs: set<Arc>, ghost mids: map<nat, (nat, nat)>,
                     ghost mid: map<nat, nat>, ghost keys: set<nat>, ghost mids2: map<nat, (nat, nat)>, ghost done: set<Arc>, ghost list: seq<nat>)
    returns (newest: Option<nat>, ghost mid3: map<nat, nat>, ghost mids3: map<nat, (nat, nat)>, ghost list3: seq<nat>)
    requires nfa.Valid() && nfa.tmp == Chain(list) && intermediates == Newest(list) && Fwd(con.typ)
    requires Propagating(arcs, Rev(con), mids, mid, keys, mids2, done, RevAll(nfa.arcs), list, nfa.ins.Keys)
    requires Rev(a) in arcs && a.from == con.to && Rev(a) !in done && Combine(con, a) == COMPATIBLE
    modifies nfa`states, nfa`nstates, nfa`ins, nfa`outs, nfa`arcs, nfa`tmp
    ensures nfa.Valid() && nfa.tmp == Chain(list3) && newest == Newest(list3)
    ensures Propagating(arcs, Rev(con), mids, mid3, keys, mids3, done + {Rev(a)}, RevAll(nfa.arcs), list3, nfa.ins.Keys)
  {
    hide Agree, StatesAgree, Within, Chain, Searchable, Propagating, Enlisted, Combine, Unmade, Newest;
    PropagatingSearchable(arcs, Rev(con), mids, mid, keys, mids2, done, RevAll(nfa.arcs), list, nfa.ins.Keys);
    PropagatingEnds(arcs, Rev(con), mids, mid, keys, mids2, done, RevAll(nfa.arcs), list, nfa.ins.Keys, Rev(a));
    RevIn(nfa.arcs, a);
    RevCombine(con, a);
    ghost var now, keys2 := nfa.arcs, nfa.ins.Keys;
    var m;
    ghost var isNew;
    m, newest, isNew := SwapOut(nfa, con, a, intermediates, list, mids2);
    RevExchange(now, con, a, m);
    PropagatingSwap(arcs, Rev(con), mids, mid, keys, mids2, done, RevAll(now), list, keys2, Rev(a), m, isNew);
    mid3 := mid[a.to := m];
    mids3 := if isNew then mids2[m := (a.to, con.from)] else mids2;
    list3 := if isNew then list + [m] else list;
  }

  /** One out-arc of the loop. */
  method PropagateOutOne(nfa: Nfa, con: Arc, a: Arc, intermediates: Option<nat>, ghost arcs: set<Arc>, ghost mids: map<nat, (nat, nat)>,
                         ghost mid: map<nat, nat>, ghost keys: set<nat>, ghost mids2: map<nat, (nat, nat)>, ghost done: set<Arc>, ghost list: seq<nat>)
    returns (newest: Option<nat>, ghost mid3: map<nat, nat>, ghost mids3: map<nat, (nat, nat)>, ghost list3: seq<nat>)
    requires nfa.Valid() && nfa.tmp == Chain(list) && intermediates == Newest(list) && Fwd(con.typ)
    requires Propagating(arcs, Rev(con), mids, mid, keys, mids2, done, RevAll(nfa.arcs), list, nfa.ins.Keys)
    requires Rev(a) in arcs && a.from == con.to && Rev(a) !in done
    modifies nfa`states, nfa`nstates, nfa`ins, nfa`outs, nfa`arcs, nfa`tmp
    ensures nfa.Valid() && nfa.tmp == Chain(list3) && newest == Newest(list3)
    ensures Propagating(arcs, Rev(con), mids, mid3, keys, mids3, done + {Rev(a)}, RevAll(nfa.arcs), list3, nfa.ins.Keys)
  {
    hide Agree, StatesAgree, Within, Chain, Searchable, Propagating, Enlisted, Combine, Newest;
    newest, mid3, mids3, list3 := intermediates, mid, mids2, list;
    RevCombine(con, a);
    RevIn(nfa.arcs, a);
    match Combine(con, a) {
      case INCOMPATIBLE =>
        PropagatingPlain(arcs, Rev(con), mids, mid, keys, mids2, done, RevAll(nfa.arcs), list, nfa.ins.Keys, Rev(a));
        RevRemove(nfa.arcs, a);
        nfa.Unlink(a);
      case SATISFIED =>
        PropagatingPlain(arcs, Rev(con), mids, mid, keys, mids2, done, RevAll(nfa.arcs), list, nfa.ins.Keys, Rev(a));
      case COMPATIBLE =>
        newest, mid3, mids3, list3 := SwapOutNext(nfa, con, a, newest, arcs, mids, mid, keys, mids2, done, list);
    }
  }

  /** Propagate the constraint into its target's out-arcs (regc_nfa.c:1757-1789). */
  method PropagateOut(nfa: Nfa, con: Arc, intermediates: Option<nat>, ghost list: seq<nat>, ghost mids: map<nat, (nat, nat)>)
    returns (newest: Option<nat>, ghost mid: map<nat, nat>, ghost mids2: map<nat, (nat, nat)>, ghost list2: seq<nat>)
    requires nfa.Valid() && con in nfa.arcs && con.from != con.to && Fwd(con.typ) && Aside(RevAll(nfa.arcs), Rev(con), mids)
    requires Enlisted(list, mids) && mids.Keys <= nfa.ins.Keys && nfa.tmp == Chain(list) && intermediates == Newest(list)
    modifies nfa`states, nfa`nstates, nfa`ins, nfa`outs, nfa`arcs, nfa`tmp
    ensures nfa.Valid() && nfa.tmp == Chain(list2) && newest == Newest(list2)
    ensures Propagating(RevAll(old(nfa.arcs)), Rev(con), mids, mid, old(nfa.ins.Keys), mids2, InSet(RevAll(old(nfa.arcs)), con.to),
                        RevAll(nfa.arcs), list2, nfa.ins.Keys)
  {
    ghost var arcs, keys := nfa.arcs, nfa.ins.Keys;
    assert Within(arcs, keys);
    RevWithin(arcs, keys);
    RevIn(arcs, con);
    assert con.to in nfa.ins;
    var chain := nfa.outs[con.to];
    assert Lists(chain, OutSet(arcs, con.to));
    newest, mid, mids2, list2 := intermediates, map[], mids, list;
    PropagatingStart(RevAll(arcs), Rev(con), mids, keys, list);
    hide Agree, StatesAgree, Within, Chain, Searchable, Propagating, Lists, Enlisted, Newest, Aside;
    RevDoneStart(chain);
    var i := 0;
    while i < |chain|
      invariant 0 <= i <= |chain| && nfa.Valid() && nfa.tmp == Chain(list2) && newest == Newest(list2)
      invariant Propagating(RevAll(arcs), Rev(con), mids, mid, keys, mids2, RevAll(Set(chain[..i])), RevAll(nfa.arcs), list2, nfa.ins.Keys)
    {
      RevDoneNext(chain, arcs, con.to, i);
      newest, mid, mids2, list2 := PropagateOutOne(nfa, con, chain[i], newest, RevAll(arcs), mids, mid, keys, mids2, RevAll(Set(chain[..i])), list2);
      i := i + 1;
    }
    RevDoneEnd(chain, arcs, con.to);
  }

  lemma RevDoneStart(chain: seq<Arc>)
    ensures RevAll(Set(chain[..0])) == {}
  {
  }

  lemma RevDoneNext(chain: seq<Arc>, arcs: set<Arc>, f: nat, i: nat)
    requires Lists(chain, OutSet(arcs, f)) && i < |chain|
    ensures Rev(chain[i]) in RevAll(arcs) && chain[i].from == f && Rev(chain[i]) !in RevAll(Set(chain[..i]))
    ensures RevAll(Set(chain[..i + 1])) == RevAll(Set(chain[..i])) + {Rev(chain[i])}
  {
    assert chain[i] in OutSet(arcs, f);
    assert chain[..i + 1] == chain[..i] + [chain[i]];
    assert Set(chain[..i + 1]) == Set(chain[..i]) + {chain[i]};
    RevAdd(Set(chain[..i]), chain[i]);
    RevIn(arcs, chain[i]);
    RevIn(Set(chain[..i]), chain[i]);
  }

  lemma RevDoneEnd(chain: seq<Arc>, arcs: set<Arc>, f: nat)
    requires Lists(chain, OutSet(arcs, f))
    ensures RevAll(Set(chain[..|chain|])) == InSet(RevAll(arcs), f)
  {
    assert chain[..|chain|] == chain;
    assert Set(chain) == OutSet(arcs, f);
    RevOuts(arcs, f);
  }

  // ---------------------------------------------------------------- push()

  /** The arcs once con's target has been cloned into s, which gets con alone (regc_nfa.c:1737-1750). */
  ghost function ClonedOut(arcs: set<Arc>, con: Arc, s: nat): set<Arc> {
    Copied(arcs, false, con.to, s) + {con.(to := s)} - {con}
  }

  lemma RevCloned(arcs: set<Arc>, con: Arc, s: nat)
    ensures RevAll(ClonedOut(arcs, con, s)) == Cloned(RevAll(arcs), Rev(con), s)
  {
    RevCopied(arcs, con.to, s);
    RevAdd(Copied(arcs, false, con.to, s), con.(to := s));
    RevRemove(Copied(arcs, false, con.to, s) + {con.(to := s)}, con);
  }

  /** Clone con's target if necessary to avoid other in-arcs. */
  method IsolateTarget(nfa: Nfa, con: Arc) returns (con1: Arc)
    requires nfa.Valid() && con in nfa.arcs && con.from != con.to
    modifies nfa`states, nfa`nstates, nfa`ins, nfa`outs, nfa`arcs
    ensures nfa.Valid() && con1 in nfa.arcs && con1 == con.(to := con1.to)
    ensures AloneIn(old(nfa.arcs), con) ==> con1 == con && nfa.arcs == old(nfa.arcs) && nfa.ins.Keys == old(nfa.ins.Keys)
    ensures !AloneIn(old(nfa.arcs), con) ==> con1.to !in old(nfa.ins) && nfa.arcs == ClonedOut(old(nfa.arcs), con, con1.to)
    ensures !AloneIn(old(nfa.arcs), con) ==> nfa.ins.Keys == old(nfa.ins.Keys) + {con1.to}
  {
    ghost var arcs := nfa.arcs;
    assert Within(arcs, nfa.ins.Keys);
    assert Lists(nfa.ins[con.to], InSet(arcs, con.to));
    OnlyIn(nfa.ins[con.to], arcs, con);
    con1 := con;
    hide Agree, StatesAgree, Within, AloneIn, Copied, Lists;
    if |nfa.ins[con.to]| > 1 {
      var s := nfa.NewState();
      con1 := con.(to := s);
      CloneOutInto(nfa, con, s);
    }
  }

  method CloneOutInto(nfa: Nfa, con: Arc, s: nat)
    requires nfa.Valid() && con in nfa.arcs && s in nfa.ins && con.from in nfa.ins && con.to in nfa.ins && con.to != s
    modifies nfa`ins, nfa`outs, nfa`arcs
    ensures nfa.Valid() && nfa.arcs == ClonedOut(old(nfa.arcs), con, s) && nfa.ins.Keys == old(nfa.ins.Keys)
    ensures con.(to := s) in nfa.arcs
  {
    hide Agree, StatesAgree, Within, Copied;
    nfa.CopyOuts(con.to, s);
    CopiedOutMore(old(nfa.arcs), con.to, s);
    SameKeys(nfa);
    nfa.LinkUnlessPresent(con.(to := s));
    nfa.Unlink(con);
  }

  lemma CopiedOutMore(arcs: set<Arc>, f: nat, s: nat)
    ensures arcs <= Copied(arcs, false, f, s)
  {
  }

  lemma OnlyIn(chain: seq<Arc>, arcs: set<Arc>, con: Arc)
    requires con in arcs && Lists(chain, InSet(arcs, con.to))
    ensures |chain| > 1 <==> !AloneIn(arcs, con)
  {
    assert con in InSet(arcs, con.to);
    var i :| 0 <= i < |chain| && chain[i] == con;
    if |chain| > 1 {
      var j := if i == 0 then 1 else 0;
      assert chain[j] != con && chain[j] in InSet(arcs, con.to);
    } else {
      forall e | e in arcs && e.to == con.to ensures e == con {
        assert e in InSet(arcs, con.to) && e in chain;
      }
    }
  }

  /** The intermediate states made so far for the constraints that enter f. */
  ghost predicate MidsKnownFwd(nfa: Nfa, f: nat, intermediates: Option<nat>, list: seq<nat>, mids: map<nat, (nat, nat)>)
    reads nfa
  {
    && SharedOk(RevAll(nfa.arcs), f, mids, nfa.post, nfa.pre) && Enlisted(list, mids) && mids.Keys <= nfa.ins.Keys
    && nfa.tmp == Chain(list) && intermediates == Newest(list)
  }

  lemma OutsAgree(nfa: Nfa, con: Arc)
    requires nfa.Valid() && con in nfa.arcs
    ensures con.from in nfa.ins && con.to in nfa.ins && con.to in nfa.outs && Within(nfa.arcs, nfa.ins.Keys)
    ensures nfa.outs[con.to] == [] ==> InSet(RevAll(nfa.arcs), con.to) == {}
  {
    assert Lists(nfa.outs[con.to], OutSet(nfa.arcs, con.to));
    RevOuts(nfa.arcs, con.to);
    if nfa.outs[con.to] == [] { assert OutSet(nfa.arcs, con.to) == {}; }
  }

  lemma NotIntoPre(arcs: set<Arc>, pre: nat, post: nat, con: Arc)
    requires Shaped(arcs, pre, post) && con in arcs
    ensures con.to != pre
  {
  }

  /** push(), regc_nfa.c:1710-1799. */
  method Push(nfa: Nfa, con: Arc, intermediates: Option<nat>, ghost list: seq<nat>, ghost mids: map<nat, (nat, nat)>, ghost rank: nat -> int)
    returns (done: bool, newest: Option<nat>, ghost list2: seq<nat>, ghost mids2: map<nat, (nat, nat)>, ghost mid: map<nat, nat>, ghost alone: bool)
    requires nfa.Valid() && con in nfa.arcs && Fwd(con.typ) && nfa.pre in nfa.ins && nfa.post in nfa.ins
    requires Shaped(nfa.arcs, nfa.pre, nfa.post) && Ranked(RevAll(nfa.arcs), rank) && MidsKnownFwd(nfa, con.to, intermediates, list, mids)
    modifies nfa`states, nfa`nstates, nfa`ins, nfa`outs, nfa`arcs, nfa`tmp
    ensures nfa.Valid() && old(nfa.ins.Keys) <= nfa.ins.Keys && (done <==> con.to != nfa.post)
    ensures nfa.tmp == Chain(list2) && newest == Newest(list2) && Unlike(list2)
    ensures !done ==> nfa.states == old(nfa.states) && nfa.arcs == old(nfa.arcs) && MidsKnownFwd(nfa, con.to, newest, list2, mids2)
    ensures done ==> Pushed(old(nfa.arcs), con, mid, alone, nfa.arcs) && MidsReadyFwd(old(nfa.arcs), con, mid, nfa.pre, nfa.post)
    ensures done && alone ==> AloneIn(old(nfa.arcs), con)
    ensures done && !alone ==> MidsKnownFwd(nfa, con.to, newest, list2, mids2)
  {
    hide Agree, StatesAgree, Within, Chain, Searchable, Propagating, Enlisted, Newest, Aside, Alone, Copied, SharedOk, MidsReady,
      Pulled, Landed, Propagated, Chosen, SourcesOf, Moved, AloneIn;
    newest, list2, mids2, mid, alone := intermediates, list, mids, map[], false;
    EnlistedUnlike(list, mids);
    if nfa.Flagged(con.to) {
      NotIntoPre(nfa.arcs, nfa.pre, nfa.post, con);
      return false, newest, list2, mids2, mid, alone;
    }
    done := true;
    OutsAgree(nfa, con);
    RevIn(nfa.arcs, con);
    if nfa.outs[con.to] == [] {
      NoInArcs(RevAll(nfa.arcs), Rev(con), mids, nfa.post, nfa.pre);
      RevRemove(nfa.arcs, con);
      nfa.Unlink(con);
      return;
    }
    newest, list2, mids2, mid, alone := PushReachable(nfa, con, intermediates, list, mids, rank);
  }

  /** The rest of push(), for a constraint whose target leads somewhere. */
  method PushReachable(nfa: Nfa, con: Arc, intermediates: Option<nat>, ghost list: seq<nat>, ghost mids: map<nat, (nat, nat)>, ghost rank: nat -> int)
    returns (newest: Option<nat>, ghost list2: seq<nat>, ghost mids2: map<nat, (nat, nat)>, ghost mid: map<nat, nat>, ghost alone: bool)
    requires nfa.Valid() && con in nfa.arcs && Fwd(con.typ) && nfa.pre in nfa.ins && nfa.post in nfa.ins
    requires Ranked(RevAll(nfa.arcs), rank) && MidsKnownFwd(nfa, con.to, intermediates, list, mids)
    modifies nfa`states, nfa`nstates, nfa`ins, nfa`outs, nfa`arcs, nfa`tmp
    ensures nfa.Valid() && old(nfa.ins.Keys) <= nfa.ins.Keys && nfa.tmp == Chain(list2) && newest == Newest(list2) && Unlike(list2)
    ensures Pushed(old(nfa.arcs), con, mid, alone, nfa.arcs) && MidsReadyFwd(old(nfa.arcs), con, mid, nfa.pre, nfa.post)
    ensures alone ==> AloneIn(old(nfa.arcs), con)
    ensures !alone ==> MidsKnownFwd(nfa, con.to, newest, list2, mids2)
  {
    hide Agree, StatesAgree, Within, Chain, Searchable, Propagating, Enlisted, Newest, Aside, Alone, Copied, SharedOk, MidsReady,
      Pulled, Landed, Propagated, Chosen, SourcesOf, Moved, Cloned, ClonedOut, AloneIn, Ranked, RevAll;
    ghost var arcs, keys := nfa.arcs, nfa.ins.Keys;
    alone := AloneIn(arcs, con);
    RevIn(arcs, con);
    RevAlone(arcs, con);
    NoLoopAt(RevAll(arcs), Rev(con), rank);
    OutsAgree(nfa, con);
    RevWithin(arcs, keys);
    var con1 := IsolateTarget(nfa, con);
    ghost var arcs1, keys1 := nfa.arcs, nfa.ins.Keys;
    RevCloned(arcs, con, con1.to);
    IsolatedAside(RevAll(arcs), Rev(con), mids, nfa.post, nfa.pre, rank, Rev(con1), RevAll(arcs1), keys);
    newest, mid, mids2, list2 := PropagateOut(nfa, con1, intermediates, list, mids);
    ghost var now, keys2 := nfa.arcs, nfa.ins.Keys;
    LandReady(RevAll(arcs1), Rev(con1), mids, mid, keys1, mids2, RevAll(now), list2, keys2);
    EnlistedUnlike(list2, mids2);
    RevMoved(now, con1.to, con1.from);
    RevIn(Moved(now, false, con1.to, con1.from), con1);
    nfa.MoveOuts(con1.to, con1.from);
    RevRemove(nfa.arcs, con1);
    nfa.Unlink(con1);
    LandedPulled(RevAll(arcs), Rev(con), mids, mid, keys, keys1, mids2, nfa.post, nfa.pre, rank, Rev(con1), RevAll(arcs1), RevAll(now), list2, keys2);
  }

  // ---------------------------------------------------------------- all the constraints of one state

  lemma RevLess(a: set<Arc>, b: set<Arc>)
    requires b <= a
    ensures RevAll(b) <= RevAll(a)
  {
  }

  lemma PushedSpent(now: set<Arc>, con: Arc, mid: map<nat, nat>, alone: bool, b: set<Arc>, pre: nat, post: nat, rank: nat -> int)
    requires Pushed(now, con, mid, alone, b) && MidsReadyFwd(now, con, mid, pre, post)
    requires con in now && Fwd(con.typ) && con.to != post && Ranked(now, rank)
    ensures T.Spent(RevAll(now), RevAll(b), post, true)
  {
    RevIn(now, con);
    RevRanked(now, rank);
    hide Pulled, MidsReady, T.Spent, Ranked;
    PulledSpent(RevAll(now), Rev(con), mid, alone, RevAll(b), post, pre, RevRank(rank));
  }

  lemma PushedFaithful(was: set<Arc>, now: set<Arc>, con: Arc, mid: map<nat, nat>, alone: bool, b: set<Arc>, pre: nat, post: nat, rank: nat -> int)
    requires Faithful(was, now, pre, post, rank, false) && con in now && Fwd(con.typ) && con.to != post
    requires Pushed(now, con, mid, alone, b) && MidsReadyFwd(now, con, mid, pre, post) && (alone ==> AloneIn(now, con))
    ensures Faithful(was, b, pre, post, RevRank(PullRank(RevRank(rank), mid, con.to)), false)
  {
    RevIn(now, con);
    RevRanked(now, rank);
    NoLoopAt(RevAll(now), Rev(con), RevRank(rank));
    PushSame(now, con, mid, alone, b, pre, post);
    PullKeepsRanked(RevAll(now), Rev(con), mid, alone, RevAll(b), post, pre, RevRank(rank));
    RevRankedBack(b, PullRank(RevRank(rank), mid, con.to));
    hide SameTexts, Labelled, Shaped, Ranked, Pushed, MidsReadyFwd;
    SameTextsTrans(was, now, b, pre, post, false);
    LabelledTrans(was, now, b);
  }

  /** The in-arcs of s still to be looked at are there, and so are all the forward constraints left. */
  ghost predicate RemainingIn(now: set<Arc>, s: nat, post: nat, chain: seq<Arc>, i: nat) {
    && (forall j :: i <= j < |chain| ==> chain[j] in now && chain[j].to == s)
    && (forall j, l :: i <= j < l < |chain| ==> chain[j] != chain[l])
    && (s != post ==> forall e :: e in now && e.to == s && Fwd(e.typ) ==> exists j :: i <= j < |chain| && chain[j] == e)
  }

  /** A push makes no new constraint that enters con's target. */
  lemma NoNewConstraintIn(now: set<Arc>, con: Arc, mid: map<nat, nat>, alone: bool, b: set<Arc>, pre: nat, post: nat, rank: nat -> int, e: Arc)
    requires con in now && Fwd(con.typ) && Ranked(RevAll(now), rank)
    requires Pushed(now, con, mid, alone, b) && MidsReadyFwd(now, con, mid, pre, post)
    requires e in b && e.to == con.to && Fwd(e.typ)
    ensures e in now && e != con
  {
    RevIn(now, con);
    RevIn(now, e);
    RevIn(b, e);
    RevTwice(e);
    RevTwice(con);
    NoNewConstraint(RevAll(now), Rev(con), mid, alone, RevAll(b), post, pre, rank, Rev(e));
  }

  lemma RemainingInNext(now: set<Arc>, s: nat, pre: nat, post: nat, chain: seq<Arc>, i: nat, mid: map<nat, nat>, alone: bool, b: set<Arc>, rank: nat -> int)
    requires RemainingIn(now, s, post, chain, i) && i < |chain| && Ranked(RevAll(now), rank) && s != post
    requires var con := chain[i]; Fwd(con.typ) && Pushed(now, con, mid, alone, b) && MidsReadyFwd(now, con, mid, pre, post) && (alone ==> AloneIn(now, con))
    ensures RemainingIn(b, s, post, chain, i + 1) && (alone ==> i + 1 == |chain|)
  {
    var con := chain[i];
    RevIn(now, con);
    NoLoopAt(RevAll(now), Rev(con), rank);
    forall e | e in b && e.to == s && Fwd(e.typ) ensures exists j :: i + 1 <= j < |chain| && chain[j] == e {
      NoNewConstraintIn(now, con, mid, alone, b, pre, post, rank, e);
      var j :| i <= j < |chain| && chain[j] == e;
      assert i + 1 <= j;
    }
    if i + 1 < |chain| { assert chain[i + 1] in now && chain[i + 1].to == con.to && chain[i + 1] != con; }
    forall j | i + 1 <= j < |chain| ensures chain[j] in b {
      PushedIs(now, con, mid, alone, b, chain[j]);
    }
  }

  lemma RemainingInSkip(now: set<Arc>, s: nat, post: nat, chain: seq<Arc>, i: nat)
    requires RemainingIn(now, s, post, chain, i) && i < |chain| && (!Fwd(chain[i].typ) || s == post)
    ensures RemainingIn(now, s, post, chain, i + 1)
  {
    if s != post {
      forall e | e in now && e.to == s && Fwd(e.typ) ensures exists j :: i + 1 <= j < |chain| && chain[j] == e {
        var j :| i <= j < |chain| && chain[j] == e;
        assert i + 1 <= j;
      }
    }
  }

  lemma RemainingInHead(now: set<Arc>, s: nat, post: nat, chain: seq<Arc>, i: nat)
    requires RemainingIn(now, s, post, chain, i) && i < |chain|
    ensures chain[i] in now && chain[i].to == s
  {
  }

  lemma RemainingInNone(now: set<Arc>, s: nat, post: nat, chain: seq<Arc>)
    requires RemainingIn(now, s, post, chain, |chain|)
    ensures s != post ==> forall e :: e in now && e.to == s ==> !Fwd(e.typ)
  {
  }

  lemma RemainingInStart(nfa: Nfa, s: nat)
    requires nfa.Valid() && s in nfa.ins
    ensures RemainingIn(nfa.arcs, s, nfa.post, nfa.ins[s], 0)
  {
    var chain := nfa.ins[s];
    assert Lists(chain, InSet(nfa.arcs, s));
    forall j | 0 <= j < |chain| ensures chain[j] in InSet(nfa.arcs, s) {}
    forall e | e in nfa.arcs && e.to == s ensures exists j :: 0 <= j < |chain| && chain[j] == e {
      assert e in InSet(nfa.arcs, s) && e in chain;
    }
  }

  lemma MidsKnownFwdStart(nfa: Nfa, s: nat)
    requires nfa.tmp == map[]
    ensures MidsKnownFwd(nfa, s, None, [], map[])
  {
  }

  lemma KnownFwdParts(nfa: Nfa, s: nat, newest: Option<nat>, list: seq<nat>, mids: map<nat, (nat, nat)>)
    requires MidsKnownFwd(nfa, s, newest, list, mids)
    ensures nfa.tmp == Chain(list) && newest == Newest(list) && Unlike(list)
  {
  }

  /** One forward constraint of the chain. */
  method PushOne(nfa: Nfa, s: nat, chain: seq<Arc>, i: nat, intermediates: Option<nat>, ghost was: set<Arc>, ghost list: seq<nat>,
                 ghost mids: map<nat, (nat, nat)>, ghost rank: nat -> int)
    returns (done: bool, newest: Option<nat>, ghost list2: seq<nat>, ghost mids2: map<nat, (nat, nat)>, ghost rank2: nat -> int, ghost over: bool)
    requires nfa.Valid() && nfa.pre in nfa.ins && nfa.post in nfa.ins && i < |chain| && Fwd(chain[i].typ)
    requires Faithful(was, nfa.arcs, nfa.pre, nfa.post, rank, false) && RemainingIn(nfa.arcs, s, nfa.post, chain, i)
    requires MidsKnownFwd(nfa, s, intermediates, list, mids)
    modifies nfa`states, nfa`nstates, nfa`ins, nfa`outs, nfa`arcs, nfa`tmp
    ensures nfa.Valid() && old(nfa.ins.Keys) <= nfa.ins.Keys && nfa.tmp == Chain(list2) && newest == Newest(list2) && Unlike(list2)
    ensures Faithful(was, nfa.arcs, nfa.pre, nfa.post, rank2, false) && RemainingIn(nfa.arcs, s, nfa.post, chain, i + 1)
    ensures if over then i + 1 == |chain| else MidsKnownFwd(nfa, s, newest, list2, mids2)
    ensures !done ==> nfa.states == old(nfa.states) && nfa.arcs == old(nfa.arcs)
    ensures T.Spent(RevAll(old(nfa.arcs)), RevAll(nfa.arcs), nfa.post, done)
  {
    hide Agree, StatesAgree, Within, Chain, Enlisted, Newest, SharedOk, Faithful, RemainingIn, Pushed, MidsReadyFwd, Ranked, Shaped,
      AloneIn, MidsKnownFwd, PullRank, Unlike, T.Spent, RevAll;
    ghost var now := nfa.arcs;
    FaithfulParts(was, now, nfa.pre, nfa.post, rank, false);
    RevRanked(now, rank);
    RemainingInHead(now, s, nfa.post, chain, i);
    ghost var mid;
    done, newest, list2, mids2, mid, over := Push(nfa, chain[i], intermediates, list, mids, RevRank(rank));
    rank2 := rank;
    if done {
      rank2 := RevRank(PullRank(RevRank(rank), mid, s));
      PushedSpent(now, chain[i], mid, over, nfa.arcs, nfa.pre, nfa.post, rank);
      PushedFaithful(was, now, chain[i], mid, over, nfa.arcs, nfa.pre, nfa.post, rank);
      RemainingInNext(now, s, nfa.pre, nfa.post, chain, i, mid, over, nfa.arcs, RevRank(rank));
    } else {
      over := false;
      T.SpentNothing(RevAll(now), RevAll(nfa.arcs), nfa.post);
      RemainingInSkip(now, s, nfa.post, chain, i);
    }
    if !over { KnownFwdParts(nfa, s, newest, list2, mids2); }
  }

  /** Push the constraints one after the other (regc_nfa.c:1647-1654). */
  method PushAll(nfa: Nfa, s: nat, ghost rank: nat -> int)
    returns (progress: bool, newest: Option<nat>, ghost list: seq<nat>, ghost rank2: nat -> int)
    requires nfa.Valid() && s in nfa.ins && nfa.tmp == map[] && nfa.pre in nfa.ins && nfa.post in nfa.ins
    requires Shaped(nfa.arcs, nfa.pre, nfa.post) && Ranked(nfa.arcs, rank)
    modifies nfa`states, nfa`nstates, nfa`ins, nfa`outs, nfa`arcs, nfa`tmp
    ensures nfa.Valid() && nfa.tmp == Chain(list) && newest == Newest(list) && old(nfa.ins.Keys) <= nfa.ins.Keys
    ensures Unlike(list)
    ensures Faithful(old(nfa.arcs), nfa.arcs, nfa.pre, nfa.post, rank2, false)
    ensures s != nfa.post ==> forall e :: e in nfa.arcs && e.to == s ==> !Fwd(e.typ)
    ensures !progress ==> nfa.states == old(nfa.states) && nfa.arcs == old(nfa.arcs)
    ensures T.Spent(RevAll(old(nfa.arcs)), RevAll(nfa.arcs), nfa.post, progress)
  {
    hide Agree, StatesAgree, Within, Chain, Enlisted, Newest, SharedOk, Faithful, RemainingIn, Ranked, Shaped, MidsKnownFwd, Unlike, Fwd,
      Lists, T.Spent, RevAll;
    ghost var was := nfa.arcs;
    var chain := nfa.ins[s];
    RemainingInStart(nfa, s);
    MidsKnownFwdStart(nfa, s);
    FaithfulStart(was, nfa.pre, nfa.post, rank, false);
    T.SpentNothing(RevAll(was), RevAll(was), nfa.post);
    ghost var mids: map<nat, (nat, nat)> := map[];
    progress, newest, list, rank2 := false, None, [], rank;
    var i := 0;
    ghost var over := false;
    KnownFwdParts(nfa, s, newest, list, mids);
    while i < |chain|
      invariant 0 <= i <= |chain| && nfa.Valid() && old(nfa.ins.Keys) <= nfa.ins.Keys
      invariant nfa.tmp == Chain(list) && newest == Newest(list) && Unlike(list)
      invariant Faithful(was, nfa.arcs, nfa.pre, nfa.post, rank2, false) && RemainingIn(nfa.arcs, s, nfa.post, chain, i)
      invariant if over then i == |chain| else MidsKnownFwd(nfa, s, newest, list, mids)
      invariant T.Spent(RevAll(was), RevAll(nfa.arcs), nfa.post, progress)
      invariant !progress ==> nfa.states == old(nfa.states) && nfa.arcs == was
    {
      if Fwd(chain[i].typ) {
        var done;
        ghost var now := nfa.arcs;
        done, newest, list, mids, rank2, over := PushOne(nfa, s, chain, i, newest, was, list, mids, rank2);
        T.SpentTrans(RevAll(was), RevAll(now), RevAll(nfa.arcs), nfa.post, progress, done);
        progress := progress || done;
      } else {
        RemainingInSkip(nfa.arcs, s, nfa.post, chain, i);
      }
      i := i + 1;
    }
    RemainingInNone(nfa.arcs, s, nfa.post, chain);
  }

  /** One state's turn in pushfwd() (regc_nfa.c:1626-1689): push every forward constraint that enters s, clear
      the tmp fields, and drop s if it has become useless. */
  method PushState(nfa: Nfa, s: nat, ghost rank: nat -> int) returns (progress: bool, ghost rank2: nat -> int)
    requires nfa.Valid() && s in nfa.ins && nfa.tmp == map[] && nfa.pre in nfa.ins && nfa.post in nfa.ins
    requires Shaped(nfa.arcs, nfa.pre, nfa.post) && Ranked(nfa.arcs, rank)
    modifies nfa`states, nfa`nstates, nfa`ins, nfa`outs, nfa`arcs, nfa`tmp
    ensures nfa.Valid() && nfa.tmp == map[] && nfa.pre in nfa.ins && nfa.post in nfa.ins
    ensures Faithful(old(nfa.arcs), nfa.arcs, nfa.pre, nfa.post, rank2, false)
    ensures s != nfa.post ==> forall e :: e in nfa.arcs && e.to == s ==> !Fwd(e.typ)
    ensures !progress ==> nfa.arcs <= old(nfa.arcs)
    ensures T.Spent(RevAll(old(nfa.arcs)), RevAll(nfa.arcs), nfa.post, progress)
    ensures forall x :: x in old(nfa.ins) && x != s ==> x in nfa.ins
    ensures !progress ==> nfa.states == old(nfa.states) || nfa.states == Removed(old(nfa.states), s)
  {
    hide Agree, StatesAgree, Within, Chain, Enlisted, Newest, SharedOk, Faithful, Ranked, Shaped, T.Spent, Removed, RevAll;
    var newest;
    ghost var list;
    progress, newest, list, rank2 := PushAll(nfa, s, rank);
    ClearTmp(nfa, newest, list);
    ChainsEmpty(nfa, s);
    if (nfa.ins[s] == [] || nfa.outs[s] == []) && !nfa.Flagged(s) {
      DropFaithful(old(nfa.arcs), nfa.arcs, s, nfa.pre, nfa.post, rank2, false);
      ghost var now := nfa.arcs;
      nfa.DropState(s);
      RevLess(now, nfa.arcs);
      T.SpentNothing(RevAll(now), RevAll(nfa.arcs), nfa.post);
      T.SpentTrans(RevAll(old(nfa.arcs)), RevAll(now), RevAll(nfa.arcs), nfa.post, progress, false);
    }
  }
}
