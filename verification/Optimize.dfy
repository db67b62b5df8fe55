/** pullback() and pushfwd() as a whole, regc_nfa.c:1446-1510, 1626-1689, which end because every turn that does
    something spends of a budget, and the passes of optimize() one after the other, regc_nfa.c:1406-1440. */
module Optimize {
  import opened Options
  import opened Nfa
  import opened Runs
  import opened Pulling
  import opened Pushing
  import opened Pullback
  import opened Pushfwd
  import opened Anchors
  import opened Cleanup
  import opened EmptyMatches
  import F = FixEmpties
  import C = ConstraintLoops
  import B = Breaking
  import T = Potential
  import M = MakeSearch
  import K = Compact
  import X = Cnfa

  /** Forward constraints are back ones of the automaton read from its other end. */
  ghost function Side(arcs: set<Arc>, back: bool): set<Arc> { if back then arcs else RevAll(arcs) }

  function End(pre: nat, post: nat, back: bool): nat { if back then pre else post }

  predicate Movable(typ: ArcType, back: bool) { if back then Back(typ) else Fwd(typ) }

  function Near(e: Arc, back: bool): nat { if back then e.from else e.to }

  /** No constraint is left to be moved at x. */
  ghost predicate Done(arcs: set<Arc>, x: nat, pre: nat, post: nat, back: bool) {
    x != End(pre, post, back) ==> forall e :: e in arcs && Near(e, back) == x ==> !Movable(e.typ, back)
  }

  ghost predicate AllDone(arcs: set<Arc>, pre: nat, post: nat, back: bool) {
    forall e :: e in arcs && Movable(e.typ, back) ==> Near(e, back) == End(pre, post, back)
  }

  // ---------------------------------------------------------------- the chain of states

  /** The state after s in the chain. */
  function NextOf(states: seq<nat>, s: nat): Option<nat> {
    if states == [] then None
    else if states[0] == s then (if |states| > 1 then Some(states[1]) else None)
    else NextOf(states[1..], s)
  }

  lemma {:induction false} NextAt(states: seq<nat>, k: nat)
    requires k < |states| && forall i, j :: 0 <= i < j < |states| ==> states[i] != states[j]
    ensures NextOf(states, states[k]) == if k + 1 < |states| then Some(states[k + 1]) else None
    decreases k
  {
    if k > 0 {
      assert states[0] != states[k];
      NextAt(states[1..], k - 1);
    }
  }

  // ---------------------------------------------------------------- one sweep

  /** One state's turn, either way. */
  method Turn(nfa: Nfa, s: nat, back: bool, ghost was: set<Arc>, ghost rank: nat -> int) returns (progress: bool, ghost rank2: nat -> int)
    requires nfa.Valid() && s in nfa.ins && nfa.tmp == map[] && nfa.pre in nfa.ins && nfa.post in nfa.ins
    requires Faithful(was, nfa.arcs, nfa.pre, nfa.post, rank, back)
    modifies nfa`states, nfa`nstates, nfa`ins, nfa`outs, nfa`arcs, nfa`tmp
    ensures nfa.Valid() && nfa.tmp == map[] && nfa.pre in nfa.ins && nfa.post in nfa.ins
    ensures Faithful(was, nfa.arcs, nfa.pre, nfa.post, rank2, back)
    ensures Done(nfa.arcs, s, nfa.pre, nfa.post, back)
    ensures !progress ==> nfa.arcs <= old(nfa.arcs)
    ensures T.Spent(Side(old(nfa.arcs), back), Side(nfa.arcs, back), End(nfa.pre, nfa.post, back), progress)
    ensures forall x :: x in old(nfa.ins) && x != s ==> x in nfa.ins
    ensures !progress ==> nfa.states == old(nfa.states) || nfa.states == Removed(old(nfa.states), s)
  {
    hide Agree, StatesAgree, Within, Faithful, Ranked, Shaped, T.Spent, Removed, RevAll;
    ghost var now := nfa.arcs;
    FaithfulParts(was, now, nfa.pre, nfa.post, rank, back);
    if back {
      progress, rank2 := PullState(nfa, s, rank);
    } else {
      progress, rank2 := PushState(nfa, s, rank);
    }
    FaithfulTrans(was, now, nfa.arcs, nfa.pre, nfa.post, rank, rank2, back);
  }

  lemma FaithfulTrans(was: set<Arc>, now: set<Arc>, b: set<Arc>, pre: nat, post: nat, rank: nat -> int, rank2: nat -> int, back: bool)
    requires Faithful(was, now, pre, post, rank, back) && Faithful(now, b, pre, post, rank2, back)
    ensures Faithful(was, b, pre, post, rank2, back)
  {
    hide SameTexts, Labelled, Shaped, Ranked;
    SameTextsTrans(was, now, b, pre, post, back);
    LabelledTrans(was, now, b);
  }

  /** While nothing has moved: the first k states of the chain are done. */
  ghost predicate Swept(states: seq<nat>, k: nat, arcs: set<Arc>, pre: nat, post: nat, back: bool) {
    k <= |states| && forall j :: 0 <= j < k ==> Done(arcs, states[j], pre, post, back)
  }

  lemma SweptNext(states: seq<nat>, k: nat, arcs: set<Arc>, states2: seq<nat>, arcs2: set<Arc>, pre: nat, post: nat, back: bool)
    requires Swept(states, k, arcs, pre, post, back) && k < |states| && arcs2 <= arcs && Done(arcs2, states[k], pre, post, back)
    requires forall i, j :: 0 <= i < j < |states| ==> states[i] != states[j]
    requires states2 == states || states2 == Removed(states, states[k])
    ensures Swept(states2, if states2 == states then k + 1 else k, arcs2, pre, post, back)
  {
    hide Done, Removed;
    RemovedAt(states, k);
    forall j | 0 <= j < k ensures states2[j] == states[j] && Done(arcs2, states2[j], pre, post, back) {
      DoneLess(arcs, arcs2, states[j], pre, post, back);
    }
  }

  lemma DoneLess(arcs: set<Arc>, b: set<Arc>, x: nat, pre: nat, post: nat, back: bool)
    requires Done(arcs, x, pre, post, back) && b <= arcs
    ensures Done(b, x, pre, post, back)
  {
  }

  lemma SweptAll(nfa: Nfa, back: bool)
    requires nfa.Valid() && Swept(nfa.states, |nfa.states|, nfa.arcs, nfa.pre, nfa.post, back)
    ensures AllDone(nfa.arcs, nfa.pre, nfa.post, back)
  {
    Distinct(nfa);
    forall e | e in nfa.arcs && Movable(e.typ, back) ensures Near(e, back) == End(nfa.pre, nfa.post, back) {
      Ends(nfa.arcs, e, nfa.ins.Keys);
      var j :| 0 <= j < |nfa.states| && nfa.states[j] == Near(e, back);
      assert Done(nfa.arcs, nfa.states[j], nfa.pre, nfa.post, back);
    }
  }

  /** Where the sweep stands: at s, the k-th of the chain, or past its end; n is the budget left of n0. */
  ghost predicate Sweeping(states: seq<nat>, k: nat, s: Option<nat>, arcs: set<Arc>, pre: nat, post: nat, back: bool, progress: bool, n0: nat, n: nat) {
    && k <= |states| && (s.Some? ==> k < |states| && states[k] == s.value)
    && T.Budget(Side(arcs, back), End(pre, post, back), n)
    && if progress then n < n0 else n == n0 && Swept(states, k, arcs, pre, post, back) && (s.None? ==> k == |states|)
  }

  /** One run of the inner loop of pullback() or pushfwd() over all states, the new ones included. */
  method Sweep(nfa: Nfa, back: bool, ghost was: set<Arc>, ghost rank: nat -> int, ghost n: nat) returns (progress: bool, ghost rank2: nat -> int, ghost n2: nat)
    requires nfa.Valid() && nfa.tmp == map[] && nfa.pre in nfa.ins && nfa.post in nfa.ins
    requires Faithful(was, nfa.arcs, nfa.pre, nfa.post, rank, back) && T.Budget(Side(nfa.arcs, back), End(nfa.pre, nfa.post, back), n)
    modifies nfa`states, nfa`nstates, nfa`ins, nfa`outs, nfa`arcs, nfa`tmp
    ensures nfa.Valid() && nfa.tmp == map[] && nfa.pre in nfa.ins && nfa.post in nfa.ins
    ensures Faithful(was, nfa.arcs, nfa.pre, nfa.post, rank2, back) && T.Budget(Side(nfa.arcs, back), End(nfa.pre, nfa.post, back), n2)
    ensures if progress then n2 < n else n2 == n && AllDone(nfa.arcs, nfa.pre, nfa.post, back)
  {
    hide Agree, StatesAgree, Within, Faithful, T.Budget, T.Spent, Removed, RevAll, Swept, Done, AllDone, Side, NextOf;
    progress, rank2, n2 := false, rank, n;
    var s := if nfa.states == [] then None else Some(nfa.states[0]);
    ghost var k: nat := 0;
    SweptNone(nfa.states, nfa.arcs, nfa.pre, nfa.post, back);
    while s.Some?
      invariant nfa.Valid() && nfa.tmp == map[] && nfa.pre in nfa.ins && nfa.post in nfa.ins
      invariant Faithful(was, nfa.arcs, nfa.pre, nfa.post, rank2, back)
      invariant Sweeping(nfa.states, k, s, nfa.arcs, nfa.pre, nfa.post, back, progress, n, n2)
      decreases n2, |nfa.states| - k
    {
      s, progress, rank2, n2, k := SweepTurn(nfa, s.value, back, was, rank2, n, n2, k, progress);
    }
    if !progress { SweptAll(nfa, back); }
  }

  lemma SweptNone(states: seq<nat>, arcs: set<Arc>, pre: nat, post: nat, back: bool)
    ensures Swept(states, 0, arcs, pre, post, back)
  {
  }

  /** The turn of one state, and on to the next. */
  method SweepTurn(nfa: Nfa, s: nat, back: bool, ghost was: set<Arc>, ghost rank: nat -> int, ghost n0: nat, ghost n: nat, ghost k: nat, before: bool)
    returns (nexts: Option<nat>, progress: bool, ghost rank2: nat -> int, ghost n2: nat, ghost k2: nat)
    requires nfa.Valid() && nfa.tmp == map[] && nfa.pre in nfa.ins && nfa.post in nfa.ins
    requires Faithful(was, nfa.arcs, nfa.pre, nfa.post, rank, back)
    requires Sweeping(nfa.states, k, Some(s), nfa.arcs, nfa.pre, nfa.post, back, before, n0, n)
    modifies nfa`states, nfa`nstates, nfa`ins, nfa`outs, nfa`arcs, nfa`tmp
    ensures nfa.Valid() && nfa.tmp == map[] && nfa.pre in nfa.ins && nfa.post in nfa.ins
    ensures Faithful(was, nfa.arcs, nfa.pre, nfa.post, rank2, back)
    ensures Sweeping(nfa.states, k2, nexts, nfa.arcs, nfa.pre, nfa.post, back, progress, n0, n2)
    ensures n2 < n || (n2 == n && |nfa.states| - k2 < old(|nfa.states|) - k)
  {
    hide Agree, StatesAgree, Within, Faithful, T.Budget, T.Spent, Removed, RevAll, Swept, Done, Side, NextOf;
    SweepingHere(nfa.states, k, s, nfa.arcs, nfa.pre, nfa.post, back, before, n0, n);
    hide Sweeping;
    Distinct(nfa);
    ghost var states0, arcs0 := nfa.states, nfa.arcs;
    nexts := NextOf(nfa.states, s);
    NextThere(nfa, k);
    var moved;
    moved, rank2 := Turn(nfa, s, back, was, rank);
    progress := before || moved;
    Distinct(nfa);
    n2, k2 := Onward(states0, k, s, arcs0, nfa.states, nfa.arcs, nexts, nfa.pre, nfa.post, back, before, moved, n0, n);
  }

  lemma SweepingHere(states: seq<nat>, k: nat, s: nat, arcs: set<Arc>, pre: nat, post: nat, back: bool, progress: bool, n0: nat, n: nat)
    requires Sweeping(states, k, Some(s), arcs, pre, post, back, progress, n0, n)
    ensures k < |states| && states[k] == s
  {
  }

  lemma NextThere(nfa: Nfa, k: nat)
    requires nfa.Valid() && k < |nfa.states|
    ensures var nexts := NextOf(nfa.states, nfa.states[k]); nexts.Some? ==> nexts.value in nfa.ins && nexts.value != nfa.states[k]
  {
    Distinct(nfa);
    NextAt(nfa.states, k);
  }

  /** Where the sweep stands after the turn of its k-th state. */
  lemma Onward(states0: seq<nat>, k: nat, s: nat, arcs0: set<Arc>, states: seq<nat>, arcs: set<Arc>, nexts: Option<nat>, pre: nat, post: nat,
               back: bool, before: bool, moved: bool, n0: nat, n: nat)
    returns (n2: nat, k2: nat)
    requires Sweeping(states0, k, Some(s), arcs0, pre, post, back, before, n0, n) && nexts == NextOf(states0, s)
    requires forall i, j :: 0 <= i < j < |states0| ==> states0[i] != states0[j]
    requires T.Spent(Side(arcs0, back), Side(arcs, back), End(pre, post, back), moved) && (nexts.Some? ==> nexts.value in states)
    requires !moved ==> arcs <= arcs0 && (states == states0 || states == Removed(states0, s)) && Done(arcs, s, pre, post, back)
    ensures Sweeping(states, k2, nexts, arcs, pre, post, back, before || moved, n0, n2)
    ensures n2 < n || (n2 == n && |states| - k2 < |states0| - k)
  {
    hide T.Budget, T.Spent, Removed, Swept, Done, Side, NextOf;
    if moved {
      n2 := Spend(Side(arcs0, back), Side(arcs, back), End(pre, post, back), n, moved);
      k2 := |states|;
      if nexts.Some? {
        k2 :| 0 <= k2 < |states| && states[k2] == nexts.value;
      }
    } else {
      n2 := n;
      SpendNothing(Side(arcs0, back), Side(arcs, back), End(pre, post, back), n);
      k2 := if states == states0 then k + 1 else k;
      Shifted(states0, k, states);
      if !before { SweptNext(states0, k, arcs0, states, arcs, pre, post, back); }
    }
  }

  ghost function Spend(a: set<Arc>, b: set<Arc>, pre: nat, n: nat, progress: bool): (m: nat)
    requires T.Spent(a, b, pre, progress) && T.Budget(a, pre, n) && progress
    ensures m < n && T.Budget(b, pre, m)
  {
    assert T.Left(b, pre, n, progress);
    n - 1
  }

  lemma SpendNothing(a: set<Arc>, b: set<Arc>, pre: nat, n: nat)
    requires T.Spent(a, b, pre, false) && T.Budget(a, pre, n)
    ensures T.Budget(b, pre, n)
  {
    assert T.Left(b, pre, n, false);
  }

  /** The state after the k-th is still the next one. */
  lemma Shifted(states: seq<nat>, k: nat, states2: seq<nat>)
    requires k < |states| && forall i, j :: 0 <= i < j < |states| ==> states[i] != states[j]
    requires states2 == states || states2 == Removed(states, states[k])
    ensures var k2 := if states2 == states then k + 1 else k;
      && k2 <= |states2| && |states2| - k2 < |states| - k
      && NextOf(states, states[k]) == if k2 < |states2| then Some(states2[k2]) else None
  {
    NextAt(states, k);
    RemovedAt(states, k);
    hide Removed, NextOf;
  }

  // ---------------------------------------------------------------- pullback() and pushfwd()

  /** pullback(), regc_nfa.c:1446-1510 (back), or pushfwd(), regc_nfa.c:1626-1689: sweeps until nothing moves, then the
      anchors at the end become PLAIN arcs. Without a loop of constraint arcs this comes to an end, leaves no
      constraint of its kind, and the same pieces of every text are matched. */
  method MoveAll(nfa: Nfa, back: bool, colors: (nat, nat), ghost rank: nat -> int) returns (ghost rank2: nat -> int)
    requires nfa.Valid() && nfa.tmp == map[] && nfa.pre in nfa.ins && nfa.post in nfa.ins
    requires Shaped(nfa.arcs, nfa.pre, nfa.post) && Ranked(nfa.arcs, rank)
    modifies nfa`states, nfa`nstates, nfa`ins, nfa`outs, nfa`arcs, nfa`tmp
    ensures nfa.Valid() && nfa.tmp == map[] && nfa.pre in nfa.ins && nfa.post in nfa.ins
    ensures Shaped(nfa.arcs, nfa.pre, nfa.post) && Ranked(nfa.arcs, rank2)
    ensures forall e :: e in nfa.arcs ==> !Movable(e.typ, back)
    ensures MatchesAlike(old(nfa.arcs), nfa.arcs, nfa.pre, nfa.post, back, colors)
    ensures LabelledBut(old(nfa.arcs), nfa.arcs, colors)
  {
    hide Agree, StatesAgree, Within, Faithful, T.Budget, T.Spent, RevAll, AllDone, Shaped, Ranked, Labelled, LabelledBut, MatchesAlike, AllPlained;
    ghost var was := nfa.arcs;
    FaithfulStart(was, nfa.pre, nfa.post, rank, back);
    ghost var n := FirstBudget(was, rank, nfa.pre, nfa.post, back);
    rank2 := rank;
    var progress := true;
    while progress
      invariant nfa.Valid() && nfa.tmp == map[] && nfa.pre in nfa.ins && nfa.post in nfa.ins
      invariant Faithful(was, nfa.arcs, nfa.pre, nfa.post, rank2, back) && T.Budget(Side(nfa.arcs, back), End(nfa.pre, nfa.post, back), n)
      invariant !progress ==> AllDone(nfa.arcs, nfa.pre, nfa.post, back)
      decreases n, if progress then 1 else 0
    {
      progress, rank2, n := Sweep(nfa, back, was, rank2, n);
    }
    ghost var moved := nfa.arcs;
    PlainAnchors(nfa, back, colors);
    Settled(was, moved, nfa.pre, nfa.post, back, colors, rank2);
  }

  lemma FirstBudget(arcs: set<Arc>, rank: nat -> int, pre: nat, post: nat, back: bool) returns (n: nat)
    requires Ranked(arcs, rank)
    ensures T.Budget(Side(arcs, back), End(pre, post, back), n)
  {
    RevRanked(arcs, rank);
    T.BudgetStart(Side(arcs, back), if back then rank else RevRank(rank), End(pre, post, back));
    n :| T.Budget(Side(arcs, back), End(pre, post, back), n);
  }

  /** The same pieces of every text that is played with these colours for its begin (end). */
  ghost predicate MatchesAlike(was: set<Arc>, now: set<Arc>, pre: nat, post: nat, back: bool, colors: (nat, nat)) {
    forall v: Env, i: nat, k: nat :: v.pre == pre && v.post == post && colors == (if back then v.bos else v.eos) && Pseudo(was, colors) ==>
      (Accepts(was, v, i, k) <==> Accepts(now, v, i, k))
  }

  /** Every label is an old one, or that of a PLAIN arc for one of the colours. */
  ghost predicate LabelledBut(was: set<Arc>, now: set<Arc>, colors: (nat, nat)) {
    forall e :: e in now ==> HasLabel(was, e.typ, e.co) || (e.typ == PLAIN && (e.co == colors.0 || e.co == colors.1))
  }

  lemma Settled(was: set<Arc>, moved: set<Arc>, pre: nat, post: nat, back: bool, colors: (nat, nat), rank: nat -> int)
    requires Faithful(was, moved, pre, post, rank, back) && AllDone(moved, pre, post, back)
    ensures var now := AllPlained(moved, pre, post, back, colors);
      && Shaped(now, pre, post) && Ranked(now, rank) && (forall e :: e in now ==> !Movable(e.typ, back))
      && MatchesAlike(was, now, pre, post, back, colors) && LabelledBut(was, now, colors)
  {
    var now := AllPlained(moved, pre, post, back, colors);
    AllPlainedTexts(moved, pre, post, back, colors);
    SettledArcs(was, moved, pre, post, back, colors, rank);
    hide AllPlained, Labelled, Shaped, Ranked, Accepts, Pseudo;
    forall v: Env, i: nat, k: nat | v.pre == pre && v.post == post && colors == (if back then v.bos else v.eos) && Pseudo(was, colors)
      ensures Accepts(was, v, i, k) <==> Accepts(now, v, i, k)
    {
      assert Accepts(was, v, i, k) <==> Accepts(moved, v, i, k);
    }
  }

  lemma SettledArcs(was: set<Arc>, moved: set<Arc>, pre: nat, post: nat, back: bool, colors: (nat, nat), rank: nat -> int)
    requires Labelled(was, moved) && Shaped(moved, pre, post) && Ranked(moved, rank) && AllDone(moved, pre, post, back)
    ensures var now := AllPlained(moved, pre, post, back, colors);
      Shaped(now, pre, post) && Ranked(now, rank) && (forall e :: e in now ==> !Movable(e.typ, back)) && LabelledBut(was, now, colors)
  {
    forall e | e in AllPlained(moved, pre, post, back, colors) ensures !Movable(e.typ, back) {
      var a :| a in moved && Plained(a, pre, post, back, colors) == e;
    }
    forall e | e in AllPlained(moved, pre, post, back, colors)
      ensures HasLabel(was, e.typ, e.co) || (e.typ == PLAIN && (e.co == colors.0 || e.co == colors.1))
    {
      var a :| a in moved && Plained(a, pre, post, back, colors) == e;
      assert HasLabel(was, a.typ, a.co);
    }
  }

  // ---------------------------------------------------------------- optimize()

  /** What newnfa() and the parser see to: the ends, the numbers of string-begin and string-end arcs, and
      pseudocolours no arc is labelled with. */
  ghost predicate Fit(arcs: set<Arc>, pre: nat, post: nat, bos: (nat, nat), eos: (nat, nat)) {
    && Ended(arcs, pre, post) && (forall a :: a in arcs && (a.typ == CARET || a.typ == DOLLAR) ==> a.co <= 1)
    && Pseudo(arcs, bos) && Pseudo(arcs, eos) && bos.0 != eos.0 && bos.0 != eos.1 && bos.1 != eos.0 && bos.1 != eos.1
  }

  ghost predicate SameMatches(was: set<Arc>, now: set<Arc>, pre: nat, post: nat, bos: (nat, nat), eos: (nat, nat)) {
    forall v: Env, i: nat, k: nat :: v.pre == pre && v.post == post && v.bos == bos && v.eos == eos ==>
      (Accepts(was, v, i, k) <==> Accepts(now, v, i, k))
  }

  lemma FitEnds(arcs: set<Arc>, pre: nat, post: nat, bos: (nat, nat), eos: (nat, nat))
    requires Fit(arcs, pre, post, bos, eos)
    ensures Ended(arcs, pre, post) && F.PreSolid(arcs, pre)
  {
  }

  lemma FitNumbers(arcs: set<Arc>, pre: nat, post: nat, bos: (nat, nat), eos: (nat, nat))
    requires Fit(arcs, pre, post, bos, eos)
    ensures forall a :: a in arcs && (a.typ == CARET || a.typ == DOLLAR) ==> a.co <= 1
  {
  }

  lemma AsTexts(a: set<Arc>, b: set<Arc>, pre: nat, post: nat)
    requires forall v: Env, i: nat, k: nat :: v.pre == pre && v.post == post ==> (Accepts(a, v, i, k) <==> Accepts(b, v, i, k))
    ensures C.SameTexts(a, b, pre, post)
  {
  }

  /** Rid of EMPTY arcs and of constraint loops the automaton is ready for pulling. */
  lemma Ready(was: set<Arc>, plain: set<Arc>, now: set<Arc>, pre: nat, post: nat) returns (rank: nat -> int)
    requires (forall a :: a in was && (a.typ == CARET || a.typ == DOLLAR) ==> a.co <= 1) && Labelled(was, plain)
    requires (forall a :: a in plain ==> a.typ != EMPTY) && B.Mended(plain, now, pre, post) && exists r :: C.Ranked(now, r)
    ensures Shaped(now, pre, post) && Ranked(now, rank) && Labelled(was, now)
  {
    rank :| C.Ranked(now, rank);
    forall a | a in now ensures HasLabel(was, a.typ, a.co) && a.typ != EMPTY { LabelKept(was, plain, now, pre, post, a); }
    C.ReadyToPull(now, rank);
    forall a | a in now ensures a.typ == CARET || a.typ == DOLLAR ==> a.co <= 1 { assert HasLabel(was, a.typ, a.co); }
  }

  lemma LabelKept(was: set<Arc>, plain: set<Arc>, now: set<Arc>, pre: nat, post: nat, a: Arc)
    requires Labelled(was, plain) && (forall a :: a in plain ==> a.typ != EMPTY) && B.Mended(plain, now, pre, post) && a in now
    ensures HasLabel(was, a.typ, a.co) && a.typ != EMPTY
  {
    var e :| e in plain && B.LabelsAlike(e, a);
    assert HasLabel(was, e.typ, e.co);
  }

  lemma PseudoKept(was: set<Arc>, now: set<Arc>, used: (nat, nat), colors: (nat, nat))
    requires Pseudo(was, colors) && LabelledBut(was, now, used)
    requires used.0 != colors.0 && used.0 != colors.1 && used.1 != colors.0 && used.1 != colors.1
    ensures Pseudo(now, colors)
  {
  }

  lemma PseudoLabelled(was: set<Arc>, now: set<Arc>, colors: (nat, nat))
    requires Pseudo(was, colors) && Labelled(was, now)
    ensures Pseudo(now, colors)
  {
    forall a | a in now ensures a.typ == PLAIN || a.typ == BEHIND || a.typ == AHEAD ==> a.co != colors.0 && a.co != colors.1 {
      assert HasLabel(was, a.typ, a.co);
    }
  }

  /** Every label is an old one, or that of a PLAIN arc for a pseudocolour. */
  ghost predicate Colored(was: set<Arc>, now: set<Arc>, bos: (nat, nat), eos: (nat, nat)) {
    forall e :: e in now ==>
      HasLabel(was, e.typ, e.co) || (e.typ == PLAIN && (e.co == bos.0 || e.co == bos.1 || e.co == eos.0 || e.co == eos.1))
  }

  lemma Finish(was: set<Arc>, a: set<Arc>, b: set<Arc>, c: set<Arc>, pre: nat, post: nat, bos: (nat, nat), eos: (nat, nat))
    requires Fit(was, pre, post, bos, eos) && C.SameTexts(was, a, pre, post) && Labelled(was, a)
    requires MatchesAlike(a, b, pre, post, true, bos) && LabelledBut(a, b, bos) && (forall e :: e in b ==> !Movable(e.typ, true))
    requires MatchesAlike(b, c, pre, post, false, eos) && LabelledBut(b, c, eos) && (forall e :: e in c ==> !Movable(e.typ, false))
    requires Shaped(c, pre, post)
    ensures M.Optimized(c, pre, post) && SameMatches(was, c, pre, post, bos, eos) && Colored(was, c, bos, eos)
  {
    PseudoLabelled(was, a, bos);
    PseudoLabelled(was, a, eos);
    PseudoKept(a, b, bos, eos);
    ColoredTrans(was, a, b, c, bos, eos);
    forall e | e in c ensures e.typ == PLAIN || e.typ == LACON {
      if HasLabel(b, e.typ, e.co) { var d :| d in b && d.typ == e.typ && d.co == e.co; }
    }
    hide Accepts, Labelled, LabelledBut, Pseudo, Colored;
    forall v: Env, i: nat, k: nat | v.pre == pre && v.post == post && v.bos == bos && v.eos == eos
      ensures Accepts(was, v, i, k) <==> Accepts(c, v, i, k)
    {
      assert Accepts(was, v, i, k) <==> Accepts(a, v, i, k);
      assert Accepts(a, v, i, k) <==> Accepts(b, v, i, k);
      assert Accepts(b, v, i, k) <==> Accepts(c, v, i, k);
    }
  }

  lemma ColoredTrans(was: set<Arc>, a: set<Arc>, b: set<Arc>, c: set<Arc>, bos: (nat, nat), eos: (nat, nat))
    requires Labelled(was, a) && LabelledBut(a, b, bos) && LabelledBut(b, c, eos)
    ensures Colored(was, c, bos, eos)
  {
    forall e | e in c && HasLabel(b, e.typ, e.co)
      ensures HasLabel(was, e.typ, e.co) || (e.typ == PLAIN && (e.co == bos.0 || e.co == bos.1))
    {
      var d :| d in b && d.typ == e.typ && d.co == e.co;
      if HasLabel(a, d.typ, d.co) { var f :| f in a && f.typ == d.typ && f.co == d.co; }
    }
  }

  /** The passes between the two cleanups, regc_nfa.c:1423-1429. */
  method Passes(nfa: Nfa, bos: (nat, nat), eos: (nat, nat))
    requires nfa.Valid() && nfa.tmp == map[] && Fit(nfa.arcs, nfa.pre, nfa.post, bos, eos)
    modifies nfa
    ensures nfa.Valid() && nfa.tmp == map[] && M.Optimized(nfa.arcs, nfa.pre, nfa.post)
    ensures SameMatches(old(nfa.arcs), nfa.arcs, nfa.pre, nfa.post, bos, eos) && Colored(old(nfa.arcs), nfa.arcs, bos, eos)
  {
    hide Agree, StatesAgree, Within, Fit, Shaped, Ranked, Labelled, SameMatches, MatchesAlike, LabelledBut, M.Optimized, B.Mended, C.SameTexts, Ended, Accepts, Colored;
    ghost var was := nfa.arcs;
    FitEnds(was, nfa.pre, nfa.post, bos, eos);
    F.FixEmpties(nfa);
    ghost var plain := nfa.arcs;
    AsTexts(was, plain, nfa.pre, nfa.post);
    B.FixConstraintLoops(nfa);
    ghost var a := nfa.arcs;
    B.MendedParts(plain, a, nfa.pre, nfa.post);
    C.SameTextsTrans(was, plain, a, nfa.pre, nfa.post);
    FitNumbers(was, nfa.pre, nfa.post, bos, eos);
    HasBoth(nfa);
    ghost var rank := Ready(was, plain, a, nfa.pre, nfa.post);
    rank := MoveAll(nfa, true, bos, rank);
    ghost var b := nfa.arcs;
    rank := MoveAll(nfa, false, eos, rank);
    Finish(was, a, b, nfa.arcs, nfa.pre, nfa.post, bos, eos);
  }

  lemma FitMirrors(was: set<Arc>, now: set<Arc>, pre: nat, post: nat, bos: (nat, nat), eos: (nat, nat))
    requires Fit(was, pre, post, bos, eos) && Mirrors(was, now, pre, post)
    ensures Fit(now, pre, post, bos, eos)
  {
  }

  lemma OptimizedMirrors(was: set<Arc>, now: set<Arc>, pre: nat, post: nat)
    requires M.Optimized(was, pre, post) && Mirrors(was, now, pre, post)
    ensures M.Optimized(now, pre, post)
  {
  }

  lemma ColoredMirrors(was: set<Arc>, a: set<Arc>, b: set<Arc>, c: set<Arc>, pre: nat, post: nat, bos: (nat, nat), eos: (nat, nat))
    requires Mirrors(was, a, pre, post) && Colored(a, b, bos, eos) && Mirrors(b, c, pre, post)
    ensures Colored(was, c, bos, eos)
  {
    forall e | e in c && !(e.typ == PLAIN && (e.co == bos.0 || e.co == bos.1 || e.co == eos.0 || e.co == eos.1)) ensures HasLabel(was, e.typ, e.co) {
      var d :| d in b && Alike(d, e, pre) && Alike(d, e, post);
      var f :| f in a && f.typ == d.typ && f.co == d.co;
      var g :| g in was && Alike(g, f, pre) && Alike(g, f, post);
    }
  }

  lemma CleanEnds(was: set<Arc>, a: set<Arc>, b: set<Arc>, c: set<Arc>, pre: nat, post: nat, bos: (nat, nat), eos: (nat, nat))
    requires C.SameTexts(was, a, pre, post) && Mirrors(was, a, pre, post)
    requires SameMatches(a, b, pre, post, bos, eos) && Colored(a, b, bos, eos) && M.Optimized(b, pre, post)
    requires C.SameTexts(b, c, pre, post) && Mirrors(b, c, pre, post)
    ensures M.Optimized(c, pre, post) && SameMatches(was, c, pre, post, bos, eos) && Colored(was, c, bos, eos)
  {
    OptimizedMirrors(b, c, pre, post);
    ColoredMirrors(was, a, b, c, pre, post, bos, eos);
    hide Accepts, Mirrors, Colored, M.Optimized;
    forall v: Env, i: nat, k: nat | v.pre == pre && v.post == post && v.bos == bos && v.eos == eos
      ensures Accepts(was, v, i, k) <==> Accepts(c, v, i, k)
    {
      assert Accepts(was, v, i, k) <==> Accepts(a, v, i, k);
      assert Accepts(a, v, i, k) <==> Accepts(b, v, i, k);
      assert Accepts(b, v, i, k) <==> Accepts(c, v, i, k);
    }
  }

  /** What the flags of analyze() tell of the parsed automaton: no text is matched; the empty string is in some text, and
      not only where a lookaround constraint allows it. */
  ghost predicate Told(info: Info, was: set<Arc>, w: X.Cnfa) {
    && (info.Impossible? ==> forall v: Env, i: nat, k: nat :: v.pre == w.pre && v.post == w.post && v.bos == w.bos && v.eos == w.eos ==> !Accepts(was, v, i, k))
    && (info.EmptyMatch? <==> EmptyUnaided(was, w))
  }

  /** The colours of PLAIN arcs are known ones. */
  ghost predicate Known(arcs: set<Arc>, ncolors: nat) {
    forall a :: a in arcs && a.typ == PLAIN ==> a.co < ncolors
  }

  lemma FitParsed(arcs: set<Arc>, w: X.Cnfa)
    requires Fit(arcs, w.pre, w.post, w.bos, w.eos) && Known(arcs, w.ncolors)
    ensures Parsed(arcs, w)
  {
  }

  lemma OptimizedFinal(arcs: set<Arc>, pre: nat, post: nat)
    requires M.Optimized(arcs, pre, post)
    ensures Final(arcs, pre, post)
  {
  }

  lemma Tells(info: Info, was: set<Arc>, now: set<Arc>, w: X.Cnfa)
    requires Fit(was, w.pre, w.post, w.bos, w.eos) && Known(was, w.ncolors)
    requires SameMatches(was, now, w.pre, w.post, w.bos, w.eos) && M.Optimized(now, w.pre, w.post)
    requires info.Impossible? <==> forall a :: a in now ==> a.from != w.pre
    requires info.EmptyMatch? <==> TwoArcs(now, w.pre, w.post)
    ensures Told(info, was, w)
  {
    FitParsed(was, w);
    OptimizedFinal(now, w.pre, w.post);
    hide Accepts, M.Optimized, TwoArcs, Fit, Parsed, Known, EmptyUnaided, Final;
    assert SameWorld(was, now, w);
    EmptyMeans(was, now, w);
    forall v: Env, i: nat, k: nat | info.Impossible? && v.pre == w.pre && v.post == w.post && v.bos == w.bos && v.eos == w.eos
      ensures !Accepts(was, v, i, k)
    {
      if Accepts(now, v, i, k) { NeverLeaves(now, v, i, k); }
    }
  }

  lemma NeverLeaves(arcs: set<Arc>, v: Env, i: nat, k: nat)
    requires v.pre != v.post && forall a :: a in arcs ==> a.from != v.pre
    ensures !Accepts(arcs, v, i, k)
  {
    if Accepts(arcs, v, i, k) { AcceptsLeaves(arcs, v, i, k); }
  }

  /** optimize(), regc_nfa.c:1406-1440. Only PLAIN and LACON arcs are left, of the shape that makesearch() and compact()
      ask for, the states are numbered without gaps, and the same pieces of every text are matched. */
  method Optimize(nfa: Nfa, bos: (nat, nat), eos: (nat, nat), ghost ncolors: nat) returns (info: Info)
    requires nfa.Valid() && nfa.tmp == map[] && Fit(nfa.arcs, nfa.pre, nfa.post, bos, eos) && Known(nfa.arcs, ncolors)
    modifies nfa
    ensures nfa.Valid() && nfa.tmp == map[] && K.Dense(nfa) && M.Optimized(nfa.arcs, nfa.pre, nfa.post)
    ensures SameMatches(old(nfa.arcs), nfa.arcs, nfa.pre, nfa.post, bos, eos) && Colored(old(nfa.arcs), nfa.arcs, bos, eos)
    ensures Told(info, old(nfa.arcs), World(ncolors, nfa.pre, nfa.post, bos, eos))
  {
    hide Agree, StatesAgree, Within, Fit, SameMatches, M.Optimized, C.SameTexts, Ended, Accepts, Colored, Mirrors, Cleaned, Told, TwoArcs, Known;
    ghost var was := nfa.arcs;
    NothingLeaves(was, nfa.pre, nfa.post, bos, eos);
    ghost var no := Cleanup.Cleanup(nfa);
    ghost var a := nfa.arcs;
    FitMirrors(was, a, nfa.pre, nfa.post, bos, eos);
    Passes(nfa, bos, eos);
    ghost var b := nfa.arcs;
    OptimizedLeaves(b, nfa.pre, nfa.post);
    no := Cleanup.Cleanup(nfa);
    CleanEnds(was, a, b, nfa.arcs, nfa.pre, nfa.post, bos, eos);
    info := Analyze(nfa);
    Tells(info, was, nfa.arcs, World(ncolors, nfa.pre, nfa.post, bos, eos));
  }

  lemma NothingLeaves(arcs: set<Arc>, pre: nat, post: nat, bos: (nat, nat), eos: (nat, nat))
    requires Fit(arcs, pre, post, bos, eos)
    ensures forall a :: a in arcs ==> a.from != post
  {
  }

  lemma OptimizedLeaves(arcs: set<Arc>, pre: nat, post: nat)
    requires M.Optimized(arcs, pre, post)
    ensures forall a :: a in arcs ==> a.from != post
  {
  }

  lemma HasBoth(nfa: Nfa)
    requires nfa.Valid()
    ensures nfa.pre in nfa.ins && nfa.post in nfa.ins
  {
    assert nfa.pre in nfa.states && nfa.post in nfa.states;
  }

  /** What the executor finds in a text with the compacted automaton is what the parsed one, constraints and all,
      matches in it. */
  lemma CompiledMatches(was: set<Arc>, now: set<Arc>, c: X.Cnfa, v: X.Text, start: nat, end: nat)
    requires SameMatches(was, now, c.pre, c.post, c.bos, c.eos) && M.Optimized(now, c.pre, c.post)
    requires K.Compacted(c, now) && X.WellFormed(c) && start <= end <= v.Stop()
    ensures X.Matches(c, v, start, end) <==> Accepts(was, K.EnvOf(c, v), start, end + 2)
  {
    K.SimulationIsPaths(c, now, v, start, c.post, end + 1);
    hide Goes;
    assert Accepts(now, K.EnvOf(c, v), start, end + 2) <==> X.Matches(c, v, start, end);
  }
}
