/** Finding loops of constraint arcs, regc_nfa.c:2117-2300. */
module ConstraintLoops {
  import opened Options
  import opened Nfa
  import opened Runs
  import opened FixEmpties
  import P = Pulling

  /** isconstraintarc(), regc_nfa.c:2120-2133. */
  predicate IsConstraint(a: Arc) {
    a.typ == CARET || a.typ == DOLLAR || a.typ == BEHIND || a.typ == AHEAD || a.typ == LACON
  }

  /** Some constraint arc leads from p to q. */
  ghost predicate Step(arcs: set<Arc>, p: nat, q: nat) {
    exists a :: a in arcs && IsConstraint(a) && a.from == p && a.to == q
  }

  /** Constraint arcs lead to higher ranks only, so no loop consists of them. */
  ghost predicate Ranked(arcs: set<Arc>, rank: nat -> int) {
    forall a :: a in arcs && IsConstraint(a) ==> rank(a.from) < rank(a.to)
  }

  ghost predicate NoSelfLoops(arcs: set<Arc>) {
    forall a :: a in arcs && IsConstraint(a) ==> a.from != a.to
  }

  /** Both automata match the same pieces of every text. */
  ghost predicate SameTexts(a: set<Arc>, b: set<Arc>, pre: nat, post: nat) {
    forall v: Env, i: nat, k: nat :: v.pre == pre && v.post == post ==> (Accepts(a, v, i, k) <==> Accepts(b, v, i, k))
  }

  lemma SameTextsTrans(a: set<Arc>, b: set<Arc>, c: set<Arc>, pre: nat, post: nat)
    requires SameTexts(a, b, pre, post) && SameTexts(b, c, pre, post)
    ensures SameTexts(a, c, pre, post)
  {
  }

  lemma SameTextsRefl(a: set<Arc>, pre: nat, post: nat)
    ensures SameTexts(a, a, pre, post)
  {
  }

  /** Ranked is what pullback() and pushfwd() ask for. */
  lemma ReadyToPull(arcs: set<Arc>, rank: nat -> int)
    requires Ranked(arcs, rank) && forall a :: a in arcs ==> a.typ != EMPTY
    ensures P.Ranked(arcs, rank)
  {
  }

  // ---------------------------------------------------------------- loops of one arc

  /** Going round a constraint arc from a state to itself changes nothing. */
  lemma {:induction false} SelfLoopIdle(arcs: set<Arc>, loops: set<Arc>, v: Env, p: nat, i: nat, q: nat, k: nat, n: nat)
    requires forall e :: e in loops ==> IsConstraint(e) && e.from == e.to && e.from != v.pre && e.to != v.post
    requires Run(arcs, v, p, i, q, k, n)
    ensures Goes(arcs - loops, v, p, i, q, k)
    decreases n
  {
    if n == 0 {
      GoesNowhere(arcs - loops, v, p, i);
    } else {
      var a, j := LastOf(arcs, v, p, i, q, k, n);
      SelfLoopIdle(arcs, loops, v, p, i, a.from, j, n - 1);
      if a in loops {
        assert j == k;
      } else {
        GoesOn(arcs - loops, v, p, i, a, j, k);
      }
    }
  }

  lemma SelfLoopsSame(arcs: set<Arc>, loops: set<Arc>, pre: nat, post: nat)
    requires forall e :: e in loops ==> IsConstraint(e) && e.from == e.to && e.from != pre && e.to != post
    ensures SameTexts(arcs, arcs - loops, pre, post)
  {
    forall v: Env, i: nat, k: nat | v.pre == pre && v.post == post ensures Accepts(arcs, v, i, k) <==> Accepts(arcs - loops, v, i, k) {
      if Accepts(arcs, v, i, k) {
        var n: nat :| Run(arcs, v, v.pre, i, v.post, k, n);
        SelfLoopIdle(arcs, loops, v, v.pre, i, v.post, k, n);
      }
      if Accepts(arcs - loops, v, i, k) {
        var n: nat :| Run(arcs - loops, v, v.pre, i, v.post, k, n);
        P.FewerRuns(arcs, arcs - loops, v, i, v.post, k, n);
      }
    }
  }

  lemma DropSame(arcs: set<Arc>, s: nat, pre: nat, post: nat)
    requires (InSet(arcs, s) == {} || OutSet(arcs, s) == {}) && s != pre && s != post
    ensures SameTexts(arcs, arcs - InSet(arcs, s) - OutSet(arcs, s), pre, post)
  {
    var b := arcs - InSet(arcs, s) - OutSet(arcs, s);
    forall v: Env, i: nat, k: nat | v.pre == pre && v.post == post ensures Accepts(arcs, v, i, k) <==> Accepts(b, v, i, k) {
      if Accepts(arcs, v, i, k) {
        var n: nat :| Run(arcs, v, v.pre, i, v.post, k, n);
        P.DropKeepsRuns(arcs, v, s, i, v.post, k, n);
      }
      if Accepts(b, v, i, k) {
        var n: nat :| Run(b, v, v.pre, i, v.post, k, n);
        P.FewerRuns(arcs, b, v, i, v.post, k, n);
      }
    }
  }

  /** Nothing enters pre or leaves post (regc_nfa.c:68-82). */
  ghost predicate Fenced(arcs: set<Arc>, pre: nat, post: nat) {
    forall a :: a in arcs ==> a.to != pre && a.from != post
  }

  ghost function SelfLoopsAt(chain: seq<Arc>, i: nat): set<Arc>
    requires i <= |chain|
  {
    set a | a in chain[..i] && IsConstraint(a) && a.to == a.from
  }

  lemma SelfLoopsNext(chain: seq<Arc>, i: nat)
    requires i < |chain| && NoDup(chain)
    ensures chain[i] !in SelfLoopsAt(chain, i)
    ensures SelfLoopsAt(chain, i + 1) == SelfLoopsAt(chain, i) + if IsConstraint(chain[i]) && chain[i].to == chain[i].from then {chain[i]} else {}
  {
    assert chain[..i + 1] == chain[..i] + [chain[i]];
  }

  /** The constraint arcs from s to itself. */
  ghost function SelfLoops(arcs: set<Arc>, s: nat): set<Arc> {
    set a | a in arcs && a.from == s && a.to == s && IsConstraint(a)
  }

  /** The inner loop of regc_nfa.c:2181-2190: free them, and note whether other constraint arcs leave s. */
  method FreeSelfLoops(nfa: Nfa, s: nat) returns (hasconstraints: bool)
    requires nfa.Valid() && s in nfa.ins
    modifies nfa`ins, nfa`outs, nfa`arcs
    ensures nfa.Valid() && nfa.ins.Keys == old(nfa.ins).Keys && nfa.arcs == old(nfa.arcs) - SelfLoops(old(nfa.arcs), s)
    ensures !hasconstraints ==> forall a :: a in nfa.arcs && a.from == s ==> !IsConstraint(a)
  {
    ghost var was := nfa.arcs;
    var chain := nfa.outs[s];
    assert Lists(chain, OutSet(was, s));
    assert forall k :: 0 <= k < |chain| ==> chain[k] in OutSet(was, s);
    hide Agree, StatesAgree, Within;
    hasconstraints := false;
    var i := 0;
    while i < |chain|
      invariant nfa.Valid() && nfa.ins.Keys == old(nfa.ins).Keys && 0 <= i <= |chain|
      invariant nfa.arcs == was - SelfLoopsAt(chain, i)
      invariant !hasconstraints ==> forall j :: 0 <= j < i && IsConstraint(chain[j]) ==> chain[j].to == s
    {
      SelfLoopsNext(chain, i);
      if IsConstraint(chain[i]) {
        if chain[i].to == s {
          nfa.Unlink(chain[i]);
        } else {
          hasconstraints := true;
        }
      }
      i := i + 1;
    }
    FreedAll(was, chain, s);
    if !hasconstraints { NoneLeft(was, chain, s); }
  }

  lemma FreedAll(was: set<Arc>, chain: seq<Arc>, s: nat)
    requires Lists(chain, OutSet(was, s))
    ensures SelfLoopsAt(chain, |chain|) == SelfLoops(was, s)
  {
    assert chain[..|chain|] == chain;
    forall a ensures a in SelfLoopsAt(chain, |chain|) <==> a in SelfLoops(was, s) { assert a in OutSet(was, s) <==> a in chain; }
  }

  lemma NoneLeft(was: set<Arc>, chain: seq<Arc>, s: nat)
    requires Lists(chain, OutSet(was, s)) && forall j :: 0 <= j < |chain| && IsConstraint(chain[j]) ==> chain[j].to == s
    ensures forall a :: a in was - SelfLoops(was, s) && a.from == s ==> !IsConstraint(a)
  {
    forall a | a in was - SelfLoops(was, s) && a.from == s ensures !IsConstraint(a) {
      assert a in OutSet(was, s) <==> a in chain;
    }
  }

  /** Where the first loop of fixconstraintloops() stands. */
  ghost predicate Trimmed(was: set<Arc>, now: set<Arc>, pre: nat, post: nat, list: seq<nat>, i: nat, hasconstraints: bool)
    requires i <= |list|
  {
    && now <= was && SameTexts(was, now, pre, post)
    && (forall a :: a in now && IsConstraint(a) && a.from in list[..i] ==> a.from != a.to && hasconstraints)
  }

  lemma TrimmedLoops(was: set<Arc>, now: set<Arc>, pre: nat, post: nat, list: seq<nat>, i: nat, had: bool, has: bool)
    requires i < |list| && Trimmed(was, now, pre, post, list, i, had) && Fenced(was, pre, post)
    requires var now2 := now - SelfLoops(now, list[i]); !has ==> forall a :: a in now2 && a.from == list[i] ==> !IsConstraint(a)
    ensures Trimmed(was, now - SelfLoops(now, list[i]), pre, post, list, i + 1, had || has)
  {
    assert list[..i + 1] == list[..i] + [list[i]];
    SelfLoopsSame(now, SelfLoops(now, list[i]), pre, post);
    SameTextsTrans(was, now, now - SelfLoops(now, list[i]), pre, post);
    hide SameTexts;
  }

  lemma TrimmedLess(was: set<Arc>, now: set<Arc>, now2: set<Arc>, pre: nat, post: nat, list: seq<nat>, i: nat, has: bool)
    requires i <= |list| && Trimmed(was, now, pre, post, list, i, has) && now2 <= now && SameTexts(now, now2, pre, post)
    ensures Trimmed(was, now2, pre, post, list, i, has)
  {
    SameTextsTrans(was, now, now2, pre, post);
    hide SameTexts;
  }

  /** dropstate() of a state nothing enters or nothing leaves. */
  method DropIdle(nfa: Nfa, s: nat)
    requires nfa.Valid() && s in nfa.ins && !nfa.Flagged(s) && (nfa.ins[s] == [] || nfa.outs[s] == [])
    modifies nfa`states, nfa`ins, nfa`outs, nfa`arcs
    ensures nfa.Valid() && nfa.arcs <= old(nfa.arcs) && nfa.ins.Keys == old(nfa.ins.Keys) - {s} && SameTexts(old(nfa.arcs), nfa.arcs, nfa.pre, nfa.post)
  {
    ghost var before := nfa.arcs;
    assert InSet(before, s) == {} || OutSet(before, s) == {} by {
      if nfa.ins[s] == [] { ChainEmpty(nfa.ins, before, true, s); } else { ChainEmpty(nfa.outs, before, false, s); }
    }
    DropSame(before, s, nfa.pre, nfa.post);
    hide Agree, StatesAgree, SameTexts;
    nfa.DropState(s);
  }

  /** One turn of that loop. */
  method TrimOne(nfa: Nfa, list: seq<nat>, i: nat, had: bool, ghost was: set<Arc>) returns (hasconstraints: bool)
    requires nfa.Valid() && i < |list| && Pending(list, i, nfa.ins.Keys) && Fenced(was, nfa.pre, nfa.post)
    requires Trimmed(was, nfa.arcs, nfa.pre, nfa.post, list, i, had)
    modifies nfa`states, nfa`ins, nfa`outs, nfa`arcs
    ensures nfa.Valid() && Pending(list, i + 1, nfa.ins.Keys) && Trimmed(was, nfa.arcs, nfa.pre, nfa.post, list, i + 1, hasconstraints)
  {
    hide Agree, StatesAgree, Pending, SameTexts, Trimmed, Within, Fenced, SelfLoops;
    var s := list[i];
    ghost var now, keys := nfa.arcs, nfa.ins.Keys;
    PendingNext(list, i, keys);
    var has := FreeSelfLoops(nfa, s);
    TrimmedLoops(was, now, nfa.pre, nfa.post, list, i, had, has);
    hasconstraints := had || has;
    if |nfa.outs[s]| == 0 && !nfa.Flagged(s) {
      ghost var now2 := nfa.arcs;
      DropIdle(nfa, s);
      TrimmedLess(was, now2, nfa.arcs, nfa.pre, nfa.post, list, i + 1, hasconstraints);
      PendingWithout(list, i, keys);
    }
  }

  /** The first loop of fixconstraintloops(), regc_nfa.c:2159-2240. */
  method DropSelfLoops(nfa: Nfa) returns (hasconstraints: bool)
    requires nfa.Valid() && Fenced(nfa.arcs, nfa.pre, nfa.post)
    modifies nfa`states, nfa`ins, nfa`outs, nfa`arcs
    ensures nfa.Valid() && nfa.arcs <= old(nfa.arcs) && SameTexts(old(nfa.arcs), nfa.arcs, nfa.pre, nfa.post)
    ensures NoSelfLoops(nfa.arcs) && (!hasconstraints ==> forall a :: a in nfa.arcs ==> !IsConstraint(a))
  {
    ghost var was, keys0 := nfa.arcs, nfa.ins.Keys;
    StatesPending(nfa);
    var list := nfa.states;
    hasconstraints := false;
    TrimmedStart(was, nfa.pre, nfa.post, list);
    hide Agree, StatesAgree, Pending, SameTexts, Trimmed, Within, Fenced, SelfLoops;
    var i := 0;
    while i < |list|
      invariant nfa.Valid() && 0 <= i <= |list| && Pending(list, i, nfa.ins.Keys)
      invariant Trimmed(was, nfa.arcs, nfa.pre, nfa.post, list, i, hasconstraints)
    {
      hasconstraints := TrimOne(nfa, list, i, hasconstraints, was);
      i := i + 1;
    }
    TrimmedDone(was, nfa.arcs, nfa.pre, nfa.post, list, hasconstraints, keys0);
  }

  lemma TrimmedStart(was: set<Arc>, pre: nat, post: nat, list: seq<nat>)
    ensures Trimmed(was, was, pre, post, list, 0, false)
  {
    SameTextsRefl(was, pre, post);
  }

  lemma TrimmedDone(was: set<Arc>, now: set<Arc>, pre: nat, post: nat, list: seq<nat>, has: bool, keys: set<nat>)
    requires Trimmed(was, now, pre, post, list, |list|, has) && Within(was, keys) && forall s :: s in keys <==> s in list
    ensures now <= was && SameTexts(was, now, pre, post) && NoSelfLoops(now) && (!has ==> forall a :: a in now ==> !IsConstraint(a))
  {
    hide SameTexts;
    assert list[..|list|] == list;
    forall a | a in now ensures a.from in list[..|list|] { assert a in was; }
  }

  // ---------------------------------------------------------------- searching for a loop

  /** The states of the path are linked by their tmp pointers, along constraint arcs. */
  ghost predicate Linked(arcs: set<Arc>, tmp: map<nat, nat>, path: seq<nat>) {
    forall i :: 0 <= i < |path| - 1 ==> LinkAt(arcs, tmp, path, i)
  }

  ghost predicate LinkAt(arcs: set<Arc>, tmp: map<nat, nat>, path: seq<nat>, i: nat)
    requires i + 1 < |path|
  {
    path[i] in tmp && tmp[path[i]] == path[i + 1] && Step(arcs, path[i], path[i + 1])
  }

  /** The marked states are those on the way from the first call, and those known to be on no loop, which are
      marked with themselves. */
  ghost predicate Marked(tmp: map<nat, nat>, stack: seq<nat>, done: seq<nat>) {
    && (forall x :: x in tmp ==> x in stack || x in done)
    && (forall x :: x in stack ==> x in tmp && x !in done) && (forall x :: x in done ==> x in tmp && tmp[x] == x)
    && (forall i, j :: 0 <= i < j < |stack| ==> stack[i] != stack[j]) && (forall i, j :: 0 <= i < j < |done| ==> done[i] != done[j])
  }

  /** From a settled state constraint arcs lead to states settled before. */
  ghost predicate Settled(arcs: set<Arc>, done: seq<nat>) {
    forall i, q :: 0 <= i < |done| && Step(arcs, done[i], q) ==> q in done[..i]
  }

  /** A loop of constraint arcs, each state's tmp pointer leading to the next. */
  ghost predicate Loop(arcs: set<Arc>, tmp: map<nat, nat>, loop: seq<nat>) {
    |loop| >= 2 && Linked(arcs, tmp, loop + [loop[0]])
  }

  /** What breakconstraintloop() is given: a state of a real loop. */
  ghost predicate OnLoop(arcs: set<Arc>, tmp: map<nat, nat>, s: nat) {
    exists loop: seq<nat> :: Loop(arcs, tmp, loop) && loop[0] == s
  }

  lemma PathMoves(arcs: set<Arc>, tmp: map<nat, nat>, path: seq<nat>, k: nat)
    requires Linked(arcs, tmp, path) && k + 1 < |path| && NoSelfLoops(arcs)
    ensures path[k] in tmp && tmp[path[k]] == path[k + 1] && path[k + 1] != path[k]
  {
    assert LinkAt(arcs, tmp, path, k);
  }

  /** The pointers that the path has led to s: s is on the path, so the rest of it is a loop. */
  lemma LoopFound(arcs: set<Arc>, tmp: map<nat, nat>, stack: seq<nat>, done: seq<nat>, s: nat)
    requires Linked(arcs, tmp, stack + [s]) && Marked(tmp, stack, done) && s in tmp && tmp[s] != s && NoSelfLoops(arcs)
    ensures OnLoop(arcs, tmp, s)
  {
    var k :| 0 <= k < |stack| && stack[k] == s;
    var path, loop := stack + [s], stack[k..];
    assert loop + [loop[0]] == path[k..];
    PathMoves(arcs, tmp, path, k);
    forall i | 0 <= i < |loop| ensures LinkAt(arcs, tmp, loop + [loop[0]], i) { assert LinkAt(arcs, tmp, path, k + i); }
    assert Loop(arcs, tmp, loop);
  }

  /** A state that is marked with itself has been settled. */
  lemma SettledState(arcs: set<Arc>, tmp: map<nat, nat>, stack: seq<nat>, done: seq<nat>, s: nat)
    requires Linked(arcs, tmp, stack + [s]) && Marked(tmp, stack, done) && s in tmp && tmp[s] == s && NoSelfLoops(arcs)
    ensures s in done
  {
    if s in stack {
      var k :| 0 <= k < |stack| && stack[k] == s;
      PathMoves(arcs, tmp, stack + [s], k);
    }
  }

  /** The tmp pointers of the states on the way have not been touched. */
  ghost predicate StackKept(tmp: map<nat, nat>, tmp2: map<nat, nat>, stack: seq<nat>) {
    forall x :: x in stack && x in tmp ==> x in tmp2 && tmp2[x] == tmp[x]
  }

  /** s goes on the path, by its arc to q. */
  lemma Stacked(arcs: set<Arc>, tmp: map<nat, nat>, stack: seq<nat>, done: seq<nat>, s: nat, q: nat)
    requires Linked(arcs, tmp, stack + [s]) && s !in stack && s !in done && Step(arcs, s, q)
    requires Marked(tmp, stack, done) || (s in tmp && Marked(tmp, stack + [s], done))
    ensures Linked(arcs, tmp[s := q], stack + [s] + [q]) && Marked(tmp[s := q], stack + [s], done)
  {
    var tmp2, path := tmp[s := q], stack + [s] + [q];
    forall i | 0 <= i < |path| - 1 ensures LinkAt(arcs, tmp2, path, i) {
      if i < |stack| { assert LinkAt(arcs, tmp, stack + [s], i) && path[i] in stack; }
    }
  }

  /** s is settled once all its constraint arcs have been followed. */
  lemma SettledNow(arcs: set<Arc>, tmp: map<nat, nat>, stack: seq<nat>, done: seq<nat>, s: nat)
    requires Marked(tmp, stack, done) || (s in tmp && Marked(tmp, stack + [s], done))
    requires s !in stack && s !in done && Settled(arcs, done) && forall q :: Step(arcs, s, q) ==> q in done
    ensures Marked(tmp[s := s], stack, done + [s]) && Settled(arcs, done + [s])
  {
    var done2 := done + [s];
    assert done2[|done|] == s && (stack + [s])[|stack|] == s;
    forall x ensures (x in done2 <==> x in done || x == s) && (x in stack + [s] <==> x in stack || x == s) {}
    forall i, j | 0 <= i < j < |stack| ensures stack[i] != stack[j] { assert stack[i] == (stack + [s])[i] && stack[j] == (stack + [s])[j]; }
    forall i, q | 0 <= i < |done2| && Step(arcs, done2[i], q) ensures q in done2[..i] {
      if i < |done| { assert done2[..i] == done[..i]; } else { assert done2[..i] == done; }
    }
  }

  /** findconstraintloop(), regc_nfa.c:2261-2300, up to the call of breakconstraintloop(). stack is the way that has
      led here. Without a loop, s and what can be reached from it by constraint arcs are settled. */
  method FindConstraintLoop(nfa: Nfa, s: nat, ghost stack: seq<nat>, ghost done: seq<nat>) returns (loop: Option<nat>, ghost done2: seq<nat>)
    requires nfa.Valid() && s in nfa.ins && NoSelfLoops(nfa.arcs) && nfa.tmp.Keys <= nfa.ins.Keys
    requires Linked(nfa.arcs, nfa.tmp, stack + [s]) && Marked(nfa.tmp, stack, done) && Settled(nfa.arcs, done)
    modifies nfa`tmp
    ensures loop.Some? ==> OnLoop(nfa.arcs, nfa.tmp, loop.value)
    ensures loop.None? ==> Marked(nfa.tmp, stack, done2) && Settled(nfa.arcs, done2) && s in done2 && done <= done2
    ensures loop.None? ==> StackKept(old(nfa.tmp), nfa.tmp, stack) && nfa.tmp.Keys <= nfa.ins.Keys && old(nfa.tmp.Keys) <= nfa.tmp.Keys
    decreases nfa.ins.Keys - nfa.tmp.Keys
  {
    hide Agree, StatesAgree, Within, Linked, Marked, Settled, Step, OnLoop, StackKept;
    loop, done2 := None, done;
    if s in nfa.tmp {
      if nfa.tmp[s] == s {
        SettledState(nfa.arcs, nfa.tmp, stack, done, s);
        StackSelf(nfa.tmp, stack);
        return;
      }
      LoopFound(nfa.arcs, nfa.tmp, stack, done, s);
      return Some(s), done;
    }
    Unmarked(nfa.tmp, stack, done, s);
    ghost var tmp0 := nfa.tmp;
    StackSelf(nfa.tmp, stack);
    FollowedNone(nfa.outs[s]);
    var i := 0;
    while i < |nfa.outs[s]|
      invariant loop.None? && i <= |nfa.outs[s]| && nfa.tmp.Keys <= nfa.ins.Keys && tmp0.Keys <= nfa.tmp.Keys
      invariant Linked(nfa.arcs, nfa.tmp, stack + [s]) && Settled(nfa.arcs, done2) && done <= done2 && s !in done2
      invariant (s !in nfa.tmp && Marked(nfa.tmp, stack, done2)) || (s in nfa.tmp && Marked(nfa.tmp, stack + [s], done2))
      invariant Followed(nfa.outs[s], i, done2) && StackKept(tmp0, nfa.tmp, stack)
    {
      var a := nfa.outs[s][i];
      if IsConstraint(a) {
        loop, done2 := Follow(nfa, s, i, stack, done2, tmp0);
        if loop.Some? { return; }
      } else {
        FollowedSkip(nfa.outs[s], i, done2);
      }
      i := i + 1;
    }
    AllFollowed(nfa.outs, nfa.arcs, s, done2);
    SettledNow(nfa.arcs, nfa.tmp, stack, done2, s);
    StackOther(tmp0, nfa.tmp, stack, s, s);
    nfa.tmp := nfa.tmp[s := s];
    done2 := done2 + [s];
  }

  /** The constraint arcs among the first i of a chain lead to settled states. */
  ghost predicate Followed(chain: seq<Arc>, i: nat, done: seq<nat>) {
    forall j :: 0 <= j < i && j < |chain| && IsConstraint(chain[j]) ==> chain[j].to in done
  }

  lemma FollowedNone(chain: seq<Arc>)
    ensures forall done :: Followed(chain, 0, done)
  {
  }

  lemma FollowedSkip(chain: seq<Arc>, i: nat, done: seq<nat>)
    requires Followed(chain, i, done) && (i < |chain| ==> !IsConstraint(chain[i]) || chain[i].to in done)
    ensures Followed(chain, i + 1, done)
  {
  }

  lemma FollowedMore(chain: seq<Arc>, i: nat, done: seq<nat>, done2: seq<nat>)
    requires Followed(chain, i, done) && done <= done2
    ensures Followed(chain, i, done2)
  {
  }

  lemma AllFollowed(outs: map<nat, seq<Arc>>, arcs: set<Arc>, s: nat, done: seq<nat>)
    requires Agree(outs, arcs, false) && s in outs && Followed(outs[s], |outs[s]|, done)
    ensures forall q :: Step(arcs, s, q) ==> q in done
  {
    forall q | Step(arcs, s, q) ensures q in done {
      var a :| a in arcs && IsConstraint(a) && a.from == s && a.to == q;
      ChainMember(outs, arcs, false, a);
    }
  }

  lemma StackSelf(tmp: map<nat, nat>, stack: seq<nat>)
    ensures StackKept(tmp, tmp, stack)
  {
  }

  lemma StackOther(tmp0: map<nat, nat>, tmp: map<nat, nat>, stack: seq<nat>, s: nat, q: nat)
    requires StackKept(tmp0, tmp, stack) && s !in stack
    ensures StackKept(tmp0, tmp[s := q], stack)
  {
  }

  lemma Unmarked(tmp: map<nat, nat>, stack: seq<nat>, done: seq<nat>, s: nat)
    requires Marked(tmp, stack, done) && s !in tmp
    ensures s !in stack && s !in done
  {
  }

  lemma StackTrans(a: map<nat, nat>, b: map<nat, nat>, c: map<nat, nat>, stack: seq<nat>, s: nat)
    requires StackKept(a, b, stack) && StackKept(b, c, stack + [s]) && s in b && a.Keys <= b.Keys
    ensures StackKept(a, c, stack)
  {
  }

  /** One constraint arc of s. */
  method Follow(nfa: Nfa, s: nat, i: nat, ghost stack: seq<nat>, ghost done: seq<nat>, ghost tmp0: map<nat, nat>) returns (loop: Option<nat>, ghost done2: seq<nat>)
    requires nfa.Valid() && s in nfa.ins && NoSelfLoops(nfa.arcs) && nfa.tmp.Keys <= nfa.ins.Keys && tmp0.Keys <= nfa.tmp.Keys
    requires i < |nfa.outs[s]| && IsConstraint(nfa.outs[s][i]) && s !in stack && s !in done && s !in tmp0
    requires Linked(nfa.arcs, nfa.tmp, stack + [s]) && Settled(nfa.arcs, done)
    requires (s !in nfa.tmp && Marked(nfa.tmp, stack, done)) || (s in nfa.tmp && Marked(nfa.tmp, stack + [s], done))
    requires Followed(nfa.outs[s], i, done) && StackKept(tmp0, nfa.tmp, stack)
    modifies nfa`tmp
    ensures loop.Some? ==> OnLoop(nfa.arcs, nfa.tmp, loop.value)
    ensures loop.None? ==> s in nfa.tmp && Marked(nfa.tmp, stack + [s], done2) && Settled(nfa.arcs, done2) && done <= done2 && s !in done2
    ensures loop.None? ==> Linked(nfa.arcs, nfa.tmp, stack + [s]) && nfa.tmp.Keys <= nfa.ins.Keys && tmp0.Keys <= nfa.tmp.Keys
    ensures loop.None? ==> Followed(nfa.outs[s], i + 1, done2) && StackKept(tmp0, nfa.tmp, stack)
    decreases nfa.ins.Keys - tmp0.Keys, 0
  {
    hide Agree, StatesAgree, Within, Linked, Marked, Settled, Step, OnLoop, StackKept, Followed;
    var a := nfa.outs[s][i];
    ArcOut(nfa.outs, nfa.arcs, nfa.ins.Keys, s, i);
    var sto := a.to;
    assert sto != s;
    Stacked(nfa.arcs, nfa.tmp, stack, done, s, sto);
    StackOther(tmp0, nfa.tmp, stack, s, sto);
    nfa.tmp := nfa.tmp[s := sto];
    ghost var tmp1 := nfa.tmp;
    assert nfa.ins.Keys - tmp1.Keys < nfa.ins.Keys - tmp0.Keys by { assert s in nfa.ins.Keys - tmp0.Keys; }
    loop, done2 := FindConstraintLoop(nfa, sto, stack + [s], done);
    if loop.None? {
      Unstacked(nfa.arcs, tmp1, nfa.tmp, stack, done2, s, sto);
      StackTrans(tmp0, tmp1, nfa.tmp, stack, s);
      FollowedMore(nfa.outs[s], i, done, done2);
      FollowedSkip(nfa.outs[s], i, done2);
    }
  }

  lemma ArcOut(outs: map<nat, seq<Arc>>, arcs: set<Arc>, keys: set<nat>, s: nat, i: nat)
    requires Agree(outs, arcs, false) && Within(arcs, keys) && s in outs && i < |outs[s]| && IsConstraint(outs[s][i]) && NoSelfLoops(arcs)
    ensures outs[s][i].to in keys && outs[s][i].to != s && Step(arcs, s, outs[s][i].to)
  {
    assert outs[s][i] in outs[s];
  }

  lemma Unstacked(arcs: set<Arc>, tmp1: map<nat, nat>, tmp: map<nat, nat>, stack: seq<nat>, done: seq<nat>, s: nat, q: nat)
    requires Linked(arcs, tmp1, stack + [s] + [q]) && StackKept(tmp1, tmp, stack + [s]) && Marked(tmp, stack + [s], done)
    ensures Linked(arcs, tmp, stack + [s]) && s !in done && s in tmp
  {
    var path := stack + [s];
    assert path[|stack|] == s && s in path;
    forall i | 0 <= i < |path| - 1 ensures LinkAt(arcs, tmp, path, i) {
      assert LinkAt(arcs, tmp1, path + [q], i) && path[i] in path;
    }
  }

  // ---------------------------------------------------------------- all states

  lemma {:induction false} LoopRises(arcs: set<Arc>, tmp: map<nat, nat>, path: seq<nat>, rank: nat -> int, k: nat)
    requires Linked(arcs, tmp, path) && Ranked(arcs, rank) && 0 < k < |path|
    ensures rank(path[0]) < rank(path[k])
    decreases k
  {
    assert LinkAt(arcs, tmp, path, k - 1);
    if k > 1 { LoopRises(arcs, tmp, path, rank, k - 1); }
  }

  /** With a loop there is no ranking. */
  lemma LoopUnranked(arcs: set<Arc>, tmp: map<nat, nat>, s: nat, rank: nat -> int)
    requires OnLoop(arcs, tmp, s)
    ensures !Ranked(arcs, rank)
  {
    var loop: seq<nat> :| Loop(arcs, tmp, loop) && loop[0] == s;
    if Ranked(arcs, rank) { LoopRises(arcs, tmp, loop + [loop[0]], rank, |loop|); }
  }

  function IndexOf(done: seq<nat>, x: nat): (i: int)
    ensures 0 <= i <= |done| && (x in done ==> i < |done| && done[i] == x)
  {
    if done == [] || done[0] == x then 0 else 1 + IndexOf(done[1..], x)
  }

  /** States settled later rank lower. */
  lemma SettledRanked(arcs: set<Arc>, tmp: map<nat, nat>, done: seq<nat>)
    requires Marked(tmp, [], done) && Settled(arcs, done) && forall a :: a in arcs ==> a.from in done
    ensures Ranked(arcs, (x: nat) => -IndexOf(done, x))
  {
    forall a | a in arcs && IsConstraint(a) ensures IndexOf(done, a.to) < IndexOf(done, a.from) {
      var i := IndexOf(done, a.from);
      assert Step(arcs, done[i], a.to);
      var j :| 0 <= j < |done[..i]| && done[..i][j] == a.to;
      assert done[j] == a.to && a.to in done;
    }
  }

  lemma NoneMarked(arcs: set<Arc>, s: nat)
    ensures Marked(map[], [], []) && Settled(arcs, [])
  {
  }

  lemma AloneLinked(arcs: set<Arc>, tmp: map<nat, nat>, s: nat)
    ensures Linked(arcs, tmp, [] + [s])
  {
  }

  /** The search of fixconstraintloops(), regc_nfa.c:2159-2240, for as long as no loop has been found: it comes to
      its end exactly when there is none. */
  method SearchLoops(nfa: Nfa) returns (loop: Option<nat>)
    requires nfa.Valid() && nfa.tmp == map[] && NoSelfLoops(nfa.arcs)
    modifies nfa`tmp
    ensures loop.Some? ==> OnLoop(nfa.arcs, nfa.tmp, loop.value)
    ensures loop.None? <==> exists rank :: Ranked(nfa.arcs, rank)
    ensures loop.None? ==> nfa.tmp.Keys <= nfa.ins.Keys
  {
    hide Agree, StatesAgree, Marked, Settled, OnLoop, Pending, Linked, Step;
    StatesPending(nfa);
    NoneMarked(nfa.arcs, 0);
    var list := nfa.states;
    ghost var done: seq<nat> := [];
    loop := None;
    var i := 0;
    while i < |list|
      invariant loop.None? && 0 <= i <= |list| && Pending(list, i, nfa.ins.Keys) && nfa.tmp.Keys <= nfa.ins.Keys
      invariant Marked(nfa.tmp, [], done) && Settled(nfa.arcs, done) && forall j :: 0 <= j < i ==> list[j] in done
    {
      PendingNext(list, i, nfa.ins.Keys);
      AloneLinked(nfa.arcs, nfa.tmp, list[i]);
      ghost var done2;
      loop, done2 := FindConstraintLoop(nfa, list[i], [], done);
      if loop.Some? {
        forall rank ensures !Ranked(nfa.arcs, rank) { LoopUnranked(nfa.arcs, nfa.tmp, loop.value, rank); }
        return;
      }
      assert forall x :: x in done ==> x in done2;
      done := done2;
      i := i + 1;
    }
    forall a | a in nfa.arcs ensures a.from in done { Ends(nfa.arcs, a, nfa.ins.Keys); }
    SettledRanked(nfa.arcs, nfa.tmp, done);
  }

  /** The last loop of fixconstraintloops(), regc_nfa.c:2159-2240. */
  method ClearAndDrop(nfa: Nfa)
    requires nfa.Valid()
    modifies nfa`states, nfa`ins, nfa`outs, nfa`arcs, nfa`tmp
    ensures nfa.Valid() && nfa.arcs <= old(nfa.arcs) && SameTexts(old(nfa.arcs), nfa.arcs, nfa.pre, nfa.post)
    ensures forall s :: s in old(nfa.states) ==> s !in nfa.tmp
    ensures forall s :: s in nfa.tmp ==> s in old(nfa.tmp)
  {
    hide Agree, StatesAgree, Pending, SameTexts, Within;
    ghost var was := nfa.arcs;
    StatesPending(nfa);
    SameTextsRefl(was, nfa.pre, nfa.post);
    var list := nfa.states;
    var i := 0;
    while i < |list|
      invariant nfa.Valid() && 0 <= i <= |list| && Pending(list, i, nfa.ins.Keys)
      invariant nfa.arcs <= was && SameTexts(was, nfa.arcs, nfa.pre, nfa.post)
      invariant (forall j :: 0 <= j < i ==> list[j] !in nfa.tmp) && forall s :: s in nfa.tmp ==> s in old(nfa.tmp)
    {
      var s := list[i];
      ghost var now, keys := nfa.arcs, nfa.ins.Keys;
      PendingNext(list, i, keys);
      nfa.tmp := nfa.tmp - {s};
      if (|nfa.ins[s]| == 0 || |nfa.outs[s]| == 0) && !nfa.Flagged(s) {
        DropIdle(nfa, s);
        SameTextsTrans(was, now, nfa.arcs, nfa.pre, nfa.post);
        PendingWithout(list, i, keys);
      }
      i := i + 1;
    }
  }

  lemma Unconstrained(arcs: set<Arc>)
    requires forall a :: a in arcs ==> !IsConstraint(a)
    ensures exists rank :: Ranked(arcs, rank)
  {
    assert Ranked(arcs, (x: nat) => 0);
  }

  lemma RankedLess(arcs: set<Arc>, arcs2: set<Arc>)
    requires arcs2 <= arcs && exists rank :: Ranked(arcs, rank)
    ensures exists rank :: Ranked(arcs2, rank)
  {
    var rank :| Ranked(arcs, rank);
    assert Ranked(arcs2, rank);
  }
}
