/** Why push() is right (regc_nfa.c:1710-1799). Seen from the other end of the automaton, with '^' for
    '$' and BEHIND for AHEAD, a push is a pull. */
module Pushing {
  import opened Nfa
  import opened Runs
  import opened Pulling

  function RevType(t: ArcType): ArcType {
    match t
    case CARET => DOLLAR
    case DOLLAR => CARET
    case BEHIND => AHEAD
    case AHEAD => BEHIND
    case _ => t
  }

  /** The arc as it looks from the other end. */
  function Rev(a: Arc): Arc {
    Arc(RevType(a.typ), a.co, a.to, a.from)
  }

  ghost function RevAll(arcs: set<Arc>): set<Arc> {
    set a | a in arcs :: Rev(a)
  }

  lemma RevTwice(a: Arc)
    ensures Rev(Rev(a)) == a
  {
  }

  lemma RevIn(arcs: set<Arc>, a: Arc)
    ensures a in RevAll(arcs) <==> Rev(a) in arcs
    ensures Rev(a) in RevAll(arcs) <==> a in arcs
  {
    RevTwice(a);
    forall b | b in arcs && Rev(b) == a ensures Rev(a) == b { RevTwice(b); }
    forall b | b in arcs && Rev(b) == Rev(a) ensures a == b { RevTwice(b); }
  }

  lemma RevCombine(con: Arc, a: Arc)
    requires Fwd(con.typ)
    ensures Combine(Rev(con), Rev(a)) == Combine(con, a)
    ensures Passes(RevType(a.typ), true) <==> Passes(a.typ, false)
  {
  }

  /** The arcs after push(con). */
  ghost predicate Pushed(arcs: set<Arc>, con: Arc, mid: map<nat, nat>, alone: bool, b: set<Arc>) {
    Pulled(RevAll(arcs), Rev(con), mid, alone, RevAll(b))
  }

  ghost predicate MidsReadyFwd(arcs: set<Arc>, con: Arc, mid: map<nat, nat>, pre: nat, post: nat) {
    MidsReady(RevAll(arcs), Rev(con), mid, post, pre)
  }

  /** con is the only in-arc of its target. */
  ghost predicate AloneIn(arcs: set<Arc>, con: Arc) {
    forall e :: e in arcs && e.to == con.to ==> e == con
  }

  // ---------------------------------------------------------------- the three kinds of arc after a push

  ghost predicate ImpliedFwd(arcs: set<Arc>, con: Arc, e: Arc) {
    exists a :: a in arcs && a.from == con.to && Combine(con, a) == SATISFIED && e == a.(from := con.from)
  }

  ghost predicate SwappedByFwd(con: Arc, mid: map<nat, nat>, e: Arc, a: Arc) {
    && Combine(con, a) == COMPATIBLE && a.to in mid
    && (e == con.(from := mid[a.to], to := a.to) || e == a.(from := con.from, to := mid[a.to]))
  }

  ghost predicate SwappedFwd(arcs: set<Arc>, con: Arc, mid: map<nat, nat>, e: Arc) {
    exists a :: a in arcs && a.from == con.to && SwappedByFwd(con, mid, e, a)
  }

  lemma ImpliedRev(arcs: set<Arc>, con: Arc, e: Arc)
    requires Fwd(con.typ)
    ensures ImpliedFwd(arcs, con, e) <==> Implied(RevAll(arcs), Rev(con), Rev(e))
  {
    if ImpliedFwd(arcs, con, e) {
      var a :| a in arcs && a.from == con.to && Combine(con, a) == SATISFIED && e == a.(from := con.from);
      RevIn(arcs, a);
      RevCombine(con, a);
      assert Rev(a) in RevAll(arcs) && Rev(e) == Rev(a).(to := Rev(con).to);
    }
    if Implied(RevAll(arcs), Rev(con), Rev(e)) {
      var d :| d in RevAll(arcs) && d.to == Rev(con).from && Combine(Rev(con), d) == SATISFIED && Rev(e) == d.(to := Rev(con).to);
      var a := Rev(d);
      RevTwice(d);
      RevTwice(e);
      RevIn(arcs, d);
      RevCombine(con, a);
      assert a in arcs && e == a.(from := con.from);
    }
  }

  lemma SwappedByRev(con: Arc, mid: map<nat, nat>, e: Arc, a: Arc)
    requires Fwd(con.typ)
    ensures SwappedByFwd(con, mid, e, a) <==> SwappedBy(Rev(con), mid, Rev(e), Rev(a))
  {
    RevCombine(con, a);
    RevTwice(e);
    RevTwice(a);
    RevTwice(con);
    if a.to in mid {
      var m := mid[a.to];
      assert Rev(con.(from := m, to := a.to)) == Rev(con).(from := a.to, to := m);
      assert Rev(a.(from := con.from, to := m)) == Rev(a).(from := m, to := con.from);
      RevTwice(con.(from := m, to := a.to));
      RevTwice(a.(from := con.from, to := m));
    }
  }

  lemma SwappedRev(arcs: set<Arc>, con: Arc, mid: map<nat, nat>, e: Arc)
    requires Fwd(con.typ)
    ensures SwappedFwd(arcs, con, mid, e) <==> Swapped(RevAll(arcs), Rev(con), mid, Rev(e))
  {
    if SwappedFwd(arcs, con, mid, e) {
      var a :| a in arcs && a.from == con.to && SwappedByFwd(con, mid, e, a);
      RevIn(arcs, a);
      SwappedByRev(con, mid, e, a);
      assert Rev(a) in RevAll(arcs);
    }
    if Swapped(RevAll(arcs), Rev(con), mid, Rev(e)) {
      var d :| d in RevAll(arcs) && d.to == Rev(con).from && SwappedBy(Rev(con), mid, Rev(e), d);
      var a := Rev(d);
      RevTwice(d);
      RevIn(arcs, d);
      SwappedByRev(con, mid, e, a);
      assert a in arcs && a.from == con.to;
    }
  }

  /** What a push leaves behind, seen from this end. */
  lemma PushedIs(arcs: set<Arc>, con: Arc, mid: map<nat, nat>, alone: bool, b: set<Arc>, e: Arc)
    requires Pushed(arcs, con, mid, alone, b) && Fwd(con.typ)
    ensures e in b <==> (e in arcs && e != con && !(alone && e.from == con.to)) || ImpliedFwd(arcs, con, e) || SwappedFwd(arcs, con, mid, e)
  {
    RevIn(b, e);
    RevIn(arcs, e);
    ImpliedRev(arcs, con, e);
    SwappedRev(arcs, con, mid, e);
    RevTwice(e);
    RevTwice(con);
    hide Implied, Swapped, ImpliedFwd, SwappedFwd;
  }

  /** The intermediate state of target q, seen from this end. */
  lemma MidIs(arcs: set<Arc>, con: Arc, mid: map<nat, nat>, pre: nat, post: nat, q: nat)
    requires MidsReadyFwd(arcs, con, mid, pre, post) && Fwd(con.typ) && q in mid
    ensures var m := mid[q]; m != pre && m != post && m != con.from && m != con.to && m != q
    ensures forall e :: e in arcs && e.from == mid[q] ==> e.to == q
    ensures forall e :: e in arcs && e.to == mid[q] ==>
      e.from == con.from && e.(from := con.to, to := q) in arcs && Passes(e.typ, false)
    ensures (exists e :: e in arcs && e.from == mid[q]) ==>
      forall a :: a in arcs && a.from == con.to && a.to == q && Passes(a.typ, false) ==> a.(from := con.from, to := mid[q]) in arcs
  {
    var m, rarcs, rcon := mid[q], RevAll(arcs), Rev(con);
    assert MidReady(rarcs, rcon, q, m, post, pre);
    forall e | e in arcs && e.from == m ensures e.to == q {
      RevIn(arcs, e);
      assert Rev(e) in rarcs && Rev(e).to == m;
    }
    forall e | e in arcs && e.to == m ensures e.from == con.from && e.(from := con.to, to := q) in arcs && Passes(e.typ, false) {
      RevIn(arcs, e);
      assert PassedBy(rarcs, rcon, q, m, Rev(e));
      var d :| d in rarcs && d.to == rcon.from && d.from == q && Passes(d.typ, true) && Rev(e) == d.(from := m, to := rcon.to);
      RevIn(arcs, d);
      assert Rev(d) == e.(from := con.to, to := q) by { RevTwice(e); RevTwice(d); }
      RevCombine(con, e);
    }
    if e :| e in arcs && e.from == m {
      RevIn(arcs, e);
      assert Rev(e) in rarcs && Rev(e).to == m;
      forall a | a in arcs && a.from == con.to && a.to == q && Passes(a.typ, false) ensures a.(from := con.from, to := m) in arcs {
        RevIn(arcs, a);
        RevCombine(con, a);
        assert Rev(a).(from := m, to := rcon.to) in rarcs;
        assert Rev(a).(from := m, to := rcon.to) == Rev(a.(from := con.from, to := m));
        RevIn(arcs, a.(from := con.from, to := m));
      }
    }
  }

  // ---------------------------------------------------------------- the same texts

  ghost predicate Pushable(arcs: set<Arc>, con: Arc, v: Env) {
    && Plainly(arcs) && Ended(arcs, v.pre, v.post) && Pseudo(arcs, v.eos)
    && con in arcs && Fwd(con.typ) && con.to != v.post && con.from != con.to
  }

  /** What an old run to x means for the new arcs: a run to x, or, at con's target, one to con's source,
      where con holds. */
  ghost predicate Kept(b: set<Arc>, con: Arc, v: Env, i: nat, x: nat, k: nat) {
    Goes(b, v, v.pre, i, x, k) || (x == con.to && HoldsFwd(v, con, k) && Goes(b, v, v.pre, i, con.from, k))
  }

  /** Once con is gone nothing enters its target, if con was alone. */
  lemma DeadTarget(arcs: set<Arc>, con: Arc, mid: map<nat, nat>, b: set<Arc>, v: Env, i: nat, k: nat)
    requires Pushable(arcs, con, v) && Pushed(arcs, con, mid, true, b) && AloneIn(arcs, con)
    requires MidsReadyFwd(arcs, con, mid, v.pre, v.post)
    ensures !Goes(b, v, v.pre, i, con.to, k)
  {
    forall n: nat ensures !Run(b, v, v.pre, i, con.to, k, n) {
      if Run(b, v, v.pre, i, con.to, k, n) && n > 0 {
        var e, j := LastOf(b, v, v.pre, i, con.to, k, n);
        NotIntoTarget(arcs, con, mid, b, v.pre, v.post, e);
      }
    }
  }

  lemma NotIntoTarget(arcs: set<Arc>, con: Arc, mid: map<nat, nat>, b: set<Arc>, pre: nat, post: nat, e: Arc)
    requires con in arcs && Fwd(con.typ) && con.from != con.to && AloneIn(arcs, con)
    requires Pushed(arcs, con, mid, true, b) && MidsReadyFwd(arcs, con, mid, pre, post) && e in b
    ensures e.to != con.to
  {
    PushedIs(arcs, con, mid, true, b, e);
    if SwappedFwd(arcs, con, mid, e) {
      var a :| a in arcs && a.from == con.to && SwappedByFwd(con, mid, e, a);
      MidIs(arcs, con, mid, pre, post, a.to);
      assert a != con;
    } else if ImpliedFwd(arcs, con, e) {
      var a :| a in arcs && a.from == con.to && Combine(con, a) == SATISFIED && e == a.(from := con.from);
      assert a != con;
    }
  }

  /** Along an arc that con meets: what is left of the two arcs after the push. */
  lemma ThroughTarget(arcs: set<Arc>, con: Arc, mid: map<nat, nat>, alone: bool, b: set<Arc>, v: Env, i: nat, d: Arc, j: nat, k: nat)
    requires Pushable(arcs, con, v) && Pushed(arcs, con, mid, alone, b) && MidsReadyFwd(arcs, con, mid, v.pre, v.post)
    requires d in arcs && d.from == con.to && HoldsFwd(v, con, j) && Goes(b, v, v.pre, i, con.from, j) && Takes(v, d, j, k)
    ensures Goes(b, v, v.pre, i, d.to, k)
  {
    CombineFwd(arcs, v, con, d, j, k);
    if Combine(con, d) == SATISFIED {
      var e := d.(from := con.from);
      assert ImpliedFwd(arcs, con, e);
      PushedIs(arcs, con, mid, alone, b, e);
      GoesOn(b, v, v.pre, i, e, j, k);
    } else {
      HasMid(arcs, con, mid, v.pre, v.post, d);
      var m := mid[d.to];
      MidIs(arcs, con, mid, v.pre, v.post, d.to);
      var e1, e2 := d.(from := con.from, to := m), con.(from := m, to := d.to);
      assert SwappedByFwd(con, mid, e1, d) && SwappedByFwd(con, mid, e2, d);
      assert SwappedFwd(arcs, con, mid, e1) && SwappedFwd(arcs, con, mid, e2);
      PushedIs(arcs, con, mid, alone, b, e1);
      PushedIs(arcs, con, mid, alone, b, e2);
      GoesOn(b, v, v.pre, i, e1, j, j);
      GoesOn(b, v, v.pre, i, e2, j, j);
    }
  }

  lemma HasMid(arcs: set<Arc>, con: Arc, mid: map<nat, nat>, pre: nat, post: nat, d: Arc)
    requires MidsReadyFwd(arcs, con, mid, pre, post) && Fwd(con.typ) && d in arcs && d.from == con.to && Passes(d.typ, false)
    ensures d.to in mid
  {
    RevIn(arcs, d);
    RevCombine(con, d);
    assert Rev(d) in RevAll(arcs) && Rev(d).to == Rev(con).from && Rev(d).from == d.to;
    assert Passed(RevAll(arcs), Rev(con).from, d.to);
  }

  /** Every run of the old arcs is matched by one of the new. */
  lemma {:induction false} PushKeepsRuns(arcs: set<Arc>, con: Arc, mid: map<nat, nat>, alone: bool, b: set<Arc>, v: Env,
                                         i: nat, x: nat, k: nat, n: nat)
    requires Pushable(arcs, con, v) && Pushed(arcs, con, mid, alone, b) && (alone ==> AloneIn(arcs, con))
    requires MidsReadyFwd(arcs, con, mid, v.pre, v.post) && Run(arcs, v, v.pre, i, x, k, n)
    ensures Kept(b, con, v, i, x, k)
    decreases n
  {
    if n == 0 {
      GoesNowhere(b, v, v.pre, i);
    } else {
      var d, j := LastOf(arcs, v, v.pre, i, x, k, n);
      PushKeepsRuns(arcs, con, mid, alone, b, v, i, d.from, j, n - 1);
      if Goes(b, v, v.pre, i, d.from, j) {
        if d != con {
          if alone { DeadTarget(arcs, con, mid, b, v, i, j); }
          PushedIs(arcs, con, mid, alone, b, d);
          GoesOn(b, v, v.pre, i, d, j, k);
        }
      } else {
        ThroughTarget(arcs, con, mid, alone, b, v, i, d, j, k);
      }
    }
  }

  /** What a new run to x means for the old arcs: a run to x, or, in an intermediate state, a run to con's
      source, from where a passing arc of con's target may be taken. */
  ghost predicate ExplainedFwd(arcs: set<Arc>, con: Arc, mid: map<nat, nat>, v: Env, i: nat, x: nat, k: nat) {
    Goes(arcs, v, v.pre, i, x, k) || ReadyAt(arcs, con, mid, v, i, x, k)
  }

  ghost predicate ReadyAt(arcs: set<Arc>, con: Arc, mid: map<nat, nat>, v: Env, i: nat, x: nat, k: nat) {
    && Goes(arcs, v, v.pre, i, con.from, k)
    && exists a :: a in arcs && a.from == con.to && a.to in mid && mid[a.to] == x && Passes(a.typ, false) && Takes(v, a, k, k)
  }

  lemma ThroughCon(arcs: set<Arc>, con: Arc, v: Env, i: nat, a: Arc, j: nat, k: nat)
    requires Pushable(arcs, con, v) && a in arcs && a.from == con.to
    requires Goes(arcs, v, v.pre, i, con.from, j) && HoldsFwd(v, con, j) && Takes(v, a, j, k)
    ensures Goes(arcs, v, v.pre, i, a.to, k)
  {
    GoesOn(arcs, v, v.pre, i, con, j, j);
    GoesOn(arcs, v, v.pre, i, a, j, k);
  }

  /** con's source is not an intermediate state. */
  lemma SourceExplainedFwd(arcs: set<Arc>, con: Arc, mid: map<nat, nat>, v: Env, i: nat, k: nat)
    requires MidsReadyFwd(arcs, con, mid, v.pre, v.post) && Fwd(con.typ) && ExplainedFwd(arcs, con, mid, v, i, con.from, k)
    ensures Goes(arcs, v, v.pre, i, con.from, k)
  {
    NotAMid(arcs, con, mid, v.pre, v.post);
  }

  lemma OldArcExplainedFwd(arcs: set<Arc>, con: Arc, mid: map<nat, nat>, v: Env, i: nat, d: Arc, j: nat, k: nat)
    requires Pushable(arcs, con, v) && MidsReadyFwd(arcs, con, mid, v.pre, v.post)
    requires d in arcs && ExplainedFwd(arcs, con, mid, v, i, d.from, j) && Takes(v, d, j, k)
    ensures ExplainedFwd(arcs, con, mid, v, i, d.to, k)
  {
    if Goes(arcs, v, v.pre, i, d.from, j) {
      GoesOn(arcs, v, v.pre, i, d, j, k);
    } else {
      var a :| a in arcs && a.from == con.to && a.to in mid && mid[a.to] == d.from && Passes(a.typ, false) && Takes(v, a, j, j);
      MidIs(arcs, con, mid, v.pre, v.post, a.to);
      var e := a.(from := con.from, to := d.from);
      assert e in arcs;
      GoesOn(arcs, v, v.pre, i, e, j, j);
    }
  }

  lemma SwapExplainedFwd(arcs: set<Arc>, con: Arc, mid: map<nat, nat>, v: Env, i: nat, d: Arc, a: Arc, j: nat, k: nat)
    requires Pushable(arcs, con, v) && MidsReadyFwd(arcs, con, mid, v.pre, v.post)
    requires a in arcs && a.from == con.to && SwappedByFwd(con, mid, d, a)
    requires ExplainedFwd(arcs, con, mid, v, i, d.from, j) && Takes(v, d, j, k)
    ensures ExplainedFwd(arcs, con, mid, v, i, d.to, k)
  {
    hide MidsReadyFwd, Goes;
    var m := mid[a.to];
    MidIs(arcs, con, mid, v.pre, v.post, a.to);
    if d == a.(from := con.from, to := m) {
      SourceExplainedFwd(arcs, con, mid, v, i, j);
      assert Takes(v, a, j, j) && ReadyAt(arcs, con, mid, v, i, m, k);
    } else if Goes(arcs, v, v.pre, i, m, j) {
      ThroughOldMid(arcs, con, mid, v, i, a.to, j);
    } else {
      var a2 :| a2 in arcs && a2.from == con.to && a2.to in mid && mid[a2.to] == m && Passes(a2.typ, false) && Takes(v, a2, j, j);
      MidsDiffer(arcs, con, mid, v.pre, v.post, a2.to, a.to);
      ThroughCon(arcs, con, v, i, a2, j, j);
    }
  }

  lemma GoesIs(arcs: set<Arc>, v: Env, i: nat, x: nat, k: nat, n: nat)
    requires Run(arcs, v, v.pre, i, x, k, n)
    ensures Goes(arcs, v, v.pre, i, x, k)
  {
  }

  /** A passing arc can be taken wherever a copy of it can, and consumes nothing. */
  lemma PassingMoved(arcs: set<Arc>, con: Arc, v: Env, e: Arc, a: Arc, h: nat, j: nat)
    requires Pushable(arcs, con, v) && e in arcs && a in arcs && Passes(e.typ, false) && Takes(v, e, h, j)
    requires e.typ == a.typ && e.co == a.co && e.from == con.from && a.from == con.to
    ensures h == j && Takes(v, a, j, j)
  {
  }

  /** An intermediate state that can be reached already is reached along a copy of a passing arc. */
  lemma ThroughOldMid(arcs: set<Arc>, con: Arc, mid: map<nat, nat>, v: Env, i: nat, q: nat, j: nat)
    requires Pushable(arcs, con, v) && MidsReadyFwd(arcs, con, mid, v.pre, v.post) && q in mid
    requires Goes(arcs, v, v.pre, i, mid[q], j) && HoldsFwd(v, con, j)
    ensures Goes(arcs, v, v.pre, i, q, j)
  {
    hide MidsReadyFwd;
    var m := mid[q];
    MidIs(arcs, con, mid, v.pre, v.post, q);
    var n: nat :| Run(arcs, v, v.pre, i, m, j, n);
    var e, h := LastOf(arcs, v, v.pre, i, m, j, n);
    var a := e.(from := con.to, to := q);
    assert a in arcs;
    PassingMoved(arcs, con, v, e, a, h, j);
    assert Run(arcs, v, v.pre, i, con.from, j, n - 1);
    hide *;
    ThroughCon(arcs, con, v, i, a, j, j) by { assert Goes(arcs, v, v.pre, i, con.from, j) by { GoesIs(arcs, v, i, con.from, j, n - 1); } }
  }

  lemma MidsDiffer(arcs: set<Arc>, con: Arc, mid: map<nat, nat>, pre: nat, post: nat, p: nat, q: nat)
    requires MidsReadyFwd(arcs, con, mid, pre, post) && p in mid && q in mid && mid[p] == mid[q]
    ensures p == q
  {
  }

  /** Every run of the new arcs is explained by the old ones. */
  lemma {:induction false} PushAddsNoRuns(arcs: set<Arc>, con: Arc, mid: map<nat, nat>, alone: bool, b: set<Arc>, v: Env,
                                          i: nat, x: nat, k: nat, n: nat)
    requires Pushable(arcs, con, v) && Pushed(arcs, con, mid, alone, b) && MidsReadyFwd(arcs, con, mid, v.pre, v.post)
    requires Run(b, v, v.pre, i, x, k, n)
    ensures ExplainedFwd(arcs, con, mid, v, i, x, k)
    decreases n
  {
    hide Pushable, Pushed, MidsReadyFwd, Goes;
    if n == 0 {
      GoesNowhere(arcs, v, v.pre, i);
    } else {
      var d, j := LastOf(b, v, v.pre, i, x, k, n);
      PushAddsNoRuns(arcs, con, mid, alone, b, v, i, d.from, j, n - 1);
      StepExplainedFwd(arcs, con, mid, alone, b, v, i, d, j, k);
    }
  }

  lemma StepExplainedFwd(arcs: set<Arc>, con: Arc, mid: map<nat, nat>, alone: bool, b: set<Arc>, v: Env, i: nat, d: Arc, j: nat, k: nat)
    requires Pushable(arcs, con, v) && Pushed(arcs, con, mid, alone, b) && MidsReadyFwd(arcs, con, mid, v.pre, v.post)
    requires d in b && ExplainedFwd(arcs, con, mid, v, i, d.from, j) && Takes(v, d, j, k)
    ensures ExplainedFwd(arcs, con, mid, v, i, d.to, k)
  {
    PushedIs(arcs, con, mid, alone, b, d);
    if ImpliedFwd(arcs, con, d) {
      var a :| a in arcs && a.from == con.to && Combine(con, a) == SATISFIED && d == a.(from := con.from);
      ImpliedExplainedFwd(arcs, con, mid, v, i, a, j, k);
    } else if SwappedFwd(arcs, con, mid, d) {
      var a :| a in arcs && a.from == con.to && SwappedByFwd(con, mid, d, a);
      SwapExplainedFwd(arcs, con, mid, v, i, d, a, j, k);
    } else {
      OldArcExplainedFwd(arcs, con, mid, v, i, d, j, k);
    }
    hide *;
  }

  lemma ImpliedExplainedFwd(arcs: set<Arc>, con: Arc, mid: map<nat, nat>, v: Env, i: nat, a: Arc, j: nat, k: nat)
    requires Pushable(arcs, con, v) && MidsReadyFwd(arcs, con, mid, v.pre, v.post)
    requires a in arcs && a.from == con.to && Combine(con, a) == SATISFIED
    requires ExplainedFwd(arcs, con, mid, v, i, con.from, j) && Takes(v, a.(from := con.from), j, k)
    ensures ExplainedFwd(arcs, con, mid, v, i, a.to, k)
  {
    SourceExplainedFwd(arcs, con, mid, v, i, j);
    assert Takes(v, a, j, k);
    CombineFwd(arcs, v, con, a, j, k);
    ThroughCon(arcs, con, v, i, a, j, k);
  }

  /** A push accepts exactly the texts that were accepted before. */
  lemma PushKeepsTexts(arcs: set<Arc>, con: Arc, mid: map<nat, nat>, alone: bool, b: set<Arc>, v: Env, i: nat, k: nat)
    requires Pushable(arcs, con, v) && Pushed(arcs, con, mid, alone, b) && MidsReadyFwd(arcs, con, mid, v.pre, v.post)
    requires alone ==> AloneIn(arcs, con)
    ensures Accepts(arcs, v, i, k) <==> Accepts(b, v, i, k)
  {
    if Accepts(arcs, v, i, k) {
      var n: nat :| Run(arcs, v, v.pre, i, v.post, k, n);
      PushKeepsRuns(arcs, con, mid, alone, b, v, i, v.post, k, n);
    }
    if Accepts(b, v, i, k) {
      var n: nat :| Run(b, v, v.pre, i, v.post, k, n);
      PushAddsNoRuns(arcs, con, mid, alone, b, v, i, v.post, k, n);
      NotAMid(arcs, con, mid, v.pre, v.post);
    }
  }

  lemma NotAMid(arcs: set<Arc>, con: Arc, mid: map<nat, nat>, pre: nat, post: nat)
    requires MidsReadyFwd(arcs, con, mid, pre, post) && Fwd(con.typ)
    ensures forall q :: q in mid ==> mid[q] != post && mid[q] != con.from
  {
    forall q | q in mid ensures mid[q] != post && mid[q] != con.from { MidIs(arcs, con, mid, pre, post, q); }
  }

  // ---------------------------------------------------------------- turning sets of arcs around

  lemma RevAdd(arcs: set<Arc>, a: Arc)
    ensures RevAll(arcs + {a}) == RevAll(arcs) + {Rev(a)}
  {
  }

  lemma RevRemove(arcs: set<Arc>, a: Arc)
    ensures RevAll(arcs - {a}) == RevAll(arcs) - {Rev(a)}
  {
    forall e ensures e in RevAll(arcs - {a}) <==> e in RevAll(arcs) - {Rev(a)} {
      RevIn(arcs - {a}, e);
      RevIn(arcs, e);
      RevTwice(e);
      RevTwice(a);
    }
  }

  lemma RevOuts(arcs: set<Arc>, s: nat)
    ensures RevAll(OutSet(arcs, s)) == InSet(RevAll(arcs), s) && RevAll(InSet(arcs, s)) == OutSet(RevAll(arcs), s)
  {
    forall e ensures (e in RevAll(OutSet(arcs, s)) <==> e in InSet(RevAll(arcs), s)) && (e in RevAll(InSet(arcs, s)) <==> e in OutSet(RevAll(arcs), s)) {
      RevIn(OutSet(arcs, s), e);
      RevIn(InSet(arcs, s), e);
      RevIn(arcs, e);
    }
  }

  lemma RevRehung(es: set<Arc>, s: nat)
    ensures RevAll(AllRehung(es, false, s)) == AllRehung(RevAll(es), true, s)
  {
    forall e ensures e in RevAll(AllRehung(es, false, s)) <==> e in AllRehung(RevAll(es), true, s) {
      RevIn(AllRehung(es, false, s), e);
      if Rev(e) in AllRehung(es, false, s) {
        var a :| a in es && Rev(e) == Rehung(a, false, s);
        RevTwice(e);
        RevTwice(a.(from := s));
        assert Rev(a) in RevAll(es) && e == Rehung(Rev(a), true, s);
      }
      if e in AllRehung(RevAll(es), true, s) {
        var d :| d in RevAll(es) && e == Rehung(d, true, s);
        RevIn(es, d);
        RevTwice(d);
        assert Rev(d) in es && Rev(e) == Rehung(Rev(d), false, s);
      }
    }
  }

  lemma RevUnion(a: set<Arc>, b: set<Arc>)
    ensures RevAll(a + b) == RevAll(a) + RevAll(b)
  {
  }

  lemma RevMinus(a: set<Arc>, b: set<Arc>)
    ensures RevAll(a - b) == RevAll(a) - RevAll(b)
  {
    forall e ensures e in RevAll(a - b) <==> e in RevAll(a) - RevAll(b) {
      RevIn(a - b, e);
      RevIn(a, e);
      RevIn(b, e);
    }
  }

  lemma RevCopied(arcs: set<Arc>, o: nat, n: nat)
    ensures RevAll(Copied(arcs, false, o, n)) == Copied(RevAll(arcs), true, o, n)
  {
    RevOuts(arcs, o);
    RevRehung(OutSet(arcs, o), n);
    RevUnion(arcs, AllRehung(OutSet(arcs, o), false, n));
  }

  lemma RevMoved(arcs: set<Arc>, o: nat, n: nat)
    ensures RevAll(Moved(arcs, false, o, n)) == Moved(RevAll(arcs), true, o, n)
  {
    RevOuts(arcs, o);
    RevRehung(OutSet(arcs, o), n);
    RevMinus(arcs, OutSet(arcs, o));
    RevUnion(arcs - OutSet(arcs, o), AllRehung(OutSet(arcs, o), false, n));
  }

  lemma RevWithin(arcs: set<Arc>, keys: set<nat>)
    requires Within(arcs, keys)
    ensures Within(RevAll(arcs), keys)
  {
  }

  lemma RevShaped(arcs: set<Arc>, pre: nat, post: nat)
    requires Shaped(arcs, pre, post)
    ensures Shaped(RevAll(arcs), post, pre)
  {
  }

  lemma ShapedBack(arcs: set<Arc>, pre: nat, post: nat)
    requires Shaped(RevAll(arcs), post, pre)
    ensures Shaped(arcs, pre, post)
  {
    forall a | a in arcs ensures Rev(a) in RevAll(arcs) { RevIn(arcs, a); }
  }

  ghost function RevRank(rank: nat -> int): nat -> int {
    (x: nat) => -rank(x)
  }

  lemma RevRanked(arcs: set<Arc>, rank: nat -> int)
    ensures Ranked(arcs, rank) <==> Ranked(RevAll(arcs), RevRank(rank))
  {
    forall a | a in arcs ensures Rev(a) in RevAll(arcs) { RevIn(arcs, a); }
  }

  lemma RevRankedBack(arcs: set<Arc>, rank: nat -> int)
    requires Ranked(RevAll(arcs), rank)
    ensures Ranked(arcs, RevRank(rank))
  {
    forall a | a in arcs ensures Rev(a) in RevAll(arcs) { RevIn(arcs, a); }
  }

  lemma RevAlone(arcs: set<Arc>, con: Arc)
    ensures Alone(RevAll(arcs), Rev(con)) <==> AloneIn(arcs, con)
  {
    if Alone(RevAll(arcs), Rev(con)) {
      forall e | e in arcs && e.to == con.to ensures e == con {
        RevIn(arcs, e);
        RevTwice(e);
        RevTwice(con);
      }
    }
    if AloneIn(arcs, con) {
      forall e | e in RevAll(arcs) && e.from == con.to ensures e == Rev(con) {
        RevIn(arcs, e);
        RevTwice(e);
      }
    }
  }

  /** One push, for every text. */
  lemma PushSame(arcs: set<Arc>, con: Arc, mid: map<nat, nat>, alone: bool, b: set<Arc>, pre: nat, post: nat)
    requires Shaped(arcs, pre, post) && con in arcs && Fwd(con.typ) && con.to != post && con.from != con.to
    requires Pushed(arcs, con, mid, alone, b) && MidsReadyFwd(arcs, con, mid, pre, post) && (alone ==> AloneIn(arcs, con))
    ensures SameTexts(arcs, b, pre, post, false) && Labelled(arcs, b) && Shaped(b, pre, post)
  {
    forall v: Env, i: nat, k: nat | v.pre == pre && v.post == post && Pseudo(arcs, v.eos)
      ensures Accepts(arcs, v, i, k) <==> Accepts(b, v, i, k)
    {
      PushKeepsTexts(arcs, con, mid, alone, b, v, i, k);
    }
    RevShaped(arcs, pre, post);
    RevIn(arcs, con);
    RevAlone(arcs, con);
    RevTwice(con);
    hide Pulled, MidsReady, Shaped, SameTexts, Labelled, RevAll;
    PullSame(RevAll(arcs), Rev(con), mid, alone, RevAll(b), post, pre);
    ShapedBack(b, pre, post);
    RevLabelled(arcs, b);
  }

  lemma RevLabelled(arcs: set<Arc>, b: set<Arc>)
    requires Labelled(RevAll(arcs), RevAll(b))
    ensures Labelled(arcs, b)
  {
    forall e | e in b ensures HasLabel(arcs, e.typ, e.co) {
      RevIn(b, e);
      assert HasLabel(RevAll(arcs), Rev(e).typ, e.co);
      var d :| d in RevAll(arcs) && d.typ == Rev(e).typ && d.co == e.co;
      RevIn(arcs, d);
    }
  }
}
