/** Why pull() and push() are right (regc_nfa.c:1512-1859): what combine() says about a constraint
    landing on an arc, the set of arcs one call leaves behind, and that it accepts the same texts. */
module Pulling {
  import opened Nfa
  import opened Runs

  datatype Fate = INCOMPATIBLE | SATISFIED | COMPATIBLE

  /** combine(), regc_nfa.c:1808-1859. The remaining pairs cannot arise from pull() or push(). */
  function Combine(con: Arc, a: Arc): Fate {
    if a.typ == PLAIN then
      if (con.typ == AHEAD || con.typ == BEHIND) && con.co == a.co then SATISFIED else INCOMPATIBLE
    else if con.typ == a.typ then
      if con.co == a.co then SATISFIED else INCOMPATIBLE
    else if Passes(a.typ, Back(con.typ)) then COMPATIBLE
    else INCOMPATIBLE
  }

  /** Constraints on the symbol before. */
  predicate Back(t: ArcType) { t == CARET || t == BEHIND }

  /** Constraints on the symbol after. */
  predicate Fwd(t: ArcType) { t == DOLLAR || t == AHEAD }

  /** Arcs a back (forward) constraint passes rather than meets. */
  predicate Passes(t: ArcType, back: bool) { t == LACON || if back then Fwd(t) else Back(t) }

  // ---------------------------------------------------------------- what an NFA looks like at this stage

  /** No EMPTY arcs; string-begin and string-end arcs are numbered 0 and 1. */
  ghost predicate Plainly(arcs: set<Arc>) {
    forall a :: a in arcs ==> a.typ != EMPTY && (a.typ == CARET || a.typ == DOLLAR ==> a.co <= 1)
  }

  /** The string-begin (string-end) colours are two pseudocolours, and no arc is labelled with them. */
  ghost predicate Pseudo(arcs: set<Arc>, colors: (nat, nat)) {
    && colors.0 != colors.1
    && forall a :: a in arcs && (a.typ == PLAIN || a.typ == BEHIND || a.typ == AHEAD) ==> a.co != colors.0 && a.co != colors.1
  }

  // ---------------------------------------------------------------- the meaning of combine()

  /** Does back constraint con hold when symbol k is next? */
  ghost predicate HoldsBack(v: Env, con: Arc, k: nat) {
    k > 0 && v.sym(k - 1) == if con.typ == CARET then Pick(v.bos, con.co) else con.co
  }

  ghost predicate HoldsFwd(v: Env, con: Arc, k: nat) {
    v.sym(k) == if con.typ == DOLLAR then Pick(v.eos, con.co) else con.co
  }

  /** A back constraint that lands on an arc it follows: it fails, holds, or may be tested first. */
  lemma CombineBack(arcs: set<Arc>, v: Env, con: Arc, a: Arc, j: nat, k: nat)
    requires Plainly(arcs) && Ended(arcs, v.pre, v.post) && Pseudo(arcs, v.bos)
    requires con in arcs && Back(con.typ) && con.from != v.pre && a in arcs && a.to != v.post && Takes(v, a, j, k)
    ensures Combine(con, a) == INCOMPATIBLE ==> !HoldsBack(v, con, k)
    ensures Combine(con, a) == SATISFIED ==> HoldsBack(v, con, k)
    ensures Combine(con, a) == COMPATIBLE ==> j == k && a.from != v.pre && Passes(a.typ, true)
  {
  }

  /** A forward constraint and an arc that follows it. */
  lemma CombineFwd(arcs: set<Arc>, v: Env, con: Arc, a: Arc, j: nat, k: nat)
    requires Plainly(arcs) && Ended(arcs, v.pre, v.post) && Pseudo(arcs, v.eos)
    requires con in arcs && Fwd(con.typ) && con.to != v.post && a in arcs && a.from != v.pre && Takes(v, a, j, k)
    ensures Combine(con, a) == INCOMPATIBLE ==> !HoldsFwd(v, con, j)
    ensures Combine(con, a) == SATISFIED ==> HoldsFwd(v, con, j)
    ensures Combine(con, a) == COMPATIBLE ==> j == k && a.to != v.post && Passes(a.typ, false)
  {
  }

  // ---------------------------------------------------------------- what a pull leaves behind

  /** Arc e comes from an in-arc of con's source that already implies con. */
  ghost predicate Implied(arcs: set<Arc>, con: Arc, e: Arc) {
    exists a :: a in arcs && a.to == con.from && Combine(con, a) == SATISFIED && e == a.(to := con.to)
  }

  /** Arc e belongs to a swapped pair: con into the intermediate state of a's source, a out of it. */
  ghost predicate SwappedBy(con: Arc, mid: map<nat, nat>, e: Arc, a: Arc) {
    && Combine(con, a) == COMPATIBLE && a.from in mid
    && (e == con.(from := a.from, to := mid[a.from]) || e == a.(from := mid[a.from], to := con.to))
  }

  ghost predicate Swapped(arcs: set<Arc>, con: Arc, mid: map<nat, nat>, e: Arc) {
    exists a :: a in arcs && a.to == con.from && SwappedBy(con, mid, e, a)
  }

  /** The arcs after pull(con): con is gone; alone says that it was the only out-arc of its source, whose
      in-arcs are then gone too. */
  ghost predicate Pulled(arcs: set<Arc>, con: Arc, mid: map<nat, nat>, alone: bool, b: set<Arc>) {
    forall e :: e in b <==>
      (e in arcs && e != con && !(alone && e.to == con.from)) || Implied(arcs, con, e) || Swapped(arcs, con, mid, e)
  }

  /** The intermediate states: one for each source of a passing in-arc, not in use for anything else.
      A shared one already has all the passing arcs of its source. */
  ghost predicate MidsReady(arcs: set<Arc>, con: Arc, mid: map<nat, nat>, pre: nat, post: nat) {
    && (forall p :: p in mid <==> Passed(arcs, con.from, p))
    && (forall p, q :: p in mid && q in mid && p != q ==> mid[p] != mid[q])
    && (forall p :: p in mid ==> MidReady(arcs, con, p, mid[p], pre, post))
  }

  /** An in-arc of f that a back constraint passes leaves p. */
  ghost predicate Passed(arcs: set<Arc>, f: nat, p: nat) {
    exists a :: a in arcs && a.to == f && a.from == p && Passes(a.typ, true)
  }

  ghost predicate MidReady(arcs: set<Arc>, con: Arc, p: nat, m: nat, pre: nat, post: nat) {
    && m != pre && m != post && m != con.from && m != con.to && m != p
    && (forall e :: e in arcs && e.to == m ==> e.from == p)
    && (forall e :: e in arcs && e.from == m ==> PassedBy(arcs, con, p, m, e))
    && ((exists e :: e in arcs && e.to == m) ==>
          forall a :: a in arcs && a.to == con.from && a.from == p && Passes(a.typ, true) ==> a.(from := m, to := con.to) in arcs)
  }

  ghost predicate PassedBy(arcs: set<Arc>, con: Arc, p: nat, m: nat, e: Arc) {
    exists a :: a in arcs && a.to == con.from && a.from == p && Passes(a.typ, true) && e == a.(from := m, to := con.to)
  }

  /** What pull() may assume of the constraint it is given. */
  ghost predicate Pullable(arcs: set<Arc>, con: Arc, v: Env) {
    && Plainly(arcs) && Ended(arcs, v.pre, v.post) && Pseudo(arcs, v.bos)
    && con in arcs && Back(con.typ) && con.from != v.pre && con.from != con.to
  }

  ghost predicate Alone(arcs: set<Arc>, con: Arc) {
    forall e :: e in arcs && e.from == con.from ==> e == con
  }

  /** Along an in-arc that con meets: what is left of the two arcs after the pull. */
  lemma ThroughSource(arcs: set<Arc>, con: Arc, mid: map<nat, nat>, alone: bool, b: set<Arc>, v: Env, i: nat, a: Arc, h: nat, j: nat)
    requires Pullable(arcs, con, v) && Pulled(arcs, con, mid, alone, b) && MidsReady(arcs, con, mid, v.pre, v.post)
    requires a in arcs && a.to == con.from && Goes(b, v, v.pre, i, a.from, h) && Takes(v, a, h, j) && HoldsBack(v, con, j)
    ensures Goes(b, v, v.pre, i, con.to, j)
  {
    CombineBack(arcs, v, con, a, h, j);
    if Combine(con, a) == SATISFIED {
      var e := a.(to := con.to);
      assert Implied(arcs, con, e);
      GoesOn(b, v, v.pre, i, e, h, j);
    } else {
      assert Passed(arcs, con.from, a.from);
      var m := mid[a.from];
      var e1, e2 := con.(from := a.from, to := m), a.(from := m, to := con.to);
      assert SwappedBy(con, mid, e1, a) && SwappedBy(con, mid, e2, a);
      assert Swapped(arcs, con, mid, e1) && Swapped(arcs, con, mid, e2);
      assert MidReady(arcs, con, a.from, m, v.pre, v.post);
      hide MidsReady, Swapped, Implied;
      GoesOn(b, v, v.pre, i, e1, h, h);
      GoesOn(b, v, v.pre, i, e2, h, j);
    }
  }

  /** Every run of the old arcs is matched by one of the new. */
  lemma {:induction false} PullKeepsRuns(arcs: set<Arc>, con: Arc, mid: map<nat, nat>, alone: bool, b: set<Arc>, v: Env,
                                         i: nat, x: nat, k: nat, n: nat)
    requires Pullable(arcs, con, v) && Pulled(arcs, con, mid, alone, b) && (alone ==> Alone(arcs, con))
    requires MidsReady(arcs, con, mid, v.pre, v.post)
    requires Run(arcs, v, v.pre, i, x, k, n) && (alone ==> x != con.from)
    ensures Goes(b, v, v.pre, i, x, k)
    decreases n
  {
    hide Pulled, MidsReady, Pullable, Alone, Takes, HoldsBack;
    if n == 0 {
      GoesNowhere(b, v, v.pre, i);
    } else {
      var d, j := LastOf(arcs, v, v.pre, i, x, k, n);
      if d == con {
        ConHolds(arcs, con, v, j, k);
        var a, h := LastOf(arcs, v, v.pre, i, con.from, j, n - 1);
        AloneSource(arcs, con, v, alone, a);
        PullKeepsRuns(arcs, con, mid, alone, b, v, i, a.from, h, n - 2);
        ThroughSource(arcs, con, mid, alone, b, v, i, a, h, j);
      } else {
        AloneSource(arcs, con, v, alone, d);
        PullKeepsRuns(arcs, con, mid, alone, b, v, i, d.from, j, n - 1);
        OtherArcStays(arcs, con, mid, alone, b, d);
        GoesOn(b, v, v.pre, i, d, j, k);
      }
    }
  }

  lemma ConHolds(arcs: set<Arc>, con: Arc, v: Env, j: nat, k: nat)
    requires Pullable(arcs, con, v) && Takes(v, con, j, k)
    ensures j == k && HoldsBack(v, con, k) && con.from != v.pre
  {
  }

  lemma AloneSource(arcs: set<Arc>, con: Arc, v: Env, alone: bool, a: Arc)
    requires Pullable(arcs, con, v) && a in arcs && (alone ==> Alone(arcs, con))
    ensures alone && a != con ==> a.from != con.from
    ensures a.to == con.from ==> a != con
  {
  }

  lemma OtherArcStays(arcs: set<Arc>, con: Arc, mid: map<nat, nat>, alone: bool, b: set<Arc>, d: Arc)
    requires Pulled(arcs, con, mid, alone, b) && d in arcs && d != con && !(alone && d.to == con.from)
    ensures d in b
  {
  }

  /** What a run of the new arcs that ends in x means for the old ones: a run to x, or, in an intermediate
      state, a run to the state it was swapped in for, where con holds. */
  ghost predicate Explained(arcs: set<Arc>, con: Arc, mid: map<nat, nat>, v: Env, i: nat, x: nat, k: nat) {
    Goes(arcs, v, v.pre, i, x, k) || HeldAt(arcs, con, mid, v, i, x, k)
  }

  ghost predicate HeldAt(arcs: set<Arc>, con: Arc, mid: map<nat, nat>, v: Env, i: nat, x: nat, k: nat) {
    HoldsBack(v, con, k) && exists p :: p in mid && mid[p] == x && Goes(arcs, v, v.pre, i, p, k)
  }

  /** A source of con's source is not an intermediate state. */
  lemma SourceExplained(arcs: set<Arc>, con: Arc, mid: map<nat, nat>, v: Env, i: nat, k: nat, a: Arc)
    requires MidsReady(arcs, con, mid, v.pre, v.post) && con.from != con.to
    requires a in arcs && a.to == con.from && Explained(arcs, con, mid, v, i, a.from, k)
    ensures Goes(arcs, v, v.pre, i, a.from, k)
  {
    if HeldAt(arcs, con, mid, v, i, a.from, k) {
      var p :| p in mid && mid[p] == a.from && Goes(arcs, v, v.pre, i, p, k);
      NotFromMid(arcs, con, p, mid[p], v.pre, v.post, a);
    }
  }

  lemma NotFromMid(arcs: set<Arc>, con: Arc, p: nat, m: nat, pre: nat, post: nat, a: Arc)
    requires MidReady(arcs, con, p, m, pre, post) && con.from != con.to && a in arcs && a.to == con.from
    ensures a.from != m
  {
  }

  /** From a run to p to the target of con, along an in-arc of con's source and con itself. */
  lemma ViaSource(arcs: set<Arc>, con: Arc, v: Env, i: nat, j: nat, k: nat, a: Arc)
    requires con in arcs && Back(con.typ) && con.from != v.pre && a in arcs && a.to == con.from
    requires Goes(arcs, v, v.pre, i, a.from, j) && Takes(v, a, j, k) && HoldsBack(v, con, k)
    ensures Goes(arcs, v, v.pre, i, con.to, k)
  {
    GoesOn(arcs, v, v.pre, i, a, j, k);
    GoesOn(arcs, v, v.pre, i, con, k, k);
  }

  /** An old arc taken at the end of a new run. */
  lemma OldArcExplained(arcs: set<Arc>, con: Arc, mid: map<nat, nat>, v: Env, i: nat, d: Arc, j: nat, k: nat)
    requires Pullable(arcs, con, v) && MidsReady(arcs, con, mid, v.pre, v.post)
    requires d in arcs && Explained(arcs, con, mid, v, i, d.from, j) && Takes(v, d, j, k)
    ensures Explained(arcs, con, mid, v, i, d.to, k)
  {
    if Goes(arcs, v, v.pre, i, d.from, j) {
      GoesOn(arcs, v, v.pre, i, d, j, k);
    } else {
      var p :| p in mid && mid[p] == d.from && Goes(arcs, v, v.pre, i, p, j);
      assert PassedBy(arcs, con, p, mid[p], d);
      var a :| a in arcs && a.to == con.from && a.from == p && Passes(a.typ, true) && d == a.(from := mid[p], to := con.to);
      CombineBack(arcs, v, con, a, j, k) by { assert Takes(v, a, j, k); }
      ViaSource(arcs, con, v, i, j, k, a);
    }
  }

  /** A swapped arc taken at the end of a new run. */
  lemma SwapExplained(arcs: set<Arc>, con: Arc, mid: map<nat, nat>, v: Env, i: nat, d: Arc, a: Arc, j: nat, k: nat)
    requires Pullable(arcs, con, v) && MidsReady(arcs, con, mid, v.pre, v.post)
    requires a in arcs && a.to == con.from && SwappedBy(con, mid, d, a)
    requires Explained(arcs, con, mid, v, i, d.from, j) && Takes(v, d, j, k)
    ensures Explained(arcs, con, mid, v, i, d.to, k)
  {
    var m := mid[a.from];
    assert MidReady(arcs, con, a.from, m, v.pre, v.post);
    if d == con.(from := a.from, to := m) {
      SourceExplained(arcs, con, mid, v, i, j, a);
      assert HeldAt(arcs, con, mid, v, i, m, k);
    } else if Goes(arcs, v, v.pre, i, m, j) {
      var n: nat :| Run(arcs, v, v.pre, i, m, j, n);
      var e, h := LastOf(arcs, v, v.pre, i, m, j, n);
      assert d in arcs;
      GoesOn(arcs, v, v.pre, i, d, j, k);
    } else {
      var p :| p in mid && mid[p] == m && Goes(arcs, v, v.pre, i, p, j);
      assert p == a.from && Takes(v, a, j, k);
      ViaSource(arcs, con, v, i, j, k, a);
    }
  }

  /** Every run of the new arcs is explained by the old ones. */
  lemma {:induction false} PullAddsNoRuns(arcs: set<Arc>, con: Arc, mid: map<nat, nat>, alone: bool, b: set<Arc>, v: Env,
                                          i: nat, x: nat, k: nat, n: nat)
    requires Pullable(arcs, con, v) && Pulled(arcs, con, mid, alone, b) && MidsReady(arcs, con, mid, v.pre, v.post)
    requires Run(b, v, v.pre, i, x, k, n)
    ensures Explained(arcs, con, mid, v, i, x, k)
    decreases n
  {
    if n == 0 {
      GoesNowhere(arcs, v, v.pre, i);
    } else {
      var d, j := LastOf(b, v, v.pre, i, x, k, n);
      PullAddsNoRuns(arcs, con, mid, alone, b, v, i, d.from, j, n - 1);
      StepExplained(arcs, con, mid, alone, b, v, i, d, j, k);
    }
  }

  lemma StepExplained(arcs: set<Arc>, con: Arc, mid: map<nat, nat>, alone: bool, b: set<Arc>, v: Env, i: nat, d: Arc, j: nat, k: nat)
    requires Pullable(arcs, con, v) && Pulled(arcs, con, mid, alone, b) && MidsReady(arcs, con, mid, v.pre, v.post)
    requires d in b && Explained(arcs, con, mid, v, i, d.from, j) && Takes(v, d, j, k)
    ensures Explained(arcs, con, mid, v, i, d.to, k)
  {
    if Implied(arcs, con, d) {
      var a :| a in arcs && a.to == con.from && Combine(con, a) == SATISFIED && d == a.(to := con.to);
      ImpliedExplained(arcs, con, mid, v, i, a, j, k);
    } else if Swapped(arcs, con, mid, d) {
      var a :| a in arcs && a.to == con.from && SwappedBy(con, mid, d, a);
      SwapExplained(arcs, con, mid, v, i, d, a, j, k);
    } else {
      OldArcExplained(arcs, con, mid, v, i, d, j, k);
    }
    hide *;
  }

  lemma ImpliedExplained(arcs: set<Arc>, con: Arc, mid: map<nat, nat>, v: Env, i: nat, a: Arc, j: nat, k: nat)
    requires Pullable(arcs, con, v) && MidsReady(arcs, con, mid, v.pre, v.post)
    requires a in arcs && a.to == con.from && Combine(con, a) == SATISFIED
    requires Explained(arcs, con, mid, v, i, a.from, j) && Takes(v, a.(to := con.to), j, k)
    ensures Explained(arcs, con, mid, v, i, con.to, k)
  {
    SourceExplained(arcs, con, mid, v, i, j, a);
    assert Takes(v, a, j, k);
    CombineBack(arcs, v, con, a, j, k);
    ViaSource(arcs, con, v, i, j, k, a);
  }

  /** A pull accepts exactly the texts that were accepted before. */
  lemma PullKeepsTexts(arcs: set<Arc>, con: Arc, mid: map<nat, nat>, alone: bool, b: set<Arc>, v: Env, i: nat, k: nat)
    requires Pullable(arcs, con, v) && Pulled(arcs, con, mid, alone, b) && MidsReady(arcs, con, mid, v.pre, v.post)
    requires alone ==> Alone(arcs, con)
    ensures Accepts(arcs, v, i, k) <==> Accepts(b, v, i, k)
  {
    if Accepts(arcs, v, i, k) {
      var n: nat :| Run(arcs, v, v.pre, i, v.post, k, n);
      PullKeepsRuns(arcs, con, mid, alone, b, v, i, v.post, k, n);
    }
    if Accepts(b, v, i, k) {
      var n: nat :| Run(b, v, v.pre, i, v.post, k, n);
      PullAddsNoRuns(arcs, con, mid, alone, b, v, i, v.post, k, n);
      assert Explained(arcs, con, mid, v, i, v.post, k);
    }
  }

  // ---------------------------------------------------------------- what a pull preserves

  /** Constraint arcs lead to higher ranks only: there is no loop of them. */
  ghost predicate Ranked(arcs: set<Arc>, rank: nat -> int) {
    forall a :: a in arcs && a.typ != PLAIN ==> rank(a.from) < rank(a.to)
  }

  ghost function PullRank(rank: nat -> int, mid: map<nat, nat>, f: nat): nat -> int {
    (x: nat) => if exists p :: p in mid && mid[p] == x then rank(f) else rank(x)
  }

  lemma MidRank(rank: nat -> int, mid: map<nat, nat>, f: nat, p: nat)
    requires p in mid
    ensures PullRank(rank, mid, f)(mid[p]) == rank(f)
  {
  }

  /** A state with arcs into con's source is not an intermediate, nor are con's ends. */
  lemma RankStays(arcs: set<Arc>, con: Arc, mid: map<nat, nat>, pre: nat, post: nat, rank: nat -> int, x: nat)
    requires MidsReady(arcs, con, mid, pre, post) && con.from != con.to
    requires x == con.from || x == con.to || exists a :: a in arcs && a.to == con.from && a.from == x
    ensures PullRank(rank, mid, con.from)(x) == rank(x)
  {
    forall p | p in mid ensures mid[p] != x {
      assert MidReady(arcs, con, p, mid[p], pre, post);
      if a :| a in arcs && a.to == con.from && a.from == x { NotFromMid(arcs, con, p, mid[p], pre, post, a); }
    }
  }

  /** An old arc keeps rising in rank. */
  lemma OldArcRises(arcs: set<Arc>, con: Arc, mid: map<nat, nat>, pre: nat, post: nat, rank: nat -> int, e: Arc)
    requires MidsReady(arcs, con, mid, pre, post) && con in arcs && Back(con.typ) && Ranked(arcs, rank)
    requires e in arcs && e.typ != PLAIN
    ensures PullRank(rank, mid, con.from)(e.from) < PullRank(rank, mid, con.from)(e.to)
  {
    if p :| p in mid && mid[p] == e.from {
      assert PassedBy(arcs, con, p, mid[p], e);
      RankStays(arcs, con, mid, pre, post, rank, con.to);
      MidRank(rank, mid, con.from, p);
      hide MidsReady, PullRank;
    } else if p :| p in mid && mid[p] == e.to {
      assert MidReady(arcs, con, p, mid[p], pre, post) && Passed(arcs, con.from, p);
      var a :| a in arcs && a.to == con.from && a.from == p && Passes(a.typ, true);
      MidRank(rank, mid, con.from, p);
      RankStays(arcs, con, mid, pre, post, rank, p);
      hide MidsReady, PullRank;
    }
  }

  /** So do the new ones. */
  lemma NewArcRises(arcs: set<Arc>, con: Arc, mid: map<nat, nat>, pre: nat, post: nat, rank: nat -> int, e: Arc)
    requires MidsReady(arcs, con, mid, pre, post) && con in arcs && Back(con.typ) && Ranked(arcs, rank)
    requires (Implied(arcs, con, e) && e.typ != PLAIN) || Swapped(arcs, con, mid, e)
    ensures PullRank(rank, mid, con.from)(e.from) < PullRank(rank, mid, con.from)(e.to)
  {
    hide Pulled;
    RankStays(arcs, con, mid, pre, post, rank, con.to);
    if Implied(arcs, con, e) && e.typ != PLAIN {
      var a :| a in arcs && a.to == con.from && Combine(con, a) == SATISFIED && e == a.(to := con.to);
      RankStays(arcs, con, mid, pre, post, rank, a.from);
    } else {
      var a :| a in arcs && a.to == con.from && SwappedBy(con, mid, e, a);
      RankStays(arcs, con, mid, pre, post, rank, a.from);
      MidRank(rank, mid, con.from, a.from);
    }
  }

  /** A pull makes no constraint loop: there is still a rank. */
  lemma PullKeepsRanked(arcs: set<Arc>, con: Arc, mid: map<nat, nat>, alone: bool, b: set<Arc>, pre: nat, post: nat, rank: nat -> int)
    requires Pulled(arcs, con, mid, alone, b) && MidsReady(arcs, con, mid, pre, post)
    requires con in arcs && Back(con.typ) && Ranked(arcs, rank)
    ensures Ranked(b, PullRank(rank, mid, con.from))
  {
    forall e | e in b && e.typ != PLAIN
      ensures PullRank(rank, mid, con.from)(e.from) < PullRank(rank, mid, con.from)(e.to)
    {
      if Implied(arcs, con, e) || Swapped(arcs, con, mid, e) {
        NewArcRises(arcs, con, mid, pre, post, rank, e);
      } else {
        OldArcRises(arcs, con, mid, pre, post, rank, e);
      }
    }
  }

  // ---------------------------------------------------------------- for every text at once

  /** What every automaton between fixempties() and the final cleanup looks like. */
  ghost predicate Shaped(arcs: set<Arc>, pre: nat, post: nat) {
    Plainly(arcs) && Ended(arcs, pre, post)
  }

  /** b accepts what a accepts, for every text whose string-begin (string-end) colours are pseudocolours of a. */
  ghost predicate SameTexts(a: set<Arc>, b: set<Arc>, pre: nat, post: nat, back: bool) {
    forall v: Env, i: nat, k: nat :: v.pre == pre && v.post == post && Pseudo(a, if back then v.bos else v.eos) ==>
      (Accepts(a, v, i, k) <==> Accepts(b, v, i, k))
  }

  /** The arcs of b have labels of arcs of a. */
  ghost predicate Labelled(a: set<Arc>, b: set<Arc>) {
    forall e :: e in b ==> HasLabel(a, e.typ, e.co)
  }

  ghost predicate HasLabel(a: set<Arc>, typ: ArcType, co: nat) {
    exists d :: d in a && d.typ == typ && d.co == co
  }

  lemma SameTextsTrans(a: set<Arc>, b: set<Arc>, c: set<Arc>, pre: nat, post: nat, back: bool)
    requires SameTexts(a, b, pre, post, back) && SameTexts(b, c, pre, post, back) && Labelled(a, b)
    ensures SameTexts(a, c, pre, post, back)
  {
    forall v: Env, i: nat, k: nat | v.pre == pre && v.post == post && Pseudo(a, if back then v.bos else v.eos)
      ensures Accepts(a, v, i, k) <==> Accepts(c, v, i, k)
    {
      var colors := if back then v.bos else v.eos;
      assert Pseudo(b, colors) by {
        forall e | e in b && (e.typ == PLAIN || e.typ == BEHIND || e.typ == AHEAD) ensures e.co != colors.0 && e.co != colors.1 {
          assert HasLabel(a, e.typ, e.co);
        }
      }
      assert Accepts(a, v, i, k) <==> Accepts(b, v, i, k);
    }
  }

  lemma LabelledTrans(a: set<Arc>, b: set<Arc>, c: set<Arc>)
    requires Labelled(a, b) && Labelled(b, c)
    ensures Labelled(a, c)
  {
    forall e | e in c ensures HasLabel(a, e.typ, e.co) {
      assert HasLabel(b, e.typ, e.co);
    }
  }

  lemma SameTextsRefl(a: set<Arc>, pre: nat, post: nat, back: bool)
    ensures SameTexts(a, a, pre, post, back) && Labelled(a, a)
  {
    forall e | e in a ensures HasLabel(a, e.typ, e.co) {}
  }

  /** One pull, for every text. */
  lemma PullSame(arcs: set<Arc>, con: Arc, mid: map<nat, nat>, alone: bool, b: set<Arc>, pre: nat, post: nat)
    requires Shaped(arcs, pre, post) && con in arcs && Back(con.typ) && con.from != pre && con.from != con.to
    requires Pulled(arcs, con, mid, alone, b) && MidsReady(arcs, con, mid, pre, post) && (alone ==> Alone(arcs, con))
    ensures SameTexts(arcs, b, pre, post, true) && Labelled(arcs, b) && Shaped(b, pre, post)
  {
    forall v: Env, i: nat, k: nat | v.pre == pre && v.post == post && Pseudo(arcs, v.bos)
      ensures Accepts(arcs, v, i, k) <==> Accepts(b, v, i, k)
    {
      PullKeepsTexts(arcs, con, mid, alone, b, v, i, k);
    }
    forall e | e in b ensures Harmless(arcs, pre, post, e) {
      PulledArc(arcs, con, mid, alone, b, pre, post, e);
    }
    forall e | e in b ensures e.typ != EMPTY && (e.typ == CARET || e.typ == DOLLAR ==> e.co <= 1) {
      assert HasLabel(arcs, e.typ, e.co);
    }
  }

  lemma PulledArc(arcs: set<Arc>, con: Arc, mid: map<nat, nat>, alone: bool, b: set<Arc>, pre: nat, post: nat, e: Arc)
    requires Shaped(arcs, pre, post) && con in arcs && Back(con.typ) && con.from != pre
    requires Pulled(arcs, con, mid, alone, b) && MidsReady(arcs, con, mid, pre, post) && e in b
    ensures Harmless(arcs, pre, post, e)
  {
    if Swapped(arcs, con, mid, e) {
      var a :| a in arcs && a.to == con.from && SwappedBy(con, mid, e, a);
      assert MidReady(arcs, con, a.from, mid[a.from], pre, post);
      SwapHarmless(arcs, con, mid, pre, post, a, e);
    } else if Implied(arcs, con, e) {
      var a :| a in arcs && a.to == con.from && Combine(con, a) == SATISFIED && e == a.(to := con.to);
      assert HasLabel(arcs, a.typ, a.co);
    } else {
      assert e in arcs && HasLabel(arcs, e.typ, e.co);
    }
  }

  /** An arc with a known label that respects the ends. */
  ghost predicate Harmless(arcs: set<Arc>, pre: nat, post: nat, e: Arc) {
    && HasLabel(arcs, e.typ, e.co) && e.to != pre && e.from != post
    && (e.from == pre ==> e.typ == PLAIN || e.typ == CARET)
    && (e.to == post ==> e.typ == PLAIN || e.typ == DOLLAR)
  }

  lemma SwapHarmless(arcs: set<Arc>, con: Arc, mid: map<nat, nat>, pre: nat, post: nat, a: Arc, e: Arc)
    requires Shaped(arcs, pre, post) && con in arcs && Back(con.typ) && con.from != pre
    requires a in arcs && a.to == con.from && SwappedBy(con, mid, e, a) && mid[a.from] != pre && mid[a.from] != post
    ensures Harmless(arcs, pre, post, e)
  {
    assert HasLabel(arcs, a.typ, a.co) && HasLabel(arcs, con.typ, con.co);
  }

  // ---------------------------------------------------------------- dropping a state

  /** A state without in-arcs or without out-arcs does not matter. */
  lemma {:induction false} DropKeepsRuns(arcs: set<Arc>, v: Env, s: nat, i: nat, x: nat, k: nat, n: nat)
    requires InSet(arcs, s) == {} || OutSet(arcs, s) == {}
    requires s != v.pre && x != s && Run(arcs, v, v.pre, i, x, k, n)
    ensures Goes(arcs - InSet(arcs, s) - OutSet(arcs, s), v, v.pre, i, x, k)
    decreases n
  {
    var b := arcs - InSet(arcs, s) - OutSet(arcs, s);
    if n == 0 {
      GoesNowhere(b, v, v.pre, i);
    } else {
      var d, j := LastOf(arcs, v, v.pre, i, x, k, n);
      assert d.from != s by {
        if n > 1 {
          var c, h := LastOf(arcs, v, v.pre, i, d.from, j, n - 1);
          assert d.from == s ==> c in InSet(arcs, s) && d in OutSet(arcs, s);
        }
      }
      DropKeepsRuns(arcs, v, s, i, d.from, j, n - 1);
      assert d in b;
      GoesOn(b, v, v.pre, i, d, j, k);
    }
  }

  lemma {:induction false} FewerRuns(arcs: set<Arc>, b: set<Arc>, v: Env, i: nat, x: nat, k: nat, n: nat)
    requires b <= arcs && Run(b, v, v.pre, i, x, k, n)
    ensures Run(arcs, v, v.pre, i, x, k, n)
    decreases n
  {
    if n > 0 {
      var d, j := LastOf(b, v, v.pre, i, x, k, n);
      FewerRuns(arcs, b, v, i, d.from, j, n - 1);
      assert LastStep(arcs, v, v.pre, i, x, k, n, d, j);
    }
  }

  lemma DropSame(arcs: set<Arc>, s: nat, pre: nat, post: nat, back: bool)
    requires (InSet(arcs, s) == {} || OutSet(arcs, s) == {}) && s != pre && s != post
    ensures SameTexts(arcs, arcs - InSet(arcs, s) - OutSet(arcs, s), pre, post, back)
  {
    var b := arcs - InSet(arcs, s) - OutSet(arcs, s);
    forall v: Env, i: nat, k: nat | v.pre == pre && v.post == post ensures Accepts(arcs, v, i, k) <==> Accepts(b, v, i, k) {
      if Accepts(arcs, v, i, k) {
        var n: nat :| Run(arcs, v, v.pre, i, v.post, k, n);
        DropKeepsRuns(arcs, v, s, i, v.post, k, n);
      }
      if Accepts(b, v, i, k) {
        var n: nat :| Run(b, v, v.pre, i, v.post, k, n);
        FewerRuns(arcs, b, v, i, v.post, k, n);
      }
    }
  }
}
