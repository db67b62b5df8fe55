/** Why pulling and pushing come to an end (regc_nfa.c:2151-2158): every automaton without a loop of constraint arcs
    has a budget, and each pull() that does something spends of it. */
module Potential {
  import opened Nfa
  import opened Pulling

  // ---------------------------------------------------------------- sums over arcs

  ghost function Sum(s: set<Arc>, w: Arc -> nat): nat {
    if s == {} then 0 else var a :| a in s; w(a) + Sum(s - {a}, w)
  }

  lemma {:induction false} SumTake(s: set<Arc>, w: Arc -> nat, a: Arc)
    requires a in s
    ensures Sum(s, w) == w(a) + Sum(s - {a}, w)
    decreases s
  {
    var b :| b in s && Sum(s, w) == w(b) + Sum(s - {b}, w);
    if a != b {
      SumTake(s - {b}, w, a);
      SumTake(s - {a}, w, b);
      assert s - {b} - {a} == s - {a} - {b};
    }
  }

  lemma {:induction false} SumSplit(s: set<Arc>, t: set<Arc>, w: Arc -> nat)
    requires s !! t
    ensures Sum(s + t, w) == Sum(s, w) + Sum(t, w)
    decreases s
  {
    if s == {} {
      assert s + t == t;
    } else {
      var a :| a in s;
      SumTake(s + t, w, a);
      SumTake(s, w, a);
      assert s + t - {a} == s - {a} + t;
      SumSplit(s - {a}, t, w);
    }
  }

  lemma SumMono(s: set<Arc>, t: set<Arc>, w: Arc -> nat)
    requires s <= t
    ensures Sum(s, w) <= Sum(t, w)
  {
    assert s + (t - s) == t;
    SumSplit(s, t - s, w);
  }

  lemma SumUnion(s: set<Arc>, t: set<Arc>, w: Arc -> nat)
    ensures Sum(s + t, w) <= Sum(s, w) + Sum(t, w)
  {
    assert s + t == s + (t - s);
    SumSplit(s, t - s, w);
    SumMono(t - s, t, w);
  }

  lemma {:induction false} SumLe(s: set<Arc>, w: Arc -> nat, w2: Arc -> nat)
    requires forall a :: a in s ==> w(a) <= w2(a)
    ensures Sum(s, w) <= Sum(s, w2)
    decreases s
  {
    if s != {} {
      var a :| a in s;
      SumTake(s, w, a);
      SumTake(s, w2, a);
      SumLe(s - {a}, w, w2);
    }
  }

  lemma {:induction false} SumPlus(s: set<Arc>, w: Arc -> nat, w2: Arc -> nat, w3: Arc -> nat)
    requires forall a :: a in s ==> w3(a) == w(a) + w2(a)
    ensures Sum(s, w3) == Sum(s, w) + Sum(s, w2)
    decreases s
  {
    if s != {} {
      var a :| a in s;
      SumTake(s, w, a);
      SumTake(s, w2, a);
      SumTake(s, w3, a);
      SumPlus(s - {a}, w, w2, w3);
    }
  }

  lemma {:induction false} SumBound(s: set<Arc>, w: Arc -> nat, c: nat)
    requires forall a :: a in s ==> w(a) <= c
    ensures Sum(s, w) <= |s| * c
    decreases s
  {
    if s != {} {
      var a :| a in s;
      SumTake(s, w, a);
      SumBound(s - {a}, w, c);
      assert |s| * c == (|s| - 1) * c + c;
    }
  }

  /** The images of s weigh no more than s. */
  lemma {:induction false} SumImage(s: set<Arc>, g: Arc -> Arc, w: Arc -> nat, w2: Arc -> nat)
    requires forall a :: a in s ==> w(g(a)) <= w2(a)
    ensures Sum(set a | a in s :: g(a), w) <= Sum(s, w2)
    decreases s
  {
    var t := set a | a in s :: g(a);
    if s == {} {
      assert t == {};
    } else {
      var a :| a in s;
      var rest := set b | b in s - {a} :: g(b);
      SumImage(s - {a}, g, w, w2);
      SumTake(s, w2, a);
      assert t == rest + {g(a)};
      SumUnion(rest, {g(a)}, w);
      SumTake({g(a)}, w, g(a));
      assert {g(a)} - {g(a)} == {};
    }
  }

  // ---------------------------------------------------------------- budgets

  /** The constraint arcs into x. */
  ghost function In(arcs: set<Arc>, x: nat): set<Arc> {
    set a | a in arcs && a.typ != PLAIN && a.to == x
  }

  /** What the source of an arc weighs. */
  function From(w: nat -> nat): Arc -> nat { (a: Arc) => w(a.from) }

  function Plus(w: nat -> nat, w2: nat -> nat): nat -> nat { (x: nat) => w(x) + w2(x) }

  /** t bounds how many chains of constraint arcs end at a state, l the sum of their lengths. */
  ghost predicate Bounds(arcs: set<Arc>, t: nat -> nat, l: nat -> nat) {
    forall x: nat :: BoundsAt(arcs, t, l, x)
  }

  ghost predicate BoundsAt(arcs: set<Arc>, t: nat -> nat, l: nat -> nat, x: nat) {
    t(x) >= 1 && Sum(In(arcs, x), From(t)) <= t(x) && Sum(In(arcs, x), From(Plus(l, t))) <= l(x)
  }

  /** The back constraints that are not at pre yet. */
  ghost function Pending(arcs: set<Arc>, pre: nat): set<Arc> {
    set a | a in arcs && Back(a.typ) && a.from != pre
  }

  function Cost(l: nat -> nat): Arc -> nat { (a: Arc) => var c: nat := l(a.from) + 1; c }

  ghost predicate Budget(arcs: set<Arc>, pre: nat, n: nat) {
    exists t: nat -> nat, l: nat -> nat :: BudgetBy(arcs, pre, n, t, l)
  }

  ghost predicate BudgetBy(arcs: set<Arc>, pre: nat, n: nat, t: nat -> nat, l: nat -> nat) {
    Bounds(arcs, t, l) && Sum(Pending(arcs, pre), Cost(l)) <= n
  }

  /** Fewer arcs need no more. */
  lemma BudgetLess(arcs: set<Arc>, b: set<Arc>, pre: nat, n: nat)
    requires Budget(arcs, pre, n) && b <= arcs
    ensures Budget(b, pre, n)
  {
    var t: nat -> nat, l: nat -> nat :| BudgetBy(arcs, pre, n, t, l);
    forall x: nat ensures BoundsAt(b, t, l, x) {
      assert BoundsAt(arcs, t, l, x);
      SumMono(In(b, x), In(arcs, x), From(t));
      SumMono(In(b, x), In(arcs, x), From(Plus(l, t)));
    }
    SumMono(Pending(b, pre), Pending(arcs, pre), Cost(l));
    assert BudgetBy(b, pre, n, t, l);
  }

  lemma BudgetMore(arcs: set<Arc>, pre: nat, n: nat, m: nat)
    requires Budget(arcs, pre, n) && n <= m
    ensures Budget(arcs, pre, m)
  {
    var t: nat -> nat, l: nat -> nat :| BudgetBy(arcs, pre, n, t, l);
    assert BudgetBy(arcs, pre, m, t, l);
  }

  // ---------------------------------------------------------------- the first budget

  function Pow(b: nat, n: nat): nat { if n == 0 then 1 else b * Pow(b, n - 1) }

  lemma {:induction false} PowMono(b: nat, n: nat, m: nat)
    requires b >= 1 && n <= m
    ensures 1 <= Pow(b, n) <= Pow(b, m)
    decreases m
  {
    if m > 0 {
      if n < m { PowMono(b, n, m - 1); } else { PowMono(b, n - 1, m - 1); }
      PowStep(b, m);
    }
  }

  lemma PowStep(b: nat, m: nat)
    requires b >= 1 && m > 0
    ensures Pow(b, m) == b * Pow(b, m - 1) >= Pow(b, m - 1)
  {
  }

  lemma {:induction false} PowBase(b: nat, c: nat, n: nat)
    requires b <= c
    ensures Pow(b, n) <= Pow(c, n)
    decreases n
  {
    if n > 0 {
      PowBase(b, c, n - 1);
      MulMono(b, c, Pow(b, n - 1), Pow(c, n - 1));
    }
  }

  lemma MulMono(a: nat, b: nat, x: nat, y: nat)
    requires a <= b && x <= y
    ensures a * x <= b * y
  {
    assert a * x <= a * y <= b * y;
  }

  lemma {:induction false} Lowest(arcs: set<Arc>, rank: nat -> int) returns (low: int)
    ensures forall a :: a in arcs ==> low <= rank(a.from)
    decreases arcs
  {
    low := 0;
    if arcs != {} {
      var a :| a in arcs;
      var rest := Lowest(arcs - {a}, rank);
      low := if rest < rank(a.from) then rest else rank(a.from);
    }
  }

  function Height(rank: nat -> int, low: int, x: nat): nat {
    if rank(x) > low then rank(x) - low else 0
  }

  function Powers(b: nat, rank: nat -> int, low: int): nat -> nat { (x: nat) => Pow(b, Height(rank, low, x)) }

  lemma BudgetStart(arcs: set<Arc>, rank: nat -> int, pre: nat)
    requires Ranked(arcs, rank)
    ensures exists n: nat :: Budget(arcs, pre, n)
  {
    var low := Lowest(arcs, rank);
    var b := |arcs| + 1;
    var t, l := Powers(b, rank, low), Powers(2 * b, rank, low);
    forall x: nat ensures BoundsAt(arcs, t, l, x) { StartBounds(arcs, rank, low, x); }
    var n := Sum(Pending(arcs, pre), Cost(l));
    assert BudgetBy(arcs, pre, n, t, l);
    assert Budget(arcs, pre, n);
  }

  lemma StartBounds(arcs: set<Arc>, rank: nat -> int, low: int, x: nat)
    requires Ranked(arcs, rank) && forall a :: a in arcs ==> low <= rank(a.from)
    ensures var b := |arcs| + 1; BoundsAt(arcs, Powers(b, rank, low), Powers(2 * b, rank, low), x)
  {
    var b := |arcs| + 1;
    var t, l := Powers(b, rank, low), Powers(2 * b, rank, low);
    var into := In(arcs, x);
    var h := Height(rank, low, x);
    PowMono(b, 0, h);
    if into != {} {
      SmallerSet(into, arcs);
      LowerSources(arcs, rank, low, x, b);
      LowerSources(arcs, rank, low, x, 2 * b);
      PowBase(b, 2 * b, h - 1);
      hide *;
      SumWithin(into, t, b, Pow(b, h - 1));
      SumsWithin(into, l, t, b, Pow(2 * b, h - 1), Pow(b, h - 1));
    }
  }

  /** Constraint arcs come from lower states. */
  lemma LowerSources(arcs: set<Arc>, rank: nat -> int, low: int, x: nat, b: nat)
    requires Ranked(arcs, rank) && (forall a :: a in arcs ==> low <= rank(a.from)) && In(arcs, x) != {} && b >= 1
    ensures var h := Height(rank, low, x);
      h >= 1 && Pow(b, h) == b * Pow(b, h - 1) && forall a :: a in In(arcs, x) ==> Powers(b, rank, low)(a.from) <= Pow(b, h - 1)
  {
    var h := Height(rank, low, x);
    var a0 :| a0 in In(arcs, x);
    assert rank(a0.from) < rank(a0.to);
    forall a | a in In(arcs, x) ensures Powers(b, rank, low)(a.from) <= Pow(b, h - 1) {
      PowMono(b, Height(rank, low, a.from), h - 1);
    }
  }

  lemma SumsWithin(s: set<Arc>, l: nat -> nat, t: nat -> nat, b: nat, p: nat, q: nat)
    requires |s| <= b && q <= p && forall a :: a in s ==> l(a.from) <= p && t(a.from) <= q
    ensures Sum(s, From(Plus(l, t))) <= 2 * b * p
  {
    SumWithin(s, Plus(l, t), b, 2 * p);
    Twice(b, p);
  }

  lemma Twice(b: nat, p: nat)
    ensures b * (2 * p) == 2 * b * p
  {
  }

  lemma SumWithin(s: set<Arc>, w: nat -> nat, b: nat, p: nat)
    requires |s| <= b && forall a :: a in s ==> w(a.from) <= p
    ensures Sum(s, From(w)) <= b * p
  {
    SumBound(s, From(w), p);
    MulMono(|s|, b, p, p);
  }

  lemma {:induction false} SmallerSet(s: set<Arc>, t: set<Arc>)
    requires s <= t
    ensures |s| <= |t|
    decreases s
  {
    if s != {} {
      var a :| a in s;
      SmallerSet(s - {a}, t - {a});
    }
  }

  // ---------------------------------------------------------------- what one pull does to the bounds

  /** A pull of con, as pull() leaves it behind. */
  ghost predicate Pull(arcs: set<Arc>, con: Arc, mid: map<nat, nat>, alone: bool, b: set<Arc>, pre: nat, post: nat) {
    && Pulled(arcs, con, mid, alone, b) && MidsReady(arcs, con, mid, pre, post)
    && con in arcs && Back(con.typ) && con.from != pre && con.from != con.to
  }

  ghost predicate IsMid(mid: map<nat, nat>, x: nat) { exists p :: p in mid && mid[p] == x }

  /** The state an intermediate state is entered from. */
  ghost function SourceOf(mid: map<nat, nat>, x: nat): nat
    requires IsMid(mid, x)
  {
    var p :| p in mid && mid[p] == x; p
  }

  ghost predicate Entered(arcs: set<Arc>, x: nat) { exists e :: e in arcs && e.to == x }

  /** The in-arcs of con's source that con passes, and those it finds itself confirmed by. */
  ghost function Passing(arcs: set<Arc>, con: Arc): set<Arc> {
    set a | a in In(arcs, con.from) && Combine(con, a) == COMPATIBLE
  }

  ghost function Confirming(arcs: set<Arc>, con: Arc): set<Arc> {
    set a | a in In(arcs, con.from) && Combine(con, a) == SATISFIED
  }

  /** Where a passed arc, a confirming one, and con itself go. */
  function Beyond(con: Arc, mid: map<nat, nat>): Arc -> Arc {
    (a: Arc) => if a.from in mid then a.(from := mid[a.from], to := con.to) else a
  }

  function Along(con: Arc): Arc -> Arc { (a: Arc) => a.(to := con.to) }

  function Ahead(con: Arc, mid: map<nat, nat>): Arc -> Arc {
    (a: Arc) => if a.from in mid then con.(from := a.from, to := mid[a.from]) else a
  }

  lemma MidFacts(arcs: set<Arc>, con: Arc, mid: map<nat, nat>, alone: bool, b: set<Arc>, pre: nat, post: nat, x: nat)
    requires Pull(arcs, con, mid, alone, b, pre, post) && IsMid(mid, x)
    ensures var p := SourceOf(mid, x);
      && p in mid && mid[p] == x && x != con.from && x != con.to && Passed(arcs, con.from, p)
      && MidReady(arcs, con, p, x, pre, post)
  {
  }

  lemma SourceOfMid(arcs: set<Arc>, con: Arc, mid: map<nat, nat>, alone: bool, b: set<Arc>, pre: nat, post: nat, p: nat)
    requires Pull(arcs, con, mid, alone, b, pre, post) && p in mid
    ensures IsMid(mid, mid[p]) && SourceOf(mid, mid[p]) == p
  {
    assert IsMid(mid, mid[p]);
  }

  /** Arcs into con's source do not come from intermediate states. */
  lemma NoMidBefore(arcs: set<Arc>, con: Arc, mid: map<nat, nat>, alone: bool, b: set<Arc>, pre: nat, post: nat)
    requires Pull(arcs, con, mid, alone, b, pre, post)
    ensures !IsMid(mid, con.from) && !IsMid(mid, con.to)
    ensures forall a :: a in arcs && a.to == con.from ==> !IsMid(mid, a.from)
    ensures forall p :: p in mid ==> !IsMid(mid, p)
  {
    if IsMid(mid, con.from) { MidFacts(arcs, con, mid, alone, b, pre, post, con.from); }
    if IsMid(mid, con.to) { MidFacts(arcs, con, mid, alone, b, pre, post, con.to); }
    forall a | a in arcs && a.to == con.from ensures !IsMid(mid, a.from) {
      if IsMid(mid, a.from) {
        MidFacts(arcs, con, mid, alone, b, pre, post, a.from);
        NotFromMid(arcs, con, SourceOf(mid, a.from), a.from, pre, post, a);
      }
    }
    forall p | p in mid ensures !IsMid(mid, p) {
      assert Passed(arcs, con.from, p);
      var a :| a in arcs && a.to == con.from && a.from == p && Passes(a.typ, true);
    }
  }

  /** Passed arcs are constraints that con passes; it goes to an intermediate state of theirs. */
  lemma PassingMids(arcs: set<Arc>, con: Arc, mid: map<nat, nat>, alone: bool, b: set<Arc>, pre: nat, post: nat)
    requires Pull(arcs, con, mid, alone, b, pre, post)
    ensures forall a :: a in Passing(arcs, con) ==> a.from in mid && Passes(a.typ, true)
    ensures forall a :: a in arcs && a.to == con.from && Passes(a.typ, true) ==> a in Passing(arcs, con)
  {
    forall a | a in Passing(arcs, con) ensures a.from in mid { assert Passed(arcs, con.from, a.from); }
  }

  /** What leaves an intermediate state is a copy of a passed arc. */
  lemma LeavesMid(arcs: set<Arc>, con: Arc, mid: map<nat, nat>, alone: bool, b: set<Arc>, pre: nat, post: nat, e: Arc)
    requires Pull(arcs, con, mid, alone, b, pre, post) && e in arcs && IsMid(mid, e.from)
    ensures e.to == con.to && !Back(e.typ) && exists a :: a in Passing(arcs, con) && Beyond(con, mid)(a) == e
  {
    hide Pulled, Combine;
    var m := e.from;
    MidFacts(arcs, con, mid, alone, b, pre, post, m);
    PassingMids(arcs, con, mid, alone, b, pre, post);
    var p := SourceOf(mid, m);
    assert PassedBy(arcs, con, p, m, e);
    var a :| a in arcs && a.to == con.from && a.from == p && Passes(a.typ, true) && e == a.(from := m, to := con.to);
    assert a in Passing(arcs, con) && Beyond(con, mid)(a) == e;
  }

  /** A new arc that is no copy of an old one. */
  lemma NewArc(arcs: set<Arc>, con: Arc, mid: map<nat, nat>, alone: bool, b: set<Arc>, pre: nat, post: nat, e: Arc)
    requires Pull(arcs, con, mid, alone, b, pre, post) && e in b && e.typ != PLAIN && !(e in arcs && e != con)
    ensures
      || (exists a :: a in Confirming(arcs, con) && e == Along(con)(a))
      || (exists a :: a in Passing(arcs, con) && e == Beyond(con, mid)(a))
      || (exists a :: a in Passing(arcs, con) && e == Ahead(con, mid)(a))
  {
    if Implied(arcs, con, e) {
      var a :| a in arcs && a.to == con.from && Combine(con, a) == SATISFIED && e == a.(to := con.to);
      assert a in Confirming(arcs, con) && e == Along(con)(a);
    } else {
      var a :| a in arcs && a.to == con.from && SwappedBy(con, mid, e, a);
      assert a in Passing(arcs, con);
      assert e == Beyond(con, mid)(a) || e == Ahead(con, mid)(a);
    }
  }

  // ---------------------------------------------------------------- at con's target

  /** c2 and d say how the weights of intermediate states go up: by no more than their sources allow. */
  ghost predicate Reweighed(arcs: set<Arc>, con: Arc, mid: map<nat, nat>, c: nat -> nat, c2: nat -> nat, d: nat -> nat) {
    && (forall x: nat :: if IsMid(mid, x) then c2(x) <= (if Entered(arcs, x) then c(x) else 0) + d(SourceOf(mid, x)) else c2(x) == c(x))
    && (forall x: nat :: c(x) <= d(x))
  }

  lemma TargetBound(arcs: set<Arc>, con: Arc, mid: map<nat, nat>, alone: bool, b: set<Arc>, pre: nat, post: nat,
                    c: nat -> nat, c2: nat -> nat, d: nat -> nat)
    requires Pull(arcs, con, mid, alone, b, pre, post) && Reweighed(arcs, con, mid, c, c2, d)
    requires Sum(In(arcs, con.from), From(d)) <= c(con.from)
    ensures Sum(In(b, con.to), From(c2)) <= Sum(In(arcs, con.to), From(c))
  {
    hide Pull, Reweighed, Sum, In;
    var kept := In(arcs, con.to) - {con};
    var passed := set a | a in Passing(arcs, con) :: Beyond(con, mid)(a);
    var along := set a | a in Confirming(arcs, con) :: Along(con)(a);
    TargetArcs(arcs, con, mid, alone, b, pre, post);
    KeptWeight(arcs, con, mid, alone, b, pre, post, c, c2, d);
    PassedWeight(arcs, con, mid, alone, b, pre, post, c, c2, d);
    AlongWeight(arcs, con, mid, alone, b, pre, post, c, c2, d);
    SumMono(In(b, con.to), kept - passed + passed + along, From(c2));
    SumUnion(kept - passed + passed, along, From(c2));
    SumUnion(kept - passed, passed, From(c2));
    PassingConfirming(arcs, con, From(d));
    assert kept - passed + passed * kept == kept;
    SumSplit(kept - passed, passed * kept, From(c));
    ConThere(arcs, con, mid, alone, b, pre, post);
    SumTake(In(arcs, con.to), From(c), con);
  }

  lemma ConThere(arcs: set<Arc>, con: Arc, mid: map<nat, nat>, alone: bool, b: set<Arc>, pre: nat, post: nat)
    requires Pull(arcs, con, mid, alone, b, pre, post)
    ensures con in In(arcs, con.to)
  {
  }

  lemma PassingConfirming(arcs: set<Arc>, con: Arc, w: Arc -> nat)
    ensures Sum(Passing(arcs, con), w) + Sum(Confirming(arcs, con), w) <= Sum(In(arcs, con.from), w)
  {
    SumSplit(Passing(arcs, con), Confirming(arcs, con), w);
    SumMono(Passing(arcs, con) + Confirming(arcs, con), In(arcs, con.from), w);
  }

  lemma TargetArcs(arcs: set<Arc>, con: Arc, mid: map<nat, nat>, alone: bool, b: set<Arc>, pre: nat, post: nat)
    requires Pull(arcs, con, mid, alone, b, pre, post)
    ensures var kept := In(arcs, con.to) - {con};
      var passed := set a | a in Passing(arcs, con) :: Beyond(con, mid)(a);
      In(b, con.to) <= kept - passed + passed + set a | a in Confirming(arcs, con) :: Along(con)(a)
  {
    hide Pulled, MidsReady;
    forall e | e in In(b, con.to) && !(e in arcs && e != con)
      ensures (exists a :: a in Confirming(arcs, con) && e == Along(con)(a)) || exists a :: a in Passing(arcs, con) && e == Beyond(con, mid)(a)
    {
      NewArc(arcs, con, mid, alone, b, pre, post, e);
      if a :| a in Passing(arcs, con) && e == Ahead(con, mid)(a) {
        PassingMids(arcs, con, mid, alone, b, pre, post);
        SourceOfMid(arcs, con, mid, alone, b, pre, post, a.from);
        NoMidBefore(arcs, con, mid, alone, b, pre, post);
      }
    }
  }

  lemma KeptWeight(arcs: set<Arc>, con: Arc, mid: map<nat, nat>, alone: bool, b: set<Arc>, pre: nat, post: nat,
                   c: nat -> nat, c2: nat -> nat, d: nat -> nat)
    requires Pull(arcs, con, mid, alone, b, pre, post) && Reweighed(arcs, con, mid, c, c2, d)
    ensures var kept := In(arcs, con.to) - {con} - set a | a in Passing(arcs, con) :: Beyond(con, mid)(a);
      Sum(kept, From(c2)) <= Sum(kept, From(c))
  {
    hide Pulled, MidsReady;
    var kept := In(arcs, con.to) - {con} - set a | a in Passing(arcs, con) :: Beyond(con, mid)(a);
    forall e | e in kept ensures c2(e.from) <= c(e.from) {
      if IsMid(mid, e.from) { LeavesMid(arcs, con, mid, alone, b, pre, post, e); }
    }
    SumLe(kept, From(c2), From(c));
  }

  lemma PassedWeight(arcs: set<Arc>, con: Arc, mid: map<nat, nat>, alone: bool, b: set<Arc>, pre: nat, post: nat,
                     c: nat -> nat, c2: nat -> nat, d: nat -> nat)
    requires Pull(arcs, con, mid, alone, b, pre, post) && Reweighed(arcs, con, mid, c, c2, d)
    ensures var kept := In(arcs, con.to) - {con};
      var passed := set a | a in Passing(arcs, con) :: Beyond(con, mid)(a);
      Sum(passed, From(c2)) <= Sum(passed * kept, From(c)) + Sum(Passing(arcs, con), From(d))
  {
    hide Pulled, MidsReady, Sum;
    var kept := In(arcs, con.to) - {con};
    var passed := set a | a in Passing(arcs, con) :: Beyond(con, mid)(a);
    var w1: Arc -> nat := (e: Arc) => if e in kept then c(e.from) else 0;
    var w2: Arc -> nat := (e: Arc) => if IsMid(mid, e.from) then d(SourceOf(mid, e.from)) else 0;
    var w3: Arc -> nat := (e: Arc) => var n: nat := w1(e) + w2(e); n;
    forall a | a in Passing(arcs, con) ensures w2(Beyond(con, mid)(a)) <= From(d)(a) && From(c2)(Beyond(con, mid)(a)) <= w3(Beyond(con, mid)(a)) {
      PassedAt(arcs, con, mid, alone, b, pre, post, c, c2, d, a);
    }
    SumLe(passed, From(c2), w3);
    SumPlus(passed, w1, w2, w3);
    SumImage(Passing(arcs, con), Beyond(con, mid), w2, From(d));
    assert passed == passed * kept + (passed - kept);
    SumSplit(passed * kept, passed - kept, w1);
    SumBound(passed - kept, w1, 0);
    SumLe(passed * kept, w1, From(c));
  }

  /** One passed arc: beyond an intermediate state that was entered before it is an old arc. */
  lemma PassedAt(arcs: set<Arc>, con: Arc, mid: map<nat, nat>, alone: bool, b: set<Arc>, pre: nat, post: nat,
                 c: nat -> nat, c2: nat -> nat, d: nat -> nat, a: Arc)
    requires Pull(arcs, con, mid, alone, b, pre, post) && Reweighed(arcs, con, mid, c, c2, d) && a in Passing(arcs, con)
    ensures var e := Beyond(con, mid)(a);
      && IsMid(mid, e.from) && SourceOf(mid, e.from) == a.from
      && c2(e.from) <= (if e in In(arcs, con.to) - {con} then c(e.from) else 0) + d(a.from)
  {
    hide Pulled, MidsReady;
    PassingMids(arcs, con, mid, alone, b, pre, post);
    SourceOfMid(arcs, con, mid, alone, b, pre, post, a.from);
    MidFacts(arcs, con, mid, alone, b, pre, post, mid[a.from]);
  }

  lemma AlongWeight(arcs: set<Arc>, con: Arc, mid: map<nat, nat>, alone: bool, b: set<Arc>, pre: nat, post: nat,
                    c: nat -> nat, c2: nat -> nat, d: nat -> nat)
    requires Pull(arcs, con, mid, alone, b, pre, post) && Reweighed(arcs, con, mid, c, c2, d)
    ensures Sum(set a | a in Confirming(arcs, con) :: Along(con)(a), From(c2)) <= Sum(Confirming(arcs, con), From(d))
  {
    hide Pulled, MidsReady, Sum;
    NoMidBefore(arcs, con, mid, alone, b, pre, post);
    SumImage(Confirming(arcs, con), Along(con), From(c2), From(d));
  }

  // ---------------------------------------------------------------- at the intermediate states, and elsewhere

  lemma MidBound(arcs: set<Arc>, con: Arc, mid: map<nat, nat>, alone: bool, b: set<Arc>, pre: nat, post: nat,
                 c: nat -> nat, c2: nat -> nat, d: nat -> nat, x: nat)
    requires Pull(arcs, con, mid, alone, b, pre, post) && Reweighed(arcs, con, mid, c, c2, d) && IsMid(mid, x)
    ensures Sum(In(b, x), From(c2)) <= (if Entered(arcs, x) then Sum(In(arcs, x), From(c)) else 0) + c(SourceOf(mid, x))
  {
    hide Pulled, MidsReady, Sum;
    var p := SourceOf(mid, x);
    MidFacts(arcs, con, mid, alone, b, pre, post, x);
    NoMidBefore(arcs, con, mid, alone, b, pre, post);
    var e0 := con.(from := p, to := x);
    forall e | e in In(b, x) ensures e in In(arcs, x) + {e0} {
      if !(e in arcs && e != con) { EntersMid(arcs, con, mid, alone, b, pre, post, x, e); }
    }
    SumMono(In(b, x), In(arcs, x) + {e0}, From(c2));
    SumUnion(In(arcs, x), {e0}, From(c2));
    SumTake({e0}, From(c2), e0);
    assert {e0} - {e0} == {};
    assert Sum({}, From(c2)) == 0 by { SumBound({}, From(c2), 0); }
    SumLe(In(arcs, x), From(c2), From(c));
    if !Entered(arcs, x) { assert In(arcs, x) == {}; }
  }

  lemma EntersMid(arcs: set<Arc>, con: Arc, mid: map<nat, nat>, alone: bool, b: set<Arc>, pre: nat, post: nat, x: nat, e: Arc)
    requires Pull(arcs, con, mid, alone, b, pre, post) && IsMid(mid, x) && e in In(b, x) && !(e in arcs && e != con)
    ensures e == con.(from := SourceOf(mid, x), to := x)
  {
    hide Pulled, MidsReady;
    MidFacts(arcs, con, mid, alone, b, pre, post, x);
    NewArc(arcs, con, mid, alone, b, pre, post, e);
    PassingMids(arcs, con, mid, alone, b, pre, post);
    if a :| a in Passing(arcs, con) && e == Ahead(con, mid)(a) {
      SourceOfMid(arcs, con, mid, alone, b, pre, post, a.from);
    }
  }

  lemma OtherBound(arcs: set<Arc>, con: Arc, mid: map<nat, nat>, alone: bool, b: set<Arc>, pre: nat, post: nat,
                   c: nat -> nat, c2: nat -> nat, d: nat -> nat, x: nat)
    requires Pull(arcs, con, mid, alone, b, pre, post) && Reweighed(arcs, con, mid, c, c2, d) && !IsMid(mid, x) && x != con.to
    ensures Sum(In(b, x), From(c2)) <= Sum(In(arcs, x), From(c))
  {
    hide Pulled, MidsReady, Sum;
    PassingMids(arcs, con, mid, alone, b, pre, post);
    forall e | e in In(b, x) ensures e in In(arcs, x) && !IsMid(mid, e.from) {
      if !(e in arcs && e != con) {
        NewArc(arcs, con, mid, alone, b, pre, post, e);
        if a :| a in Passing(arcs, con) && e == Ahead(con, mid)(a) { SourceOfMid(arcs, con, mid, alone, b, pre, post, a.from); }
      } else if IsMid(mid, e.from) {
        LeavesMid(arcs, con, mid, alone, b, pre, post, e);
      }
    }
    SumMono(In(b, x), In(arcs, x), From(c));
    SumLe(In(b, x), From(c2), From(c));
  }

  // ---------------------------------------------------------------- a pull spends

  /** The bounds at an intermediate state go up by what they are at its source. */
  ghost function ChainsAt(arcs: set<Arc>, mid: map<nat, nat>, t: nat -> nat, x: nat): nat {
    if IsMid(mid, x) then (if Entered(arcs, x) then t(x) else 0) + t(SourceOf(mid, x)) else t(x)
  }

  ghost function LengthsAt(arcs: set<Arc>, mid: map<nat, nat>, t: nat -> nat, l: nat -> nat, x: nat): nat {
    if IsMid(mid, x) then (if Entered(arcs, x) then l(x) else 0) + l(SourceOf(mid, x)) + t(SourceOf(mid, x)) else l(x)
  }

  ghost function Chains(arcs: set<Arc>, mid: map<nat, nat>, t: nat -> nat): nat -> nat { (x: nat) => ChainsAt(arcs, mid, t, x) }

  ghost function Lengths(arcs: set<Arc>, mid: map<nat, nat>, t: nat -> nat, l: nat -> nat): nat -> nat { (x: nat) => LengthsAt(arcs, mid, t, l, x) }

  lemma BoundsKept(arcs: set<Arc>, con: Arc, mid: map<nat, nat>, alone: bool, b: set<Arc>, pre: nat, post: nat, t: nat -> nat, l: nat -> nat, x: nat)
    requires Pull(arcs, con, mid, alone, b, pre, post) && Bounds(arcs, t, l)
    ensures BoundsAt(b, Chains(arcs, mid, t), Lengths(arcs, mid, t, l), x)
  {
    hide Pull, Sum, In;
    var t2, l2 := Chains(arcs, mid, t), Lengths(arcs, mid, t, l);
    var d := Plus(l, Plus(t, t));
    assert BoundsAt(arcs, t, l, x) && BoundsAt(arcs, t, l, con.from);
    assert Reweighed(arcs, con, mid, t, t2, t);
    assert Reweighed(arcs, con, mid, Plus(l, t), Plus(l2, t2), d);
    if x == con.to {
      SumPlus(In(arcs, con.from), From(Plus(l, t)), From(t), From(d));
      TargetBound(arcs, con, mid, alone, b, pre, post, t, t2, t);
      TargetBound(arcs, con, mid, alone, b, pre, post, Plus(l, t), Plus(l2, t2), d);
      NoMidBefore(arcs, con, mid, alone, b, pre, post);
    } else if IsMid(mid, x) {
      MidBound(arcs, con, mid, alone, b, pre, post, t, t2, t, x);
      MidBound(arcs, con, mid, alone, b, pre, post, Plus(l, t), Plus(l2, t2), d, x);
      assert BoundsAt(arcs, t, l, SourceOf(mid, x));
    } else {
      OtherBound(arcs, con, mid, alone, b, pre, post, t, t2, t, x);
      OtherBound(arcs, con, mid, alone, b, pre, post, Plus(l, t), Plus(l2, t2), d, x);
    }
  }

  /** What is still to be paid once con has been pulled. */
  lemma CostDrops(arcs: set<Arc>, con: Arc, mid: map<nat, nat>, alone: bool, b: set<Arc>, pre: nat, post: nat, t: nat -> nat, l: nat -> nat)
    requires Pull(arcs, con, mid, alone, b, pre, post) && Bounds(arcs, t, l)
    ensures Sum(Pending(b, pre), Cost(Lengths(arcs, mid, t, l))) < Sum(Pending(arcs, pre), Cost(l))
  {
    hide Pull, Sum, In, Pending;
    var l2 := Lengths(arcs, mid, t, l);
    var kept := Pending(arcs, pre) - {con};
    var ahead := set a | a in Passing(arcs, con) :: Ahead(con, mid)(a);
    var along := set a | a in Confirming(arcs, con) :: Along(con)(a);
    PendingArcs(arcs, con, mid, alone, b, pre, post);
    SumMono(Pending(b, pre), kept + ahead + along, Cost(l2));
    SumUnion(kept + ahead, along, Cost(l2));
    SumUnion(kept, ahead, Cost(l2));
    SumLe(kept, Cost(l2), Cost(l));
    CostAhead(arcs, con, mid, alone, b, pre, post, t, l);
    CostAlong(arcs, con, mid, alone, b, pre, post, t, l);
    PassingConfirming(arcs, con, From(Plus(l, t)));
    assert BoundsAt(arcs, t, l, con.from);
    SumTake(Pending(arcs, pre), Cost(l), con);
  }

  lemma PendingArcs(arcs: set<Arc>, con: Arc, mid: map<nat, nat>, alone: bool, b: set<Arc>, pre: nat, post: nat)
    requires Pull(arcs, con, mid, alone, b, pre, post)
    ensures con in Pending(arcs, pre) && forall e :: e in Pending(arcs, pre) ==> !IsMid(mid, e.from)
    ensures Pending(b, pre) <= Pending(arcs, pre) - {con} + (set a | a in Passing(arcs, con) :: Ahead(con, mid)(a))
                               + set a | a in Confirming(arcs, con) :: Along(con)(a)
  {
    hide Pulled, MidsReady;
    forall e | e in Pending(arcs, pre) ensures !IsMid(mid, e.from) {
      if IsMid(mid, e.from) { LeavesMid(arcs, con, mid, alone, b, pre, post, e); }
    }
    PassingMids(arcs, con, mid, alone, b, pre, post);
    forall e | e in Pending(b, pre) && !(e in arcs && e != con)
      ensures (exists a :: a in Confirming(arcs, con) && e == Along(con)(a)) || exists a :: a in Passing(arcs, con) && e == Ahead(con, mid)(a)
    {
      NewArc(arcs, con, mid, alone, b, pre, post, e);
    }
  }

  lemma CostAhead(arcs: set<Arc>, con: Arc, mid: map<nat, nat>, alone: bool, b: set<Arc>, pre: nat, post: nat, t: nat -> nat, l: nat -> nat)
    requires Pull(arcs, con, mid, alone, b, pre, post) && Bounds(arcs, t, l)
    ensures Sum(set a | a in Passing(arcs, con) :: Ahead(con, mid)(a), Cost(Lengths(arcs, mid, t, l))) <= Sum(Passing(arcs, con), From(Plus(l, t)))
  {
    hide Pulled, MidsReady, Sum;
    var l2 := Lengths(arcs, mid, t, l);
    NoMidBefore(arcs, con, mid, alone, b, pre, post);
    PassingMids(arcs, con, mid, alone, b, pre, post);
    forall a | a in Passing(arcs, con) ensures Cost(l2)(Ahead(con, mid)(a)) <= From(Plus(l, t))(a) { assert BoundsAt(arcs, t, l, a.from); }
    SumImage(Passing(arcs, con), Ahead(con, mid), Cost(l2), From(Plus(l, t)));
  }

  lemma CostAlong(arcs: set<Arc>, con: Arc, mid: map<nat, nat>, alone: bool, b: set<Arc>, pre: nat, post: nat, t: nat -> nat, l: nat -> nat)
    requires Pull(arcs, con, mid, alone, b, pre, post) && Bounds(arcs, t, l)
    ensures Sum(set a | a in Confirming(arcs, con) :: Along(con)(a), Cost(Lengths(arcs, mid, t, l))) <= Sum(Confirming(arcs, con), From(Plus(l, t)))
  {
    hide Pulled, MidsReady, Sum;
    var l2 := Lengths(arcs, mid, t, l);
    NoMidBefore(arcs, con, mid, alone, b, pre, post);
    forall a | a in Confirming(arcs, con) ensures Cost(l2)(Along(con)(a)) <= From(Plus(l, t))(a) { assert BoundsAt(arcs, t, l, a.from); }
    SumImage(Confirming(arcs, con), Along(con), Cost(l2), From(Plus(l, t)));
  }

  /** Every pull of a constraint that is not at pre yet spends. */
  lemma PullSpends(arcs: set<Arc>, con: Arc, mid: map<nat, nat>, alone: bool, b: set<Arc>, pre: nat, post: nat, n: nat)
    requires Pull(arcs, con, mid, alone, b, pre, post) && Budget(arcs, pre, n)
    ensures n > 0 && Budget(b, pre, n - 1)
  {
    hide Pull, Sum, Pending;
    var t: nat -> nat, l: nat -> nat :| BudgetBy(arcs, pre, n, t, l);
    var t2, l2 := Chains(arcs, mid, t), Lengths(arcs, mid, t, l);
    CostDrops(arcs, con, mid, alone, b, pre, post, t, l);
    forall x: nat ensures BoundsAt(b, t2, l2, x) { BoundsKept(arcs, con, mid, alone, b, pre, post, t, l, x); }
    assert BudgetBy(b, pre, n - 1, t2, l2);
  }

  ghost predicate Left(arcs: set<Arc>, pre: nat, n: nat, progress: bool) {
    if progress then n > 0 && Budget(arcs, pre, n - 1) else Budget(arcs, pre, n)
  }

  /** From a to b the budget has not grown, and has shrunk if there was progress. */
  ghost predicate Spent(a: set<Arc>, b: set<Arc>, pre: nat, progress: bool) {
    forall n: nat :: Budget(a, pre, n) ==> Left(b, pre, n, progress)
  }

  lemma SpentNothing(a: set<Arc>, b: set<Arc>, pre: nat)
    requires b <= a
    ensures Spent(a, b, pre, false)
  {
    forall n: nat | Budget(a, pre, n) ensures Left(b, pre, n, false) { BudgetLess(a, b, pre, n); }
  }

  lemma SpentTrans(a: set<Arc>, b: set<Arc>, c: set<Arc>, pre: nat, p: bool, q: bool)
    requires Spent(a, b, pre, p) && Spent(b, c, pre, q)
    ensures Spent(a, c, pre, p || q)
  {
    forall n: nat | Budget(a, pre, n) ensures Left(c, pre, n, p || q) {
      assert Left(b, pre, n, p);
      var m: nat := if p then n - 1 else n;
      assert Left(c, pre, m, q);
      if p && q { BudgetMore(c, pre, m - 1, m); }
    }
  }

  lemma PullSpent(arcs: set<Arc>, con: Arc, mid: map<nat, nat>, alone: bool, b: set<Arc>, pre: nat, post: nat)
    requires Pull(arcs, con, mid, alone, b, pre, post)
    ensures Spent(arcs, b, pre, true)
  {
    forall n: nat | Budget(arcs, pre, n) ensures Left(b, pre, n, true) { PullSpends(arcs, con, mid, alone, b, pre, post, n); }
  }
}
