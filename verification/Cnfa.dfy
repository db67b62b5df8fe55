/** The compacted NFA (regguts.h:291-310) and its reference meaning: plain subset
    simulation of a text, one symbol at a time, with lookahead constraints (LACONs)
    decided by an oracle. */
module Cnfa {
  import opened Options

  /** One compacted arc. A colour at or above ncolors denotes lookahead
      constraint number co - ncolors (regguts.h:285-288). */
  datatype Carc = Carc(co: nat, to: nat)

  datatype Cnfa = Cnfa(
    ncolors: nat, lacons: bool, pre: nat, post: nat,
    bos: (nat, nat), eos: (nat, nat),
    stflags: seq<bool>, states: seq<seq<Carc>>)

  /** The string as executed: the colour of every character, the REG_NOTBOL and REG_NOTEOL
      flags, and the lookahead oracle (constraint number, position) -> satisfied. */
  datatype Text = Text(colors: seq<nat>, notBol: bool, notEol: bool, lacon: (nat, nat) -> bool) {
    function Stop(): nat { |colors| }
  }

  /** What compact() and newnfa() guarantee about an automaton: nothing leads from pre straight
      to post, post is entered on a plain colour only, pre has no LACON arc, and the stflags
      vector marks exactly pre and the successors of pre (regc_nfa.c:2853-2888). */
  ghost predicate WellFormed(c: Cnfa) {
    && |c.stflags| == |c.states|
    && c.pre < |c.states| && c.post < |c.states| && c.pre != c.post
    && c.bos.0 < c.ncolors && c.bos.1 < c.ncolors && c.eos.0 < c.ncolors && c.eos.1 < c.ncolors
    && (forall p, j :: 0 <= p < |c.states| && 0 <= j < |c.states[p]| ==> c.states[p][j].to < |c.states|)
    && (forall j :: 0 <= j < |c.states[c.pre]| ==>
          c.states[c.pre][j].co < c.ncolors && c.states[c.pre][j].to != c.post)
    && (forall p, j :: 0 <= p < |c.states| && 0 <= j < |c.states[p]| && c.states[p][j].to == c.post ==>
          c.states[p][j].co < c.ncolors)
    && (!c.lacons ==> forall p, j :: 0 <= p < |c.states| && 0 <= j < |c.states[p]| ==> c.states[p][j].co < c.ncolors)
    && (forall q :: 0 <= q < |c.states| ==>
          (c.stflags[q] <==> q == c.pre || exists co :: Carc(co, q) in c.states[c.pre]))
  }

  /** The text only holds colours the automaton knows. */
  ghost predicate Fits(c: Cnfa, v: Text) {
    forall i :: 0 <= i < |v.colors| ==> v.colors[i] < c.ncolors
  }

  /** The symbols of an execution: 0 is the begin-of-string pseudo-colour, 1..n are the
      characters, n+1 is the end-of-string pseudo-colour. */
  function Sym(c: Cnfa, v: Text, k: nat): nat
    requires k <= v.Stop() + 1
  {
    if k == 0 then (if v.notBol then c.bos.0 else c.bos.1)
    else if k <= v.Stop() then v.colors[k - 1]
    else if v.notEol then c.eos.0 else c.eos.1
  }

  /** The string position reached after symbol k. */
  function Pos(v: Text, k: nat): nat {
    if k <= v.Stop() then k else v.Stop()
  }

  ghost predicate PlainEdge(c: Cnfa, co: nat, p: nat, q: nat) {
    p < |c.states| && co < c.ncolors && Carc(co, q) in c.states[p]
  }

  ghost predicate LaconEdge(c: Cnfa, v: Text, pos: nat, p: nat, q: nat) {
    p < |c.states| && exists n: nat :: Carc(c.ncolors + n, q) in c.states[p] && v.lacon(n, pos)
  }

  /** q is reached from a member of s through n satisfied LACON arcs. */
  ghost predicate LaconReach(c: Cnfa, v: Text, pos: nat, s: set<nat>, q: nat, n: nat)
    decreases n
  {
    if n == 0 then q in s
    else exists p :: LaconReach(c, v, pos, s, p, n - 1) && LaconEdge(c, v, pos, p, q)
  }

  ghost predicate InClosure(c: Cnfa, v: Text, pos: nat, s: set<nat>, q: nat) {
    exists n: nat :: LaconReach(c, v, pos, s, q, n)
  }

  ghost predicate PlainReach(c: Cnfa, s: set<nat>, co: nat, q: nat) {
    exists p :: p in s && PlainEdge(c, co, p, q)
  }

  ghost function PlainStep(c: Cnfa, s: set<nat>, co: nat): set<nat> {
    set q | 0 <= q < |c.states| && PlainReach(c, s, co, q)
  }

  ghost function Closure(c: Cnfa, v: Text, pos: nat, s: set<nat>): set<nat> {
    set q | 0 <= q < |c.states| && InClosure(c, v, pos, s, q)
  }

  ghost function Step(c: Cnfa, v: Text, s: set<nat>, co: nat, pos: nat): set<nat> {
    Closure(c, v, pos, PlainStep(c, s, co))
  }

  /** Plain subset simulation: the states an attempt begun at position start can be in after
      symbols start..k. */
  ghost function SimSet(c: Cnfa, v: Text, start: nat, k: nat): set<nat>
    requires start <= v.Stop() && start <= k <= v.Stop() + 1
    decreases k
  {
    Step(c, v, if k == start then {c.pre} else SimSet(c, v, start, k - 1), Sym(c, v, k), Pos(v, k))
  }

  /** The automaton matches the characters start..end: post is reached by the symbol after them. */
  ghost predicate Matches(c: Cnfa, v: Text, start: nat, end: nat) {
    start <= end <= v.Stop() && c.post in SimSet(c, v, start, end + 1)
  }

  /** r is the greatest end of a match from start that is at or before stop. */
  ghost predicate IsLongest(c: Cnfa, v: Text, start: nat, stop: nat, r: Option<nat>) {
    && (r.Some? ==> start <= r.value <= stop && Matches(c, v, start, r.value))
    && (forall e :: (if r.Some? then r.value + 1 else start) <= e <= stop ==> !Matches(c, v, start, e))
  }

  /** r is the least end of a match from start that lies in min..max. */
  ghost predicate IsShortest(c: Cnfa, v: Text, start: nat, min: nat, max: nat, r: Option<nat>) {
    && (r.Some? ==> min <= r.value <= max && Matches(c, v, start, r.value))
    && (forall e :: min <= e <= max && (r.Some? ==> e < r.value) ==> !Matches(c, v, start, e))
  }

  /** Nothing enters pre, as newnfa() sets it up and optimize() leaves it. */
  ghost predicate NoReturn(c: Cnfa) {
    forall p, j :: 0 <= p < |c.states| && 0 <= j < |c.states[p]| ==> c.states[p][j].to != c.pre
  }

  /** pre loops on every symbol of the text but the last, as makesearch() adds it. */
  ghost predicate PreLoops(c: Cnfa, v: Text) {
    c.pre < |c.states| && forall k :: 0 <= k <= v.Stop() ==> Carc(Sym(c, v, k), c.pre) in c.states[c.pre] && Sym(c, v, k) < c.ncolors
  }

  /** Up to the end of the string an attempt either never comes back to pre or never leaves it. */
  ghost predicate Steady(c: Cnfa, v: Text) {
    NoReturn(c) || PreLoops(c, v)
  }

  lemma NeverPre(c: Cnfa, v: Text, start: nat, l: nat)
    requires NoReturn(c) && start <= l <= v.Stop() + 1 && start <= v.Stop()
    ensures c.pre !in SimSet(c, v, start, l)
  {
    var s := if l == start then {c.pre} else SimSet(c, v, start, l - 1);
    var plain, pos := PlainStep(c, s, Sym(c, v, l)), Pos(v, l);
    forall n: nat ensures !LaconReach(c, v, pos, plain, c.pre, n) {}
  }

  lemma {:induction false} AlwaysPre(c: Cnfa, v: Text, start: nat, l: nat)
    requires PreLoops(c, v) && start <= l <= v.Stop()
    ensures c.pre in SimSet(c, v, start, l)
    decreases l
  {
    if l > start { AlwaysPre(c, v, start, l - 1); }
    var s := if l == start then {c.pre} else SimSet(c, v, start, l - 1);
    assert PlainEdge(c, Sym(c, v, l), c.pre, c.pre);
    ClosureContains(c, v, Pos(v, l), PlainStep(c, s, Sym(c, v, l)), c.pre);
  }

  lemma EmptyStep(c: Cnfa, v: Text, s: set<nat>, co: nat, pos: nat)
    requires PlainStep(c, s, co) == {}
    ensures Step(c, v, s, co, pos) == {}
  {
    forall q, n: nat ensures !LaconReach(c, v, pos, {}, q, n) {
      EmptyReach(c, v, pos, q, n);
    }
  }

  lemma {:induction false} EmptyReach(c: Cnfa, v: Text, pos: nat, q: nat, n: nat)
    ensures !LaconReach(c, v, pos, {}, q, n)
    decreases n
  {
    if n > 0 {
      var m := n - 1;
      forall p ensures !LaconReach(c, v, pos, {}, p, m) { EmptyReach(c, v, pos, p, m); }
    }
  }

  /** Once the set of states is empty the attempt is over: nothing later can match. */
  lemma {:induction false} DeadForever(c: Cnfa, v: Text, start: nat, k: nat, l: nat)
    requires start <= v.Stop() && start <= k <= l <= v.Stop() + 1
    requires SimSet(c, v, start, k) == {}
    ensures SimSet(c, v, start, l) == {}
    decreases l
  {
    if k < l {
      DeadForever(c, v, start, k, l - 1);
      assert PlainStep(c, {}, Sym(c, v, l)) == {};
      EmptyStep(c, v, {}, Sym(c, v, l), Pos(v, l));
    }
  }

  lemma DeadFrom(c: Cnfa, v: Text, start: nat, k: nat)
    requires start <= v.Stop() && start <= k <= v.Stop() + 1 && SimSet(c, v, start, k) == {}
    ensures forall l :: k <= l <= v.Stop() + 1 ==> SimSet(c, v, start, l) == {}
  {
    forall l | k <= l <= v.Stop() + 1 ensures SimSet(c, v, start, l) == {} { DeadForever(c, v, start, k, l); }
  }

  lemma ClosureContains(c: Cnfa, v: Text, pos: nat, s: set<nat>, q: nat)
    requires q in s && q < |c.states|
    ensures q in Closure(c, v, pos, s)
  {
    assert LaconReach(c, v, pos, s, q, 0);
  }

  lemma ClosureEdge(c: Cnfa, v: Text, pos: nat, s: set<nat>, p: nat, q: nat)
    requires WellFormed(c) && p in Closure(c, v, pos, s) && LaconEdge(c, v, pos, p, q)
    ensures q in Closure(c, v, pos, s)
  {
    var n: nat :| LaconReach(c, v, pos, s, p, n);
    assert LaconReach(c, v, pos, s, q, n + 1);
  }

  /** The closure is the least set closed under satisfied LACON arcs. */
  lemma ClosureLeast(c: Cnfa, v: Text, pos: nat, s: set<nat>, w: set<nat>)
    requires s <= w
    requires forall p, q :: p in w && LaconEdge(c, v, pos, p, q) ==> q in w
    ensures Closure(c, v, pos, s) <= w
  {
    forall q, n: nat | LaconReach(c, v, pos, s, q, n) ensures q in w {
      ReachStays(c, v, pos, s, w, q, n);
    }
  }

  lemma {:induction false} ReachStays(c: Cnfa, v: Text, pos: nat, s: set<nat>, w: set<nat>, q: nat, n: nat)
    requires s <= w
    requires forall p, q :: p in w && LaconEdge(c, v, pos, p, q) ==> q in w
    requires LaconReach(c, v, pos, s, q, n)
    ensures q in w
    decreases n
  {
    if n > 0 {
      var p :| LaconReach(c, v, pos, s, p, n - 1) && LaconEdge(c, v, pos, p, q);
      ReachStays(c, v, pos, s, w, p, n - 1);
    }
  }

  /** An attempt cannot be over before it has consumed a character: post is not among the states
      reached by the first symbol. */
  lemma FirstSetLacksPost(c: Cnfa, v: Text, start: nat)
    requires WellFormed(c) && start <= v.Stop()
    ensures c.post !in SimSet(c, v, start, start)
  {
  }
}
