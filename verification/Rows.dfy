/** Compacted automata of the simplest regexes: a row of characters, each of one of some colours. */
module Rows {
  import opened Cnfa

  /** pre, a state before and after each character, post. The text has colours below k; k and k + 1 stand for the
      begin of the string, k + 2 and k + 3 for its end. */
  function Row(k: nat, sets: seq<seq<nat>>): Cnfa {
    var n := |sets|;
    Cnfa(k + 4, false, 0, n + 2, (k, k + 1), (k + 2, k + 3), seq(n + 3, q => q <= 1), seq(n + 3, q requires 0 <= q => RowArcs(k, sets, q)))
  }

  function RowArcs(k: nat, sets: seq<seq<nat>>, q: nat): seq<Carc> {
    var n := |sets|;
    if q == 0 then seq(k + 2, i requires 0 <= i => Carc(i, 1))
    else if q <= n then seq(|sets[q - 1]|, i requires 0 <= i < |sets[q - 1]| => Carc(sets[q - 1][i], q + 1))
    else if q == n + 1 then seq(k, i requires 0 <= i => Carc(i, n + 2)) + [Carc(k + 2, n + 2), Carc(k + 3, n + 2)]
    else []
  }

  ghost predicate ColorsBelow(k: nat, sets: seq<seq<nat>>) {
    forall i, j :: 0 <= i < |sets| && 0 <= j < |sets[i]| ==> sets[i][j] < k
  }

  ghost predicate TextBelow(k: nat, v: Text) {
    forall i :: 0 <= i < |v.colors| ==> v.colors[i] < k
  }

  /** The colours state q of the row goes on with. */
  ghost predicate Passes(k: nat, sets: seq<seq<nat>>, q: nat, co: nat) {
    var n := |sets|;
    if q == 0 then co < k + 2 else if q <= n then co in sets[q - 1] else q == n + 1 && (co < k || co == k + 2 || co == k + 3)
  }

  lemma RowArcsAre(k: nat, sets: seq<seq<nat>>, q: nat, co: nat, r: nat)
    ensures Carc(co, r) in RowArcs(k, sets, q) <==> Passes(k, sets, q, co) && r == q + 1
  {
    var n, arcs := |sets|, RowArcs(k, sets, q);
    if Passes(k, sets, q, co) && r == q + 1 {
      if q == 0 {
        assert arcs[co] == Carc(co, r);
      } else if q <= n {
        var i :| 0 <= i < |sets[q - 1]| && sets[q - 1][i] == co;
        assert arcs[i] == Carc(co, r);
      } else {
        assert arcs[if co < k then co else co - 2] == Carc(co, r);
      }
    }
  }

  lemma RowOkay(k: nat, sets: seq<seq<nat>>)
    requires ColorsBelow(k, sets)
    ensures WellFormed(Row(k, sets)) && NoReturn(Row(k, sets))
  {
    var c := Row(k, sets);
    forall p, j | 0 <= p < |c.states| && 0 <= j < |c.states[p]| ensures c.states[p][j].to == p + 1 < |c.states| && c.states[p][j].co < c.ncolors {
      var ca := c.states[p][j];
      assert ca in RowArcs(k, sets, p);
      RowArcsAre(k, sets, p, ca.co, ca.to);
    }
    forall q: nat | q < |c.states| ensures c.stflags[q] <==> q == c.pre || exists co :: Carc(co, q) in c.states[c.pre] {
      RowArcsAre(k, sets, 0, 0, q);
      forall co | Carc(co, q) in c.states[c.pre] ensures q == 1 { RowArcsAre(k, sets, 0, co, q); }
    }
    hide RowArcs;
  }

  lemma RowStep(k: nat, sets: seq<seq<nat>>, v: Text, s: set<nat>, q: nat, co: nat, pos: nat)
    requires ColorsBelow(k, sets) && s == {q} && q <= |sets| + 2 && co < k + 4
    ensures Step(Row(k, sets), v, s, co, pos) == if Passes(k, sets, q, co) then {q + 1} else {}
  {
    var c := Row(k, sets);
    var t := PlainStep(c, s, co);
    forall r: nat ensures r in t <==> Passes(k, sets, q, co) && r == q + 1 {
      RowArcsAre(k, sets, q, co, r);
      assert c.states[q] == RowArcs(k, sets, q);
      if Passes(k, sets, q, co) && r == q + 1 { assert PlainEdge(c, co, q, r); }
    }
    hide RowArcs, PlainStep, Passes;
    NoLacons(k, sets, v, t, pos);
  }

  lemma NoLacons(k: nat, sets: seq<seq<nat>>, v: Text, s: set<nat>, pos: nat)
    requires ColorsBelow(k, sets) && forall q :: q in s ==> q < |sets| + 3
    ensures Closure(Row(k, sets), v, pos, s) == s
  {
    var c := Row(k, sets);
    forall q | q in s ensures q in Closure(c, v, pos, s) { ClosureContains(c, v, pos, s, q); }
    forall p: nat, q: nat ensures !LaconEdge(c, v, pos, p, q) {
      forall ca | p < |c.states| && ca in c.states[p] ensures ca.co < c.ncolors {
        assert c.states[p] == RowArcs(k, sets, p);
        RowArcsAre(k, sets, p, ca.co, ca.to);
      }
    }
    ClosureLeast(c, v, pos, s, s);
  }

  /** The first m characters after b are of the colours asked for. */
  ghost predicate Agrees(sets: seq<seq<nat>>, v: Text, b: nat, m: nat) {
    forall i :: 0 <= i < m && i < |sets| && b + i < |v.colors| ==> v.colors[b + i] in sets[i]
  }

  lemma {:induction false} RowRun(k: nat, sets: seq<seq<nat>>, v: Text, b: nat, j: nat)
    requires ColorsBelow(k, sets) && TextBelow(k, v) && b <= j <= v.Stop()
    ensures SimSet(Row(k, sets), v, b, j) == if j - b <= |sets| + 1 && Agrees(sets, v, b, j - b) then {j - b + 1} else {}
    decreases j
  {
    var c := Row(k, sets);
    hide Step, RowArcs;
    if j == b {
      RowStep(k, sets, v, {c.pre}, 0, Sym(c, v, j), Pos(v, j));
    } else {
      RowRun(k, sets, v, b, j - 1);
      var q, co := j - b, Sym(c, v, j);
      AgreesNext(sets, v, b, j);
      if q - 1 <= |sets| + 1 && Agrees(sets, v, b, q - 1) {
        RowStep(k, sets, v, {q}, q, co, Pos(v, j));
      } else {
        EmptyStep(c, v, {}, co, Pos(v, j));
      }
    }
  }

  lemma AgreesNext(sets: seq<seq<nat>>, v: Text, b: nat, j: nat)
    requires b < j <= |v.colors|
    ensures Agrees(sets, v, b, j - b) <==> Agrees(sets, v, b, j - b - 1) && (j - b <= |sets| ==> v.colors[j - 1] in sets[j - b - 1])
  {
  }

  /** It matches the substrings of as many characters that are of the colours asked for. */
  lemma RowMatch(k: nat, sets: seq<seq<nat>>, v: Text, b: nat, e: nat)
    requires ColorsBelow(k, sets) && TextBelow(k, v)
    ensures Matches(Row(k, sets), v, b, e) <==> b <= e <= v.Stop() && e - b == |sets| && Agrees(sets, v, b, e - b)
  {
    if b <= e <= v.Stop() {
      hide Step, Row, Agrees, Passes, SimSet, Matches, Sym;
      var c, q := Row(k, sets), e - b + 1;
      var co := Sym(c, v, e + 1);
      RowRun(k, sets, v, b, e);
      LastSymbol(c, v, b, e);
      PassesEnd(k, sets, v, e);
      if q <= |sets| + 2 && Agrees(sets, v, b, e - b) {
        RowStep(k, sets, v, {q}, q, co, Pos(v, e + 1));
      } else {
        EmptyStep(c, v, {}, co, Pos(v, e + 1));
      }
    }
  }

  lemma LastSymbol(c: Cnfa, v: Text, b: nat, e: nat)
    requires b <= e <= v.Stop()
    ensures Matches(c, v, b, e) <==> c.post in Step(c, v, SimSet(c, v, b, e), Sym(c, v, e + 1), Pos(v, e + 1))
  {
  }

  lemma PassesEnd(k: nat, sets: seq<seq<nat>>, v: Text, e: nat)
    requires TextBelow(k, v) && e <= v.Stop()
    ensures var c := Row(k, sets); c.post == |sets| + 2 && Sym(c, v, e + 1) < k + 4 && Passes(k, sets, |sets| + 1, Sym(c, v, e + 1))
  {
  }
}
