/** Executing a regex with back references: complicatedFind(), regexec.c:413-538. Each tentative match is dissected, and when
    that fails the next one is tried. Whether it ends is not a matter of course. */
module Complicated {
  import opened Options
  import opened Nfa
  import opened Cnfa
  import opened LazyDfa
  import opened Subres
  import opened Dissect
  import opened Refusals
  import opened Search

  /** A match with its groups, no match, or no answer in as many rounds. */
  datatype Answer = Matched(begin: nat, end: nat, caps: Caps) | NoneAtAll | StillGoing

  /** The pair (s, f) is tried before (begin, end). */
  predicate TriedBefore(s: nat, f: nat, begin: nat, end: nat, shorter: bool) {
    s < begin || (s == begin && Sooner(f, end, shorter))
  }

  /** The automaton accepts the characters s..f, and they cannot be divided. */
  ghost predicate Refused(x: Ctx, t: Subre, s: nat, f: nat) {
    InVain(x, t, s, f, map[])
  }

  /** Everything the automaton accepts from before begin has been refused. */
  ghost predicate AllRefused(x: Ctx, t: Subre, begin: nat) {
    forall s: nat, f: nat :: s < begin && Acc(x, t, s, f) ==> Refused(x, t, s, f)
  }

  /** And of what it accepts from begin, all that is tried before end. */
  ghost predicate RefusedUpto(x: Ctx, t: Subre, begin: nat, end: nat) {
    forall s: nat, f: nat :: Acc(x, t, s, f) && TriedBefore(s, f, begin, end, t.shorter) ==> Refused(x, t, s, f)
  }

  /** The automaton accepts the empty string at q, before the end of the text. */
  ghost predicate EmptyHere(x: Ctx, t: Subre, q: nat) {
    q < x.text.Stop() && Acc(x, t, q, q)
  }

  /** Some empty string is accepted, and it and all that comes before it is refused. */
  ghost predicate Stuck(x: Ctx, t: Subre, q: nat) {
    EmptyHere(x, t, q) && AllRefused(x, t, q + 1)
  }

  /** No empty string is accepted before q. */
  ghost predicate NoEmptyBefore(x: Ctx, t: Subre, q: nat) {
    forall p :: EmptyHere(x, t, p) ==> q <= p
  }

  lemma RefusedAll(x: Ctx, t: Subre, begin: nat)
    requires AllRefused(x, t, begin) && forall f: nat :: Acc(x, t, begin, f) ==> Refused(x, t, begin, f)
    ensures AllRefused(x, t, begin + 1)
  {
  }

  /** What is left to be tried from begin: ends up to stop, or from start on for SHORTER. */
  ghost predicate EndsRefused(x: Ctx, t: Subre, begin: nat, estart: nat, estop: nat) {
    forall f: nat :: Acc(x, t, begin, f) && (if t.shorter then f < estart else estop < f) ==> Refused(x, t, begin, f)
  }

  lemma EndRefused(x: Ctx, t: Subre, begin: nat, estart: nat, estop: nat, end: nat)
    requires EndsRefused(x, t, begin, estart, estop) && Refused(x, t, begin, end)
    requires if t.shorter then IsShortest(t.cnfa, x.text, begin, estart, estop, Some(end)) && estop == x.text.Stop()
             else IsLongest(t.cnfa, x.text, begin, estop, Some(end))
    ensures t.shorter || end >= 1 ==> EndsRefused(x, t, begin, if t.shorter then end + 1 else estart, if t.shorter then estop else end - 1)
    ensures (if t.shorter then end == estop else end == begin) ==> forall f: nat :: Acc(x, t, begin, f) ==> Refused(x, t, begin, f)
  {
    hide SimSet, InVain;
  }

  lemma NoMoreEnds(x: Ctx, t: Subre, begin: nat, estart: nat, estop: nat)
    requires EndsRefused(x, t, begin, estart, estop)
    requires if t.shorter then IsShortest(t.cnfa, x.text, begin, estart, estop, None) && estop == x.text.Stop()
             else IsLongest(t.cnfa, x.text, begin, estop, None)
    ensures forall f: nat :: Acc(x, t, begin, f) ==> Refused(x, t, begin, f)
  {
    hide SimSet, InVain;
  }

  lemma FirstEnd(x: Ctx, t: Subre, begin: nat, estart: nat, estop: nat, end: nat)
    requires EndsRefused(x, t, begin, estart, estop) && AllRefused(x, t, begin)
    requires if t.shorter then IsShortest(t.cnfa, x.text, begin, estart, estop, Some(end)) else IsLongest(t.cnfa, x.text, begin, estop, Some(end))
    ensures RefusedUpto(x, t, begin, end) && Acc(x, t, begin, end) && begin <= end <= x.text.Stop() && end <= estop && (t.shorter ==> estart <= end)
  {
    hide SimSet, InVain;
  }

  lemma StartEnds(x: Ctx, t: Subre, begin: nat)
    ensures EndsRefused(x, t, begin, begin, x.text.Stop())
  {
    forall f: nat | Acc(x, t, begin, f) ensures begin <= f <= x.text.Stop() {}
  }

  lemma LeftRefused(x: Ctx, t: Subre, s: nat, f: nat, c2: Caps)
    requires LeftBehind(x, t, s, f, map[], c2)
    ensures Refused(x, t, s, f)
  {
  }

  /** shortest() or longest() (regexec.c:491-495). */
  method TentativeEnd(d: Dfa, x: Ctx, t: Subre, begin: nat, estart: nat, estop: nat) returns (end: Option<nat>)
    requires d.Valid() && d.cnfa == t.cnfa && Usable(x, t) && begin <= estart <= estop <= x.text.Stop()
    modifies d
    ensures d.Valid()
    ensures if t.shorter then IsShortest(t.cnfa, x.text, begin, estart, estop, end) else IsLongest(t.cnfa, x.text, begin, estop, end)
  {
    hide IsShortest, IsLongest, Usable, NoReturn, Fits, WellFormed;
    UsableHere(x, t);
    NoReturnSteady(t.cnfa, x.text);
    var unused, hitend, err;
    if t.shorter {
      end, unused, hitend, err := d.Shortest(x.text, begin, estart, estop);
    } else {
      end, hitend, err := d.Longest(x.text, begin, estop);
    }
  }

  /** The innermost loop: the ends from begin (regexec.c:488-532). */
  method TryEnds(v: Vars, d: Dfa, t: Subre, begin: nat) returns (end: Option<nat>, ghost p: Parse)
    requires v.Kept() && d.Valid() && d !in v.dfas && d.cnfa == t.cnfa && Usable(v.x, t) && |v.x.chars| == v.x.text.Stop()
    requires begin <= v.x.text.Stop() && AllRefused(v.x, t, begin)
    modifies v`pmatch, v`subdfas, v`dfas, v.dfas, d
    ensures v.Kept() && d.Valid() && d !in v.dfas && d.cnfa == t.cnfa && fresh(v.dfas - old(v.dfas))
    ensures end.Some? ==> Dissected(v.x, t, p, begin, end.value, map[], v.pmatch) && RefusedUpto(v.x, t, begin, end.value) && Acc(v.x, t, begin, end.value)
    ensures end.None? ==> AllRefused(v.x, t, begin + 1)
  {
    hide Dissected, LeftBehind, Usable, SimSet, IsLongest, IsShortest, AllRefused, RefusedUpto, EndsRefused, Fits, NoReturn, WellFormed, Acc, Steady, Complete, RefersTo, Refused;
    var x := v.x;
    StartEnds(x, t, begin);
    var estart, estop := begin, x.text.Stop();
    p := Leaf;
    while true
      invariant v.x == x && v.Kept() && d.Valid() && d !in v.dfas && d.cnfa == t.cnfa && fresh(v.dfas - old(v.dfas))
      invariant begin <= estart <= estop <= x.text.Stop() && EndsRefused(x, t, begin, estart, estop)
      invariant if t.shorter then estop == x.text.Stop() else estart == begin
      decreases estop - estart
    {
      end := TentativeEnd(d, x, t, begin, estart, estop);
      if end.None? {
        NoMoreEnds(x, t, begin, estart, estop);
        RefusedAll(x, t, begin);
        return;
      }
      FirstEnd(x, t, begin, estart, estop, end.value);
      v.pmatch := map[];
      var er;
      er, p := v.CDissect(t, begin, end.value);
      if er == OKAY {
        return;
      }
      LeftRefused(x, t, begin, end.value, v.pmatch);
      EndRefused(x, t, begin, estart, estop, end.value);
      if if t.shorter then end.value == estop else end.value == begin {
        RefusedAll(x, t, begin);
        end := None;
        return;
      }
      if t.shorter { estart := end.value + 1; } else { estop := end.value - 1; }
    }
  }

  /** The loop over the starts of one round (regexec.c:486-533). */
  method TryBegins(v: Vars, d: Dfa, t: Subre, open: nat, close: nat) returns (r: Option<(nat, nat)>, ghost p: Parse)
    requires v.Kept() && d.Valid() && d !in v.dfas && d.cnfa == t.cnfa && Usable(v.x, t) && |v.x.chars| == v.x.text.Stop()
    requires close <= v.x.text.Stop() && AllRefused(v.x, t, open)
    modifies v`pmatch, v`subdfas, v`dfas, v.dfas, d
    ensures v.Kept() && d.Valid() && d !in v.dfas && d.cnfa == t.cnfa && fresh(v.dfas - old(v.dfas))
    ensures r.Some? ==> Dissected(v.x, t, p, r.value.0, r.value.1, map[], v.pmatch) && RefusedUpto(v.x, t, r.value.0, r.value.1) && Acc(v.x, t, r.value.0, r.value.1)
    ensures r.Some? ==> r.value.0 <= close
    ensures r.None? ==> open <= close ==> AllRefused(v.x, t, close + 1)
  {
    hide Dissected, Usable, AllRefused, RefusedUpto;
    r, p := None, Leaf;
    var begin := open;
    while begin <= close
      invariant v.Kept() && d.Valid() && d !in v.dfas && d.cnfa == t.cnfa && fresh(v.dfas - old(v.dfas))
      invariant open <= begin && AllRefused(v.x, t, begin) && (open <= close ==> begin <= close + 1)
      decreases close + 1 - begin
    {
      var end;
      end, p := TryEnds(v, d, t, begin);
      if end.Some? { return Some((begin, end.value)), p; }
      begin := begin + 1;
    }
  }

  /** What the search automaton was made of. */
  datatype Source = Source(b: set<Arc>, arcs: set<Arc>, keys: set<nat>, loops: set<nat>, cp: map<nat, nat>, rainbow: seq<nat>)

  /** cs is the search automaton that goes with c. */
  ghost predicate Fed(cs: Cnfa, c: Cnfa, v: Text, o: Source) {
    IsSearch(cs, o.b, o.arcs, o.keys, o.loops, o.cp, o.rainbow) && RealText(cs, v, o.rainbow) && Fits(cs, v) && SameMatches(c, cs, v, o.arcs)
  }

  lemma FedSteady(cs: Cnfa, c: Cnfa, v: Text, o: Source)
    requires Fed(cs, c, v, o)
    ensures Steady(cs, v) && Fits(cs, v)
  {
    SearchSteady(cs, v, o.b, o.arcs, o.keys, o.loops, o.cp, o.rainbow);
  }

  lemma NothingLater(x: Ctx, t: Subre, cs: Cnfa, o: Source, from: nat, cold: Option<nat>)
    requires Fed(cs, t.cnfa, x.text, o) && from <= x.text.Stop() && IsShortest(cs, x.text, from, from, x.text.Stop(), None)
    requires if cold.Some? then IsCold(cs, x.text, from, x.text.Stop(), cold.value) else SimSet(cs, x.text, from, x.text.Stop()) == {}
    requires AllRefused(x, t, from) && NoEmptyBefore(x, t, from)
    ensures AllRefused(x, t, x.text.Stop() + 1) && NoEmptyBefore(x, t, x.text.Stop())
  {
    NothingAtAll(cs, x.text, o.b, o.arcs, o.keys, o.loops, o.cp, o.rainbow, from, cold);
    hide Finds, IsSearch, RealText, IsShortest, IsCold, SimSet, InVain;
    forall s: nat, f: nat | from <= s ensures !Acc(x, t, s, f) { assert Acc(x, t, s, f) <==> Matches(t.cnfa, x.text, s, f); }
  }

  lemma NothingBetween(x: Ctx, t: Subre, cs: Cnfa, o: Source, from: nat, close: nat, open: nat)
    requires Fed(cs, t.cnfa, x.text, o) && from <= x.text.Stop() && IsShortest(cs, x.text, from, from, x.text.Stop(), Some(close))
    requires IsCold(cs, x.text, from, Pos(x.text, close + 1), open) && AllRefused(x, t, from) && NoEmptyBefore(x, t, from)
    ensures open <= close && from <= close <= x.text.Stop() && AllRefused(x, t, open) && NoEmptyBefore(x, t, close)
    ensures close == from ==> Acc(x, t, close, close)
  {
    hide IsSearch, RealText, IsCold, SimSet, InVain, IsShortest, Finds, Acc;
    NothingBeforeOpen(cs, x.text, o.b, o.arcs, o.keys, o.loops, o.cp, o.rainbow, from, close, open);
    FedFinds(x, t, cs, o);
    var s: nat :| from <= s && Finds(cs, x.text, o.arcs, s, close);
    AccWithin(x, t, s, close);
  }

  lemma AccWithin(x: Ctx, t: Subre, s: nat, f: nat)
    requires Acc(x, t, s, f)
    ensures s <= f <= x.text.Stop()
  {
  }

  lemma FedFinds(x: Ctx, t: Subre, cs: Cnfa, o: Source)
    requires Fed(cs, t.cnfa, x.text, o)
    ensures forall s: nat, f: nat :: Acc(x, t, s, f) <==> Finds(cs, x.text, o.arcs, s, f)
  {
    hide Finds, IsSearch, RealText, Fits, Matches;
    forall s: nat, f: nat ensures Acc(x, t, s, f) <==> Finds(cs, x.text, o.arcs, s, f) { assert Acc(x, t, s, f) <==> Matches(t.cnfa, x.text, s, f); }
  }

  lemma EmptyLater(x: Ctx, t: Subre, begin: nat, close: nat)
    requires NoEmptyBefore(x, t, close) && begin <= close
    ensures NoEmptyBefore(x, t, begin)
  {
  }

  /** What one round makes of the position it starts from. */
  datatype Round = Hit(begin: nat, end: nat) | Over | On(close: nat)

  /** One round (regexec.c:478-533): search from close, and try all starts up to the end of the match found. */
  method TryRound(v: Vars, d: Dfa, s: Dfa, t: Subre, close: nat, ghost o: Source) returns (r: Round, ghost p: Parse)
    requires v.Kept() && d.Valid() && d !in v.dfas && d.cnfa == t.cnfa && Usable(v.x, t) && |v.x.chars| == v.x.text.Stop()
    requires s.Valid() && s !in v.dfas && s != d && Fed(s.cnfa, t.cnfa, v.x.text, o) && WellFormed(t.cnfa)
    requires close <= v.x.text.Stop() && AllRefused(v.x, t, close) && NoEmptyBefore(v.x, t, close)
    modifies v`pmatch, v`subdfas, v`dfas, v.dfas, d, s
    ensures v.Kept() && d.Valid() && d !in v.dfas && d.cnfa == t.cnfa && fresh(v.dfas - old(v.dfas))
    ensures s.Valid() && s !in v.dfas
    ensures r.Hit? ==> Dissected(v.x, t, p, r.begin, r.end, map[], v.pmatch) && RefusedUpto(v.x, t, r.begin, r.end) && Acc(v.x, t, r.begin, r.end)
    ensures r.Hit? ==> NoEmptyBefore(v.x, t, r.begin)
    ensures r.Over? ==> AllRefused(v.x, t, v.x.text.Stop() + 1) && NoEmptyBefore(v.x, t, v.x.text.Stop())
    ensures r.On? ==> close <= r.close <= v.x.text.Stop() && AllRefused(v.x, t, r.close + 1) && NoEmptyBefore(v.x, t, r.close)
    ensures r.On? && r.close == close ==> Acc(v.x, t, close, close)
  {
    hide Dissected, Usable, AllRefused, RefusedUpto, NoEmptyBefore, Fed, WellFormed, NoReturn, Fits, SimSet, IsCold, IsShortest;
    var text := v.x.text;
    p := Leaf;
    FedSteady(s.cnfa, t.cnfa, text, o);
    var found, cold, hitstop, err := s.Shortest(text, close, close, text.Stop());
    if found.None? {
      NothingLater(v.x, t, s.cnfa, o, close, cold);
      return Over, p;
    }
    var open := cold.value;
    NothingBetween(v.x, t, s.cnfa, o, close, found.value, open);
    var hit;
    hit, p := TryBegins(v, d, t, open, found.value);
    if hit.Some? {
      EmptyLater(v.x, t, hit.value.0, found.value);
      return Hit(hit.value.0, hit.value.1), p;
    }
    r := On(found.value);
  }

  /** It goes on for ever: some empty string is accepted, and it and all that comes before it is refused. */
  ghost predicate Endless(x: Ctx, t: Subre) {
    exists q :: Stuck(x, t, q)
  }

  lemma RoundOn(x: Ctx, t: Subre, close: nat, close2: nat, i: nat)
    requires close <= close2 < x.text.Stop() && AllRefused(x, t, close2 + 1) && NoEmptyBefore(x, t, close2) && (close2 == close ==> Acc(x, t, close, close))
    requires Stuck(x, t, close) || i <= close
    ensures AllRefused(x, t, close2) && (Stuck(x, t, close2) || i + 1 <= close2)
  {
    hide Acc, InVain;
  }

  lemma LastRound(x: Ctx, t: Subre, close: nat)
    requires AllRefused(x, t, close + 1) && NoEmptyBefore(x, t, close) && x.text.Stop() <= close
    ensures AllRefused(x, t, x.text.Stop() + 1) && NoEmptyBefore(x, t, x.text.Stop())
  {
    hide InVain;
  }

  /** Where the automaton accepts no empty string short of the end, or nothing it accepts is refused, it ends. */
  lemma EndsAlways(x: Ctx, t: Subre)
    requires (forall q: nat :: !EmptyHere(x, t, q)) || Complete(x, t)
    ensures !Endless(x, t)
  {
    forall q: nat ensures !Stuck(x, t, q) {
      if EmptyHere(x, t, q) {
        NotInVain(x, t, q, q, map[]);
      }
    }
  }

  /** Where it goes on for ever nothing is ever found, nor given up. */
  lemma EndlessSaysNothing(x: Ctx, t: Subre, q: nat)
    requires Stuck(x, t, q)
    ensures !NoEmptyBefore(x, t, x.text.Stop())
    ensures forall p, s: nat, f: nat, c2 :: NoEmptyBefore(x, t, s) && Acc(x, t, s, f) ==> !Dissected(x, t, p, s, f, map[], c2)
  {
    hide Acc, InVain, LeftBehind, Ok, Real, Complete, Preferred, After;
    forall p, s: nat, f: nat, c2 | NoEmptyBefore(x, t, s) && Acc(x, t, s, f) ensures !Dissected(x, t, p, s, f, map[], c2) {
      if Dissected(x, t, p, s, f, map[], c2) {
        assert Subres.Found(x, t, s, f, map[]);
        FoundNone(x, t, s, f, map[]);
      }
    }
  }

  /** complicatedFindLoop(), regexec.c:459-538, for so many rounds. The match reported is the first that could be divided; no
      match is reported when none can be. It never comes to either exactly when some empty string is accepted where that and
      everything before is refused: then every round begins where the one before began. */
  method ComplicatedFindLoop(v: Vars, d: Dfa, s: Dfa, t: Subre, rounds: nat, ghost o: Source) returns (r: Answer, ghost p: Parse)
    requires v.Kept() && d.Valid() && d !in v.dfas && d.cnfa == t.cnfa && Usable(v.x, t) && |v.x.chars| == v.x.text.Stop()
    requires s.Valid() && s !in v.dfas && s != d && Fed(s.cnfa, t.cnfa, v.x.text, o) && WellFormed(t.cnfa)
    modifies v`pmatch, v`subdfas, v`dfas, v.dfas, d, s
    ensures r.Matched? ==> Dissected(v.x, t, p, r.begin, r.end, map[], r.caps) && Acc(v.x, t, r.begin, r.end) && RefusedUpto(v.x, t, r.begin, r.end)
    ensures r == NoneAtAll ==> AllRefused(v.x, t, v.x.text.Stop() + 1)
    ensures Endless(v.x, t) ==> r == StillGoing
    ensures !Endless(v.x, t) && rounds > v.x.text.Stop() ==> r != StillGoing
  {
    hide Dissected, Usable, AllRefused, RefusedUpto, NoEmptyBefore, Fed, WellFormed, Stuck;
    var x := v.x;
    r, p := StillGoing, Leaf;
    var close, i := 0, 0;
    StartRounds(x, t);
    while i < rounds
      invariant v.Kept() && d.Valid() && d !in v.dfas && d.cnfa == t.cnfa && fresh(v.dfas - old(v.dfas)) && s.Valid() && s !in v.dfas
      invariant close <= x.text.Stop() && AllRefused(x, t, close) && NoEmptyBefore(x, t, close) && (Stuck(x, t, close) || i <= close)
      invariant i <= rounds
    {
      var turn;
      turn, p := TryRound(v, d, s, t, close, o);
      match turn {
        case Hit(begin, end) =>
          forall q | Stuck(x, t, q) ensures false { EndlessSaysNothing(x, t, q); }
          return Matched(begin, end, v.pmatch), p;
        case Over =>
          forall q | Stuck(x, t, q) ensures false { EndlessSaysNothing(x, t, q); }
          return NoneAtAll, p;
        case On(close2) =>
          if close2 >= x.text.Stop() {
            LastRound(x, t, close2);
            forall q | Stuck(x, t, q) ensures false { EndlessSaysNothing(x, t, q); }
            return NoneAtAll, p;
          }
          RoundOn(x, t, close, close2, i);
          close := close2;
      }
      i := i + 1;
    }
  }

  lemma StartRounds(x: Ctx, t: Subre)
    ensures AllRefused(x, t, 0) && NoEmptyBefore(x, t, 0)
  {
  }

  /** complicatedFind(), regexec.c:418-451. */
  method ComplicatedFind(search: Cnfa, t: Subre, x: Ctx, small: bool, rounds: nat, ghost o: Source) returns (r: Answer, ghost p: Parse)
    requires Usable(x, t) && |x.chars| == x.text.Stop() && Fed(search, t.cnfa, x.text, o)
    ensures r.Matched? ==> Dissected(x, t, p, r.begin, r.end, map[], r.caps) && Acc(x, t, r.begin, r.end) && RefusedUpto(x, t, r.begin, r.end)
    ensures r == NoneAtAll ==> AllRefused(x, t, x.text.Stop() + 1)
    ensures Endless(x, t) ==> r == StillGoing
    ensures !Endless(x, t) && rounds > x.text.Stop() ==> r != StillGoing
  {
    hide Dissected, Usable, AllRefused, RefusedUpto, Fed, WellFormed, Stuck, Endless;
    UsableHere(x, t);
    FedForm(search, t.cnfa, x.text, o);
    var s := new Dfa(search, small);
    var d := new Dfa(t.cnfa, small);
    var v := new Vars(x, small);
    r, p := ComplicatedFindLoop(v, d, s, t, rounds, o);
  }

  lemma FedForm(cs: Cnfa, c: Cnfa, v: Text, o: Source)
    requires Fed(cs, c, v, o)
    ensures WellFormed(cs)
  {
  }
}
