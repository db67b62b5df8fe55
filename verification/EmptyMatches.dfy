/** What the flag REG_UEMPTYMATCH of analyze(), regc_nfa.c:2787-2793, tells about the texts, and what it misses. */
module EmptyMatches {
  import opened Nfa
  import opened Runs
  import opened Words
  import opened SubNfa
  import opened Cleanup
  import opened Cnfa
  import opened Compact

  // ---------------------------------------------------------------- texts

  /** All that the texts of an automaton depend on: the number of colours, the ends, the pseudocolours. */
  function World(ncolors: nat, pre: nat, post: nat, bos: (nat, nat), eos: (nat, nat)): Cnfa {
    Cnfa(ncolors, false, pre, post, bos, eos, [], [])
  }

  predicate RealColor(w: Cnfa, co: nat) {
    co < w.ncolors && co != w.bos.0 && co != w.bos.1 && co != w.eos.0 && co != w.eos.1
  }

  predicate RealOnly(w: Cnfa, v: Text) {
    forall i :: 0 <= i < |v.colors| ==> RealColor(w, v.colors[i])
  }

  /** The empty string is matched at position s. */
  ghost predicate EmptyThere(arcs: set<Arc>, w: Cnfa, v: Text, s: nat) {
    s <= v.Stop() && Accepts(arcs, EnvOf(w, v), s, s + 2)
  }

  ghost predicate EmptyAt(arcs: set<Arc>, w: Cnfa, v: Text) {
    exists s: nat :: EmptyThere(arcs, w, v, s)
  }

  /** The empty string can be matched in some text. */
  ghost predicate CanBeEmpty(arcs: set<Arc>, w: Cnfa) {
    exists v: Text :: RealOnly(w, v) && EmptyAt(arcs, w, v)
  }

  /** Every lookaround constraint fails everywhere. */
  ghost predicate Unaided(v: Text) {
    forall n: nat, p: nat :: !v.lacon(n, p)
  }

  /** The empty string can be matched in some text without the help of a lookaround constraint. */
  ghost predicate EmptyUnaided(arcs: set<Arc>, w: Cnfa) {
    exists v: Text :: RealOnly(w, v) && Unaided(v) && EmptyAt(arcs, w, v)
  }

  /** All lookaround constraints hold, or none does, when symbol k is next. */
  ghost predicate AllAt(v: Env, k: nat, hold: bool) {
    forall n: nat :: v.lacon(n, k) == hold
  }

  lemma LaconIs(w: Cnfa, v: Text, n: nat, k: nat)
    ensures EnvOf(w, v).lacon(n, k) == (k > 0 && v.lacon(n, Pos(v, k - 1)))
  {
  }

  lemma NoneAt(w: Cnfa, v: Text, k: nat)
    requires Unaided(v)
    ensures AllAt(EnvOf(w, v), k, false)
  {
    forall n: nat ensures !EnvOf(w, v).lacon(n, k) {
      LaconIs(w, v, n, k);
      if k > 0 { assert !v.lacon(n, Pos(v, k - 1)); }
    }
  }

  predicate Before(w: Cnfa, co: nat) { RealColor(w, co) || co == w.bos.0 || co == w.bos.1 }

  predicate After(w: Cnfa, co: nat) { RealColor(w, co) || co == w.eos.0 || co == w.eos.1 }

  /** A text with these two symbols in a row, before and after position s. */
  lemma TextWith(w: Cnfa, c1: nat, c2: nat, aided: bool) returns (v: Text, s: nat)
    requires Before(w, c1) && After(w, c2)
    ensures RealOnly(w, v) && s <= v.Stop() && forall n: nat, p: nat :: v.lacon(n, p) == aided
    ensures var e := EnvOf(w, v); e.sym(s) == c1 && e.sym(s + 1) == c2 && AllAt(e, s + 1, aided)
  {
    var front := if RealColor(w, c1) then [c1] else [];
    var back := if RealColor(w, c2) then [c2] else [];
    v := Text(front + back, c1 == w.bos.0, c2 == w.eos.0, (n: nat, p: nat) => aided);
    s := |front|;
  }

  // ---------------------------------------------------------------- which labels stand at the ends

  /** What the parser leaves: the labels of PLAIN arcs are real colours, the anchors have their numbers. */
  ghost predicate Parsed(arcs: set<Arc>, w: Cnfa) {
    && Ended(arcs, w.pre, w.post)
    && forall a :: a in arcs ==> (a.typ == PLAIN ==> RealColor(w, a.co)) && (a.typ == CARET || a.typ == DOLLAR ==> a.co <= 1)
  }

  lemma {:induction false} FirstTaken(arcs: set<Arc>, v: Env, p: nat, i: nat, q: nat, k: nat, n: nat) returns (a: Arc, j: nat)
    requires Run(arcs, v, p, i, q, k, n) && n > 0
    ensures a in arcs && a.from == p && Takes(v, a, i, j)
    decreases n
  {
    var b, h := LastOf(arcs, v, p, i, q, k, n);
    if n == 1 { a, j := b, k; } else { a, j := FirstTaken(arcs, v, p, i, b.from, h, n - 1); }
  }

  /** Symbols read at the two ends of a match are such as can stand there. */
  lemma EndsRead(arcs: set<Arc>, w: Cnfa, v: Env, i: nat, k: nat)
    requires Parsed(arcs, w) && v.pre == w.pre && v.post == w.post && v.bos == w.bos && v.eos == w.eos && Accepts(arcs, v, i, k)
    ensures Before(w, v.sym(i)) && k > 0 && After(w, v.sym(k - 1))
  {
    var n: nat :| Run(arcs, v, v.pre, i, v.post, k, n);
    var a, h := FirstTaken(arcs, v, v.pre, i, v.post, k, n);
    var b, j := LastOf(arcs, v, v.pre, i, v.post, k, n);
  }

  // ---------------------------------------------------------------- paths of the empty match

  ghost function Lookarounds(arcs: set<Arc>): set<Arc> { set a | a in arcs && a.typ == LACON }

  /** From an arc of pre over lookaround constraints alone to an arc into post. */
  ghost predicate Spans(arcs: set<Arc>, a: Arc, b: Arc, pre: nat, post: nat) {
    a in arcs && b in arcs && a.from == pre && b.to == post && Connected(Lookarounds(arcs), a.to, b.from)
  }

  ghost predicate EmptyPath(arcs: set<Arc>, pre: nat, post: nat) {
    exists a, b :: Spans(arcs, a, b, pre, post)
  }

  lemma {:induction false} LookaroundsRun(arcs: set<Arc>, v: Env, k: nat, l: nat, p: nat, q: nat, u: seq<Label>, n: nat)
    requires AllAt(v, l, true) && Reach(Lookarounds(arcs), p, q, u, n) && Goes(arcs, v, v.pre, k, p, l)
    ensures Goes(arcs, v, v.pre, k, q, l)
    decreases n
  {
    if n > 0 {
      var e, t := Unroll(Lookarounds(arcs), p, q, u, n);
      LookaroundsRun(arcs, v, k, l, p, e.from, t, n - 1);
      GoesOn(arcs, v, v.pre, k, e, l, l);
    }
  }

  /** Where the symbols are those of the two arcs and the constraints hold, the path is taken. */
  lemma SpanTaken(arcs: set<Arc>, v: Env, a: Arc, b: Arc, s: nat)
    requires Spans(arcs, a, b, v.pre, v.post) && a.typ == PLAIN && b.typ == PLAIN && v.sym(s) == a.co && v.sym(s + 1) == b.co
    requires a.to == b.from || AllAt(v, s + 1, true)
    ensures Accepts(arcs, v, s, s + 2)
  {
    GoesNowhere(arcs, v, v.pre, s);
    GoesOn(arcs, v, v.pre, s, a, s, s + 1);
    if a.to != b.from {
      var u :| Spells(Lookarounds(arcs), a.to, b.from, u);
      var n: nat :| Reach(Lookarounds(arcs), a.to, b.from, u, n);
      LookaroundsRun(arcs, v, s, s + 1, a.to, b.from, u, n);
    }
    GoesOn(arcs, v, v.pre, s, b, s + 1, s + 2);
  }

  lemma {:induction false} AfterFirst(arcs: set<Arc>, v: Env, post: nat, s: nat, q: nat, n: nat) returns (a: Arc)
    requires Final(arcs, v.pre, post) && Run(arcs, v, v.pre, s, q, s + 1, n)
    ensures a in arcs && a.from == v.pre && Connected(Lookarounds(arcs), a.to, q)
    ensures AllAt(v, s + 1, false) ==> a.to == q
    decreases n
  {
    var c, j := LastOf(arcs, v, v.pre, s, q, s + 1, n);
    if c.typ == LACON {
      a := AfterFirst(arcs, v, post, s, c.from, n - 1);
      ConnectedArc(Lookarounds(arcs), a.to, c);
    } else {
      NothingYet(arcs, v, s, c.from, n - 1);
      a := c;
      ConnectedSelf(Lookarounds(arcs), c.to);
    }
  }

  lemma EmptySpan(arcs: set<Arc>, v: Env, s: nat) returns (a: Arc, b: Arc)
    requires Final(arcs, v.pre, v.post) && Accepts(arcs, v, s, s + 2)
    ensures Spans(arcs, a, b, v.pre, v.post) && (AllAt(v, s + 1, false) ==> Follows(a, b, v.pre, v.post))
  {
    var n: nat :| Run(arcs, v, v.pre, s, v.post, s + 2, n);
    var j;
    b, j := LastOf(arcs, v, v.pre, s, v.post, s + 2, n);
    a := AfterFirst(arcs, v, v.post, s, b.from, n - 1);
  }

  // ---------------------------------------------------------------- what the flag tells

  /** now matches what the parsed automaton was does. */
  ghost predicate SameWorld(was: set<Arc>, now: set<Arc>, w: Cnfa) {
    && Parsed(was, w) && Final(now, w.pre, w.post)
    && forall v: Env, i: nat, k: nat :: v.pre == w.pre && v.post == w.post && v.bos == w.bos && v.eos == w.eos ==>
      (Accepts(was, v, i, k) <==> Accepts(now, v, i, k))
  }

  /** The labels at the two ends of such a path stand at the ends of a match of the parsed automaton. */
  lemma SpanEnds(was: set<Arc>, now: set<Arc>, w: Cnfa, a: Arc, b: Arc)
    requires SameWorld(was, now, w) && Spans(now, a, b, w.pre, w.post)
    ensures Before(w, a.co) && After(w, b.co)
  {
    var v := Env((k: nat) => if k == 0 then a.co else b.co, (n: nat, k: nat) => true, w.bos, w.eos, w.pre, w.post);
    SpanTaken(now, v, a, b, 0);
    EndsRead(was, w, v, 0, 2);
  }

  lemma SpanText(was: set<Arc>, now: set<Arc>, w: Cnfa, a: Arc, b: Arc) returns (v: Text)
    requires SameWorld(was, now, w) && Spans(now, a, b, w.pre, w.post)
    ensures RealOnly(w, v) && EmptyAt(was, w, v) && (a.to == b.from ==> Unaided(v))
  {
    var s;
    SpanEnds(was, now, w, a, b);
    v, s := TextWith(w, a.co, b.co, a.to != b.from);
    SpanTaken(now, EnvOf(w, v), a, b, s);
    assert EmptyThere(was, w, v, s);
  }

  /** REG_UEMPTYMATCH is set exactly when the parsed automaton has an empty match in some text where every lookaround
      constraint fails. */
  lemma EmptyMeans(was: set<Arc>, now: set<Arc>, w: Cnfa)
    requires SameWorld(was, now, w)
    ensures TwoArcs(now, w.pre, w.post) <==> EmptyUnaided(was, w)
  {
    if TwoArcs(now, w.pre, w.post) {
      var a, b :| a in now && b in now && Follows(a, b, w.pre, w.post);
      ConnectedSelf(Lookarounds(now), a.to);
      var v := SpanText(was, now, w, a, b);
    }
    if EmptyUnaided(was, w) {
      var v: Text :| RealOnly(w, v) && Unaided(v) && EmptyAt(was, w, v);
      var s: nat :| EmptyThere(was, w, v, s);
      NoneAt(w, v, s + 1);
      var a, b := EmptySpan(now, EnvOf(w, v), s);
    }
  }

  /** It has one in some text at all exactly when lookaround constraints lead from an arc of pre to an arc into post. */
  lemma EmptyExactly(was: set<Arc>, now: set<Arc>, w: Cnfa)
    requires SameWorld(was, now, w)
    ensures EmptyPath(now, w.pre, w.post) <==> CanBeEmpty(was, w)
  {
    if EmptyPath(now, w.pre, w.post) {
      var a, b :| Spans(now, a, b, w.pre, w.post);
      var v := SpanText(was, now, w, a, b);
    }
    if CanBeEmpty(was, w) {
      var v: Text :| RealOnly(w, v) && EmptyAt(was, w, v);
      var s: nat :| EmptyThere(was, w, v, s);
      var a, b := EmptySpan(now, EnvOf(w, v), s);
    }
  }

  /** The flag tells whether the empty string can be matched if and only if, should it be possible at all, it is possible
      without the help of a lookaround constraint. */
  lemma FlagExactly(was: set<Arc>, now: set<Arc>, w: Cnfa)
    requires SameWorld(was, now, w)
    ensures (TwoArcs(now, w.pre, w.post) <==> CanBeEmpty(was, w)) <==> (CanBeEmpty(was, w) ==> EmptyUnaided(was, w))
  {
    EmptyMeans(was, now, w);
    assert EmptyUnaided(was, w) ==> CanBeEmpty(was, w);
  }

  /** So without lookaround constraints (REG_ULOOKAHEAD not set) the flag tells whether the empty string can be matched. */
  lemma FlagRight(was: set<Arc>, now: set<Arc>, w: Cnfa)
    requires SameWorld(was, now, w) && Lookarounds(now) == {}
    ensures TwoArcs(now, w.pre, w.post) <==> CanBeEmpty(was, w)
  {
    EmptyExactly(was, now, w);
    if TwoArcs(now, w.pre, w.post) {
      var a, b :| a in now && b in now && Follows(a, b, w.pre, w.post);
      ConnectedSelf(Lookarounds(now), a.to);
      assert Spans(now, a, b, w.pre, w.post);
    }
    if EmptyPath(now, w.pre, w.post) {
      var a, b :| Spans(now, a, b, w.pre, w.post);
      NoPath(a.to, b.from);
      assert Follows(a, b, w.pre, w.post);
    }
  }

  lemma NoPath(p: nat, q: nat)
    requires Connected({}, p, q)
    ensures p == q
  {
    var u :| Spells({}, p, q, u);
    var n: nat :| Reach({}, p, q, u, n);
    if n > 0 { var e, t := Unroll({}, p, q, u, n); }
  }

  // ---------------------------------------------------------------- (?=b)

  /** b has colour 1, all other characters 0. */
  const Ahead: Cnfa := World(6, 1, 0, (2, 3), (4, 5))

  /** What newnfa() and parseqatom() make of (?=b): between pre and post only the two states of newnfa(), with lookaround
      constraint 1 between them (regc_nfa.c:72-83, regcomp.c:879-893). */
  ghost function AheadParsed(): set<Arc> {
    {Arc(PLAIN, 0, 1, 2), Arc(PLAIN, 1, 1, 2), Arc(CARET, 1, 1, 2), Arc(CARET, 0, 1, 2), Arc(LACON, 1, 2, 3),
     Arc(PLAIN, 0, 3, 0), Arc(PLAIN, 1, 3, 0), Arc(DOLLAR, 1, 3, 0), Arc(DOLLAR, 0, 3, 0)}
  }

  lemma AheadMatches(v: Text)
    requires RealOnly(Ahead, v) && v.colors != [] && v.colors[0] == 1 && v.lacon(1, 0)
    ensures EmptyThere(AheadParsed(), Ahead, v, 0)
  {
    var e, arcs := EnvOf(Ahead, v), AheadParsed();
    var a, b, c := Arc(CARET, if v.notBol then 0 else 1, 1, 2), Arc(LACON, 1, 2, 3), Arc(PLAIN, 1, 3, 0);
    GoesNowhere(arcs, e, 1, 0);
    GoesOn(arcs, e, 1, 0, a, 0, 1);
    LaconIs(Ahead, v, 1, 1);
    GoesOn(arcs, e, 1, 0, b, 1, 1);
    GoesOn(arcs, e, 1, 0, c, 1, 2);
  }

  lemma AheadUnaided(v: Text, s: nat)
    requires Unaided(v)
    ensures !EmptyThere(AheadParsed(), Ahead, v, s)
  {
    var e, arcs := EnvOf(Ahead, v), AheadParsed();
    if EmptyThere(arcs, Ahead, v, s) {
      var n: nat :| Run(arcs, e, 1, s, 0, s + 2, n);
      var a, j := LastOf(arcs, e, 1, s, 0, s + 2, n);
      var b, i := LastOf(arcs, e, 1, s, a.from, j, n - 1);
      NoneAt(Ahead, v, i);
    }
  }

  /** The regex (?=b) matches the empty string before every b, but only there: whatever optimize() makes of it,
      REG_UEMPTYMATCH is not set. */
  lemma LookaroundEmpty()
    ensures Parsed(AheadParsed(), Ahead) && CanBeEmpty(AheadParsed(), Ahead) && !EmptyUnaided(AheadParsed(), Ahead)
    ensures forall now :: SameWorld(AheadParsed(), now, Ahead) ==> EmptyPath(now, 1, 0) && !TwoArcs(now, 1, 0)
  {
    var v := Text([1], false, false, (n: nat, p: nat) => p == 0);
    AheadMatches(v);
    assert RealOnly(Ahead, v) && EmptyAt(AheadParsed(), Ahead, v);
    forall u: Text, s: nat | Unaided(u) ensures !EmptyThere(AheadParsed(), Ahead, u, s) { AheadUnaided(u, s); }
    hide SameWorld, CanBeEmpty, EmptyUnaided;
    assert CanBeEmpty(AheadParsed(), Ahead) && !EmptyUnaided(AheadParsed(), Ahead);
    forall now | SameWorld(AheadParsed(), now, Ahead) ensures EmptyPath(now, 1, 0) && !TwoArcs(now, 1, 0) {
      EmptyMeans(AheadParsed(), now, Ahead);
      EmptyExactly(AheadParsed(), now, Ahead);
    }
  }
}
