/** What a regex matches, groups and all, read off the regex alone; and that the tree which regcomp.c:650-1273 builds for it
    has exactly these matches. */
module Matching {
  import opened Options
  import opened Cnfa
  import opened Subres
  import opened Parsing
  import Dissect
  import StaleCaptures

  // ---------------------------------------------------------------- the meaning of a regex with captures

  /** The characters b..e match the regex and turn the captures c into c2. */
  ghost predicate BarsMatch(x: Ctx, m: Meaning, bs: Bars, b: nat, e: nat, c: Caps, c2: Caps)
    decreases bs, 0
  {
    SeqMatch(x, m, bs.branch, b, e, c, c2) || (bs.Or? && BarsMatch(x, m, bs.rest, b, e, c, c2))
  }

  ghost predicate SeqMatch(x: Ctx, m: Meaning, ps: Terms, b: nat, e: nat, c: Caps, c2: Caps)
    decreases ps, 0
  {
    if ps.End? then b == e <= m.stop && c2 == c
    else exists k: nat, c1 :: TermMatch(x, m, ps.head, b, k, c, c1) && SeqMatch(x, m, ps.tail, k, e, c1, c2)
  }

  /** A quantified atom matches its pieces one after the other, each as if its groups had not been set; a back reference
      refers to what its group has matched. */
  ghost predicate TermMatch(x: Ctx, m: Meaning, q: Term, b: nat, e: nat, c: Caps, c2: Caps)
    decreases q, 0
  {
    if q.Constraint? || Cancelled(q) then MeansTerm(m, q, b, e) && c2 == c
    else if q.atom.Ref? then MeansTerm(m, q, b, e) && c2 == c && Refers(x, q, b, e, c)
    else exists ends: seq<nat> :: Iterated(x, m, q, b, e, ends, c, c2)
  }

  ghost predicate Refers(x: Ctx, q: Term, b: nat, e: nat, c: Caps)
    requires q.Quantified? && q.atom.Ref?
  {
    b <= e <= |x.chars| && CapsOk(x, c) && RefersTo(x, c, q.atom.subno, q.min, q.max, b, e)
  }

  ghost predicate Iterated(x: Ctx, m: Meaning, q: Term, b: nat, e: nat, ends: seq<nat>, c: Caps, c2: Caps)
    requires q.Quantified?
    decreases q.atom, 3
  {
    && Endpoints(ends, b, e, q.min, q.max) && e <= m.stop
    && (forall i :: 0 <= i < |ends| - 1 ==> PieceMatches(x, m, q.atom, ends, i, c))
    && if |ends| == 1 then c2 == c
       else AtomMatch(x, m, q.atom, ends[|ends| - 2], ends[|ends| - 1], Zap(c, AtomGroups(q.atom)), c2)
  }

  ghost predicate PieceMatches(x: Ctx, m: Meaning, a: Atom, ends: seq<nat>, i: nat, c: Caps)
    requires i + 1 < |ends|
    decreases a, 2
  {
    AtomMatches(x, m, a, ends[i], ends[i + 1], Zap(c, AtomGroups(a)))
  }

  ghost predicate AtomMatches(x: Ctx, m: Meaning, a: Atom, b: nat, e: nat, c: Caps)
    decreases a, 1
  {
    exists c2 :: AtomMatch(x, m, a, b, e, c, c2)
  }

  ghost predicate AtomMatch(x: Ctx, m: Meaning, a: Atom, b: nat, e: nat, c: Caps, c2: Caps)
    decreases a, 0
  {
    match a
    case Simple(_) => MeansAtom(m, a, b, e) && c2 == c
    case Group(n, inner) => exists c1 :: BarsMatch(x, m, inner, b, e, c, c1) && c2 == SetCap(x, c1, n, b, e)
    case Bare(inner) => BarsMatch(x, m, inner, b, e, c, c2)
    case Ref(_) => false
  }

  // ---------------------------------------------------------------- matching and meaning

  lemma {:induction false} BarsMeans(x: Ctx, m: Meaning, bs: Bars, b: nat, e: nat, c: Caps, c2: Caps)
    requires BarsMatch(x, m, bs, b, e, c, c2)
    ensures Means(m, bs, b, e) && SameOutside(c, c2, Groups(bs))
    decreases bs, 1
  {
    if SeqMatch(x, m, bs.branch, b, e, c, c2) { SeqMeans(x, m, bs.branch, b, e, c, c2); } else { BarsMeans(x, m, bs.rest, b, e, c, c2); }
  }

  lemma {:induction false} SeqMeans(x: Ctx, m: Meaning, ps: Terms, b: nat, e: nat, c: Caps, c2: Caps)
    requires SeqMatch(x, m, ps, b, e, c, c2)
    ensures MeansSeq(m, ps, b, e) && SameOutside(c, c2, SeqGroups(ps))
    decreases ps, 1
  {
    if ps.Then? {
      var k: nat, c1 :| TermMatch(x, m, ps.head, b, k, c, c1) && SeqMatch(x, m, ps.tail, k, e, c1, c2);
      TermMeans(x, m, ps.head, b, k, c, c1);
      SeqMeans(x, m, ps.tail, k, e, c1, c2);
      SeqJoin(m, ps, b, k, e);
    }
  }

  lemma {:induction false} TermMeans(x: Ctx, m: Meaning, q: Term, b: nat, e: nat, c: Caps, c2: Caps)
    requires TermMatch(x, m, q, b, e, c, c2)
    ensures MeansTerm(m, q, b, e) && SameOutside(c, c2, TermGroups(q))
    decreases q, 1
  {
    if q.Quantified? && !Cancelled(q) && !q.atom.Ref? {
      var ends: seq<nat> :| Iterated(x, m, q, b, e, ends, c, c2);
      PiecesMean(x, m, q.atom, ends, c);
      PiecesTerm(m, q, ends, b, e);
      if |ends| > 1 { AtomMeansToo(x, m, q.atom, ends[|ends| - 2], ends[|ends| - 1], Zap(c, AtomGroups(q.atom)), c2); }
    }
  }

  lemma PiecesMean(x: Ctx, m: Meaning, a: Atom, ends: seq<nat>, c: Caps)
    requires forall i :: 0 <= i < |ends| - 1 ==> PieceMatches(x, m, a, ends, i, c)
    ensures forall i :: 0 <= i < |ends| - 1 ==> MeansAtom(m, a, ends[i], ends[i + 1])
    decreases a, 3
  {
    forall i | 0 <= i < |ends| - 1 ensures MeansAtom(m, a, ends[i], ends[i + 1]) {
      assert PieceMatches(x, m, a, ends, i, c);
      MatchesMean(x, m, a, ends[i], ends[i + 1], Zap(c, AtomGroups(a)));
    }
  }

  lemma MatchesMean(x: Ctx, m: Meaning, a: Atom, b: nat, e: nat, c: Caps)
    requires AtomMatches(x, m, a, b, e, c)
    ensures MeansAtom(m, a, b, e)
    decreases a, 2
  {
    var c2 :| AtomMatch(x, m, a, b, e, c, c2);
    AtomMeansToo(x, m, a, b, e, c, c2);
  }

  lemma PiecesTerm(m: Meaning, q: Term, ends: seq<nat>, b: nat, e: nat)
    requires q.Quantified? && Endpoints(ends, b, e, q.min, q.max) && e <= m.stop
    requires forall i :: 0 <= i < |ends| - 1 ==> MeansAtom(m, q.atom, ends[i], ends[i + 1])
    ensures MeansTerm(m, q, b, e)
  {
    PiecesOrdered(m, q.atom, ends, |ends| - 1);
  }

  lemma {:induction false} PiecesOrdered(m: Meaning, a: Atom, ends: seq<nat>, k: nat)
    requires k < |ends| && forall i :: 0 <= i < |ends| - 1 ==> MeansAtom(m, a, ends[i], ends[i + 1])
    ensures ends[0] <= ends[k]
    decreases k
  {
    if k > 0 {
      PiecesOrdered(m, a, ends, k - 1);
      assert MeansAtom(m, a, ends[k - 1], ends[k - 1 + 1]);
      if a.Group? || a.Bare? { BarsWithin(m, a.inner, ends[k - 1], ends[k]); }
    }
  }

  lemma {:induction false} AtomMeansToo(x: Ctx, m: Meaning, a: Atom, b: nat, e: nat, c: Caps, c2: Caps)
    requires AtomMatch(x, m, a, b, e, c, c2)
    ensures MeansAtom(m, a, b, e) && SameOutside(c, c2, AtomGroups(a))
    decreases a, 1
  {
    match a
    case Group(n, inner) =>
      var c1 :| BarsMatch(x, m, inner, b, e, c, c1) && c2 == SetCap(x, c1, n, b, e);
      BarsMeans(x, m, inner, b, e, c, c1);
    case Bare(inner) => BarsMeans(x, m, inner, b, e, c, c2);
    case _ =>
  }

  // ---------------------------------------------------------------- without back references

  /** Without back references what is meant is matched, from whatever captures. */
  lemma {:induction false} BarsFound(x: Ctx, m: Meaning, bs: Bars, b: nat, e: nat, c: Caps) returns (c2: Caps)
    requires !HasRef(bs) && Means(m, bs, b, e)
    ensures BarsMatch(x, m, bs, b, e, c, c2)
    decreases bs, 1
  {
    if MeansSeq(m, bs.branch, b, e) { c2 := SeqFound(x, m, bs.branch, b, e, c); } else { c2 := BarsFound(x, m, bs.rest, b, e, c); }
  }

  lemma {:induction false} SeqFound(x: Ctx, m: Meaning, ps: Terms, b: nat, e: nat, c: Caps) returns (c2: Caps)
    requires !SeqHasRef(ps) && MeansSeq(m, ps, b, e)
    ensures SeqMatch(x, m, ps, b, e, c, c2)
    decreases ps, 1
  {
    c2 := c;
    if ps.Then? {
      var k := SeqStep(m, ps, b, e);
      var c1 := TermFound(x, m, ps.head, b, k, c);
      c2 := SeqFound(x, m, ps.tail, k, e, c1);
    }
  }

  lemma {:induction false} TermFound(x: Ctx, m: Meaning, q: Term, b: nat, e: nat, c: Caps) returns (c2: Caps)
    requires !TermHasRef(q) && MeansTerm(m, q, b, e)
    ensures TermMatch(x, m, q, b, e, c, c2)
    decreases q, 1
  {
    c2 := c;
    if q.Quantified? && !Cancelled(q) {
      var ends: seq<nat> :| Endpoints(ends, b, e, q.min, q.max) && forall i :: 0 <= i < |ends| - 1 ==> MeansAtom(m, q.atom, ends[i], ends[i + 1]);
      c2 := PiecesFound(x, m, q, b, e, ends, c);
    }
  }

  lemma PiecesFound(x: Ctx, m: Meaning, q: Term, b: nat, e: nat, ends: seq<nat>, c: Caps) returns (c2: Caps)
    requires q.Quantified? && !AtomHasRef(q.atom) && Endpoints(ends, b, e, q.min, q.max) && e <= m.stop
    requires forall i :: 0 <= i < |ends| - 1 ==> MeansAtom(m, q.atom, ends[i], ends[i + 1])
    ensures Iterated(x, m, q, b, e, ends, c, c2)
    decreases q.atom, 3
  {
    var c0 := Zap(c, AtomGroups(q.atom));
    forall i | 0 <= i < |ends| - 1 ensures PieceMatches(x, m, q.atom, ends, i, c) {
      var c3 := AtomFound(x, m, q.atom, ends[i], ends[i + 1], c0);
    }
    c2 := c;
    if |ends| > 1 {
      assert MeansAtom(m, q.atom, ends[|ends| - 2], ends[|ends| - 2 + 1]);
      c2 := AtomFound(x, m, q.atom, ends[|ends| - 2], ends[|ends| - 1], c0);
    }
  }

  lemma {:induction false} AtomFound(x: Ctx, m: Meaning, a: Atom, b: nat, e: nat, c: Caps) returns (c2: Caps)
    requires !AtomHasRef(a) && MeansAtom(m, a, b, e)
    ensures AtomMatch(x, m, a, b, e, c, c2)
    decreases a, 1
  {
    c2 := c;
    match a
    case Group(n, inner) =>
      var c1 := BarsFound(x, m, inner, b, e, c);
      c2 := SetCap(x, c1, n, b, e);
    case Bare(inner) => c2 := BarsFound(x, m, inner, b, e, c);
    case _ =>
  }

  lemma NothingChanges(c: Caps, c2: Caps)
    requires SameOutside(c, c2, {})
    ensures c == c2
  {
  }

  /** Without groups and back references matching is meaning. */
  lemma PlainBars(x: Ctx, m: Meaning, bs: Bars, b: nat, e: nat, c: Caps, c2: Caps)
    requires !HasRef(bs) && Groups(bs) == {}
    ensures BarsMatch(x, m, bs, b, e, c, c2) <==> Means(m, bs, b, e) && c2 == c
  {
    if BarsMatch(x, m, bs, b, e, c, c2) {
      BarsMeans(x, m, bs, b, e, c, c2);
      NothingChanges(c, c2);
    }
    if Means(m, bs, b, e) {
      var c3 := BarsFound(x, m, bs, b, e, c);
      BarsMeans(x, m, bs, b, e, c, c3);
      NothingChanges(c, c3);
    }
  }

  lemma PlainTerm(x: Ctx, m: Meaning, q: Term, b: nat, e: nat, c: Caps, c2: Caps)
    requires !TermHasRef(q) && TermGroups(q) == {}
    ensures TermMatch(x, m, q, b, e, c, c2) <==> MeansTerm(m, q, b, e) && c2 == c
  {
    if TermMatch(x, m, q, b, e, c, c2) {
      TermMeans(x, m, q, b, e, c, c2);
      NothingChanges(c, c2);
    }
    if MeansTerm(m, q, b, e) {
      var c3 := TermFound(x, m, q, b, e, c);
      TermMeans(x, m, q, b, e, c, c3);
      NothingChanges(c, c3);
    }
  }

  // ---------------------------------------------------------------- the tree has the matches of the regex

  /** The tree matches b..e, with nothing left over from failed attempts, and turns the captures c into c2. */
  ghost predicate Yields(x: Ctx, t: Subre, b: nat, e: nat, c: Caps, c2: Caps) {
    Acc(x, t, b, e) && exists p :: YieldsBy(x, t, p, b, e, c, c2)
  }

  ghost predicate YieldsBy(x: Ctx, t: Subre, p: Parse, b: nat, e: nat, c: Caps, c2: Caps) {
    Ok(x, t, p, b, e, c) && Clean(x, t, p, b, e, c) && c2 == After(x, t, p, b, e, c)
  }

  /** No group of the part has been set. */
  ghost predicate Fresh(x: Ctx, c: Caps, groups: set<nat>) {
    CapsOk(x, c) && Clear(c, groups) && x.text.Stop() == |x.chars|
  }

  lemma {:induction false} AfterOk(x: Ctx, t: Subre, p: Parse, b: nat, e: nat, c: Caps)
    requires Ok(x, t, p, b, e, c)
    ensures CapsOk(x, After(x, t, p, b, e, c))
    decreases p
  {
    match (t, p)
    case (Concat(_, _, l, r), Cat(mid, lp, rp)) => AfterOk(x, r, rp, mid, e, After(x, l, lp, b, mid, c));
    case (Alt(_, _, _, _), Pick(i, junk, q)) => AfterOk(x, Nth(t, i).left, q, b, e, junk);
    case (Iter(_, _, l, _, _), Reps(ends, ps)) =>
      if |ps| > 0 { AfterOk(x, l, ps[|ps| - 1], ends[|ps| - 1], ends[|ps|], Zap(c, Subs(l))); }
    case (Capture(_, _, n, l), Cap(q)) => AfterOk(x, l, q, b, e, c);
    case _ =>
  }

  lemma YieldsOk(x: Ctx, t: Subre, b: nat, e: nat, c: Caps, c2: Caps)
    requires Yields(x, t, b, e, c, c2)
    ensures CapsOk(x, c2)
  {
    var p :| YieldsBy(x, t, p, b, e, c, c2);
    AfterOk(x, t, p, b, e, c);
  }

  /** A concatenation yields what its sides do in turn. */
  lemma CatYields(x: Ctx, t: Subre, b: nat, e: nat, c: Caps, c2: Caps)
    requires t.Concat? && CapsOk(x, c)
    ensures Yields(x, t, b, e, c, c2) <==> Acc(x, t, b, e) && e <= |x.chars| && b <= e && exists k: nat, c1 :: Parted(x, t, b, k, e, c, c1, c2)
  {
    hide Acc;
    if Yields(x, t, b, e, c, c2) {
      var p :| YieldsBy(x, t, p, b, e, c, c2);
      var c1 := After(x, t.left, p.lp, b, p.mid, c);
      assert YieldsBy(x, t.left, p.lp, b, p.mid, c, c1) && YieldsBy(x, t.right, p.rp, p.mid, e, c1, c2);
      assert Parted(x, t, b, p.mid, e, c, c1, c2);
    }
    if Acc(x, t, b, e) && e <= |x.chars| && b <= e && exists k: nat, c1 :: Parted(x, t, b, k, e, c, c1, c2) {
      var k: nat, c1 :| Parted(x, t, b, k, e, c, c1, c2);
      var lp :| YieldsBy(x, t.left, lp, b, k, c, c1);
      var rp :| YieldsBy(x, t.right, rp, k, e, c1, c2);
      assert YieldsBy(x, t, Cat(k, lp, rp), b, e, c, c2);
    }
  }

  ghost predicate Parted(x: Ctx, t: Subre, b: nat, k: nat, e: nat, c: Caps, c1: Caps, c2: Caps)
    requires t.Concat?
  {
    Yields(x, t.left, b, k, c, c1) && Yields(x, t.right, k, e, c1, c2)
  }

  lemma PlainYields(x: Ctx, t: Subre, b: nat, e: nat, c: Caps, c2: Caps)
    requires t.Plain? && CapsOk(x, c) && x.text.Stop() == |x.chars|
    ensures Yields(x, t, b, e, c, c2) <==> Acc(x, t, b, e) && c2 == c
  {
    if Acc(x, t, b, e) { assert YieldsBy(x, t, Leaf, b, e, c, c); }
  }

  /** Some characters match what came before, the rest match the terms. */
  ghost predicate Following(x: Ctx, m: Meaning, before: Terms, ps: Terms, b: nat, k: nat, e: nat, c: Caps, c2: Caps) {
    MeansSeq(m, before, b, k) && SeqMatch(x, m, ps, k, e, c, c2)
  }

  ghost predicate Follows(x: Ctx, m: Meaning, before: Terms, ps: Terms, b: nat, e: nat, c: Caps, c2: Caps) {
    exists k: nat :: Following(x, m, before, ps, b, k, e, c, c2)
  }

  lemma {:induction false} AppendMeans(m: Meaning, p: Terms, q: Terms, b: nat, k: nat, e: nat)
    requires MeansSeq(m, p, b, k) && MeansSeq(m, q, k, e)
    ensures MeansSeq(m, Append(p, q), b, e)
    decreases p
  {
    if p.Then? {
      var l := SeqStep(m, p, b, k);
      AppendMeans(m, p.tail, q, l, k, e);
      SeqJoin(m, Append(p, q), b, l, e);
    }
  }

  /** A term without groups and back references goes to what came before. */
  lemma FollowsOn(x: Ctx, m: Meaning, before: Terms, q: Term, rest: Terms, b: nat, e: nat, c: Caps, c2: Caps)
    requires !TermHasRef(q) && TermGroups(q) == {}
    ensures Follows(x, m, Snoc(before, q), rest, b, e, c, c2) <==> Follows(x, m, before, Then(q, rest), b, e, c, c2)
  {
    hide MeansSeq, MeansTerm, SeqMatch, TermMatch, Append;
    if k: nat :| Following(x, m, Snoc(before, q), rest, b, k, e, c, c2) {
      MeansAppend(m, before, Then(q, End), b, k);
      var l: nat :| MeansSeq(m, before, b, l) && MeansSeq(m, Then(q, End), l, k);
      AloneSeq(m, q, l, k);
      PlainTerm(x, m, q, l, k, c, c);
      MatchJoin(x, m, Then(q, rest), l, k, e, c, c, c2);
      assert Following(x, m, before, Then(q, rest), b, l, e, c, c2);
    }
    if l: nat :| Following(x, m, before, Then(q, rest), b, l, e, c, c2) {
      var k, c1 := MatchStep(x, m, Then(q, rest), l, e, c, c2);
      PlainTerm(x, m, q, l, k, c, c1);
      AloneSeq(m, q, l, k);
      AppendMeans(m, before, Then(q, End), b, l, k);
      assert Following(x, m, Snoc(before, q), rest, b, k, e, c, c2);
    }
  }

  lemma AloneSeq(m: Meaning, q: Term, b: nat, e: nat)
    ensures MeansSeq(m, Then(q, End), b, e) <==> MeansTerm(m, q, b, e)
  {
    AloneMeans(m, q, b, e);
    assert Means(m, Last(Then(q, End)), b, e) <==> MeansSeq(m, Then(q, End), b, e);
  }

  lemma MatchJoin(x: Ctx, m: Meaning, ps: Terms, b: nat, k: nat, e: nat, c: Caps, c1: Caps, c2: Caps)
    requires ps.Then? && TermMatch(x, m, ps.head, b, k, c, c1) && SeqMatch(x, m, ps.tail, k, e, c1, c2)
    ensures SeqMatch(x, m, ps, b, e, c, c2)
  {
  }

  lemma MatchStep(x: Ctx, m: Meaning, ps: Terms, b: nat, e: nat, c: Caps, c2: Caps) returns (k: nat, c1: Caps)
    requires ps.Then? && SeqMatch(x, m, ps, b, e, c, c2)
    ensures TermMatch(x, m, ps.head, b, k, c, c1) && SeqMatch(x, m, ps.tail, k, e, c1, c2)
  {
    assert SeqMatch(x, m, ps, b, e, c, c2);
    k, c1 :| TermMatch(x, m, ps.head, b, k, c, c1) && SeqMatch(x, m, ps.tail, k, e, c1, c2);
  }

  lemma FollowsNothing(x: Ctx, m: Meaning, ps: Terms, b: nat, e: nat, c: Caps, c2: Caps)
    ensures Follows(x, m, End, ps, b, e, c, c2) <==> SeqMatch(x, m, ps, b, e, c, c2)
  {
    if SeqMatch(x, m, ps, b, e, c, c2) {
      SeqMeans(x, m, ps, b, e, c, c2);
      SeqWithin(m, ps, b, e);
      assert Following(x, m, End, ps, b, b, e, c, c2);
    }
  }

  /** The tree of a regex has exactly the matches of the regex. */
  lemma {:induction false} TreeMatches(x: Ctx, m: Meaning, bs: Bars, t: Subre, b: nat, e: nat, c: Caps, c2: Caps)
    requires Finished(x, m, t, ParseBars(bs)) && Sane(bs, x.nmatch) && Fresh(x, c, Groups(bs))
    ensures Yields(x, t, b, e, c, c2) <==> BarsMatch(x, m, bs, b, e, c, c2)
    decreases bs, 4
  {
    if bs.Last? {
      assert ParseBars(bs) == Branch(End, NONE, bs.branch);
      BranchMatches(x, m, End, NONE, bs.branch, t, b, e, c, c2);
      FollowsNothing(x, m, bs.branch, b, e, c, c2);
    } else {
      FlagsTell(bs);
      if Messy(Chain(bs, bs, LONGER).flags) {
        ChainMatches(x, m, bs, bs, LONGER, t, b, e, c, c2);
        ChainYields(x, m, bs, t, b, e, c, c2);
      } else {
        PlainBars(x, m, bs, b, e, c, c2);
        PlainYields(x, t, b, e, c, c2);
      }
    }
  }

  /** One of the alternatives yields this. */
  ghost predicate Chosen(x: Ctx, t: Subre, i: nat, b: nat, e: nat, c: Caps, c2: Caps) {
    i < Branches(t) && Yields(x, Nth(t, i).left, b, e, c, c2)
  }

  lemma AltYields(x: Ctx, t: Subre, b: nat, e: nat, c: Caps, c2: Caps)
    requires t.Alt? && CapsOk(x, c) && x.text.Stop() == |x.chars|
    ensures Yields(x, t, b, e, c, c2) <==> Acc(x, t, b, e) && exists i: nat :: Chosen(x, t, i, b, e, c, c2)
  {
    hide YieldsBy, Acc;
    if Yields(x, t, b, e, c, c2) {
      var p :| YieldsBy(x, t, p, b, e, c, c2);
      PickYields(x, t, p, b, e, c, c2);
      assert Chosen(x, t, p.i, b, e, c, c2);
    }
    if Acc(x, t, b, e) && exists i: nat :: Chosen(x, t, i, b, e, c, c2) {
      var i: nat :| Chosen(x, t, i, b, e, c, c2);
      var q :| YieldsBy(x, Nth(t, i).left, q, b, e, c, c2);
      AccSpan(x, t, b, e);
      YieldsPick(x, t, i, q, b, e, c, c2);
    }
  }

  lemma PickYields(x: Ctx, t: Subre, p: Parse, b: nat, e: nat, c: Caps, c2: Caps)
    requires t.Alt? && YieldsBy(x, t, p, b, e, c, c2)
    ensures p.Pick? && p.i < Branches(t) && Acc(x, Nth(t, p.i).left, b, e) && YieldsBy(x, Nth(t, p.i).left, p.p, b, e, c, c2)
  {
    hide Acc, Nth, Branches;
  }

  lemma YieldsPick(x: Ctx, t: Subre, i: nat, q: Parse, b: nat, e: nat, c: Caps, c2: Caps)
    requires t.Alt? && i < Branches(t) && Acc(x, Nth(t, i).left, b, e) && YieldsBy(x, Nth(t, i).left, q, b, e, c, c2) && CapsOk(x, c)
    requires b <= e <= |x.chars|
    ensures YieldsBy(x, t, Pick(i, c, q), b, e, c, c2)
  {
    hide Acc, Nth, Branches, Earlier;
  }

  lemma {:induction false} ChainMatches(x: Ctx, m: Meaning, all: Bars, bs: Bars, seen: Flags, t: Subre, b: nat, e: nat, c: Caps, c2: Caps)
    requires Finished(x, m, t, Chain(all, bs, seen)) && Sane(bs, x.nmatch) && Fresh(x, c, Groups(bs))
    ensures t.Alt? && ((exists i: nat :: Chosen(x, t, i, b, e, c, c2)) <==> BarsMatch(x, m, bs, b, e, c, c2))
    decreases bs, 3
  {
    hide Matches, WellFormed, NoReturn, Fits, Means, SeqMatch, Yields;
    BranchMatches(x, m, End, NONE, bs.branch, t.left, b, e, c, c2);
    FollowsNothing(x, m, bs.branch, b, e, c, c2);
    assert Nth(t, 0) == t;
    assert Chosen(x, t, 0, b, e, c, c2) <==> SeqMatch(x, m, bs.branch, b, e, c, c2);
    if bs.Or? {
      var u := t.next.value;
      ChainMatches(x, m, all, bs.rest, Both(seen, FromBranch(ParseBranch(bs.branch))), u, b, e, c, c2);
      if i: nat :| Chosen(x, u, i, b, e, c, c2) { assert Chosen(x, t, i + 1, b, e, c, c2); }
      if i: nat :| Chosen(x, t, i, b, e, c, c2) {
        if i > 0 { assert Chosen(x, u, i - 1, b, e, c, c2); }
      }
    } else {
      assert Branches(t) == 1;
    }
  }

  lemma ChainYields(x: Ctx, m: Meaning, bs: Bars, t: Subre, b: nat, e: nat, c: Caps, c2: Caps)
    requires t.Alt? && CapsOk(x, c) && x.text.Stop() == |x.chars| && (Acc(x, t, b, e) <==> Means(m, bs, b, e))
    requires (exists i: nat :: Chosen(x, t, i, b, e, c, c2)) <==> BarsMatch(x, m, bs, b, e, c, c2)
    ensures Yields(x, t, b, e, c, c2) <==> BarsMatch(x, m, bs, b, e, c, c2)
  {
    AltYields(x, t, b, e, c, c2);
    if BarsMatch(x, m, bs, b, e, c, c2) { BarsMeans(x, m, bs, b, e, c, c2); }
  }

  lemma {:induction false} BranchMatches(x: Ctx, m: Meaning, before: Terms, f: Flags, ps: Terms, t: Subre, b: nat, e: nat, c: Caps, c2: Caps)
    requires Finished(x, m, t, Branch(before, f, ps)) && SaneSeq(ps, x.nmatch) && Fresh(x, c, SeqGroups(ps))
    ensures Yields(x, t, b, e, c, c2) <==> Follows(x, m, before, ps, b, e, c, c2)
    decreases ps, 3
  {
    hide WellFormed, NoReturn, Fits, Ok, Clean, After;
    if ps.End? {
      PlainYields(x, t, b, e, c, c2);
      EndFollows(x, m, before, b, e, c, c2);
    } else {
      var q, rest := ps.head, ps.tail;
      if Absorbed(f, q) {
        AbsorbedPlain(f, q);
        BranchMatches(x, m, Snoc(before, q), Taking(f, q), rest, t, b, e, c, c2);
        FollowsOn(x, m, before, q, rest, b, e, c, c2);
      } else {
        SplitMatches(x, m, before, f, ps, t, b, e, c, c2);
      }
    }
  }

  lemma EndFollows(x: Ctx, m: Meaning, before: Terms, b: nat, e: nat, c: Caps, c2: Caps)
    ensures Follows(x, m, before, End, b, e, c, c2) <==> Means(m, Last(before), b, e) && c2 == c
  {
    assert Means(m, Last(before), b, e) <==> MeansSeq(m, before, b, e);
    if MeansSeq(m, before, b, e) && c2 == c {
      SeqWithin(m, before, b, e);
      assert Following(x, m, before, End, b, e, e, c, c2);
    }
  }

  lemma SplitMatches(x: Ctx, m: Meaning, before: Terms, f: Flags, ps: Terms, t: Subre, b: nat, e: nat, c: Caps, c2: Caps)
    requires ps.Then? && ps.head.Quantified? && !Cancelled(ps.head) && SaneSeq(ps, x.nmatch) && Fresh(x, c, SeqGroups(ps))
    requires Finished(x, m, t, Split(before, f, ps, AtomNode(ps.head.atom), ParseBranch(ps.tail)))
    ensures Yields(x, t, b, e, c, c2) <==> Follows(x, m, before, ps, b, e, c, c2)
    decreases ps, 2
  {
    hide Finished, Split, Body, ParseBranch, WellFormed, NoReturn, Fits, Ok, Clean, After, Acc, SaneSeq, Fresh, Parted, Yields, SeqMatch, MeansSeq, Combine;
    SplitShape(x, m, before, f, ps, t);
    FreshOk(x, c, SeqGroups(ps));
    var w := Combine(Wish(ps.head.prefer), AtomNode(ps.head.atom).flags);
    if Yields(x, t, b, e, c, c2) {
      CatYields(x, t, b, e, c, c2);
      var k: nat, c1 :| Parted(x, t, b, k, e, c, c1, c2);
      PartedIs(x, t, b, k, e, c, c1, c2);
      SplitAccepts(x, m, before, f, ps, t, b, k, e);
      PlainYields(x, t.left, b, k, c, c1);
      RestMatches(x, m, w, ps, t.right, k, e, c, c2);
      assert Following(x, m, before, ps, b, k, e, c, c2);
    }
    if Follows(x, m, before, ps, b, e, c, c2) {
      var k: nat :| Following(x, m, before, ps, b, k, e, c, c2);
      SplitAccepts(x, m, before, f, ps, t, b, k, e);
      PlainYields(x, t.left, b, k, c, c);
      RestMatches(x, m, w, ps, t.right, k, e, c, c2);
      SeqMeans(x, m, ps, k, e, c, c2);
      AppendMeans(m, before, ps, b, k, e);
      PartedIs(x, t, b, k, e, c, c, c2);
      AccSpan(x, t, b, e);
      CatYields(x, t, b, e, c, c2);
    }
  }

  lemma PartedIs(x: Ctx, t: Subre, b: nat, k: nat, e: nat, c: Caps, c1: Caps, c2: Caps)
    requires t.Concat?
    ensures Parted(x, t, b, k, e, c, c1, c2) <==> Yields(x, t.left, b, k, c, c1) && Yields(x, t.right, k, e, c1, c2)
  {
  }

  lemma FreshOk(x: Ctx, c: Caps, groups: set<nat>)
    requires Fresh(x, c, groups)
    ensures CapsOk(x, c) && x.text.Stop() == |x.chars|
  {
  }

  /** The nodes split off. */
  lemma SplitShape(x: Ctx, m: Meaning, before: Terms, f: Flags, ps: Terms, t: Subre)
    requires ps.Then? && ps.head.Quantified? && Finished(x, m, t, Split(before, f, ps, AtomNode(ps.head.atom), ParseBranch(ps.tail)))
    ensures t.Concat? && t.left.Plain? && t.right.Concat?
    ensures Finished(x, m, t.right.left, Body(ps.head, AtomNode(ps.head.atom), Combine(Wish(ps.head.prefer), AtomNode(ps.head.atom).flags)))
    ensures Finished(x, m, t.right.right, ParseBranch(ps.tail))
  {
    hide Body, ParseBranch, WellFormed, NoReturn, Fits, Acc, Means;
  }

  /** What they accept. */
  lemma SplitAccepts(x: Ctx, m: Meaning, before: Terms, f: Flags, ps: Terms, t: Subre, b: nat, k: nat, e: nat)
    requires ps.Then? && ps.head.Quantified? && Finished(x, m, t, Split(before, f, ps, AtomNode(ps.head.atom), ParseBranch(ps.tail)))
    ensures t.Concat? && (Acc(x, t, b, e) <==> MeansSeq(m, Append(before, ps), b, e)) && (Acc(x, t.left, b, k) <==> MeansSeq(m, before, b, k))
    ensures (Acc(x, t.right, k, e) <==> Means(m, Last(ps), k, e)) && (Acc(x, t.right, k, e) ==> k <= e <= x.text.Stop())
  {
    hide Body, ParseBranch, WellFormed, NoReturn, Fits, SimSet, MeansSeq;
    assert Means(m, Last(Append(before, ps)), b, e) <==> MeansSeq(m, Append(before, ps), b, e);
    assert Means(m, Last(before), b, k) <==> MeansSeq(m, before, b, k);
  }

  lemma RestMatches(x: Ctx, m: Meaning, w: Flags, ps: Terms, u: Subre, b: nat, e: nat, c: Caps, c2: Caps)
    requires ps.Then? && ps.head.Quantified? && !Cancelled(ps.head) && SaneSeq(ps, x.nmatch) && Fresh(x, c, SeqGroups(ps)) && u.Concat?
    requires Finished(x, m, u.left, Body(ps.head, AtomNode(ps.head.atom), w)) && Finished(x, m, u.right, ParseBranch(ps.tail))
    requires (Acc(x, u, b, e) <==> Means(m, Last(ps), b, e)) && (Acc(x, u, b, e) ==> b <= e <= x.text.Stop())
    ensures Yields(x, u, b, e, c, c2) <==> SeqMatch(x, m, ps, b, e, c, c2)
    decreases ps, 1
  {
    hide Finished, Body, ParseBranch, WellFormed, NoReturn, Fits, Ok, Clean, After;
    var q, rest := ps.head, ps.tail;
    if Yields(x, u, b, e, c, c2) {
      CatYields(x, u, b, e, c, c2);
      var k: nat, c1 :| Parted(x, u, b, k, e, c, c1, c2);
      BodyMatches(x, m, q, w, u.left, b, k, c, c1);
      TailMatches(x, m, q, rest, u, b, k, e, c, c1, c2);
      assert SeqMatch(x, m, ps, b, e, c, c2);
    }
    if SeqMatch(x, m, ps, b, e, c, c2) {
      SeqMeans(x, m, ps, b, e, c, c2);
      assert Means(m, Last(ps), b, e);
      var k, c1 := MatchStep(x, m, ps, b, e, c, c2);
      BodyMatches(x, m, q, w, u.left, b, k, c, c1);
      TailMatches(x, m, q, rest, u, b, k, e, c, c1, c2);
      assert Parted(x, u, b, k, e, c, c1, c2);
      CatYields(x, u, b, e, c, c2);
    }
  }

  lemma TailMatches(x: Ctx, m: Meaning, q: Term, rest: Terms, u: Subre, b: nat, k: nat, e: nat, c: Caps, c1: Caps, c2: Caps)
    requires u.Concat? && Finished(x, m, u.right, ParseBranch(rest)) && SaneSeq(Then(q, rest), x.nmatch) && Fresh(x, c, SeqGroups(Then(q, rest)))
    requires Yields(x, u.left, b, k, c, c1) && TermMatch(x, m, q, b, k, c, c1)
    ensures Yields(x, u.right, k, e, c1, c2) <==> SeqMatch(x, m, rest, k, e, c1, c2)
    decreases rest, 4
  {
    YieldsOk(x, u.left, b, k, c, c1);
    TermMeans(x, m, q, b, k, c, c1);
    assert Fresh(x, c1, SeqGroups(rest));
    assert ParseBranch(rest) == Branch(End, NONE, rest);
    BranchMatches(x, m, End, NONE, rest, u.right, k, e, c1, c2);
    FollowsNothing(x, m, rest, k, e, c1, c2);
  }

  /** The node of a quantified atom. */
  lemma BodyMatches(x: Ctx, m: Meaning, q: Term, w: Flags, t: Subre, b: nat, e: nat, c: Caps, c2: Caps)
    requires q.Quantified? && !Cancelled(q) && SaneTerm(q, x.nmatch) && Fresh(x, c, TermGroups(q))
    requires Finished(x, m, t, Body(q, AtomNode(q.atom), w))
    ensures Yields(x, t, b, e, c, c2) <==> TermMatch(x, m, q, b, e, c, c2)
    decreases q, 3
  {
    AtomFlagsTell(q.atom);
    FreshZap(x, c, AtomGroups(q.atom));
    if q.atom.Ref? {
      RefMatches(x, m, q, w, t, b, e, c, c2);
    } else if q.min == 1 && q.max == 1 {
      AtomMatches1(x, m, q.atom, t, b, e, c, c2);
      OnceMatches(x, m, q, b, e, c, c2);
    } else if q.min > 0 && !AtomNode(q.atom).flags.backr {
      PrefixMatches(x, m, q, w, t, b, e, c, c2);
    } else {
      IterMatches(x, m, q, w, t, b, e, c, c2);
    }
  }

  lemma FreshZap(x: Ctx, c: Caps, groups: set<nat>)
    requires Fresh(x, c, groups)
    ensures Zap(c, groups) == c
  {
  }

  lemma RefMatches(x: Ctx, m: Meaning, q: Term, w: Flags, t: Subre, b: nat, e: nat, c: Caps, c2: Caps)
    requires q.Quantified? && q.atom.Ref? && !Cancelled(q) && Fresh(x, c, TermGroups(q)) && Finished(x, m, t, Body(q, AtomNode(q.atom), w))
    ensures Yields(x, t, b, e, c, c2) <==> TermMatch(x, m, q, b, e, c, c2)
  {
    AloneMeans(m, q, b, e);
    hide Matches, MeansTerm, RefersTo;
    if TermMatch(x, m, q, b, e, c, c2) { assert YieldsBy(x, t, Leaf, b, e, c, c); }
  }

  lemma TermPieces(x: Ctx, m: Meaning, q: Term, b: nat, e: nat, c: Caps, c2: Caps) returns (ends: seq<nat>)
    requires q.Quantified? && !Cancelled(q) && !q.atom.Ref? && TermMatch(x, m, q, b, e, c, c2)
    ensures Iterated(x, m, q, b, e, ends, c, c2)
  {
    ends :| Iterated(x, m, q, b, e, ends, c, c2);
  }

  lemma OnceMatches(x: Ctx, m: Meaning, q: Term, b: nat, e: nat, c: Caps, c2: Caps)
    requires q.Quantified? && q.min == q.max == 1 && !q.atom.Ref? && Zap(c, AtomGroups(q.atom)) == c
    ensures TermMatch(x, m, q, b, e, c, c2) <==> AtomMatch(x, m, q.atom, b, e, c, c2)
  {
    if TermMatch(x, m, q, b, e, c, c2) {
      var ends := TermPieces(x, m, q, b, e, c, c2);
      assert ends[0] == b && ends[1] == e;
    }
    if AtomMatch(x, m, q.atom, b, e, c, c2) {
      AtomMeansToo(x, m, q.atom, b, e, c, c2);
      OnceMeans(m, q, b, e);
      var ends := [b, e];
      assert PieceMatches(x, m, q.atom, ends, 0, c);
      assert Iterated(x, m, q, b, e, ends, c, c2);
    }
  }

  lemma {:induction false} AtomMatches1(x: Ctx, m: Meaning, a: Atom, t: Subre, b: nat, e: nat, c: Caps, c2: Caps)
    requires Finished(x, m, t, AtomNode(a)) && SaneAtom(a, x.nmatch) && Fresh(x, c, AtomGroups(a)) && !a.Ref?
    ensures Yields(x, t, b, e, c, c2) <==> AtomMatch(x, m, a, b, e, c, c2)
    decreases a, 5
  {
    AtomMeans(m, a, b, e);
    match a
    case Simple(_) => PlainYields(x, t, b, e, c, c2);
    case Bare(inner) => TreeMatches(x, m, inner, t, b, e, c, c2);
    case Group(n, inner) =>
      ParseSpan(inner);
      GroupMatches(x, m, n, inner, t, b, e, c, c2);
  }

  lemma GroupMatches(x: Ctx, m: Meaning, n: nat, inner: Bars, t: Subre, b: nat, e: nat, c: Caps, c2: Caps)
    requires t.Capture? && t.subno == n && Finished(x, m, t.left, ParseBars(inner)) && Sane(inner, x.nmatch) && Fresh(x, c, Groups(inner))
    requires (Acc(x, t, b, e) <==> Means(m, inner, b, e)) && (Acc(x, t, b, e) <==> Acc(x, t.left, b, e)) && (Acc(x, t, b, e) ==> b <= e <= x.text.Stop())
    ensures Yields(x, t, b, e, c, c2) <==> AtomMatch(x, m, Group(n, inner), b, e, c, c2)
    decreases inner, 5
  {
    hide Matches, WellFormed, NoReturn, Fits, Finished, Means, ParseBars;
    if Yields(x, t, b, e, c, c2) {
      var p :| YieldsBy(x, t, p, b, e, c, c2);
      var c1 := After(x, t.left, p.p, b, e, c);
      assert YieldsBy(x, t.left, p.p, b, e, c, c1);
      TreeMatches(x, m, inner, t.left, b, e, c, c1);
    }
    if AtomMatch(x, m, Group(n, inner), b, e, c, c2) {
      var c1 :| BarsMatch(x, m, inner, b, e, c, c1) && c2 == SetCap(x, c1, n, b, e);
      TreeMatches(x, m, inner, t.left, b, e, c, c1);
      var q :| YieldsBy(x, t.left, q, b, e, c, c1);
      assert YieldsBy(x, t, Cap(q), b, e, c, c2);
    }
  }

  /** x{m,n} is x{m-1,n-1}x, of which the second x sets the groups. */
  lemma PrefixMatches(x: Ctx, m: Meaning, q: Term, w: Flags, t: Subre, b: nat, e: nat, c: Caps, c2: Caps)
    requires q.Quantified? && !Cancelled(q) && SaneTerm(q, x.nmatch) && Fresh(x, c, TermGroups(q)) && Finished(x, m, t, Body(q, AtomNode(q.atom), w))
    requires q.min > 0 && !q.atom.Ref? && !(q.min == 1 && q.max == 1) && !AtomNode(q.atom).flags.backr && !AtomHasRef(q.atom)
    ensures Yields(x, t, b, e, c, c2) <==> TermMatch(x, m, q, b, e, c, c2)
    decreases q, 2
  {
    var a := q.atom;
    FreshZap(x, c, AtomGroups(a));
    PrefixParts(x, m, q, w, t);
    hide Matches, WellFormed, NoReturn, Fits, Finished, Body, AtomNode, Parted, Yields, Means, MeansTerm, MeansAtom, AtomMatch, Ok, Clean, After, Acc;
    if Yields(x, t, b, e, c, c2) {
      CatYields(x, t, b, e, c, c2);
      var k: nat, c1 :| Parted(x, t, b, k, e, c, c1, c2);
      PartedIs(x, t, b, k, e, c, c1, c2);
      PlainYields(x, t.left, b, k, c, c1);
      AloneMeans(m, OneLess(q), b, k);
      AtomMatches1(x, m, a, t.right, k, e, c, c2);
      LastOn(x, m, q, b, k, e, c, c2);
    }
    if TermMatch(x, m, q, b, e, c, c2) {
      var k := LastFrom(x, m, q, b, e, c, c2);
      AloneMeans(m, OneLess(q), b, k);
      PlainYields(x, t.left, b, k, c, c);
      AtomMatches1(x, m, a, t.right, k, e, c, c2);
      TermMeans(x, m, q, b, e, c, c2);
      AloneMeans(m, q, b, e);
      PartedIs(x, t, b, k, e, c, c, c2);
      AccSpan(x, t, b, e);
      CatYields(x, t, b, e, c, c2);
    }
  }

  lemma PrefixParts(x: Ctx, m: Meaning, q: Term, w: Flags, t: Subre)
    requires q.Quantified? && Finished(x, m, t, Body(q, AtomNode(q.atom), w))
    requires q.min > 0 && !q.atom.Ref? && !(q.min == 1 && q.max == 1) && !AtomNode(q.atom).flags.backr
    ensures t.Concat? && t.left.Plain? && Finished(x, m, t.right, AtomNode(q.atom))
    ensures forall b: nat, e: nat :: (Acc(x, t, b, e) <==> Means(m, Alone(q), b, e)) && (Acc(x, t.left, b, e) <==> Means(m, Alone(OneLess(q)), b, e))
  {
    hide Means, Matches, WellFormed, NoReturn, Fits;
  }

  lemma AccSpan(x: Ctx, t: Subre, b: nat, e: nat)
    requires Acc(x, t, b, e)
    ensures b <= e <= x.text.Stop()
  {
  }

  lemma LastOn(x: Ctx, m: Meaning, q: Term, b: nat, k: nat, e: nat, c: Caps, c2: Caps)
    requires q.Quantified? && !Cancelled(q) && q.min > 0 && !q.atom.Ref? && !AtomHasRef(q.atom) && q.min <= q.max <= DUPINF && Zap(c, AtomGroups(q.atom)) == c
    requires MeansTerm(m, OneLess(q), b, k) && AtomMatch(x, m, q.atom, k, e, c, c2)
    ensures TermMatch(x, m, q, b, e, c, c2)
  {
    var p, a := OneLess(q), q.atom;
    var front: seq<nat> :| Endpoints(front, b, k, p.min, p.max) && forall i :: 0 <= i < |front| - 1 ==> MeansAtom(m, a, front[i], front[i + 1]);
    AtomMeansToo(x, m, a, k, e, c, c2);
    AtomWithin(m, a, k, e);
    var ends := front + [e];
    forall i | 0 <= i < |ends| - 1 ensures PieceMatches(x, m, a, ends, i, c) {
      if i < |front| - 1 {
        assert MeansAtom(m, a, front[i], front[i + 1]);
        var c3 := AtomFound(x, m, a, ends[i], ends[i + 1], c);
      }
    }
    assert Iterated(x, m, q, b, e, ends, c, c2);
  }

  lemma AtomWithin(m: Meaning, a: Atom, b: nat, e: nat)
    requires MeansAtom(m, a, b, e)
    ensures b <= e <= m.stop
  {
    if a.Group? || a.Bare? { BarsWithin(m, a.inner, b, e); }
  }

  lemma LastFrom(x: Ctx, m: Meaning, q: Term, b: nat, e: nat, c: Caps, c2: Caps) returns (k: nat)
    requires q.Quantified? && !Cancelled(q) && q.min > 0 && !q.atom.Ref? && Zap(c, AtomGroups(q.atom)) == c && TermMatch(x, m, q, b, e, c, c2)
    ensures MeansTerm(m, OneLess(q), b, k) && AtomMatch(x, m, q.atom, k, e, c, c2)
  {
    var p, a := OneLess(q), q.atom;
    var ends := TermPieces(x, m, q, b, e, c, c2);
    var n := |ends| - 1;
    var front := ends[..n];
    k := ends[n - 1];
    PiecesMean(x, m, a, ends, c);
    forall i | 0 <= i < |front| - 1 ensures MeansAtom(m, a, front[i], front[i + 1]) { assert front[i] == ends[i] && front[i + 1] == ends[i + 1]; }
    assert Endpoints(front, b, k, p.min, p.max);
    assert MeansAtom(m, a, ends[n - 1], ends[n - 1 + 1]);
    AtomWithin(m, a, k, e);
    PiecesTerm(m, p, front, b, k);
  }

  ghost predicate PieceYields(x: Ctx, t: Subre, ends: seq<nat>, i: nat, c: Caps)
    requires i + 1 < |ends|
  {
    Acc(x, t, ends[i], ends[i + 1]) && Cleanly(x, t, ends[i], ends[i + 1], c)
  }

  ghost predicate Cleanly(x: Ctx, t: Subre, b: nat, e: nat, c: Caps) {
    exists p :: CleanBy(x, t, p, b, e, c)
  }

  ghost predicate CleanBy(x: Ctx, t: Subre, p: Parse, b: nat, e: nat, c: Caps) {
    Ok(x, t, p, b, e, c) && Clean(x, t, p, b, e, c)
  }

  /** p divides b..e so, with matches of the pieces. */
  ghost predicate PiecesBy(x: Ctx, t: Subre, ends: seq<nat>, ps: seq<Parse>, c: Caps) {
    |ends| > |ps| && forall i :: 0 <= i < |ps| ==> CleanBy(x, t, ps[i], ends[i], ends[i + 1], c)
  }

  lemma {:induction false} PiecesParsed(x: Ctx, t: Subre, ends: seq<nat>, n: nat, c: Caps) returns (ps: seq<Parse>)
    requires n < |ends| && forall i :: 0 <= i < n ==> PieceYields(x, t, ends, i, c)
    ensures |ps| == n && PiecesBy(x, t, ends, ps, c)
    decreases n
  {
    hide CleanBy, Acc;
    if n == 0 {
      ps := [];
    } else {
      ps := PiecesParsed(x, t, ends, n - 1, c);
      assert PieceYields(x, t, ends, n - 1, c);
      var p :| CleanBy(x, t, p, ends[n - 1], ends[n], c);
      ps := ps + [p];
    }
  }

  lemma IterMatches(x: Ctx, m: Meaning, q: Term, w: Flags, t: Subre, b: nat, e: nat, c: Caps, c2: Caps)
    requires q.Quantified? && !Cancelled(q) && SaneTerm(q, x.nmatch) && Fresh(x, c, TermGroups(q)) && !q.atom.Ref?
    requires Body(q, AtomNode(q.atom), w) == IterNode(w, Alone(q), AtomNode(q.atom), q.min, q.max) && Finished(x, m, t, Body(q, AtomNode(q.atom), w))
    ensures Yields(x, t, b, e, c, c2) <==> TermMatch(x, m, q, b, e, c, c2)
    decreases q, 2
  {
    AtomTells(x, m, q.atom, t.left);
    FreshZap(x, c, AtomGroups(q.atom));
    AloneMeans(m, q, b, e);
    assert Subs(t.left) == AtomGroups(q.atom);
    if Yields(x, t, b, e, c, c2) { IterToTerm(x, m, q, t, b, e, c, c2); }
    if TermMatch(x, m, q, b, e, c, c2) { TermToIter(x, m, q, t, b, e, c, c2); }
  }

  lemma IterToTerm(x: Ctx, m: Meaning, q: Term, t: Subre, b: nat, e: nat, c: Caps, c2: Caps)
    requires q.Quantified? && !Cancelled(q) && SaneAtom(q.atom, x.nmatch) && Fresh(x, c, AtomGroups(q.atom)) && !q.atom.Ref?
    requires t.Iter? && t.min == q.min && t.max == q.max && Finished(x, m, t.left, AtomNode(q.atom)) && Subs(t.left) == AtomGroups(q.atom)
    requires Zap(c, AtomGroups(q.atom)) == c && (Acc(x, t, b, e) ==> MeansTerm(m, q, b, e)) && Yields(x, t, b, e, c, c2)
    ensures TermMatch(x, m, q, b, e, c, c2)
    decreases q, 1
  {
    hide Matches, WellFormed, NoReturn, Fits, Finished;
    var p :| YieldsBy(x, t, p, b, e, c, c2);
    var l, ends, ps := t.left, p.ends, p.ps;
    forall i | 0 <= i < |ends| - 1 ensures PieceMatches(x, m, q.atom, ends, i, c) {
      assert Piece(x, l, ends, i);
      var c3 := After(x, l, ps[i], ends[i], ends[i + 1], c);
      assert YieldsBy(x, l, ps[i], ends[i], ends[i + 1], c, c3);
      AtomMatches1(x, m, q.atom, l, ends[i], ends[i + 1], c, c3);
    }
    if |ps| > 0 {
      var i := |ps| - 1;
      assert Piece(x, l, ends, i);
      assert YieldsBy(x, l, ps[i], ends[i], ends[i + 1], c, c2);
      AtomMatches1(x, m, q.atom, l, ends[i], ends[i + 1], c, c2);
    }
    assert Iterated(x, m, q, b, e, ends, c, c2);
  }

  lemma TermToIter(x: Ctx, m: Meaning, q: Term, t: Subre, b: nat, e: nat, c: Caps, c2: Caps)
    requires q.Quantified? && !Cancelled(q) && SaneAtom(q.atom, x.nmatch) && Fresh(x, c, AtomGroups(q.atom)) && !q.atom.Ref?
    requires t.Iter? && t.min == q.min && t.max == q.max && Finished(x, m, t.left, AtomNode(q.atom)) && Subs(t.left) == AtomGroups(q.atom)
    requires Zap(c, AtomGroups(q.atom)) == c && (MeansTerm(m, q, b, e) ==> Acc(x, t, b, e)) && TermMatch(x, m, q, b, e, c, c2)
    ensures Yields(x, t, b, e, c, c2)
    decreases q, 1
  {
    hide Matches, WellFormed, NoReturn, Fits, Finished;
    var l, a := t.left, q.atom;
    TermMeans(x, m, q, b, e, c, c2);
    AccSpan(x, t, b, e);
    var ends := TermPieces(x, m, q, b, e, c, c2);
    forall i | 0 <= i < |ends| - 1 ensures PieceYields(x, l, ends, i, c) && Piece(x, l, ends, i) {
      assert PieceMatches(x, m, a, ends, i, c);
      var c3 :| AtomMatch(x, m, a, ends[i], ends[i + 1], c, c3);
      AtomMatches1(x, m, a, l, ends[i], ends[i + 1], c, c3);
      var p :| YieldsBy(x, l, p, ends[i], ends[i + 1], c, c3);
      assert CleanBy(x, l, p, ends[i], ends[i + 1], c);
    }
    var ps := PiecesParsed(x, l, ends, |ends| - 1, c);
    if |ends| > 1 {
      var i := |ends| - 2;
      AtomMatches1(x, m, a, l, ends[i], ends[i + 1], c, c2);
      var p :| YieldsBy(x, l, p, ends[i], ends[i + 1], c, c2);
      ps := ps[i := p];
    }
    assert Division(x, l, ends, b, e);
    assert YieldsBy(x, t, Reps(ends, ps), b, e, c, c2);
  }

  // ---------------------------------------------------------------- what is reported

  lemma {:induction false} NoRefTidy(bs: Bars)
    requires !HasRef(bs)
    ensures TidyBars(bs)
    decreases bs
  {
    NoRefTidySeq(bs.branch);
    if bs.Or? { NoRefTidy(bs.rest); }
  }

  lemma {:induction false} NoRefTidySeq(ps: Terms)
    requires !SeqHasRef(ps)
    ensures TidySeq(ps)
    decreases ps
  {
    if ps.Then? {
      NoRefTidySeq(ps.tail);
      var q := ps.head;
      if q.Quantified? && !Cancelled(q) && (q.atom.Bare? || q.atom.Group?) {
        assert !TermHasRef(q) && !AtomHasRef(q.atom);
        NoRefTidy(q.atom.inner);
      }
    }
  }

  /** What a dissection reports is a match of the regex, with the groups as they are matched in it, unless an alternative
      that failed has left some behind. */
  lemma ReportedMatches(x: Ctx, m: Meaning, bs: Bars, t: Subre, p: Parse, b: nat, e: nat, c2: Caps)
    requires Finished(x, m, t, ParseBars(bs)) && Sane(bs, x.nmatch) && TidyBars(bs) && x.text.Stop() == |x.chars|
    requires Acc(x, t, b, e) && Dissect.Dissected(x, t, p, b, e, map[], c2)
    ensures BarsMatch(x, m, bs, b, e, map[], c2)
  {
    TreeTells(x, m, bs, t);
    StaleCaptures.TidyIsClean(x, t, p, b, e, map[]);
    assert YieldsBy(x, t, p, b, e, map[], c2);
    TreeMatches(x, m, bs, t, b, e, map[], c2);
  }

  /** Without back references every piece of text the regex means is divided as some match of the regex divides it. */
  lemma MeantMatches(x: Ctx, m: Meaning, bs: Bars, t: Subre, b: nat, e: nat)
    requires Finished(x, m, t, ParseBars(bs)) && Sane(bs, x.nmatch) && !HasRef(bs) && x.text.Stop() == |x.chars| && Acc(x, t, b, e)
    ensures exists c2 :: Yields(x, t, b, e, map[], c2) && BarsMatch(x, m, bs, b, e, map[], c2)
  {
    ParseSpan(bs);
    var c2 := BarsFound(x, m, bs, b, e, map[]);
    TreeMatches(x, m, bs, t, b, e, map[], c2);
  }
}
