/** Two regexes with the trees regcomp.c:650-1273 builds for them, automata and all: (a)|(b) on every text, and
    (.)\1|.. on "ab". */
module Examples {
  import opened Options
  import opened Cnfa
  import opened Subres
  import opened Dissect
  import opened Rows
  import opened Parsing
  import S = StaleCaptures
  import R = Refusals
  import C = Complicated

  /** Characters stand for their colour; a back reference may stand for any one character. */
  function Colored(v: Text): Meaning {
    Meaning((i: nat, b: nat, e: nat) => b < |v.colors| && e == b + 1 && v.colors[b] == i, (n: nat, b: nat, e: nat) => b < |v.colors| && e == b + 1, v.Stop())
  }

  function Char(i: nat): Term { Quantified(Simple(i), 1, 1, Indifferent) }

  function Paren(n: nat, q: Term): Term { Quantified(Group(n, Alone(q)), 1, 1, Indifferent) }

  /** The piece matches one character of these colours. */
  ghost predicate Takes(v: Text, q: Term, cs: seq<nat>) {
    forall b: nat, e: nat :: MeansTerm(Colored(v), q, b, e) <==> b + 1 == e <= v.Stop() && v.colors[b] in cs
  }

  lemma CharTakes(v: Text, i: nat)
    ensures Takes(v, Char(i), [i])
  {
    forall b: nat, e: nat ensures MeansTerm(Colored(v), Char(i), b, e) <==> b + 1 == e <= v.Stop() && v.colors[b] in [i] {
      OnceMeans(Colored(v), Char(i), b, e);
    }
  }

  lemma ParenTakes(v: Text, n: nat, q: Term, cs: seq<nat>)
    requires Takes(v, q, cs)
    ensures Takes(v, Paren(n, q), cs)
  {
    forall b: nat, e: nat ensures MeansTerm(Colored(v), Paren(n, q), b, e) <==> b + 1 == e <= v.Stop() && v.colors[b] in cs {
      OnceMeans(Colored(v), Paren(n, q), b, e);
      AloneMeans(Colored(v), q, b, e);
    }
  }

  lemma RefTakes(v: Text, n: nat, cs: seq<nat>)
    requires forall i :: 0 <= i < |v.colors| ==> v.colors[i] in cs
    ensures Takes(v, Quantified(Ref(n), 1, 1, Indifferent), cs)
  {
    var q := Quantified(Ref(n), 1, 1, Indifferent);
    forall b: nat, e: nat ensures MeansTerm(Colored(v), q, b, e) <==> b + 1 == e <= v.Stop() && v.colors[b] in cs {
      OnceMeans(Colored(v), q, b, e);
    }
  }

  ghost predicate AllTake(v: Text, ps: Terms, sets: seq<seq<nat>>)
    decreases ps
  {
    match ps
    case End => sets == []
    case Then(q, rest) => sets != [] && Takes(v, q, sets[0]) && AllTake(v, rest, sets[1..])
  }

  /** So a sequence of them is what a row accepts. */
  lemma {:induction false} SeqRow(v: Text, ps: Terms, sets: seq<seq<nat>>, b: nat, e: nat)
    requires AllTake(v, ps, sets)
    ensures MeansSeq(Colored(v), ps, b, e) <==> b <= e <= v.Stop() && e - b == |sets| && Agrees(sets, v, b, e - b)
    decreases ps
  {
    if ps.Then? {
      forall k: nat ensures MeansSeq(Colored(v), ps.tail, k, e) <==> k <= e <= v.Stop() && e - k == |sets| - 1 && Agrees(sets[1..], v, k, e - k) {
        SeqRow(v, ps.tail, sets[1..], k, e);
      }
      if b < e <= v.Stop() && e - b == |sets| { AgreesFirst(sets, v, b, e); }
      hide Agrees, MeansSeq, MeansTerm, Colored;
      if MeansSeq(Colored(v), ps, b, e) {
        var k := SeqStep(Colored(v), ps, b, e);
      }
      if b <= e <= v.Stop() && e - b == |sets| && Agrees(sets, v, b, e - b) {
        SeqJoin(Colored(v), ps, b, b + 1, e);
      }
    }
  }

  lemma AgreesFirst(sets: seq<seq<nat>>, v: Text, b: nat, e: nat)
    requires b < e <= |v.colors| && e - b == |sets|
    ensures Agrees(sets, v, b, e - b) <==> v.colors[b] in sets[0] && Agrees(sets[1..], v, b + 1, e - (b + 1))
  {
    if v.colors[b] in sets[0] && Agrees(sets[1..], v, b + 1, e - (b + 1)) {
      forall i | 0 <= i < e - b ensures v.colors[b + i] in sets[i] {
        if i > 0 { assert sets[1..][i - 1] == sets[i] && b + 1 + (i - 1) == b + i; }
      }
    }
    if Agrees(sets, v, b, e - b) {
      forall i | 0 <= i < e - (b + 1) ensures v.colors[b + 1 + i] in sets[1..][i] { assert b + 1 + i == b + (i + 1); }
    }
  }

  /** The automaton of a node with such a span. */
  ghost predicate Served(x: Ctx, k: nat, ps: Terms, sets: seq<seq<nat>>) {
    forall b: nat, e: nat :: Matches(Row(k, sets), x.text, b, e) <==> Means(Colored(x.text), Last(ps), b, e)
  }

  lemma RowServes(x: Ctx, k: nat, ps: Terms, sets: seq<seq<nat>>)
    requires AllTake(x.text, ps, sets) && ColorsBelow(k, sets) && TextBelow(k, x.text)
    ensures Served(x, k, ps, sets)
    ensures var t := Plain(Row(k, sets), false); Sound(x, t)
  {
    RowOkay(k, sets);
    hide Row, Matches, MeansSeq, WellFormed, NoReturn;
    forall b: nat, e: nat ensures Matches(Row(k, sets), x.text, b, e) <==> Means(Colored(x.text), Last(ps), b, e) {
      RowMatch(k, sets, x.text, b, e);
      SeqRow(x.text, ps, sets, b, e);
    }
    assert Row(k, sets).ncolors == k + 4 by { RowColors(k, sets); }
  }

  lemma RowColors(k: nat, sets: seq<seq<nat>>)
    ensures Row(k, sets).ncolors == k + 4
  {
  }

  // ---------------------------------------------------------------- (a)|(b)

  const AOrB: Bars := Or(Then(Paren(1, Char(1)), End), Last(Then(Paren(2, Char(2)), End)))

  /** The characters a and b have colours 1 and 2, all others 0. */
  function One(i: nat): Cnfa { Row(3, [[i]]) }

  const None3: Cnfa := Row(3, [])
  const Either: Cnfa := Row(3, [[1, 2]])

  function GroupTree(i: nat): Subre {
    Concat(One(i), false, Plain(None3, false), Concat(One(i), false, Capture(One(i), false, i, Plain(One(i), false)), Plain(None3, false)))
  }

  const AOrBTree: Subre := Alt(Either, false, GroupTree(1), Some(Alt(Either, false, GroupTree(2), None)))

  function CharNode(q: Term): Node { PlainNode(NONE, Alone(q)) }

  function ParenNode(n: nat, q: Term): Node { CapNode(CAP, Alone(q), n, CharNode(q)) }

  lemma BranchEnd(before: Terms, f: Flags)
    ensures Branch(before, f, End) == PlainNode(f, Last(before))
  {
  }

  lemma ParenParsed(n: nat, i: nat)
    ensures AtomNode(Paren(n, Char(i)).atom) == ParenNode(n, Char(i))
  {
    var q := Char(i);
    assert Taking(NONE, q) == NONE;
    assert Snoc(End, q) == Then(q, End);
    BranchEnd(Then(q, End), NONE);
    assert Branch(End, NONE, Then(q, End)) == Branch(Snoc(End, q), NONE, End);
    assert Branch(Then(q, End), NONE, End) == PlainNode(NONE, Last(Then(q, End)));
    assert CharNode(q) == PlainNode(NONE, Last(Then(q, End)));
    assert ParseBars(Alone(q)) == CharNode(q);
  }

  /** A group by itself: the capture node between two empty ones. */
  function AloneNode(n: nat, i: nat): Node {
    var p := Paren(n, Char(i));
    CatNode(CAP, Alone(p), PlainNode(NONE, Last(End)), CatNode(CAP, Alone(p), ParenNode(n, Char(i)), PlainNode(NONE, Last(End))))
  }

  lemma BranchParsed(n: nat, i: nat)
    ensures ParseBranch(Then(Paren(n, Char(i)), End)) == AloneNode(n, i)
  {
    var p := Paren(n, Char(i));
    ParenParsed(n, i);
    assert !Absorbed(NONE, p);
    assert Body(p, ParenNode(n, Char(i)), CAP) == ParenNode(n, Char(i));
    assert ParseBranch(End) == PlainNode(NONE, Last(End));
    assert Split(End, NONE, Then(p, End), ParenNode(n, Char(i)), PlainNode(NONE, Last(End))) == AloneNode(n, i);
  }

  lemma AOrBParsed()
    ensures ParseBars(AOrB) == AltNode(Flags(true, false, false, true, false), AOrB, AloneNode(1, 1),
      Some(AltNode(Flags(true, false, false, true, false), AOrB, AloneNode(2, 2), None)))
  {
    BranchParsed(1, 1);
    BranchParsed(2, 2);
    var f := Flags(true, false, false, true, false);
    assert FromBranch(AloneNode(1, 1)) == f && FromBranch(AloneNode(2, 2)) == f;
    hide Branch, ParseBranch, AloneNode;
    assert Chain(AOrB, AOrB.rest, Both(LONGER, f)) == AltNode(f, AOrB, AloneNode(2, 2), None);
    assert News(AOrB.rest, Both(LONGER, f)) == NONE;
    assert Chain(AOrB, AOrB, LONGER) == AltNode(f, AOrB, AloneNode(1, 1), Some(AltNode(f, AOrB, AloneNode(2, 2), None)));
  }

  lemma GroupFinished(x: Ctx, i: nat)
    requires TextBelow(3, x.text) && 1 <= i <= 2
    ensures Finished(x, Colored(x.text), GroupTree(i), AloneNode(i, i))
  {
    CharTakes(x.text, i);
    ParenTakes(x.text, i, Char(i), [i]);
    RowServes(x, 3, Then(Char(i), End), [[i]]);
    RowServes(x, 3, Then(Paren(i, Char(i)), End), [[i]]);
    RowServes(x, 3, End, []);
    hide Row, Matches, Means, Colored, WellFormed, NoReturn, Fits, Takes;
    assert Finished(x, Colored(x.text), Plain(None3, false), PlainNode(NONE, Last(End)));
    assert Finished(x, Colored(x.text), Capture(One(i), false, i, Plain(One(i), false)), ParenNode(i, Char(i)));
  }

  lemma EitherServes(x: Ctx)
    requires TextBelow(3, x.text)
    ensures forall b: nat, e: nat :: Matches(Either, x.text, b, e) <==> Means(Colored(x.text), AOrB, b, e)
    ensures Sound(x, Plain(Either, false))
  {
    CharTakes(x.text, 1);
    CharTakes(x.text, 2);
    ParenTakes(x.text, 1, Char(1), [1]);
    ParenTakes(x.text, 2, Char(2), [2]);
    RowOkay(3, [[1, 2]]);
    RowColors(3, [[1, 2]]);
    hide Row, Matches, Colored, MeansTerm, WellFormed, NoReturn;
    forall b: nat, e: nat ensures Matches(Either, x.text, b, e) <==> Means(Colored(x.text), AOrB, b, e) {
      EitherTakes(x.text, b, e);
      TwoMean(Colored(x.text), Paren(1, Char(1)), Paren(2, Char(2)), b, e);
    }
  }

  lemma EitherTakes(v: Text, b: nat, e: nat)
    requires TextBelow(3, v)
    ensures Matches(Either, v, b, e) <==> b + 1 == e <= v.Stop() && (v.colors[b] in [1] || v.colors[b] in [2])
  {
    RowMatch(3, [[1, 2]], v, b, e);
    hide Row, Matches;
    if b + 1 == e <= v.Stop() {
      assert [[1, 2]][0] == [1, 2];
      assert Agrees([[1, 2]], v, b, 1) <==> v.colors[b + 0] in [1, 2];
    }
  }

  lemma TwoMean(m: Meaning, q: Term, r: Term, b: nat, e: nat)
    ensures Means(m, Or(Then(q, End), Last(Then(r, End))), b, e) <==> MeansTerm(m, q, b, e) || MeansTerm(m, r, b, e)
  {
    AloneMeans(m, q, b, e);
    AloneMeans(m, r, b, e);
    hide MeansTerm;
  }

  lemma TwoFinished(x: Ctx, m: Meaning, c: Cnfa, span: Bars, f: Flags, g: Flags, l: Subre, l2: Node, r: Subre, r2: Node)
    requires Finished(x, m, l, l2) && Finished(x, m, r, r2) && Sound(x, Plain(c, false)) && !f.shorter && !g.shorter
    requires forall b: nat, e: nat :: Matches(c, x.text, b, e) <==> Means(m, span, b, e)
    ensures Finished(x, m, Alt(c, false, l, Some(Alt(c, false, r, None))), AltNode(f, span, l2, Some(AltNode(g, span, r2, None))))
  {
    hide Means, Matches, WellFormed, NoReturn, Fits;
    assert Finished(x, m, Alt(c, false, r, None), AltNode(g, span, r2, None));
  }

  lemma AOrBFinished(x: Ctx)
    requires TextBelow(3, x.text)
    ensures Finished(x, Colored(x.text), AOrBTree, ParseBars(AOrB))
  {
    GroupFinished(x, 1);
    GroupFinished(x, 2);
    EitherServes(x);
    AOrBParsed();
    hide Finished, ParseBars, WellFormed, NoReturn, Fits, Row, Matches, Means, Colored, GroupTree, AloneNode;
    var f := Flags(true, false, false, true, false);
    TwoFinished(x, Colored(x.text), Either, AOrB, f, f, GroupTree(1), AloneNode(1, 1), GroupTree(2), AloneNode(2, 2));
  }

  lemma ParenSane(n: nat, i: nat, nmatch: nat)
    ensures SaneTerm(Paren(n, Char(i)), nmatch)
  {
    assert SaneTerm(Char(i), nmatch) && TermGroups(Char(i)) == {};
    assert SeqGroups(End) == {} && SaneSeq(End, nmatch);
    assert SaneSeq(Then(Char(i), End), nmatch) && SeqGroups(Then(Char(i), End)) == {};
    assert Sane(Alone(Char(i)), nmatch) && Groups(Alone(Char(i))) == {};
    assert SaneAtom(Group(n, Alone(Char(i))), nmatch);
  }

  lemma AOrBGroups(nmatch: nat)
    ensures !HasRef(AOrB) && Groups(AOrB) == {1, 2} && Sane(AOrB, nmatch)
  {
    var p, q := Paren(1, Char(1)), Paren(2, Char(2));
    assert TermGroups(p) == {1} && TermGroups(q) == {2} && !TermHasRef(p) && !TermHasRef(q);
    assert SeqGroups(Then(p, End)) == {1} && SeqGroups(Then(q, End)) == {2};
    ParenSane(1, 1, nmatch);
    ParenSane(2, 2, nmatch);
    assert SaneSeq(Then(p, End), nmatch) && SaneSeq(Then(q, End), nmatch);
  }

  /** Of (a)|(b) both '|' nodes have one automaton for the two alternatives, and the tree is complete: on no text can its
      dissection fail. */
  lemma AOrBComplete(x: Ctx)
    requires TextBelow(3, x.text)
    ensures Finished(x, Colored(x.text), AOrBTree, ParseBars(AOrB)) && AOrBTree.cnfa == AOrBTree.next.value.cnfa
    ensures Complete(x, AOrBTree) && Usable(x, AOrBTree) && Subs(AOrBTree) == {1, 2}
  {
    AOrBFinished(x);
    AOrBGroups(x.nmatch);
    assert AOrBTree.cnfa == AOrBTree.next.value.cnfa;
    hide *;
    TreeTells(x, Colored(x.text), AOrB, AOrBTree);
    ToldComplete(x, AOrBTree, HasRef(AOrB), Groups(AOrB), TidyBars(AOrB), Sane(AOrB, x.nmatch));
  }

  lemma ToldComplete(x: Ctx, t: Subre, refs: bool, groups: set<nat>, tidy: bool, sane: bool)
    requires Tells(x, t, refs, groups, tidy, sane) && sane && !refs
    ensures Complete(x, t) && Usable(x, t) && Subs(t) == groups
  {
  }

  // ---------------------------------------------------------------- (.)\1|.. on "ab"

  const Dot: Term := Char(0)
  const Again: Term := Quantified(Ref(1), 1, 1, Indifferent)
  const CopySeq: Terms := Then(Again, End)
  const TwiceSeq: Terms := Then(Paren(1, Dot), CopySeq)
  const PairSeq: Terms := Then(Dot, Then(Dot, End))
  const DotTwice: Bars := Or(TwiceSeq, Last(PairSeq))

  const EmptyNode: Node := PlainNode(NONE, Last(End))
  const CopyNode: Node := CatNode(BACKR, Alone(Again), EmptyNode, CatNode(BACKR, Alone(Again), RefNode(BACKR, Alone(Again), 1, 1, 1), EmptyNode))
  const Mess: Flags := Flags(false, false, false, true, true)
  const TwiceNode: Node := CatNode(Mess, Last(TwiceSeq), EmptyNode, CatNode(Mess, Last(TwiceSeq), ParenNode(1, Dot), CopyNode))
  const PairNode: Node := PlainNode(NONE, Last(PairSeq))

  lemma CopyParsed()
    ensures ParseBranch(CopySeq) == CopyNode
  {
    assert !Absorbed(NONE, Again);
    assert ParseBranch(End) == EmptyNode;
    assert Split(End, NONE, CopySeq, RefNode(BACKR, Alone(Quantified(Ref(1), 1, 1, Indifferent)), 1, 1, 1), EmptyNode) == CopyNode;
  }

  lemma TwiceParsed()
    ensures ParseBranch(TwiceSeq) == TwiceNode
  {
    ParenParsed(1, 0);
    CopyParsed();
    assert !Absorbed(NONE, Paren(1, Dot));
    assert Body(Paren(1, Dot), ParenNode(1, Dot), CAP) == ParenNode(1, Dot);
    assert Split(End, NONE, TwiceSeq, ParenNode(1, Dot), CopyNode) == TwiceNode;
  }

  lemma PairParsed()
    ensures ParseBranch(PairSeq) == PairNode
  {
    assert Taking(NONE, Dot) == NONE && Absorbed(NONE, Dot);
    assert Snoc(End, Dot) == Then(Dot, End) && Snoc(Then(Dot, End), Dot) == PairSeq;
    BranchEnd(PairSeq, NONE);
    assert Branch(Then(Dot, End), NONE, Then(Dot, End)) == Branch(PairSeq, NONE, End);
  }

  lemma DotTwiceParsed()
    ensures ParseBars(DotTwice) == AltNode(Flags(true, false, false, true, true), DotTwice, TwiceNode, Some(AltNode(LONGER, DotTwice, PairNode, None)))
  {
    TwiceParsed();
    PairParsed();
    var f := Flags(true, false, false, true, true);
    assert FromBranch(TwiceNode) == f && FromBranch(PairNode) == LONGER;
    hide Branch, ParseBranch;
    assert Chain(DotTwice, DotTwice.rest, Both(LONGER, f)) == AltNode(LONGER, DotTwice, PairNode, None);
    assert News(DotTwice.rest, Both(LONGER, f)) == NONE;
    assert Chain(DotTwice, DotTwice, LONGER) == AltNode(f, DotTwice, TwiceNode, Some(AltNode(LONGER, DotTwice, PairNode, None)));
  }

  lemma AllDots(ps: Terms, n: nat)
    requires AllTake(S.Ab, ps, S.Zeros(n))
    ensures Sound(S.AbCtx, Plain(S.Dots(n), false))
    ensures forall b: nat, e: nat :: Matches(S.Dots(n), S.Ab, b, e) <==> Means(Colored(S.Ab), Last(ps), b, e)
  {
    RowServes(S.AbCtx, 1, ps, S.Zeros(n));
  }

  lemma DotTakes()
    ensures Takes(S.Ab, Dot, [0]) && Takes(S.Ab, Paren(1, Dot), [0]) && Takes(S.Ab, Again, [0])
  {
    CharTakes(S.Ab, 0);
    ParenTakes(S.Ab, 1, Dot, [0]);
    RefTakes(S.Ab, 1, [0]);
  }

  lemma SpansTake()
    ensures AllTake(S.Ab, End, S.Zeros(0)) && AllTake(S.Ab, Then(Dot, End), S.Zeros(1)) && AllTake(S.Ab, CopySeq, S.Zeros(1))
    ensures AllTake(S.Ab, TwiceSeq, S.Zeros(2)) && AllTake(S.Ab, PairSeq, S.Zeros(2))
  {
    DotTakes();
    hide Takes;
    assert S.Zeros(0) == [] && S.Zeros(1) == [[0]] && S.Zeros(2) == [[0], [0]];
    assert [[0], [0]][1..] == [[0]] && [[0]][1..] == [];
    assert AllTake(S.Ab, End, []);
    assert AllTake(S.Ab, CopySeq, [[0]]) && AllTake(S.Ab, Then(Dot, End), [[0]]);
  }

  /** The dots accept what the terms mean. */
  ghost predicate DotsServe(x: Ctx, m: Meaning, n: nat, ps: Terms) {
    Sound(x, Plain(S.Dots(n), false)) && forall b: nat, e: nat :: Matches(S.Dots(n), x.text, b, e) <==> Means(m, Last(ps), b, e)
  }

  lemma AllServe()
    ensures var x, m := S.AbCtx, Colored(S.Ab);
      DotsServe(x, m, 0, End) && DotsServe(x, m, 1, Then(Dot, End)) && DotsServe(x, m, 1, CopySeq) && DotsServe(x, m, 2, TwiceSeq) && DotsServe(x, m, 2, PairSeq)
  {
    hide Matches, Means, Sound, S.Dots, Colored, AllTake;
    SpansTake();
    AllDots(End, 0);
    AllDots(Then(Dot, End), 1);
    AllDots(CopySeq, 1);
    AllDots(TwiceSeq, 2);
    AllDots(PairSeq, 2);
  }

  lemma CopyThere(x: Ctx, m: Meaning)
    requires DotsServe(x, m, 0, End) && DotsServe(x, m, 1, CopySeq)
    ensures Finished(x, m, S.Empty, EmptyNode) && Finished(x, m, S.Rest, CopyNode)
  {
    hide Matches, Means, WellFormed, NoReturn, Fits, S.Dots;
    assert Finished(x, m, S.Empty, EmptyNode);
    assert Finished(x, m, S.Copy, CopyNode.right);
  }

  lemma GroupThere(x: Ctx, m: Meaning)
    requires DotsServe(x, m, 1, Then(Dot, End))
    ensures Finished(x, m, S.Group, ParenNode(1, Dot))
  {
    hide Matches, Means, WellFormed, NoReturn, Fits, S.Dots;
    assert Finished(x, m, S.Group.left, CharNode(Dot));
  }

  lemma TwiceThere(x: Ctx, m: Meaning)
    requires Finished(x, m, S.Empty, EmptyNode) && Finished(x, m, S.Rest, CopyNode) && Finished(x, m, S.Group, ParenNode(1, Dot))
    requires DotsServe(x, m, 2, TwiceSeq)
    ensures Finished(x, m, S.Twice, TwiceNode)
  {
    hide Matches, Means, WellFormed, NoReturn, Fits, S.Dots, S.Empty, S.Rest, S.Group, EmptyNode, CopyNode, ParenNode;
    assert Finished(x, m, S.Tail, TwiceNode.right);
  }

  lemma PairThere(x: Ctx, m: Meaning)
    requires DotsServe(x, m, 2, PairSeq)
    ensures Finished(x, m, Plain(S.Dots(2), false), PairNode)
  {
    hide Matches, Means, WellFormed, NoReturn, Fits, S.Dots;
  }

  lemma EitherWayFinished()
    ensures Finished(S.AbCtx, Colored(S.Ab), S.EitherWay, ParseBars(DotTwice))
  {
    var x, m := S.AbCtx, Colored(S.Ab);
    hide Finished, DotsServe, ParseBars, Colored, S.Dots, Matches, Means;
    AllServe();
    CopyThere(x, m);
    GroupThere(x, m);
    TwiceThere(x, m);
    PairThere(x, m);
    DotTwiceParsed();
    EitherWayServed(x, m);
    TwoFinished(x, m, S.Dots(2), DotTwice, Flags(true, false, false, true, true), LONGER, S.Twice, TwiceNode, Plain(S.Dots(2), false), PairNode);
  }

  lemma EitherWayServed(x: Ctx, m: Meaning)
    requires DotsServe(x, m, 2, TwiceSeq) && DotsServe(x, m, 2, PairSeq)
    ensures Sound(x, Plain(S.Dots(2), false)) && forall b: nat, e: nat :: Matches(S.Dots(2), x.text, b, e) <==> Means(m, DotTwice, b, e)
  {
    hide Matches, S.Dots, MeansSeq, Sound;
    forall b: nat, e: nat ensures Matches(S.Dots(2), x.text, b, e) <==> Means(m, DotTwice, b, e) {
      assert Means(m, Last(TwiceSeq), b, e) <==> MeansSeq(m, TwiceSeq, b, e);
      assert Means(m, DotTwice, b, e) <==> MeansSeq(m, TwiceSeq, b, e) || Means(m, Last(PairSeq), b, e);
    }
  }

  lemma DotTwiceGroups()
    ensures HasRef(DotTwice) && !TidyBars(DotTwice)
  {
    assert TermHasRef(Again) && SeqHasRef(CopySeq) && SeqHasRef(TwiceSeq);
    assert 1 in TermGroups(Paren(1, Dot)) && 1 in SeqGroups(TwiceSeq);
  }

  /** The tree on which StaleCaptures shows a stale capture is the one that is built for (.)\1|.., and it is neither
      complete nor tidy. */
  lemma EitherWayBuilt()
    ensures Finished(S.AbCtx, Colored(S.Ab), S.EitherWay, ParseBars(DotTwice))
    ensures !Complete(S.AbCtx, S.EitherWay) && !Tidy(S.AbCtx, S.EitherWay)
  {
    EitherWayFinished();
    DotTwiceGroups();
    var x, m := S.AbCtx, Colored(S.Ab);
    hide *;
    TreeTells(x, m, DotTwice, S.EitherWay);
    ToldOtherwise(x, S.EitherWay, HasRef(DotTwice), Groups(DotTwice), TidyBars(DotTwice), Sane(DotTwice, x.nmatch));
  }

  lemma ToldOtherwise(x: Ctx, t: Subre, refs: bool, groups: set<nat>, tidy: bool, sane: bool)
    requires Tells(x, t, refs, groups, tidy, sane) && refs && !tidy
    ensures !Complete(x, t) && !Tidy(x, t)
  {
  }

  // ---------------------------------------------------------------- ()(?:\1){2} on the empty string

  const NoughtCopy: Subre := Concat(S.Dots(0), false, Backref(S.Dots(0), false, 1, 1, 1), S.Empty)
  const Nought: Subre := Concat(S.Dots(0), false, S.Empty, NoughtCopy)
  const NoughtPair: Subre := Iter(S.Dots(0), false, Nought, 2, 2)
  const NoughtSet: Caps := map[1 := (0, 0)]

  /** Group 1 having matched the empty string, the iteration could be divided into two copies of it, and is refused. */
  lemma NoughtRefused()
    ensures exists p :: Ok(S.AbCtx, NoughtPair, p, 0, 0, NoughtSet)
    ensures forall p :: Ok(S.AbCtx, NoughtPair, p, 0, 0, NoughtSet) ==> !Real(S.AbCtx, NoughtPair, p, 0, 0, NoughtSet)
  {
    hide Real;
    S.AbAccepts(0);
    var x, q := S.AbCtx, Cat(0, Leaf, Leaf);
    assert RefersTo(x, NoughtSet, 1, 1, 1, 0, 0) by { assert x.chars[0..0] == []; }
    assert Ok(x, NoughtCopy, q, 0, 0, NoughtSet);
    assert Ok(x, Nought, Cat(0, Leaf, q), 0, 0, NoughtSet);
    assert Zap(NoughtSet, Subs(Nought)) == NoughtSet;
    R.NothingTwice(x, NoughtPair, Cat(0, Leaf, q), 0, NoughtSet);
  }

  // The whole regex and its tree.
  const NoughtTerm: Term := Quantified(Bare(Alone(Again)), 2, 2, Indifferent)
  const NoughtSeq: Terms := Then(NoughtTerm, End)
  const NoughtRegex: Terms := Then(Quantified(Group(1, Last(End)), 1, 1, Indifferent), NoughtSeq)

  const NoughtGroup: Subre := Capture(S.Dots(0), false, 1, S.Empty)
  const NoughtPairs: Subre := Concat(S.Dots(0), false, NoughtPair, S.Empty)
  const NoughtTail: Subre := Concat(S.Dots(0), false, S.Empty, NoughtPairs)
  const NoughtRest: Subre := Concat(S.Dots(0), false, NoughtGroup, NoughtTail)
  const NoughtTree: Subre := Concat(S.Dots(0), false, S.Empty, NoughtRest)

  /** Nothing but the empty string is meant by the group and by what refers to it. */
  const Naught: Meaning := Meaning((i, b, e) => false, (n, b, e) => b == e, 2)

  const NoughtCopyNode: Node := CatNode(BACKR, Alone(Again), EmptyNode, CatNode(BACKR, Alone(Again), RefNode(BACKR, Alone(Again), 1, 1, 1), EmptyNode))
  const NoughtSeqNode: Node := CatNode(BACKR, Last(NoughtSeq), EmptyNode, CatNode(BACKR, Last(NoughtSeq), IterNode(BACKR, Last(NoughtSeq), NoughtCopyNode, 2, 2), EmptyNode))
  const NoughtNode: Node := CatNode(Mess, Last(NoughtRegex), EmptyNode, CatNode(Mess, Last(NoughtRegex), CapNode(CAP, Last(End), 1, EmptyNode), NoughtSeqNode))

  lemma NoughtSeqParsed()
    ensures ParseBranch(NoughtSeq) == NoughtSeqNode && ParseBranch(End) == EmptyNode
  {
    hide Split;
    CopyParsed();
    assert ParseBranch(End) == EmptyNode && CopyNode == NoughtCopyNode;
    assert ParseBars(Alone(Again)) == NoughtCopyNode;
    assert !Absorbed(NONE, NoughtTerm);
    NoughtSeqSplit();
  }

  lemma NoughtSeqSplit()
    ensures Split(End, NONE, NoughtSeq, NoughtCopyNode, EmptyNode) == NoughtSeqNode
  {
  }

  lemma NoughtParsed()
    ensures ParseBars(Last(NoughtRegex)) == NoughtNode
  {
    hide NoughtSeqNode, NoughtNode, Split;
    NoughtSeqParsed();
    assert AtomNode(Group(1, Last(End))) == CapNode(CAP, Last(End), 1, EmptyNode);
    assert !Absorbed(NONE, NoughtRegex.head);
    NoughtSplit();
  }

  lemma NoughtSplit()
    ensures Split(End, NONE, NoughtRegex, CapNode(CAP, Last(End), 1, EmptyNode), NoughtSeqNode) == NoughtNode
  {
  }

  ghost predicate EmptyTerm(q: Term) { forall b: nat, e: nat :: MeansTerm(Naught, q, b, e) <==> b == e <= 2 }

  ghost predicate EmptySeq(ps: Terms) { forall b: nat, e: nat :: MeansSeq(Naught, ps, b, e) <==> b == e <= 2 }

  lemma ThenEmpty(q: Term, ps: Terms)
    requires EmptyTerm(q) && EmptySeq(ps)
    ensures EmptySeq(Then(q, ps))
  {
    hide MeansTerm;
    forall b: nat, e: nat ensures MeansSeq(Naught, Then(q, ps), b, e) <==> b == e <= 2 {
      if b == e <= 2 { assert MeansTerm(Naught, q, b, b) && MeansSeq(Naught, ps, b, e); }
    }
  }

  lemma GroupEmpty(a: Atom)
    requires a == Group(1, Last(End)) || a == Ref(1)
    ensures EmptyTerm(Quantified(a, 1, 1, Indifferent))
  {
    forall b: nat, e: nat ensures MeansTerm(Naught, Quantified(a, 1, 1, Indifferent), b, e) <==> b == e <= 2 {
      OnceMeans(Naught, Quantified(a, 1, 1, Indifferent), b, e);
    }
  }

  lemma TwiceEmpty()
    requires EmptySeq(Then(Again, End))
    ensures EmptyTerm(NoughtTerm)
  {
    forall b: nat, e: nat ensures MeansTerm(Naught, NoughtTerm, b, e) <==> b == e <= 2 {
      if b == e <= 2 {
        var ends: seq<nat> := [b, b, b];
        assert Endpoints(ends, b, e, 2, 2) && forall i :: 0 <= i < 2 ==> MeansAtom(Naught, NoughtTerm.atom, ends[i], ends[i + 1]);
      }
      if MeansTerm(Naught, NoughtTerm, b, e) {
        var ends: seq<nat> :| Endpoints(ends, b, e, 2, 2) && forall i :: 0 <= i < |ends| - 1 ==> MeansAtom(Naught, NoughtTerm.atom, ends[i], ends[i + 1]);
        assert MeansAtom(Naught, NoughtTerm.atom, ends[0], ends[0 + 1]) && MeansAtom(Naught, NoughtTerm.atom, ends[1], ends[1 + 1]);
      }
    }
  }

  lemma AllEmpty()
    ensures EmptySeq(End) && EmptySeq(Then(Again, End)) && EmptySeq(NoughtSeq) && EmptySeq(NoughtRegex)
  {
    assert EmptySeq(End);
    GroupEmpty(Ref(1));
    ThenEmpty(Again, End);
    TwiceEmpty();
    ThenEmpty(NoughtTerm, End);
    GroupEmpty(Group(1, Last(End)));
    ThenEmpty(Quantified(Group(1, Last(End)), 1, 1, Indifferent), NoughtSeq);
  }

  /** The automaton of no dots serves for what means the empty string. */
  lemma EmptyServes(ps: Terms)
    requires EmptySeq(ps)
    ensures DotsServe(S.AbCtx, Naught, 0, ps)
  {
    S.DotsWellFormed(0);
    S.AbAccepts(0);
    hide Matches, S.Dots, MeansSeq, WellFormed, NoReturn, Fits;
    forall b: nat, e: nat ensures Means(Naught, Last(ps), b, e) <==> b == e <= 2 { assert Means(Naught, Last(ps), b, e) <==> MeansSeq(Naught, ps, b, e); }
  }

  /** The tree is the one that is built for ()(?:\1){2}. */
  lemma NoughtBuilt()
    ensures Finished(S.AbCtx, Naught, NoughtTree, ParseBars(Last(NoughtRegex)))
  {
    var x := S.AbCtx;
    NoughtParsed();
    AllEmpty();
    EmptyServes(End);
    EmptyServes(Then(Again, End));
    EmptyServes(NoughtSeq);
    EmptyServes(NoughtRegex);
    hide ParseBars, DotsServe, Finished, EmptySeq, S.Dots;
    LeavesServed(x, Naught);
    CatServed(x, Naught, Backref(S.Dots(0), false, 1, 1, 1), RefNode(BACKR, Alone(Again), 1, 1, 1), S.Empty, EmptyNode, BACKR, Then(Again, End));
    CatServed(x, Naught, S.Empty, EmptyNode, NoughtCopy, NoughtCopyNode.right, BACKR, Then(Again, End));
    PairServed(x, Naught);
    CatServed(x, Naught, NoughtPair, NoughtSeqNode.right.left, S.Empty, EmptyNode, BACKR, NoughtSeq);
    CatServed(x, Naught, S.Empty, EmptyNode, NoughtPairs, NoughtSeqNode.right, BACKR, NoughtSeq);
    CatServed(x, Naught, NoughtGroup, NoughtNode.right.left, NoughtTail, NoughtSeqNode, Mess, NoughtRegex);
    CatServed(x, Naught, S.Empty, EmptyNode, NoughtRest, NoughtNode.right, Mess, NoughtRegex);
  }

  lemma CatServed(x: Ctx, m: Meaning, l: Subre, l2: Node, r: Subre, r2: Node, f: Flags, ps: Terms)
    requires Finished(x, m, l, l2) && Finished(x, m, r, r2) && DotsServe(x, m, 0, ps) && !f.shorter
    ensures Finished(x, m, Concat(S.Dots(0), false, l, r), CatNode(f, Last(ps), l2, r2))
  {
    hide Means, S.Dots, Matches, WellFormed, NoReturn, Fits;
  }

  lemma LeavesServed(x: Ctx, m: Meaning)
    requires DotsServe(x, m, 0, End) && DotsServe(x, m, 0, Then(Again, End))
    ensures Finished(x, m, S.Empty, EmptyNode) && Finished(x, m, Backref(S.Dots(0), false, 1, 1, 1), RefNode(BACKR, Alone(Again), 1, 1, 1))
    ensures Finished(x, m, NoughtGroup, CapNode(CAP, Last(End), 1, EmptyNode))
  {
    hide Means, S.Dots, Matches, WellFormed, NoReturn, Fits;
    assert Finished(x, m, S.Empty, EmptyNode);
  }

  lemma PairServed(x: Ctx, m: Meaning)
    requires Finished(x, m, Nought, NoughtCopyNode) && DotsServe(x, m, 0, NoughtSeq)
    ensures Finished(x, m, NoughtPair, IterNode(BACKR, Last(NoughtSeq), NoughtCopyNode, 2, 2))
  {
    hide Means, S.Dots, Matches, WellFormed, NoReturn, Fits, Nought, NoughtCopyNode;
  }

  /** In "ab" it never comes to an end: it accepts the empty string at the start, and refuses it. */
  lemma NoughtEndless()
    ensures C.Endless(S.AbCtx, NoughtTree)
  {
    S.AbAccepts(0);
    var x := S.AbCtx;
    forall s: nat, f: nat | s < 1 && Acc(x, NoughtTree, s, f) ensures C.Refused(x, NoughtTree, s, f) { NoughtInVain(); }
    assert C.Stuck(x, NoughtTree, 0);
  }

  lemma NoughtInVain()
    ensures C.Refused(S.AbCtx, NoughtTree, 0, 0)
  {
    hide LeftBehind, Gained, S.Dots;
    PairVain();
    CatVain(NoughtPair, S.Empty, NoughtSet, NoughtSet, NoughtSet);
    EmptyGains(NoughtSet);
    CatVain(S.Empty, NoughtPairs, NoughtSet, NoughtSet, NoughtSet);
    GroupGains();
    CatVain(NoughtGroup, NoughtTail, map[], NoughtSet, NoughtSet);
    EmptyGains(map[]);
    CatVain(S.Empty, NoughtRest, map[], map[], NoughtSet);
    assert InVain(S.AbCtx, NoughtTree, 0, 0, map[]);
  }

  lemma PairVain()
    ensures LeftBehind(S.AbCtx, NoughtPair, 0, 0, NoughtSet, NoughtSet)
  {
    forall d ensures !Worth(S.AbCtx, NoughtPair, d, 0, 0) { R.NoneEmpty(S.AbCtx, NoughtPair, d, 0); }
  }

  lemma EmptyGains(c: Caps)
    requires CapsOk(S.AbCtx, c)
    ensures Gained(S.AbCtx, S.Empty, 0, 0, c, c)
  {
    assert Ok(S.AbCtx, S.Empty, Leaf, 0, 0, c) && Real(S.AbCtx, S.Empty, Leaf, 0, 0, c) && After(S.AbCtx, S.Empty, Leaf, 0, 0, c) == c;
  }

  lemma GroupGains()
    ensures Gained(S.AbCtx, NoughtGroup, 0, 0, map[], NoughtSet)
  {
    assert Ok(S.AbCtx, S.Empty, Leaf, 0, 0, map[]) && Real(S.AbCtx, S.Empty, Leaf, 0, 0, map[]);
    assert Ok(S.AbCtx, NoughtGroup, Cap(Leaf), 0, 0, map[]) && Real(S.AbCtx, NoughtGroup, Cap(Leaf), 0, 0, map[]);
    assert After(S.AbCtx, NoughtGroup, Cap(Leaf), 0, 0, map[]) == NoughtSet;
  }

  /** A concatenation of what only the empty string matches fails with either side. */
  lemma CatVain(l: Subre, r: Subre, c: Caps, c1: Caps, c2: Caps)
    requires l.cnfa == r.cnfa == S.Dots(0) && !l.shorter
    requires LeftBehind(S.AbCtx, l, 0, 0, c, c2) || (Gained(S.AbCtx, l, 0, 0, c, c1) && LeftBehind(S.AbCtx, r, 0, 0, c1, c2))
    ensures LeftBehind(S.AbCtx, Concat(S.Dots(0), false, l, r), 0, 0, c, c2)
  {
    var x, t := S.AbCtx, Concat(S.Dots(0), false, l, r);
    S.AbAccepts(0);
    hide Matches, S.Dots, Gained;
    MidpointFails(t, c, c1, c2);
    assert LastTried(x, l, 0, 0, 0);
    hide MidpointLeft, MidpointVain;
  }

  lemma MidpointFails(t: Subre, c: Caps, c1: Caps, c2: Caps)
    requires t.Concat? && Acc(S.AbCtx, t.right, 0, 0)
    requires LeftBehind(S.AbCtx, t.left, 0, 0, c, c2) || (Gained(S.AbCtx, t.left, 0, 0, c, c1) && LeftBehind(S.AbCtx, t.right, 0, 0, c1, c2))
    ensures MidpointLeft(S.AbCtx, t, 0, 0, 0, c, c2) && MidpointVain(S.AbCtx, t, 0, 0, 0, c)
  {
    hide Acc, Gained;
  }
}
