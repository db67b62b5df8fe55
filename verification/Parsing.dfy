/** The subexpression tree as parse(), parsebranch() and parseqatom() build it, regcomp.c:650-1273, with the flags that
    decide which parts of a regex become nodes of their own, and what holds of every tree built this way. */
module Parsing {
  import opened Options
  import opened Cnfa
  import opened Subres

  // ---------------------------------------------------------------- what there is to parse

  datatype Prefer = Indifferent | Longer | Shorter

  /** Branches separated by '|'. */
  datatype Bars = Last(branch: Terms) | Or(branch: Terms, rest: Bars)

  datatype Terms = End | Then(head: Term, tail: Terms)

  /** A constraint, or an atom with its quantifier ({1,1} without preference if it has none). */
  datatype Term = Constraint(id: nat) | Quantified(atom: Atom, min: nat, max: nat, prefer: Prefer)

  /** Characters, a capturing or another group, a back reference. */
  datatype Atom = Simple(id: nat) | Group(subno: nat, inner: Bars) | Bare(inner: Bars) | Ref(subno: nat)

  /** What is left of an atom or constraint marked {0}: nothing. */
  predicate Cancelled(q: Term) { q.Quantified? && q.min == 0 && q.max == 0 }

  function Append(p: Terms, q: Terms): Terms {
    match p
    case End => q
    case Then(h, t) => Then(h, Append(t, q))
  }

  function Snoc(p: Terms, q: Term): Terms { Append(p, Then(q, End)) }

  lemma AppendSnoc(p: Terms, q: Term, r: Terms)
    ensures Append(Snoc(p, q), r) == Append(p, Then(q, r))
  {
  }

  function Alone(q: Term): Bars { Last(Then(q, End)) }

  // ---------------------------------------------------------------- flags

  /** The flags of a node (regguts.h:351-358). */
  datatype Flags = Flags(longer: bool, shorter: bool, mixed: bool, cap: bool, backr: bool)

  const NONE := Flags(false, false, false, false, false)
  const LONGER := Flags(true, false, false, false, false)
  const SHORTER := Flags(false, true, false, false, false)
  const CAP := Flags(false, false, false, true, false)
  const BACKR := Flags(false, false, false, false, true)

  function Both(f: Flags, g: Flags): Flags {
    Flags(f.longer || g.longer, f.shorter || g.shorter, f.mixed || g.mixed, f.cap || g.cap, f.backr || g.backr)
  }

  /** UP(): preferences do not propagate, but two that differ do. */
  function Up(f: Flags): Flags { Flags(false, false, f.mixed || (f.longer && f.shorter), f.cap, f.backr) }

  predicate Messy(f: Flags) { f.mixed || f.cap || f.backr }

  function Pref(f: Flags): Flags { Flags(f.longer, f.shorter, false, false, false) }

  function Combine(f: Flags, g: Flags): Flags { Both(Up(Both(f, g)), if Pref(f) != NONE then Pref(f) else Pref(g)) }

  function Wish(p: Prefer): Flags {
    match p
    case Indifferent => NONE
    case Longer => LONGER
    case Shorter => SHORTER
  }

  // ---------------------------------------------------------------- the tree

  /** A node, with the part of the regex that lies between its two states. */
  datatype Node =
    | PlainNode(flags: Flags, span: Bars)
    | RefNode(flags: Flags, span: Bars, subno: nat, min: nat, max: nat)
    | CatNode(flags: Flags, span: Bars, left: Node, right: Node)
    | AltNode(flags: Flags, span: Bars, left: Node, next: Option<Node>)
    | IterNode(flags: Flags, span: Bars, left: Node, min: nat, max: nat)
    | CapNode(flags: Flags, span: Bars, subno: nat, left: Node)

  /** parse(), regcomp.c:650-721. */
  function ParseBars(bs: Bars): Node
    decreases bs, 2
  {
    match bs
    case Last(p) => ParseBranch(p)
    case Or(_, _) =>
      var t := Chain(bs, bs, LONGER);
      if Messy(t.flags) then t else PlainNode(t.flags, bs)
  }

  /** The flags a '|' node gets from its branch (regcomp.c:688). */
  function FromBranch(l: Node): Flags { Both(LONGER, Up(Both(LONGER, l.flags))) }

  /** The chain of '|' nodes, all strung between the same states; seen are the flags of the first one so far. Those of
      a branch go to all nodes before it if they are new there (regcomp.c:689-693). */
  function Chain(all: Bars, bs: Bars, seen: Flags): Node
    decreases bs, 1
  {
    var l := ParseBranch(bs.branch);
    var f := FromBranch(l);
    match bs
    case Last(_) => AltNode(f, all, l, None)
    case Or(_, rest) => AltNode(Both(f, News(rest, Both(seen, f))), all, l, Some(Chain(all, rest, Both(seen, f))))
  }

  function News(bs: Bars, seen: Flags): Flags
    decreases bs, 1
  {
    var f := FromBranch(ParseBranch(bs.branch));
    var own := if Both(seen, f) != seen then f else NONE;
    match bs
    case Last(_) => own
    case Or(_, rest) => Both(own, News(rest, Both(seen, f)))
  }

  /** parsebranch(), regcomp.c:732-770. */
  function ParseBranch(ps: Terms): Node
    decreases ps, 2
  {
    Branch(End, NONE, ps)
  }

  /** parseqatom(), regcomp.c:781-1273, once for each piece: before is what the '=' node at the top has taken in, f its
      flags. What is messy gets nodes of its own, and so does all that follows it. */
  function Branch(before: Terms, f: Flags, ps: Terms): Node
    decreases ps, 1
  {
    match ps
    case End => PlainNode(f, Last(before))
    case Then(q, rest) =>
      if Absorbed(f, q) then Branch(Snoc(before, q), Taking(f, q), rest)
      else Split(before, f, ps, AtomNode(q.atom), ParseBranch(rest))
  }

  /** The flags of the '=' node with one more piece (regcomp.c:1088-1098). */
  function Taking(f: Flags, q: Term): Flags
    decreases q, 1
  {
    if q.Constraint? || Cancelled(q) then f else Both(Both(f, Wish(q.prefer)), AtomNode(q.atom).flags)
  }

  /** Not the hard part (regcomp.c:1072-1098). */
  predicate Absorbed(f: Flags, q: Term)
    decreases q, 2
  {
    q.Constraint? || Cancelled(q) || (!q.atom.Group? && !q.atom.Ref? && !Messy(Up(Taking(f, q))))
  }

  /** The hard part (regcomp.c:1101-1272): the top is split into what came before and the rest, the rest into the
      quantified atom and what follows. */
  function Split(before: Terms, f: Flags, ps: Terms, a: Node, right: Node): Node
    requires ps.Then? && ps.head.Quantified?
  {
    var w := Combine(Wish(ps.head.prefer), a.flags);
    var tf := Both(w, Combine(w, right.flags));
    var t := CatNode(tf, Last(ps), Body(ps.head, a, w), right);
    CatNode(Both(f, Combine(f, tf)), Last(Append(before, ps)), PlainNode(f, Last(before)), t)
  }

  function AtomNode(a: Atom): Node
    decreases a, 0
  {
    match a
    case Simple(_) => PlainNode(NONE, Alone(Quantified(a, 1, 1, Indifferent)))
    case Group(n, inner) => CapNode(Both(ParseBars(inner).flags, CAP), inner, n, ParseBars(inner))
    case Bare(inner) => ParseBars(inner)
    case Ref(n) => RefNode(BACKR, Alone(Quantified(a, 1, 1, Indifferent)), n, 1, 1)
  }

  /** The atom with its quantifier (regcomp.c:1188-1256): a back reference takes it in, x{m,n} without one becomes
      x{m-1,n-1}x, and what may not occur at all an iteration. */
  function Body(q: Term, a: Node, w: Flags): Node
    requires q.Quantified?
  {
    if q.atom.Ref? then RefNode(Both(a.flags, w), Alone(q), q.atom.subno, q.min, q.max)
    else if q.min == 1 && q.max == 1 then a
    else if q.min > 0 && !a.flags.backr then CatNode(w, Alone(q), PlainNode(Pref(w), Alone(OneLess(q))), a)
    else IterNode(w, Alone(q), a, q.min, q.max)
  }

  function OneLess(q: Term): Term
    requires q.Quantified? && q.min > 0
  {
    q.(min := q.min - 1, max := if q.max == DUPINF || q.max == 0 then q.max else q.max - 1)
  }

  // ---------------------------------------------------------------- what the regex means

  /** What is matched by the characters and constraints, and by the automaton of a group a back reference stands for. */
  datatype Meaning = Meaning(simple: (nat, nat, nat) -> bool, group: (nat, nat, nat) -> bool, stop: nat)

  ghost predicate Means(m: Meaning, bs: Bars, b: nat, e: nat)
    decreases bs
  {
    MeansSeq(m, bs.branch, b, e) || (bs.Or? && Means(m, bs.rest, b, e))
  }

  ghost predicate MeansSeq(m: Meaning, ps: Terms, b: nat, e: nat)
    decreases ps
  {
    if ps.End? then b == e <= m.stop
    else exists k: nat :: MeansTerm(m, ps.head, b, k) && MeansSeq(m, ps.tail, k, e)
  }

  ghost predicate MeansTerm(m: Meaning, q: Term, b: nat, e: nat)
    decreases q
  {
    match q
    case Constraint(i) => b <= e <= m.stop && m.simple(i, b, e)
    case Quantified(a, min, max, _) =>
      b <= e <= m.stop && exists ends: seq<nat> :: Endpoints(ends, b, e, min, max) && forall i :: 0 <= i < |ends| - 1 ==> MeansAtom(m, a, ends[i], ends[i + 1])
  }

  ghost predicate Endpoints(ends: seq<nat>, b: nat, e: nat, min: nat, max: nat) {
    |ends| >= 1 && ends[0] == b && ends[|ends| - 1] == e && Allowed(|ends| - 1, min, max)
  }

  ghost predicate MeansAtom(m: Meaning, a: Atom, b: nat, e: nat)
    decreases a
  {
    match a
    case Simple(i) => b <= e <= m.stop && m.simple(i, b, e)
    case Group(_, inner) => Means(m, inner, b, e)
    case Bare(inner) => Means(m, inner, b, e)
    case Ref(n) => b <= e <= m.stop && m.group(n, b, e)
  }

  // ---------------------------------------------------------------- groups and back references

  predicate HasRef(bs: Bars) { SeqHasRef(bs.branch) || (bs.Or? && HasRef(bs.rest)) }

  predicate SeqHasRef(ps: Terms) { ps.Then? && (TermHasRef(ps.head) || SeqHasRef(ps.tail)) }

  predicate TermHasRef(q: Term) { q.Quantified? && !Cancelled(q) && AtomHasRef(q.atom) }

  predicate AtomHasRef(a: Atom) {
    match a
    case Simple(_) => false
    case Group(_, inner) => HasRef(inner)
    case Bare(inner) => HasRef(inner)
    case Ref(_) => true
  }

  /** The numbers of the groups that are not cancelled. */
  function Groups(bs: Bars): set<nat> { SeqGroups(bs.branch) + if bs.Or? then Groups(bs.rest) else {} }

  function SeqGroups(ps: Terms): set<nat> { if ps.End? then {} else TermGroups(ps.head) + SeqGroups(ps.tail) }

  function TermGroups(q: Term): set<nat> { if q.Quantified? && !Cancelled(q) then AtomGroups(q.atom) else {} }

  function AtomGroups(a: Atom): set<nat> {
    match a
    case Simple(_) => {}
    case Group(n, inner) => Groups(inner) + {n}
    case Bare(inner) => Groups(inner)
    case Ref(_) => {}
  }

  // ---------------------------------------------------------------- what the flags tell

  lemma {:induction false} NewsAll(bs: Bars, seen: Flags)
    ensures Both(seen, News(bs, seen)) == Both(seen, AllFlags(bs))
    decreases bs
  {
    var f := FromBranch(ParseBranch(bs.branch));
    if bs.Or? { NewsAll(bs.rest, Both(seen, f)); }
  }

  function AllFlags(bs: Bars): Flags {
    var f := FromBranch(ParseBranch(bs.branch));
    if bs.Or? then Both(f, AllFlags(bs.rest)) else f
  }

  /** The flags say exactly whether there are groups and back references. */
  lemma {:induction false} FlagsTell(bs: Bars)
    ensures var f := ParseBars(bs).flags; (f.backr <==> HasRef(bs)) && (f.cap <==> Groups(bs) != {})
    decreases bs, 1
  {
    BranchFlagsTell(End, NONE, bs.branch);
    if bs.Or? {
      AllTell(bs);
      NewsAll(bs.rest, FromBranch(ParseBranch(bs.branch)));
    }
  }

  lemma {:induction false} AllTell(bs: Bars)
    ensures var f := AllFlags(bs); (f.backr <==> HasRef(bs)) && (f.cap <==> Groups(bs) != {})
    decreases bs, 0
  {
    BranchFlagsTell(End, NONE, bs.branch);
    if bs.Or? { AllTell(bs.rest); }
  }

  lemma {:induction false} BranchFlagsTell(before: Terms, f: Flags, ps: Terms)
    ensures var g := Branch(before, f, ps).flags; (g.backr <==> f.backr || SeqHasRef(ps)) && (g.cap <==> f.cap || SeqGroups(ps) != {})
    decreases ps
  {
    if ps.Then? {
      var q, rest := ps.head, ps.tail;
      TakingTells(f, q);
      if Absorbed(f, q) {
        BranchFlagsTell(Snoc(before, q), Taking(f, q), rest);
      } else {
        BranchFlagsTell(End, NONE, rest);
        SplitTells(before, f, ps, AtomNode(q.atom), ParseBranch(rest));
        hide Absorbed, Split, AtomNode;
      }
    }
  }

  lemma SplitTells(before: Terms, f: Flags, ps: Terms, a: Node, right: Node)
    requires ps.Then? && ps.head.Quantified?
    ensures var g := Split(before, f, ps, a, right).flags;
      (g.backr <==> f.backr || a.flags.backr || right.flags.backr) && (g.cap <==> f.cap || a.flags.cap || right.flags.cap)
  {
    hide Body, Append;
  }

  lemma {:induction false} TakingTells(f: Flags, q: Term)
    ensures var g := Taking(f, q); (g.backr <==> f.backr || TermHasRef(q)) && (g.cap <==> f.cap || TermGroups(q) != {})
    decreases q, 1
  {
    if q.Quantified? && !Cancelled(q) { AtomFlagsTell(q.atom); }
  }

  lemma {:induction false} AtomFlagsTell(a: Atom)
    ensures var f := AtomNode(a).flags; (f.backr <==> AtomHasRef(a)) && (f.cap <==> AtomGroups(a) != {})
    decreases a, 1
  {
    if a.Group? || a.Bare? { FlagsTell(a.inner); }
  }

  // ---------------------------------------------------------------- spans

  lemma {:induction false} BranchSpan(before: Terms, f: Flags, ps: Terms)
    ensures Branch(before, f, ps).span == Last(Append(before, ps))
    decreases ps
  {
    match ps
    case End => AppendEnd(before);
    case Then(q, rest) =>
      if Absorbed(f, q) {
        BranchSpan(Snoc(before, q), Taking(f, q), rest);
        AppendSnoc(before, q, rest);
      }
  }

  lemma AppendEnd(p: Terms)
    ensures Append(p, End) == p
  {
  }

  lemma ParseSpan(bs: Bars)
    ensures ParseBars(bs).span == bs
  {
    if bs.Last? { BranchSpan(End, NONE, bs.branch); }
  }

  lemma {:induction false} SeqStep(m: Meaning, ps: Terms, b: nat, e: nat) returns (k: nat)
    requires ps.Then? && MeansSeq(m, ps, b, e)
    ensures MeansTerm(m, ps.head, b, k) && MeansSeq(m, ps.tail, k, e)
  {
    assert MeansSeq(m, ps, b, e);
    k :| MeansTerm(m, ps.head, b, k) && MeansSeq(m, ps.tail, k, e);
  }

  lemma {:induction false} SeqJoin(m: Meaning, ps: Terms, b: nat, k: nat, e: nat)
    requires ps.Then? && MeansTerm(m, ps.head, b, k) && MeansSeq(m, ps.tail, k, e)
    ensures MeansSeq(m, ps, b, e)
  {
  }

  lemma {:induction false} SeqWithin(m: Meaning, ps: Terms, b: nat, e: nat)
    requires MeansSeq(m, ps, b, e)
    ensures b <= e <= m.stop
    decreases ps
  {
    if ps.Then? {
      var k: nat :| MeansTerm(m, ps.head, b, k) && MeansSeq(m, ps.tail, k, e);
      SeqWithin(m, ps.tail, k, e);
    }
  }

  lemma {:induction false} BarsWithin(m: Meaning, bs: Bars, b: nat, e: nat)
    requires Means(m, bs, b, e)
    ensures b <= e <= m.stop
    decreases bs
  {
    if MeansSeq(m, bs.branch, b, e) { SeqWithin(m, bs.branch, b, e); } else { BarsWithin(m, bs.rest, b, e); }
  }

  lemma {:induction false} MeansAppend(m: Meaning, p: Terms, q: Terms, b: nat, e: nat)
    requires MeansSeq(m, Append(p, q), b, e)
    ensures exists k: nat :: MeansSeq(m, p, b, k) && MeansSeq(m, q, k, e)
    decreases p
  {
    if p.End? {
      SeqWithin(m, q, b, e);
      assert MeansSeq(m, p, b, b);
    } else {
      var k: nat :| MeansTerm(m, p.head, b, k) && MeansSeq(m, Append(p.tail, q), k, e);
      MeansAppend(m, p.tail, q, k, e);
      var l: nat :| MeansSeq(m, p.tail, k, l) && MeansSeq(m, q, l, e);
      assert MeansSeq(m, p, b, l);
    }
  }

  lemma AloneMeans(m: Meaning, q: Term, b: nat, e: nat)
    ensures Means(m, Alone(q), b, e) <==> MeansTerm(m, q, b, e)
  {
    assert MeansSeq(m, Then(q, End), b, e) <==> MeansTerm(m, q, b, e) by {
      if MeansTerm(m, q, b, e) { assert MeansSeq(m, End, e, e); }
    }
  }

  lemma OnceMeans(m: Meaning, q: Term, b: nat, e: nat)
    requires q.Quantified? && q.min == q.max == 1
    ensures MeansTerm(m, q, b, e) <==> MeansAtom(m, q.atom, b, e)
  {
    if MeansAtom(m, q.atom, b, e) {
      if q.atom.Group? || q.atom.Bare? { BarsWithin(m, q.atom.inner, b, e); }
      var ends := [b, e];
      assert Endpoints(ends, b, e, 1, 1) && forall i :: 0 <= i < |ends| - 1 ==> MeansAtom(m, q.atom, ends[i], ends[i + 1]);
    }
    if MeansTerm(m, q, b, e) {
      var ends: seq<nat> :| Endpoints(ends, b, e, 1, 1) && forall i :: 0 <= i < |ends| - 1 ==> MeansAtom(m, q.atom, ends[i], ends[i + 1]);
      assert MeansAtom(m, q.atom, ends[0], ends[1]);
    }
  }

  lemma AtomMeans(m: Meaning, a: Atom, b: nat, e: nat)
    ensures Means(m, AtomNode(a).span, b, e) <==> MeansAtom(m, a, b, e)
  {
    match a
    case Simple(_) =>
      AloneMeans(m, Quantified(a, 1, 1, Indifferent), b, e);
      OnceMeans(m, Quantified(a, 1, 1, Indifferent), b, e);
    case Ref(_) =>
      AloneMeans(m, Quantified(a, 1, 1, Indifferent), b, e);
      OnceMeans(m, Quantified(a, 1, 1, Indifferent), b, e);
    case Bare(inner) => ParseSpan(inner);
    case Group(_, _) =>
  }

  lemma BodyMeans(m: Meaning, q: Term, w: Flags, b: nat, e: nat)
    requires q.Quantified?
    ensures Means(m, Body(q, AtomNode(q.atom), w).span, b, e) <==> MeansTerm(m, q, b, e)
  {
    AloneMeans(m, q, b, e);
    if !q.atom.Ref? && q.min == 1 && q.max == 1 {
      AtomMeans(m, q.atom, b, e);
      OnceMeans(m, q, b, e);
    }
  }

  // ---------------------------------------------------------------- the finished tree

  ghost predicate Sound(x: Ctx, t: Subre) { WellFormed(t.cnfa) && NoReturn(t.cnfa) && Fits(t.cnfa, x.text) }

  /** t is the tree with the automata nfatree() has added, each accepting what lies between the states of its node. */
  ghost predicate Finished(x: Ctx, m: Meaning, t: Subre, n: Node)
    decreases n
  {
    && t.shorter == n.flags.shorter && Sound(x, t)
    && (forall b: nat, e: nat :: Acc(x, t, b, e) <==> Means(m, n.span, b, e))
    && match (t, n)
       case (Plain(_, _), PlainNode(_, _)) => true
       case (Backref(_, _, k, i, j), RefNode(_, _, k2, i2, j2)) => k == k2 && i == i2 && j == j2
       case (Concat(_, _, l, r), CatNode(_, _, l2, r2)) => Finished(x, m, l, l2) && Finished(x, m, r, r2)
       case (Alt(_, _, l, next), AltNode(_, _, l2, next2)) =>
         Finished(x, m, l, l2) && (next.Some? <==> next2.Some?) && (next.Some? ==> next.value.Alt? && next2.value.AltNode? && Finished(x, m, next.value, next2.value))
       case (Iter(_, _, l, i, j), IterNode(_, _, l2, i2, j2)) => i == i2 && j == j2 && Finished(x, m, l, l2)
       case (Capture(_, _, k, l), CapNode(_, _, k2, l2)) => k == k2 && Finished(x, m, l, l2)
       case _ => false
  }

  /** No earlier alternative has both a group and a back reference. */
  predicate TidyBars(bs: Bars) {
    TidySeq(bs.branch) && (bs.Or? ==> TidyBars(bs.rest) && (SeqGroups(bs.branch) == {} || !SeqHasRef(bs.branch)))
  }

  predicate TidySeq(ps: Terms) { ps.Then? ==> TidyTerm(ps.head) && TidySeq(ps.tail) }

  predicate TidyTerm(q: Term) { q.Quantified? && !Cancelled(q) ==> TidyAtom(q.atom) }

  predicate TidyAtom(a: Atom) { a.Group? || a.Bare? ==> TidyBars(a.inner) }

  lemma {:induction false} NoGroupsTidy(bs: Bars)
    requires Groups(bs) == {}
    ensures TidyBars(bs)
    decreases bs
  {
    NoGroupsTidySeq(bs.branch);
    if bs.Or? { NoGroupsTidy(bs.rest); }
  }

  lemma {:induction false} NoGroupsTidySeq(ps: Terms)
    requires SeqGroups(ps) == {}
    ensures TidySeq(ps)
    decreases ps
  {
    if ps.Then? {
      NoGroupsTidySeq(ps.tail);
      var q := ps.head;
      GroupShows(q);
      assert TermGroups(q) <= SeqGroups(ps);
      if q.Quantified? && !Cancelled(q) && q.atom.Bare? { NoGroupsTidy(q.atom.inner); }
    }
  }

  lemma GroupShows(q: Term)
    ensures q.Quantified? && !Cancelled(q) && q.atom.Group? ==> q.atom.subno in TermGroups(q)
  {
  }

  // Groups are numbered apart (v->nsubexp++), bounds are in order, back references are to groups that are captured.

  predicate Sane(bs: Bars, nmatch: nat) {
    SaneSeq(bs.branch, nmatch) && (bs.Or? ==> Sane(bs.rest, nmatch) && SeqGroups(bs.branch) !! Groups(bs.rest))
  }

  predicate SaneSeq(ps: Terms, nmatch: nat) {
    ps.Then? ==> SaneTerm(ps.head, nmatch) && SaneSeq(ps.tail, nmatch) && TermGroups(ps.head) !! SeqGroups(ps.tail)
  }

  predicate SaneTerm(q: Term, nmatch: nat) {
    q.Quantified? && !Cancelled(q) ==> q.min <= q.max <= DUPINF && SaneAtom(q.atom, nmatch)
  }

  predicate SaneAtom(a: Atom, nmatch: nat) {
    match a
    case Simple(_) => true
    case Group(n, inner) => Sane(inner, nmatch) && n !in Groups(inner)
    case Bare(inner) => Sane(inner, nmatch)
    case Ref(n) => n < nmatch
  }

  /** What a finished tree is like: complete if and only if there is no back reference, with exactly the groups of the
      regex, tidy if and only if the regex is, and fit for dissection if the regex is sane. */
  ghost predicate Tells(x: Ctx, t: Subre, refs: bool, groups: set<nat>, tidy: bool, sane: bool) {
    (Complete(x, t) <==> !refs) && Subs(t) == groups && (Tidy(x, t) <==> tidy) && (sane ==> Usable(x, t))
  }

  lemma {:induction false} TreeTells(x: Ctx, m: Meaning, bs: Bars, t: Subre)
    requires Finished(x, m, t, ParseBars(bs))
    ensures Tells(x, t, HasRef(bs), Groups(bs), TidyBars(bs), Sane(bs, x.nmatch))
    decreases bs, 2
  {
    if bs.Last? {
      assert ParseBars(bs) == Branch(End, NONE, bs.branch);
      BranchTells(x, m, End, NONE, bs.branch, t);
    } else {
      FlagsTell(bs);
      if Messy(Chain(bs, bs, LONGER).flags) {
        ChainTells(x, m, bs, bs, LONGER, t);
        forall b: nat, e: nat | Acc(x, t, b, e) ensures exists i :: BranchTakes(x, t, i, b, e) { ChainTakes(x, m, bs, bs, LONGER, t, b, e); }
      } else {
        NoGroupsTidy(bs);
      }
    }
  }

  lemma {:induction false} ChainTakes(x: Ctx, m: Meaning, all: Bars, bs: Bars, seen: Flags, t: Subre, b: nat, e: nat)
    requires Finished(x, m, t, Chain(all, bs, seen)) && Means(m, bs, b, e)
    ensures exists i :: BranchTakes(x, t, i, b, e)
    decreases bs
  {
    var l := ParseBranch(bs.branch);
    if MeansSeq(m, bs.branch, b, e) {
      BranchSpan(End, NONE, bs.branch);
      assert BranchTakes(x, t, 0, b, e);
    } else {
      ChainTakes(x, m, all, bs.rest, Both(seen, FromBranch(l)), t.next.value, b, e);
      var i: nat :| BranchTakes(x, t.next.value, i, b, e);
      assert BranchTakes(x, t, i + 1, b, e);
    }
  }

  lemma {:induction false} ChainTells(x: Ctx, m: Meaning, all: Bars, bs: Bars, seen: Flags, t: Subre)
    requires Finished(x, m, t, Chain(all, bs, seen))
    ensures t.Alt? && (BranchesComplete(x, t) <==> !HasRef(bs)) && Subs(t) == Groups(bs) && (Tidy(x, t) <==> TidyBars(bs))
    ensures Sane(bs, x.nmatch) ==> Usable(x, t)
    decreases bs, 1
  {
    var l := ParseBranch(bs.branch);
    BranchTells(x, m, End, NONE, bs.branch, t.left);
    if bs.Or? { ChainTells(x, m, all, bs.rest, Both(seen, FromBranch(l)), t.next.value); }
  }

  lemma PlainTells(x: Ctx, t: Subre)
    requires t.Plain? && Sound(x, t)
    ensures Tells(x, t, false, {}, true, true)
  {
  }

  lemma {:induction false} BranchTells(x: Ctx, m: Meaning, before: Terms, f: Flags, ps: Terms, t: Subre)
    requires Finished(x, m, t, Branch(before, f, ps))
    ensures Tells(x, t, SeqHasRef(ps), SeqGroups(ps), TidySeq(ps), SaneSeq(ps, x.nmatch))
    decreases ps, 1
  {
    hide Complete, Usable, Tidy, Subs, WellFormed, NoReturn, Fits, Means;
    if ps.End? {
      PlainTells(x, t);
    } else {
      var q, rest := ps.head, ps.tail;
      if Absorbed(f, q) {
        BranchTells(x, m, Snoc(before, q), Taking(f, q), rest, t);
        AbsorbedPlain(f, q);
      } else {
        SplitComplete(x, m, before, f, ps, t);
        BodyTells(x, m, q, Combine(Wish(q.prefer), AtomNode(q.atom).flags), t.right.left);
        BranchTells(x, m, End, NONE, rest, t.right.right);
        TwoSplits(x, t, TermHasRef(q), TermGroups(q), TidyTerm(q), SaneTerm(q, x.nmatch), SeqHasRef(rest), SeqGroups(rest), TidySeq(rest), SaneSeq(rest, x.nmatch));
        hide Tells;
      }
    }
  }

  lemma TwoSplits(x: Ctx, t: Subre, refs: bool, groups: set<nat>, tidy: bool, sane: bool, refs2: bool, groups2: set<nat>, tidy2: bool, sane2: bool)
    requires t.Concat? && t.right.Concat? && t.left.Plain? && (Complete(x, t) <==> Complete(x, t.right.left) && Complete(x, t.right.right))
    requires Tells(x, t.right.left, refs, groups, tidy, sane) && Tells(x, t.right.right, refs2, groups2, tidy2, sane2)
    requires Sound(x, t) && Sound(x, t.left) && Sound(x, t.right)
    ensures Tells(x, t, refs || refs2, groups + groups2, tidy && tidy2, sane && sane2 && groups !! groups2)
  {
    hide Complete, WellFormed, NoReturn, Fits;
    assert Subs(t.left) == {} && Tidy(x, t.left);
    assert Subs(t.right) == groups + groups2 && (Tidy(x, t.right) <==> tidy && tidy2);
    assert Usable(x, t.left);
    assert sane && sane2 && groups !! groups2 ==> Usable(x, t.right);
  }

  lemma AbsorbedPlain(f: Flags, q: Term)
    requires Absorbed(f, q)
    ensures !TermHasRef(q) && TermGroups(q) == {} && TidyTerm(q)
  {
    TakingTells(f, q);
    if q.Quantified? && !Cancelled(q) && q.atom.Bare? { NoGroupsTidy(q.atom.inner); }
  }

  /** Whatever the two new nodes accept can be split between their children. */
  lemma SplitComplete(x: Ctx, m: Meaning, before: Terms, f: Flags, ps: Terms, t: Subre)
    requires ps.Then? && ps.head.Quantified? && Finished(x, m, t, Split(before, f, ps, AtomNode(ps.head.atom), ParseBranch(ps.tail)))
    ensures t.Concat? && t.right.Concat? && t.left.Plain?
    ensures Complete(x, t) <==> Complete(x, t.right.left) && Complete(x, t.right.right)
  {
    var q, u := ps.head, t.right;
    forall b: nat, e: nat | Acc(x, t, b, e) ensures exists k :: Splits(x, t.left, u, b, k, e) { TopSplits(x, m, before, f, ps, t, b, e); }
    forall b: nat, e: nat | Acc(x, u, b, e) ensures exists k :: Splits(x, u.left, u.right, b, k, e) {
      RestSplits(x, m, Combine(Wish(q.prefer), AtomNode(q.atom).flags), ps, u, b, e);
    }
    TwoComplete(x, t);
    hide Finished, Means, Complete;
  }

  lemma TwoComplete(x: Ctx, t: Subre)
    requires t.Concat? && t.right.Concat? && t.left.Plain?
    requires forall b: nat, e: nat :: Acc(x, t, b, e) ==> exists k :: Splits(x, t.left, t.right, b, k, e)
    requires forall b: nat, e: nat :: Acc(x, t.right, b, e) ==> exists k :: Splits(x, t.right.left, t.right.right, b, k, e)
    ensures Complete(x, t) <==> Complete(x, t.right.left) && Complete(x, t.right.right)
  {
    hide Acc, Splits;
  }

  lemma TopSplits(x: Ctx, m: Meaning, before: Terms, f: Flags, ps: Terms, t: Subre, b: nat, e: nat)
    requires ps.Then? && ps.head.Quantified? && Finished(x, m, t, Split(before, f, ps, AtomNode(ps.head.atom), ParseBranch(ps.tail)))
    requires Acc(x, t, b, e)
    ensures t.Concat? && exists k :: Splits(x, t.left, t.right, b, k, e)
  {
    assert MeansSeq(m, Append(before, ps), b, e);
    MeansAppend(m, before, ps, b, e);
    var k: nat :| MeansSeq(m, before, b, k) && MeansSeq(m, ps, k, e);
    assert Means(m, Last(before), b, k) && Means(m, Last(ps), k, e);
    assert Splits(x, t.left, t.right, b, k, e);
  }

  lemma RestSplits(x: Ctx, m: Meaning, w: Flags, ps: Terms, u: Subre, b: nat, e: nat)
    requires ps.Then? && ps.head.Quantified? && u.Concat? && Finished(x, m, u.left, Body(ps.head, AtomNode(ps.head.atom), w))
    requires Finished(x, m, u.right, ParseBranch(ps.tail)) && Means(m, Last(ps), b, e)
    ensures exists k :: Splits(x, u.left, u.right, b, k, e)
  {
    assert MeansSeq(m, ps, b, e);
    var k: nat :| MeansTerm(m, ps.head, b, k) && MeansSeq(m, ps.tail, k, e);
    BodyMeans(m, ps.head, w, b, k);
    BranchSpan(End, NONE, ps.tail);
    assert ParseBranch(ps.tail).span == Last(ps.tail);
    assert Means(m, Last(ps.tail), k, e);
    assert Splits(x, u.left, u.right, b, k, e);
  }

  lemma {:induction false} AtomTells(x: Ctx, m: Meaning, a: Atom, t: Subre)
    requires Finished(x, m, t, AtomNode(a))
    ensures Tells(x, t, AtomHasRef(a), AtomGroups(a), TidyAtom(a), SaneAtom(a, x.nmatch))
    decreases a
  {
    match a
    case Group(n, inner) =>
      ParseSpan(inner);
      TreeTells(x, m, inner, t.left);
    case Bare(inner) => TreeTells(x, m, inner, t);
    case _ =>
  }

  lemma {:induction false} BodyTells(x: Ctx, m: Meaning, q: Term, w: Flags, t: Subre)
    requires q.Quantified? && !Cancelled(q) && Finished(x, m, t, Body(q, AtomNode(q.atom), w))
    ensures Tells(x, t, TermHasRef(q), TermGroups(q), TidyTerm(q), SaneTerm(q, x.nmatch))
    decreases q
  {
    AtomFlagsTell(q.atom);
    if q.atom.Ref? {
      RefTells(x, m, q, w, t);
    } else if q.min == 1 && q.max == 1 {
      AtomTells(x, m, q.atom, t);
    } else if q.min > 0 && !AtomNode(q.atom).flags.backr {
      AtomTells(x, m, q.atom, t.right);
      PrefixTells(x, m, q, w, t);
    } else {
      AtomTells(x, m, q.atom, t.left);
      IterTells(x, m, q, w, t);
    }
  }

  lemma RefTells(x: Ctx, m: Meaning, q: Term, w: Flags, t: Subre)
    requires q.Quantified? && q.atom.Ref? && !Cancelled(q) && Finished(x, m, t, Body(q, AtomNode(q.atom), w))
    ensures Tells(x, t, true, {}, true, SaneTerm(q, x.nmatch)) && TermHasRef(q) && TermGroups(q) == {} && TidyTerm(q)
  {
    assert t.Backref? && t.subno == q.atom.subno && t.min == q.min && t.max == q.max;
    assert SaneTerm(q, x.nmatch) ==> SaneAtom(q.atom, x.nmatch) && q.atom.subno < x.nmatch;
  }

  lemma PrefixTells(x: Ctx, m: Meaning, q: Term, w: Flags, t: Subre)
    requires q.Quantified? && q.min > 0 && !q.atom.Ref? && !(q.min == 1 && q.max == 1) && !AtomNode(q.atom).flags.backr
    requires Finished(x, m, t, Body(q, AtomNode(q.atom), w))
    requires Tells(x, t.right, AtomHasRef(q.atom), AtomGroups(q.atom), TidyAtom(q.atom), SaneAtom(q.atom, x.nmatch))
    ensures Tells(x, t, TermHasRef(q), TermGroups(q), TidyTerm(q), SaneTerm(q, x.nmatch))
  {
    forall b: nat, e: nat | Acc(x, t, b, e) ensures exists k :: Splits(x, t.left, t.right, b, k, e) { PrefixSplits(x, m, q, w, t, b, e); }
    assert t.left.Plain? && Complete(x, t.left) && Subs(t.left) == {} && Tidy(x, t.left) && Usable(x, t.left);
  }

  lemma IterTells(x: Ctx, m: Meaning, q: Term, w: Flags, t: Subre)
    requires q.Quantified? && !Cancelled(q) && Body(q, AtomNode(q.atom), w) == IterNode(w, Alone(q), AtomNode(q.atom), q.min, q.max)
    requires q.min == 0 || AtomHasRef(q.atom)
    requires Finished(x, m, t, Body(q, AtomNode(q.atom), w))
    requires Tells(x, t.left, AtomHasRef(q.atom), AtomGroups(q.atom), TidyAtom(q.atom), SaneAtom(q.atom, x.nmatch))
    ensures Tells(x, t, TermHasRef(q), TermGroups(q), TidyTerm(q), SaneTerm(q, x.nmatch))
  {
    forall b: nat, e: nat | Acc(x, t, b, e) ensures Divides(x, t.left, q.min, q.max, b, e) { IterDivides(x, m, q, w, t, b, e); }
    hide Acc, WellFormed, NoReturn, Fits, Divides;
  }

  /** x{m,n} is x{m-1,n-1}x. */
  lemma PrefixSplits(x: Ctx, m: Meaning, q: Term, w: Flags, t: Subre, b: nat, e: nat)
    requires q.Quantified? && q.min > 0 && !q.atom.Ref? && !(q.min == 1 && q.max == 1) && !AtomNode(q.atom).flags.backr
    requires Finished(x, m, t, Body(q, AtomNode(q.atom), w)) && Acc(x, t, b, e)
    ensures exists k :: Splits(x, t.left, t.right, b, k, e)
  {
    AloneMeans(m, q, b, e);
    var k := LastOff(m, q, b, e);
    AloneMeans(m, OneLess(q), b, k);
    AtomMeans(m, q.atom, k, e);
    assert Splits(x, t.left, t.right, b, k, e);
  }

  lemma LastOff(m: Meaning, q: Term, b: nat, e: nat) returns (k: nat)
    requires q.Quantified? && q.min > 0 && MeansTerm(m, q, b, e)
    ensures MeansTerm(m, OneLess(q), b, k) && MeansAtom(m, q.atom, k, e)
  {
    var ends: seq<nat> :| Endpoints(ends, b, e, q.min, q.max) && forall i :: 0 <= i < |ends| - 1 ==> MeansAtom(m, q.atom, ends[i], ends[i + 1]);
    var n := |ends| - 1;
    k := ends[n - 1];
    var front, p := ends[..n], OneLess(q);
    assert MeansAtom(m, q.atom, ends[n - 1], ends[n - 1 + 1]);
    EndsWithin(m, q.atom, ends, n - 1);
    forall i | 0 <= i < |front| - 1 ensures MeansAtom(m, q.atom, front[i], front[i + 1]) {
      assert front[i] == ends[i] && front[i + 1] == ends[i + 1];
    }
    assert Endpoints(front, b, k, p.min, p.max);
  }

  lemma {:induction false} EndsWithin(m: Meaning, a: Atom, ends: seq<nat>, k: nat)
    requires k < |ends| && ends[0] <= m.stop && forall i :: 0 <= i < |ends| - 1 ==> MeansAtom(m, a, ends[i], ends[i + 1])
    ensures ends[0] <= ends[k] <= m.stop
    decreases k
  {
    if k > 0 {
      EndsWithin(m, a, ends, k - 1);
      assert MeansAtom(m, a, ends[k - 1], ends[k - 1 + 1]);
      if a.Group? || a.Bare? { BarsWithin(m, a.inner, ends[k - 1], ends[k]); }
    }
  }

  lemma IterDivides(x: Ctx, m: Meaning, q: Term, w: Flags, t: Subre, b: nat, e: nat)
    requires q.Quantified? && Body(q, AtomNode(q.atom), w) == IterNode(w, Alone(q), AtomNode(q.atom), q.min, q.max)
    requires Finished(x, m, t, Body(q, AtomNode(q.atom), w)) && Acc(x, t, b, e)
    ensures Divides(x, t.left, q.min, q.max, b, e)
  {
    AloneMeans(m, q, b, e);
    var ends: seq<nat> :| Endpoints(ends, b, e, q.min, q.max) && forall i :: 0 <= i < |ends| - 1 ==> MeansAtom(m, q.atom, ends[i], ends[i + 1]);
    forall i | 0 <= i < |ends| - 1 ensures Piece(x, t.left, ends, i) { AtomMeans(m, q.atom, ends[i], ends[i + 1]); }
    assert Division(x, t.left, ends, b, e);
  }

  // ---------------------------------------------------------------- preferences

  /** Some quantifier outside of messy parts prefers this; alternation prefers longer. */
  predicate Wants(bs: Bars, p: Prefer) { SeqWants(bs.branch, p) || (bs.Or? && (p == Longer || Wants(bs.rest, p))) }

  predicate SeqWants(ps: Terms, p: Prefer) { ps.Then? && (TermWants(ps.head, p) || SeqWants(ps.tail, p)) }

  predicate TermWants(q: Term, p: Prefer) {
    q.Quantified? && !Cancelled(q) && (q.prefer == p || (q.atom.Bare? && Wants(q.atom.inner, p)))
  }

  predicate OneWay(f: Flags) { !(f.longer && f.shorter) }

  ghost predicate Exactly(f: Flags, l: bool, s: bool) { !Messy(f) ==> (f.longer <==> l) && (f.shorter <==> s) }

  /** No node prefers both, and what becomes one DFA holds no quantifier that prefers otherwise than the node does. */
  lemma {:induction false} FlagsAgree(bs: Bars)
    ensures var f := ParseBars(bs).flags; OneWay(f) && Exactly(f, Wants(bs, Longer), Wants(bs, Shorter))
    decreases bs, 1
  {
    BranchAgrees(End, NONE, bs.branch);
    if bs.Or? {
      AllAgree(bs);
      NewsAll(bs.rest, FromBranch(ParseBranch(bs.branch)));
    }
  }

  lemma {:induction false} AllAgree(bs: Bars)
    ensures var f := AllFlags(bs); f.longer && !f.shorter && (!Messy(f) ==> !Wants(bs, Shorter))
    decreases bs, 0
  {
    BranchAgrees(End, NONE, bs.branch);
    if bs.Or? { AllAgree(bs.rest); }
  }

  lemma {:induction false} BranchAgrees(before: Terms, f: Flags, ps: Terms)
    requires OneWay(f) && !Messy(f)
    ensures var g := Branch(before, f, ps).flags;
      OneWay(g) && Exactly(g, f.longer || SeqWants(ps, Longer), f.shorter || SeqWants(ps, Shorter))
    decreases ps
  {
    if ps.Then? {
      var q, rest := ps.head, ps.tail;
      if Absorbed(f, q) {
        TakingAgrees(f, q);
        BranchAgrees(Snoc(before, q), Taking(f, q), rest);
      } else {
        BranchAgrees(End, NONE, rest);
        AtomAgrees(q.atom);
        AtomFlagsTell(q.atom);
        SplitMessy(before, f, ps, AtomNode(q.atom), ParseBranch(rest));
        hide Absorbed, Split, AtomNode;
      }
    }
  }

  lemma {:induction false} TakingAgrees(f: Flags, q: Term)
    requires OneWay(f) && !Messy(f) && Absorbed(f, q)
    ensures var g := Taking(f, q); OneWay(g) && !Messy(g)
    ensures var g := Taking(f, q); (g.longer <==> f.longer || TermWants(q, Longer)) && (g.shorter <==> f.shorter || TermWants(q, Shorter))
    decreases q, 1
  {
    if q.Quantified? && !Cancelled(q) { AtomAgrees(q.atom); }
  }

  lemma {:induction false} AtomAgrees(a: Atom)
    ensures var f := AtomNode(a).flags; OneWay(f) && Exactly(f, a.Bare? && Wants(a.inner, Longer), a.Bare? && Wants(a.inner, Shorter))
    decreases a, 1
  {
    if a.Group? || a.Bare? { FlagsAgree(a.inner); }
  }

  /** The hard part leaves the top messy. */
  lemma SplitMessy(before: Terms, f: Flags, ps: Terms, a: Node, right: Node)
    requires ps.Then? && ps.head.Quantified? && OneWay(f) && OneWay(a.flags) && OneWay(right.flags)
    ensures var g := Split(before, f, ps, a, right).flags;
      OneWay(g) && (Messy(Up(Both(Both(f, Wish(ps.head.prefer)), a.flags))) ==> Messy(g))
  {
    hide Body, Append;
  }

  // ---------------------------------------------------------------- what every node prefers

  /** What a regex prefers: several branches prefer longer; one branch prefers what the first of its terms does that has
      a preference, by its quantifier or else by what is inside. */
  function BarsWish(bs: Bars): Prefer { if bs.Or? then Longer else SeqWish(bs.branch) }

  function SeqWish(ps: Terms): Prefer {
    if ps.End? then Indifferent else First(TermWish(ps.head), SeqWish(ps.tail))
  }

  function TermWish(q: Term): Prefer {
    if q.Constraint? || Cancelled(q) then Indifferent else First(q.prefer, AtomWish(q.atom))
  }

  function AtomWish(a: Atom): Prefer {
    match a
    case Simple(_) => Indifferent
    case Group(_, inner) => BarsWish(inner)
    case Bare(inner) => BarsWish(inner)
    case Ref(_) => Indifferent
  }

  function First(p: Prefer, q: Prefer): Prefer { if p != Indifferent then p else q }

  /** Every node prefers what the part of the regex does that lies between its states. */
  ghost predicate WishesRight(n: Node) {
    && Pref(n.flags) == Wish(BarsWish(n.span))
    && match n
       case PlainNode(_, _) => true
       case RefNode(_, _, _, _, _) => true
       case CatNode(_, _, l, r) => WishesRight(l) && WishesRight(r)
       case AltNode(_, _, l, next) => WishesRight(l) && (next.Some? ==> WishesRight(next.value))
       case IterNode(_, _, l, _, _) => WishesRight(l)
       case CapNode(_, _, _, l) => WishesRight(l)
  }

  lemma AloneWish(q: Term)
    ensures BarsWish(Alone(q)) == TermWish(q)
  {
    assert SeqWish(End) == Indifferent && SeqWish(Then(q, End)) == First(TermWish(q), SeqWish(End));
  }

  lemma {:induction false} SnocWish(ps: Terms, q: Term)
    ensures SeqWish(Snoc(ps, q)) == First(SeqWish(ps), TermWish(q))
    decreases ps
  {
    if ps.Then? { SnocWish(ps.tail, q); }
  }

  lemma {:induction false} AppendWish(p: Terms, q: Terms)
    ensures SeqWish(Append(p, q)) == First(SeqWish(p), SeqWish(q))
    decreases p
  {
    if p.Then? { AppendWish(p.tail, q); }
  }

  lemma {:induction false} TreeWishes(bs: Bars, nmatch: nat)
    requires Sane(bs, nmatch)
    ensures WishesRight(ParseBars(bs))
    decreases bs, 2
  {
    ParseSpan(bs);
    if bs.Last? {
      BranchWishes(End, NONE, bs.branch, nmatch);
    } else {
      ChainWishes(bs, bs, LONGER, nmatch);
    }
  }

  lemma {:induction false} ChainWishes(all: Bars, bs: Bars, seen: Flags, nmatch: nat)
    requires all.Or? && Sane(bs, nmatch)
    ensures WishesRight(Chain(all, bs, seen))
    decreases bs, 1
  {
    var l := ParseBranch(bs.branch);
    BranchWishes(End, NONE, bs.branch, nmatch);
    if bs.Or? {
      ChainWishes(all, bs.rest, Both(seen, FromBranch(l)), nmatch);
      NewsLonger(bs.rest, Both(seen, FromBranch(l)));
    }
  }

  lemma {:induction false} NewsLonger(bs: Bars, seen: Flags)
    ensures !News(bs, seen).shorter
    decreases bs
  {
    if bs.Or? { NewsLonger(bs.rest, Both(seen, FromBranch(ParseBranch(bs.branch)))); }
  }

  lemma {:induction false} BranchWishes(before: Terms, f: Flags, ps: Terms, nmatch: nat)
    requires SaneSeq(ps, nmatch)
    requires OneWay(f) && !Messy(f) && Pref(f) == Wish(SeqWish(before))
    ensures WishesRight(Branch(before, f, ps))
    decreases ps, 1
  {
    if ps.Then? {
      var q, rest := ps.head, ps.tail;
      if Absorbed(f, q) {
        TakingAgrees(f, q);
        TakingWishes(f, q, nmatch);
        SnocWish(before, q);
        BranchWishes(Snoc(before, q), Taking(f, q), rest, nmatch);
      } else {
        BranchWishes(End, NONE, rest, nmatch);
        BranchSpan(End, NONE, rest);
        AtomWishes(q.atom, nmatch);
        AppendWish(before, ps);
        SplitWishes(before, f, ps, ParseBranch(rest));
      }
    }
  }

  lemma {:induction false} TakingWishes(f: Flags, q: Term, nmatch: nat)
    requires SaneTerm(q, nmatch)
    requires OneWay(f) && !Messy(f) && Absorbed(f, q)
    ensures Pref(Taking(f, q)) == if Pref(f) != NONE then Pref(f) else Wish(TermWish(q))
    decreases q, 1
  {
    TakingAgrees(f, q);
    if q.Quantified? && !Cancelled(q) {
      AtomWishes(q.atom, nmatch);
      AtomAgrees(q.atom);
    }
  }

  /** The atom's own node, and what it prefers in the place of the atom. */
  lemma {:induction false} AtomWishes(a: Atom, nmatch: nat)
    requires SaneAtom(a, nmatch)
    ensures WishesRight(AtomNode(a)) && Pref(AtomNode(a).flags) == Wish(AtomWish(a))
    decreases a
  {
    if a.Group? || a.Bare? {
      TreeWishes(a.inner, nmatch);
      ParseSpan(a.inner);
    } else {
      AloneWish(Quantified(a, 1, 1, Indifferent));
    }
  }

  lemma SplitWishes(before: Terms, f: Flags, ps: Terms, right: Node)
    requires ps.Then? && ps.head.Quantified? && !Cancelled(ps.head) && ps.head.min <= ps.head.max && OneWay(f) && Pref(f) == Wish(SeqWish(before))
    requires WishesRight(AtomNode(ps.head.atom)) && Pref(AtomNode(ps.head.atom).flags) == Wish(AtomWish(ps.head.atom))
    requires WishesRight(right) && right.span == Last(ps.tail) && SeqWish(Append(before, ps)) == First(SeqWish(before), SeqWish(ps))
    ensures WishesRight(Split(before, f, ps, AtomNode(ps.head.atom), right))
  {
    hide Body, AtomNode, Combine, WishesRight, Append, Split;
    var q, a := ps.head, AtomNode(ps.head.atom);
    var w := Combine(Wish(q.prefer), a.flags);
    var tf := Both(w, Combine(w, right.flags));
    SplitIs(before, f, ps, a, right);
    RightWish(right);
    SplitPrefs(f, a.flags, right.flags, SeqWish(before), q.prefer, AtomWish(q.atom), SeqWish(ps.tail));
    BodyWishes(q, a, w);
    var t := CatNode(tf, Last(ps), Body(q, a, w), right);
    CatWishes(t);
    PlainWishes(PlainNode(f, Last(before)));
    CatWishes(Split(before, f, ps, a, right));
  }

  lemma RightWish(n: Node)
    requires WishesRight(n)
    ensures Pref(n.flags) == Wish(BarsWish(n.span))
  {
  }

  lemma SplitIs(before: Terms, f: Flags, ps: Terms, a: Node, right: Node)
    requires ps.Then? && ps.head.Quantified?
    ensures var w := Combine(Wish(ps.head.prefer), a.flags); var tf := Both(w, Combine(w, right.flags));
      Split(before, f, ps, a, right) ==
      CatNode(Both(f, Combine(f, tf)), Last(Append(before, ps)), PlainNode(f, Last(before)), CatNode(tf, Last(ps), Body(ps.head, a, w), right))
  {
  }

  lemma SplitPrefs(f: Flags, af: Flags, rf: Flags, pb: Prefer, pq: Prefer, pa: Prefer, pr: Prefer)
    requires Pref(f) == Wish(pb) && Pref(af) == Wish(pa) && Pref(rf) == Wish(pr)
    ensures var w := Combine(Wish(pq), af); var tf := Both(w, Combine(w, rf));
      && Pref(w) == Wish(First(pq, pa)) && Pref(tf) == Wish(First(First(pq, pa), pr))
      && Pref(Both(f, Combine(f, tf))) == Wish(First(pb, First(First(pq, pa), pr)))
  {
    var w := Combine(Wish(pq), af);
    Combined(Wish(pq), af);
    Combined(w, rf);
    Combined(f, Both(w, Combine(w, rf)));
    hide Combine;
  }

  lemma CatWishes(n: Node)
    requires n.CatNode? && Pref(n.flags) == Wish(BarsWish(n.span)) && WishesRight(n.left) && WishesRight(n.right)
    ensures WishesRight(n)
  {
  }

  lemma PlainWishes(n: Node)
    requires n.PlainNode? && Pref(n.flags) == Wish(BarsWish(n.span))
    ensures WishesRight(n)
  {
  }

  lemma Combined(f: Flags, g: Flags)
    ensures Pref(Combine(f, g)) == (if Pref(f) != NONE then Pref(f) else Pref(g)) == Pref(Both(f, Combine(f, g)))
    ensures Pref(Both(g, Combine(f, g))) == if Pref(f) != NONE then Pref(Both(f, g)) else Pref(g)
  {
  }

  lemma BodyWishes(q: Term, a: Node, w: Flags)
    requires q.Quantified? && !Cancelled(q) && q.min <= q.max && Pref(w) == Wish(TermWish(q)) && WishesRight(a) && a == AtomNode(q.atom)
    ensures WishesRight(Body(q, a, w))
  {
    AloneWish(q);
    if q.min > 0 && !(q.min == 1 && q.max == 1) { AloneWish(OneLess(q)); }
  }

  /** The preference of the whole tree. */
  lemma TreeWish(bs: Bars, nmatch: nat)
    requires Sane(bs, nmatch)
    ensures Pref(ParseBars(bs).flags) == Wish(BarsWish(bs)) && (ParseBars(bs).flags.shorter <==> BarsWish(bs) == Shorter)
  {
    TreeWishes(bs, nmatch);
    ParseSpan(bs);
  }
}
