/** What caltdissect(), regexec.c:950-981, makes of a failed alternative's captures. They stay, so a match can
    show a group that took no part in it: when this happens, when it cannot, and one regex for which it does. */
module StaleCaptures {
  import opened Options
  import opened Cnfa
  import opened Subres
  import opened Dissect
  import opened Refusals
  import opened Rows

  /** A dissection in vain touches the captures of its node only. */
  lemma {:induction false} LeftWithin(x: Ctx, t: Subre, b: nat, e: nat, c: Caps, c2: Caps)
    requires LeftBehind(x, t, b, e, c, c2)
    ensures SameOutside(c, c2, Subs(t))
    decreases t, 1
  {
    match t
    case Plain(_, _) =>
    case Backref(_, _, _, _, _) =>
    case Concat(_, _, l, r) =>
      if m: nat :| LastTried(x, l, b, e, m) && MidpointLeft(x, t, b, m, e, c, c2) { MidpointWithin(x, t, b, m, e, c, c2); }
    case Alt(_, _, _, _) => BranchesWithin(x, t, Branches(t), b, e, c, c2);
    case Iter(_, _, l, _, _) =>
      var c0 := Zap(c, Subs(l));
      if d: seq<nat> :| LastWorth(x, t, d, b, e) && DivisionLeft(x, l, d, c0, c2) {
        DivisionWithin(x, l, d, c0, c2);
      }
    case Capture(_, _, _, l) => LeftWithin(x, l, b, e, c, c2);
  }

  lemma DivisionWithin(x: Ctx, t: Subre, d: seq<nat>, c: Caps, c2: Caps)
    requires DivisionLeft(x, t, d, c, c2)
    ensures SameOutside(c, c2, Subs(t))
    decreases t, 2
  {
    var i :| 0 <= i < |d| - 1 && PieceLeft(x, t, d, i, c, c2);
    LeftWithin(x, t, d[i], d[i + 1], c, c2);
  }

  lemma {:induction false} MidpointWithin(x: Ctx, t: Subre, b: nat, m: nat, e: nat, c: Caps, c2: Caps)
    requires t.Concat? && MidpointLeft(x, t, b, m, e, c, c2)
    ensures SameOutside(c, c2, Subs(t))
    decreases t, 0
  {
    if Acc(x, t.right, m, e) {
      if LeftBehind(x, t.left, b, m, c, c2) {
        LeftWithin(x, t.left, b, m, c, c2);
      } else {
        var c1 :| Gained(x, t.left, b, m, c, c1) && LeftBehind(x, t.right, m, e, c1, c2);
        GainedWithin(x, t.left, b, m, c, c1);
        LeftWithin(x, t.right, m, e, c1, c2);
      }
    }
  }

  lemma GainedWithin(x: Ctx, t: Subre, b: nat, e: nat, c: Caps, c2: Caps)
    requires Gained(x, t, b, e, c, c2)
    ensures SameOutside(c, c2, Subs(t))
  {
    var p :| Ok(x, t, p, b, e, c) && Real(x, t, p, b, e, c) && c2 == After(x, t, p, b, e, c);
    AfterFrame(x, t, p, b, e, c);
  }

  lemma {:induction false} BranchesWithin(x: Ctx, t: Subre, i: nat, b: nat, e: nat, c: Caps, c2: Caps)
    requires t.Alt? && BranchesLeft(x, t, i, b, e, c, c2)
    ensures SameOutside(c, c2, Subs(t))
    decreases t, 0
  {
    if i > 0 {
      var c1 :| BranchLeft(x, t.left, b, e, c, c1)
             && if i == 1 then c2 == c1 else t.next.Some? && t.next.value.Alt? && BranchesLeft(x, t.next.value, i - 1, b, e, c1, c2);
      BranchWithin(x, t.left, b, e, c, c1);
      if i > 1 { BranchesWithin(x, t.next.value, i - 1, b, e, c1, c2); }
    }
  }

  lemma {:induction false} BranchWithin(x: Ctx, t: Subre, b: nat, e: nat, c: Caps, c2: Caps)
    requires BranchLeft(x, t, b, e, c, c2)
    ensures SameOutside(c, c2, Subs(t))
    decreases t, 2
  {
    if Acc(x, t, b, e) { LeftWithin(x, t, b, e, c, c2); }
  }

  // ---------------------------------------------------------------- when nothing stale is left

  lemma {:induction false} TidyBranches(x: Ctx, t: Subre, i: nat, b: nat, e: nat, c: Caps, c2: Caps)
    requires t.Alt? && Tidy(x, t) && i < Branches(t) && BranchesLeft(x, t, i, b, e, c, c2)
    ensures c2 == c
    decreases i
  {
    if i > 0 {
      assert t.next.Some? && t.next.value.Alt?;
      var c1 :| BranchLeft(x, t.left, b, e, c, c1) && if i == 1 then c2 == c1 else BranchesLeft(x, t.next.value, i - 1, b, e, c1, c2);
      TidyFirst(x, t.left, b, e, c, c1);
      if i > 1 { TidyBranches(x, t.next.value, i - 1, b, e, c1, c2); }
    }
  }

  lemma TidyFirst(x: Ctx, t: Subre, b: nat, e: nat, c: Caps, c2: Caps)
    requires (Subs(t) == {} || Complete(x, t)) && BranchLeft(x, t, b, e, c, c2)
    ensures c2 == c
  {
    if Complete(x, t) {
      if Acc(x, t, b, e) { NeverVain(x, t, b, e, c, c2); }
    } else {
      BranchWithin(x, t, b, e, c, c2);
      SameEverywhere(c, c2);
    }
  }

  lemma SameEverywhere(c: Caps, c2: Caps)
    requires SameOutside(c, c2, {})
    ensures c == c2
  {
  }

  lemma {:induction false} TidyBranch(x: Ctx, t: Subre, i: nat)
    requires Tidy(x, t) && i < Branches(t)
    ensures Tidy(x, Nth(t, i).left)
    decreases i
  {
    if i > 0 { TidyBranch(x, t.next.value, i - 1); }
  }

  /** In a tidy tree every capture belongs to the match. */
  lemma {:induction false} TidyIsClean(x: Ctx, t: Subre, p: Parse, b: nat, e: nat, c: Caps)
    requires Tidy(x, t) && Real(x, t, p, b, e, c)
    ensures Clean(x, t, p, b, e, c)
    decreases p
  {
    match (t, p)
    case (Concat(_, _, l, r), Cat(mid, lp, rp)) =>
      TidyIsClean(x, l, lp, b, mid, c);
      TidyIsClean(x, r, rp, mid, e, After(x, l, lp, b, mid, c));
    case (Alt(_, _, _, _), Pick(i, junk, q)) =>
      TidyBranches(x, t, i, b, e, c, junk);
      TidyBranch(x, t, i);
      TidyIsClean(x, Nth(t, i).left, q, b, e, junk);
    case (Iter(_, _, l, _, _), Reps(ends, ps)) =>
      forall i | 0 <= i < |ps| ensures Clean(x, l, ps[i], ends[i], ends[i + 1], Zap(c, Subs(l))) {
        TidyIsClean(x, l, ps[i], ends[i], ends[i + 1], Zap(c, Subs(l)));
      }
    case (Capture(_, _, n, l), Cap(q)) => TidyIsClean(x, l, q, b, e, c);
    case _ =>
  }

  // ---------------------------------------------------------------- when something is

  /** Every match of t sets group n. */
  predicate AlwaysSets(t: Subre, n: nat) {
    match t
    case Plain(_, _) => false
    case Backref(_, _, _, _, _) => false
    case Concat(_, _, l, r) => AlwaysSets(l, n) || AlwaysSets(r, n)
    case Alt(_, _, _, _) => false
    case Iter(_, _, l, m, _) => m >= 1 && AlwaysSets(l, n)
    case Capture(_, _, k, l) => k == n || AlwaysSets(l, n)
  }

  lemma {:induction false} AlwaysSet(x: Ctx, t: Subre, n: nat, p: Parse, b: nat, e: nat, c: Caps)
    requires Usable(x, t) && n < x.nmatch && AlwaysSets(t, n) && Ok(x, t, p, b, e, c)
    ensures n in After(x, t, p, b, e, c) && n in Subs(t)
    decreases p
  {
    match (t, p)
    case (Concat(_, _, l, r), Cat(mid, lp, rp)) =>
      var c1 := After(x, l, lp, b, mid, c);
      AfterFrame(x, r, rp, mid, e, c1);
      if AlwaysSets(l, n) { AlwaysSet(x, l, n, lp, b, mid, c); } else { AlwaysSet(x, r, n, rp, mid, e, c1); }
    case (Iter(_, _, l, m, _), Reps(ends, ps)) =>
      AlwaysSet(x, l, n, ps[|ps| - 1], ends[|ps| - 1], ends[|ps|], Zap(c, Subs(l)));
    case (Capture(_, _, k, l), Cap(q)) =>
      if k != n { AlwaysSet(x, l, n, q, b, e, c); }
    case _ =>
  }

  /** Wherever group n can be left behind, what comes before the failure has no back references, and sets n in
      every match if it has n at all. */
  ghost predicate Definite(x: Ctx, t: Subre, n: nat) {
    n !in Subs(t) ||
    match t
    case Concat(_, _, l, r) => Complete(x, l) && (n in Subs(l) ==> AlwaysSets(l, n)) && Definite(x, r, n)
    case Alt(_, _, l, next) => Definite(x, l, n) && (next.Some? ==> Definite(x, next.value, n))
    case Capture(_, _, _, l) => Definite(x, l, n)
    case _ => false
  }

  /** Whether group n is left behind, read off what the automata accept: at the midpoint tried last the right
      side's automaton lets the left side be matched, which sets n, or the right side leaves n behind in turn. */
  ghost predicate Leaves(x: Ctx, t: Subre, n: nat, b: nat, e: nat)
    decreases t, 1
  {
    match t
    case Concat(_, _, l, r) => exists m: nat :: LastTried(x, l, b, e, m) && Acc(x, r, m, e) && (n in Subs(l) || Leaves(x, r, n, m, e))
    case Alt(_, _, l, next) => BranchesLeave(x, t, Branches(t), n, b, e)
    case Capture(_, _, _, l) => Leaves(x, l, n, b, e)
    case _ => false
  }

  /** One of the first i alternatives is tried and leaves n behind. */
  ghost predicate BranchesLeave(x: Ctx, t: Subre, i: nat, n: nat, b: nat, e: nat)
    requires t.Alt?
    decreases t, 0
  {
    i > 0 && ((Acc(x, t.left, b, e) && Leaves(x, t.left, n, b, e))
              || (i > 1 && t.next.Some? && t.next.value.Alt? && BranchesLeave(x, t.next.value, i - 1, n, b, e)))
  }

  lemma {:induction false} LeavesOwn(x: Ctx, t: Subre, n: nat, b: nat, e: nat)
    requires Leaves(x, t, n, b, e)
    ensures n in Subs(t)
    decreases t, 1
  {
    match t
    case Concat(_, _, l, r) =>
      var m: nat :| LastTried(x, l, b, e, m) && Acc(x, r, m, e) && (n in Subs(l) || Leaves(x, r, n, m, e));
      if n !in Subs(l) { LeavesOwn(x, r, n, m, e); }
    case Alt(_, _, l, next) => BranchesOwn(x, t, Branches(t), n, b, e);
    case Capture(_, _, _, l) => LeavesOwn(x, l, n, b, e);
    case _ =>
  }

  lemma {:induction false} BranchesOwn(x: Ctx, t: Subre, i: nat, n: nat, b: nat, e: nat)
    requires t.Alt? && BranchesLeave(x, t, i, n, b, e)
    ensures n in Subs(t)
    decreases t, 0
  {
    if Leaves(x, t.left, n, b, e) { LeavesOwn(x, t.left, n, b, e); } else { BranchesOwn(x, t.next.value, i - 1, n, b, e); }
  }

  /** A dissection in vain sets group n if and only if the automata say so. */
  lemma {:induction false} LeavesExactly(x: Ctx, t: Subre, n: nat, b: nat, e: nat, c: Caps, c2: Caps)
    requires Usable(x, t) && n < x.nmatch && n !in c && Definite(x, t, n) && LeftBehind(x, t, b, e, c, c2)
    ensures n in c2 <==> Leaves(x, t, n, b, e)
    decreases t, 1
  {
    LeftWithin(x, t, b, e, c, c2);
    if Leaves(x, t, n, b, e) { LeavesOwn(x, t, n, b, e); }
    if n in Subs(t) {
      match t
      case Concat(_, _, l, r) => ConcatLeaves(x, t, n, b, e, c, c2);
      case Alt(_, _, _, _) => BranchesExactly(x, t, Branches(t), n, b, e, c, c2);
      case Capture(_, _, _, l) => LeavesExactly(x, l, n, b, e, c, c2);
      case _ =>
    }
  }

  lemma {:induction false} ConcatLeaves(x: Ctx, t: Subre, n: nat, b: nat, e: nat, c: Caps, c2: Caps)
    requires Usable(x, t) && n < x.nmatch && n !in c && Definite(x, t, n) && LeftBehind(x, t, b, e, c, c2)
    requires t.Concat? && n in Subs(t)
    ensures n in c2 <==> Leaves(x, t, n, b, e)
    decreases t, 0
  {
    hide SameOutside, Acc;
    var l, r := t.left, t.right;
    if m: nat :| LastTried(x, l, b, e, m) && MidpointLeft(x, t, b, m, e, c, c2) {
      OneLast(x, l, b, e, m);
      if Acc(x, r, m, e) {
        NeverVain(x, l, b, m, c, c2);
        RightLeft(x, t, b, m, e, c, c2);
        var c1 :| Gained(x, l, b, m, c, c1) && LeftBehind(x, r, m, e, c1, c2);
        GainedWithin(x, l, b, m, c, c1);
        LeftWithin(x, r, m, e, c1, c2);
        if n in Subs(l) {
          var p :| Ok(x, l, p, b, m, c) && Real(x, l, p, b, m, c) && c1 == After(x, l, p, b, m, c);
          AlwaysSet(x, l, n, p, b, m, c);
        } else {
          LeavesExactly(x, r, n, m, e, c1, c2);
        }
      }
    }
  }

  lemma RightLeft(x: Ctx, t: Subre, b: nat, m: nat, e: nat, c: Caps, c2: Caps)
    requires t.Concat? && MidpointLeft(x, t, b, m, e, c, c2) && Acc(x, t.right, m, e) && !LeftBehind(x, t.left, b, m, c, c2)
    ensures exists c1 :: Gained(x, t.left, b, m, c, c1) && LeftBehind(x, t.right, m, e, c1, c2)
  {
  }

  lemma OneLast(x: Ctx, l: Subre, b: nat, e: nat, m: nat)
    requires LastTried(x, l, b, e, m)
    ensures forall k: nat :: LastTried(x, l, b, e, k) ==> k == m
  {
  }

  lemma {:induction false} BranchesExactly(x: Ctx, t: Subre, i: nat, n: nat, b: nat, e: nat, c: Caps, c2: Caps)
    requires t.Alt? && Usable(x, t) && n < x.nmatch && n !in c && Definite(x, t, n) && BranchesLeft(x, t, i, b, e, c, c2)
    ensures n in c2 <==> BranchesLeave(x, t, i, n, b, e)
    decreases t, 0
  {
    if i > 0 {
      var c1 :| BranchLeft(x, t.left, b, e, c, c1)
             && if i == 1 then c2 == c1 else t.next.Some? && t.next.value.Alt? && BranchesLeft(x, t.next.value, i - 1, b, e, c1, c2);
      BranchExactly(x, t.left, n, b, e, c, c1);
      if i > 1 {
        var u := t.next.value;
        if n in c1 {
          BranchWithin(x, t.left, b, e, c, c1);
          BranchesWithin(x, u, i - 1, b, e, c1, c2);
        } else {
          BranchesExactly(x, u, i - 1, n, b, e, c1, c2);
        }
      }
    }
  }

  lemma {:induction false} BranchExactly(x: Ctx, t: Subre, n: nat, b: nat, e: nat, c: Caps, c2: Caps)
    requires Usable(x, t) && n < x.nmatch && n !in c && Definite(x, t, n) && BranchLeft(x, t, b, e, c, c2)
    ensures n in c2 <==> Acc(x, t, b, e) && Leaves(x, t, n, b, e)
    decreases t, 2
  {
    if Acc(x, t, b, e) { LeavesExactly(x, t, n, b, e, c, c2); }
  }

  /** The i-th alternative has matched and group n is none of its own: the match shows n all the same if and only
      if an earlier alternative was tried and leaves it behind. */
  lemma StaleCapture(x: Ctx, t: Subre, n: nat, p: Parse, b: nat, e: nat, c: Caps, c2: Caps)
    requires t.Alt? && Usable(x, t) && n < x.nmatch && n !in c && Definite(x, t, n) && Dissected(x, t, p, b, e, c, c2)
    requires n !in Subs(Nth(t, p.i).left)
    ensures n in c2 <==> BranchesLeave(x, t, p.i, n, b, e)
  {
    BranchesExactly(x, t, p.i, n, b, e, c, p.junk);
    AfterFrame(x, Nth(t, p.i).left, p.p, b, e, p.junk);
  }

  // ---------------------------------------------------------------- (.)\1|.. on "ab"

  /** The compacted automaton of n dots, all characters being of colour 0. */
  function Dots(n: nat): Cnfa { Row(1, Zeros(n)) }

  function Zeros(n: nat): seq<seq<nat>> { seq(n, _ => [0]) }

  const Ab: Text := Text([0, 0], false, false, (n, pos) => false)

  lemma DotsWellFormed(n: nat)
    ensures WellFormed(Dots(n)) && NoReturn(Dots(n)) && Fits(Dots(n), Ab)
  {
    RowOkay(1, Zeros(n));
  }

  /** It matches the substrings of n characters. */
  lemma DotsMatch(n: nat, b: nat, e: nat)
    ensures Matches(Dots(n), Ab, b, e) <==> b <= e <= 2 && e - b == n
  {
    hide Matches, Row;
    RowMatch(1, Zeros(n), Ab, b, e);
  }

  // The tree of the regex: parseqatom() puts an empty '=' node before a group and a back reference, and behind what
  // ends the branch (regcomp.c:1163, 1267).
  const Group: Subre := Capture(Dots(1), false, 1, Plain(Dots(1), false))
  const Empty: Subre := Plain(Dots(0), false)
  const Copy: Subre := Concat(Dots(1), false, Backref(Dots(1), false, 1, 1, 1), Empty)
  const Rest: Subre := Concat(Dots(1), false, Empty, Copy)
  const Tail: Subre := Concat(Dots(2), false, Group, Rest)
  const Twice: Subre := Concat(Dots(2), false, Empty, Tail)
  const EitherWay: Subre := Alt(Dots(2), false, Twice, Some(Alt(Dots(2), false, Plain(Dots(2), false), None)))
  const AbCtx: Ctx := Ctx(Ab, [97, 98], (s, w) => s == w, 2)

  lemma AbAccepts(n: nat)
    ensures forall b: nat, e: nat :: Matches(Dots(n), Ab, b, e) <==> b <= e <= 2 && e - b == n
  {
    forall b: nat, e: nat ensures Matches(Dots(n), Ab, b, e) <==> b <= e <= 2 && e - b == n { DotsMatch(n, b, e); }
  }

  lemma PlainUsable(n: nat)
    ensures Usable(AbCtx, Plain(Dots(n), false)) && WellFormed(Dots(n)) && NoReturn(Dots(n)) && Fits(Dots(n), AbCtx.text)
  {
    hide WellFormed, NoReturn, Fits, Dots;
    DotsWellFormed(n);
  }

  lemma GroupUsable()
    ensures Usable(AbCtx, Group)
  {
    hide WellFormed, NoReturn, Fits, Dots, Matches;
    PlainUsable(1);
  }

  lemma TwiceUsable()
    ensures Usable(AbCtx, Twice)
  {
    hide WellFormed, NoReturn, Fits, Dots, Matches, Acc;
    PlainUsable(0);
    PlainUsable(1);
    PlainUsable(2);
    GroupUsable();
    assert Usable(AbCtx, Empty) && Usable(AbCtx, Copy.left);
    assert Usable(AbCtx, Copy);
    assert Usable(AbCtx, Rest);
    assert Usable(AbCtx, Tail);
  }

  lemma AbUsable()
    ensures Usable(AbCtx, EitherWay)
  {
    hide WellFormed, NoReturn, Fits, Dots, Matches, Acc;
    PlainUsable(2);
    TwiceUsable();
    assert Usable(AbCtx, EitherWay.next.value);
  }

  /** On "ab" the second alternative matches, and it alone. */
  lemma SecondOnly(p: Parse, caps: Caps)
    requires Dissected(AbCtx, EitherWay, p, 0, 2, map[], caps)
    ensures p.Pick? && p.i == 1
  {
    if p.i == 0 {
      AbAccepts(1);
      NotTwice(p.p, p.junk);
    }
  }

  lemma NotTwice(q: Parse, c: Caps)
    ensures !Ok(AbCtx, Twice, q, 0, 2, c)
  {
    if Ok(AbCtx, Twice, q, 0, 2, c) {
      AbAccepts(0);
      NotTail(q.rp, After(AbCtx, Empty, q.lp, 0, 0, c));
    }
  }

  lemma GroupSets(q: Parse, c: Caps)
    requires Ok(AbCtx, Group, q, 0, 1, c)
    ensures var c1 := After(AbCtx, Group, q, 0, 1, c); 1 in c1 && c1[1] == (0, 1)
  {
    assert q.Cap?;
  }

  lemma NotTail(q: Parse, c: Caps)
    ensures !Ok(AbCtx, Tail, q, 0, 2, c)
  {
    if Ok(AbCtx, Tail, q, 0, 2, c) {
      AbAccepts(1);
      assert q.mid == 1 && Ok(AbCtx, Group, q.lp, 0, 1, c);
      GroupSets(q.lp, c);
      NotRest(q.rp, After(AbCtx, Group, q.lp, 0, 1, c));
    }
  }

  lemma NotRest(q: Parse, c: Caps)
    requires 1 in c && c[1] == (0, 1)
    ensures !Ok(AbCtx, Rest, q, 1, 2, c)
  {
    if Ok(AbCtx, Rest, q, 1, 2, c) {
      AbAccepts(0);
      AbAccepts(1);
      var c1 := After(AbCtx, Empty, q.lp, 1, 1, c);
      assert Ok(AbCtx, Copy, q.rp, 1, 2, c1) && q.rp.mid == 2;
      NotCopied(c1);
    }
  }

  lemma NotCopied(c: Caps)
    ensures CapsOk(AbCtx, c) && 1 in c && c[1] == (0, 1) ==> !RefersTo(AbCtx, c, 1, 1, 1, 1, 2)
  {
    assert AbCtx.chars[0..1] == [97] && AbCtx.chars[1..2] == [98];
    assert !Repeats(AbCtx, [97], [98], 1) by { assert [98][..1] == [98]; }
  }

  lemma AbMatches(c2: Caps)
    ensures !LeftBehind(AbCtx, EitherWay, 0, 2, map[], c2)
  {
    AbAccepts(2);
    var u := EitherWay.next.value;
    assert Branches(EitherWay) == 2;
    forall c, c1 ensures !BranchLeft(AbCtx, u.left, 0, 2, c, c1) {}
    forall c ensures !BranchesLeft(AbCtx, u, 1, 0, 2, c, c2) {}
  }

  lemma AbLeaves()
    ensures BranchesLeave(AbCtx, EitherWay, 1, 1, 0, 2)
  {
    AbAccepts(0);
    AbAccepts(1);
    AbAccepts(2);
    assert Leaves(AbCtx, Tail, 1, 0, 2) by { assert LastTried(AbCtx, Group, 0, 2, 1) && Acc(AbCtx, Rest, 1, 2); }
    assert LastTried(AbCtx, Empty, 0, 2, 0) && Acc(AbCtx, Tail, 0, 2);
    assert Leaves(AbCtx, Twice, 1, 0, 2);
  }

  lemma AbDefinite()
    ensures Definite(AbCtx, EitherWay, 1) && Branches(EitherWay) == 2 && Nth(EitherWay, 1) == EitherWay.next.value
  {
    assert Complete(AbCtx, Group) && AlwaysSets(Group, 1);
    assert 1 !in Subs(Rest) && Definite(AbCtx, Tail, 1);
    assert Definite(AbCtx, Twice, 1);
    assert Definite(AbCtx, EitherWay.next.value, 1);
  }

  /** On "ab" the regex (.)\1|.. matches by its second alternative, yet reports that its group matched "a". */
  method StaleOnAb() returns (er: Code, caps: Caps)
    ensures er == OKAY && 1 in caps
    ensures forall p :: Dissected(AbCtx, EitherWay, p, 0, 2, map[], caps) ==> !Clean(AbCtx, EitherWay, p, 0, 2, map[])
  {
    hide Dissected, Clean, LeftBehind, Usable, Matches;
    AbUsable();
    assert Acc(AbCtx, EitherWay, 0, 2) by { AbAccepts(2); }
    var v := new Vars(AbCtx, false);
    ghost var p;
    er, p := v.CDissect(EitherWay, 0, 2);
    caps := v.pmatch;
    AbMatches(caps);
    AbOutcome(p, caps);
  }

  lemma AbOutcome(p: Parse, caps: Caps)
    requires Dissected(AbCtx, EitherWay, p, 0, 2, map[], caps)
    ensures 1 in caps
    ensures forall q :: Dissected(AbCtx, EitherWay, q, 0, 2, map[], caps) ==> !Clean(AbCtx, EitherWay, q, 0, 2, map[])
  {
    AbUsable();
    AbDefinite();
    AbLeaves();
    SecondOnly(p, caps);
    StaleCapture(AbCtx, EitherWay, 1, p, 0, 2, map[], caps);
    forall q | Dissected(AbCtx, EitherWay, q, 0, 2, map[], caps) ensures !Clean(AbCtx, EitherWay, q, 0, 2, map[]) {
      SecondOnly(q, caps);
      if Clean(AbCtx, EitherWay, q, 0, 2, map[]) { PlainAlone(q, caps); }
    }
  }

  lemma PlainAlone(p: Parse, caps: Caps)
    requires Dissected(AbCtx, EitherWay, p, 0, 2, map[], caps) && p.Pick? && p.i == 1 && p.junk == map[]
    ensures caps == map[]
  {
    assert Nth(EitherWay, 1) == EitherWay.next.value;
    assert After(AbCtx, EitherWay.next.value.left, p.p, 0, 2, map[]) == map[];
  }
}
