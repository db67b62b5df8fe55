/** What follows from a dissection that has tried everything (regexec.c:544-1337): none is in vain on a complete tree, and
    the first match there is the preferred one; when an iteration fails that could be divided. */
module Refusals {
  import opened Options
  import opened Cnfa
  import opened Subres
  import opened Iterations

  /** Where the automaton of a complete node accepts, no dissection is in vain. */
  lemma {:induction false} NeverVain(x: Ctx, t: Subre, b: nat, e: nat, c: Caps, c2: Caps)
    requires Complete(x, t) && Acc(x, t, b, e)
    ensures !LeftBehind(x, t, b, e, c, c2)
    decreases t, 2
  {
    hide Matches;
    if LeftBehind(x, t, b, e, c, c2) {
      match t
      case Plain(_, _) =>
      case Backref(_, _, _, _, _) =>
      case Concat(_, _, l, r) =>
        var m: nat :| Splits(x, l, r, b, m, e);
        AccOrdered(x, r, m, e);
        MidpointNotVain(x, t, b, m, e, c);
      case Alt(_, _, _, _) =>
        var i :| BranchTakes(x, t, i, b, e);
        BranchesNotVain(x, t, Branches(t), i, b, e, c, c2);
      case Iter(_, _, l, _, _) =>
        WorthExists(x, t, b, e);
        var d :| Worth(x, t, d, b, e);
        DivisionNotVain(x, l, d, Zap(c, Subs(l)));
      case Capture(_, _, _, l) =>
        NeverVain(x, l, b, e, c, c2);
    }
  }

  lemma MidpointNotVain(x: Ctx, t: Subre, b: nat, m: nat, e: nat, c: Caps)
    requires t.Concat? && Complete(x, t.left) && Complete(x, t.right) && Splits(x, t.left, t.right, b, m, e)
    ensures !MidpointVain(x, t, b, m, e, c)
    decreases t, 0
  {
    forall c2 ensures !MidpointLeft(x, t, b, m, e, c, c2) {
      NeverVain(x, t.left, b, m, c, c2);
      forall c1 ensures !LeftBehind(x, t.right, m, e, c1, c2) { NeverVain(x, t.right, m, e, c1, c2); }
    }
  }

  /** An alternative without back references that came to nothing does not accept the substring. */
  lemma {:induction false} BranchesNotVain(x: Ctx, t: Subre, n: nat, i: nat, b: nat, e: nat, c: Caps, c2: Caps)
    requires t.Alt? && BranchesComplete(x, t) && i < n && BranchesLeft(x, t, n, b, e, c, c2)
    ensures !BranchTakes(x, t, i, b, e)
    decreases t, 0
  {
    hide Matches;
    var c1 :| BranchLeft(x, t.left, b, e, c, c1)
           && if n == 1 then c2 == c1 else t.next.Some? && t.next.value.Alt? && BranchesLeft(x, t.next.value, n - 1, b, e, c1, c2);
    if i == 0 {
      if Acc(x, t.left, b, e) { NeverVain(x, t.left, b, e, c, c1); }
    } else {
      BranchesNotVain(x, t.next.value, n - 1, i - 1, b, e, c1, c2);
    }
  }

  lemma DivisionNotVain(x: Ctx, t: Subre, d: seq<nat>, c: Caps)
    requires Complete(x, t)
    ensures !HasVain(x, t, d, c)
    decreases t, 4
  {
    forall i | 0 <= i < |d| - 1 && Acc(x, t, d[i], d[i + 1]) ensures !PieceVain(x, t, d, i, c) {
      NotInVain(x, t, d[i], d[i + 1], c);
    }
  }

  lemma NotInVain(x: Ctx, t: Subre, b: nat, e: nat, c: Caps)
    requires Complete(x, t) && Acc(x, t, b, e)
    ensures !InVain(x, t, b, e, c)
    decreases t, 3
  {
    forall c2 ensures !LeftBehind(x, t, b, e, c, c2) { NeverVain(x, t, b, e, c, c2); }
  }

  // ---------------------------------------------------------------- the first match

  /** On a complete tree the match whose every choice is the first that did not fail is the preferred one. */
  lemma {:induction false} FirstIsPreferred(x: Ctx, t: Subre, p: Parse, b: nat, e: nat, c: Caps)
    requires Complete(x, t) && Ok(x, t, p, b, e, c) && Real(x, t, p, b, e, c)
    ensures Preferred(x, t, p, b, e)
    decreases p
  {
    hide Matches;
    match (t, p)
    case (Concat(_, _, l, r), Cat(mid, lp, rp)) =>
      forall m: nat | Splits(x, l, r, b, m, e) ensures if l.shorter then mid <= m else m <= mid {
        AccOrdered(x, r, m, e);
        MidpointNotVain(x, t, b, m, e, c);
      }
      FirstIsPreferred(x, l, lp, b, mid, c);
      FirstIsPreferred(x, r, rp, mid, e, After(x, l, lp, b, mid, c));
    case (Alt(_, _, _, _), Pick(i, junk, q)) =>
      forall j | 0 <= j < i ensures !Acc(x, Nth(t, j).left, b, e) { BranchesNotVain(x, t, i, j, b, e, c, junk); }
      BranchComplete(x, t, i);
      FirstIsPreferred(x, Nth(t, i).left, q, b, e, junk);
    case (Iter(_, _, l, _, _), Reps(ends, ps)) =>
      FirstDivision(x, t, ends, b, e, c);
      forall i | 0 <= i < |ps| ensures Preferred(x, l, ps[i], ends[i], ends[i + 1]) {
        FirstIsPreferred(x, l, ps[i], ends[i], ends[i + 1], Zap(c, Subs(l)));
      }
    case (Capture(_, _, n, l), Cap(q)) =>
      FirstIsPreferred(x, l, q, b, e, c);
    case _ =>
  }

  lemma FirstDivision(x: Ctx, t: Subre, ends: seq<nat>, b: nat, e: nat, c: Caps)
    requires t.Iter? && Complete(x, t.left)
    requires forall d :: Worth(x, t, d, b, e) && Ahead(ends, d, t.left.shorter) ==> HasVain(x, t.left, d, Zap(c, Subs(t.left)))
    ensures forall d :: Division(x, t.left, d, b, e) && Increasing(d) && Allowed(|d| - 1, t.min, t.max) ==> !Ahead(ends, d, t.left.shorter)
  {
    forall d | Division(x, t.left, d, b, e) && Increasing(d) && Allowed(|d| - 1, t.min, t.max) ensures !Ahead(ends, d, t.left.shorter) {
      IncreasingIsWorth(x, t, d, b, e);
      DivisionNotVain(x, t.left, d, Zap(c, Subs(t.left)));
    }
  }

  lemma {:induction false} BranchComplete(x: Ctx, t: Subre, i: nat)
    requires i < Branches(t) && t.Alt? && BranchesComplete(x, t)
    ensures Complete(x, Nth(t, i).left)
    decreases i
  {
    if i > 0 { BranchComplete(x, t.next.value, i - 1); }
  }

  // ---------------------------------------------------------------- iterations with empty pieces

  /** Without back references below it, an iteration is dissected in vain exactly when no division is worth a try. */
  lemma IterationExactly(x: Ctx, t: Subre, p: Parse, b: nat, e: nat, c: Caps, c2: Caps)
    requires t.Iter? && Complete(x, t.left)
    ensures LeftBehind(x, t, b, e, c, c2) ==> forall d :: !Worth(x, t, d, b, e)
    ensures Ok(x, t, p, b, e, c) && Real(x, t, p, b, e, c) ==> Worth(x, t, p.ends, b, e)
  {
    forall d | LeftBehind(x, t, b, e, c, c2) ensures !Worth(x, t, d, b, e) {
      DivisionNotVain(x, t.left, d, Zap(c, Subs(t.left)));
    }
  }

  /** A division worth a try is there whenever the string can be divided at all, if one piece is enough or no piece can be
      empty. */
  lemma WorthWhenever(x: Ctx, t: Subre, b: nat, e: nat)
    requires t.Iter? && (t.min <= 1 || forall s: nat :: !Acc(x, t.left, s, s))
    ensures Divides(x, t.left, t.min, t.max, b, e) <==> exists d :: Worth(x, t, d, b, e)
  {
    if Divides(x, t.left, t.min, t.max, b, e) {
      if t.min <= 1 {
        WorthExists(x, t, b, e);
      } else {
        var ends :| Division(x, t.left, ends, b, e) && Allowed(|ends| - 1, t.min, t.max);
        Strict(x, t.left, ends, b, e);
        IncreasingIsWorth(x, t, ends, b, e);
      }
    }
  }

  lemma Strict(x: Ctx, t: Subre, d: seq<nat>, b: nat, e: nat)
    requires Division(x, t, d, b, e) && forall s: nat :: !Acc(x, t, s, s)
    ensures Increasing(d)
  {
    DivisionOrdered(x, t, d, b, e);
    forall i, j | 0 <= i < j < |d| ensures d[i] < d[j] {
      assert Piece(x, t, d, i);
      assert d[i] <= d[i + 1] <= d[j];
    }
  }

  /** Of the empty string an iteration finds two pieces or more never (regexec.c:1104-1106), though it is divided into so
      many by the match of one. */
  lemma NothingTwice(x: Ctx, t: Subre, q: Parse, b: nat, c: Caps)
    requires t.Iter? && 2 <= t.min <= t.max && CapsOk(x, c) && Acc(x, t.left, b, b) && Ok(x, t.left, q, b, b, Zap(c, Subs(t.left)))
    ensures Ok(x, t, Reps(seq(t.min + 1, _ => b), seq(t.min, _ => q)), b, b, c)
    ensures forall p :: Ok(x, t, p, b, b, c) ==> !Real(x, t, p, b, b, c)
  {
    var ends := seq(t.min + 1, _ => b);
    forall i | 0 <= i < t.min ensures Piece(x, t.left, ends, i) {}
    forall d ensures !Worth(x, t, d, b, b) { NoneEmpty(x, t, d, b); }
  }

  lemma NoneEmpty(x: Ctx, t: Subre, d: seq<nat>, b: nat)
    requires t.Iter? && 2 <= t.min
    ensures !Worth(x, t, d, b, b)
  {
    if Division(x, t.left, d, b, b) && Thrifty(d, t.min, b) {
      DivisionOrdered(x, t.left, d, b, b);
      assert |d| > 2 ==> Frugal(d, 1, t.min, b);
    }
  }

  // ---------------------------------------------------------------- one outcome

  /** Of two divisions one comes first. */
  lemma WorthOrder(x: Ctx, t: Subre, d: seq<nat>, f: seq<nat>, b: nat, e: nat)
    requires t.Iter? && Worth(x, t, d, b, e) && Worth(x, t, f, b, e) && d != f
    ensures Ahead(d, f, t.left.shorter) || Ahead(f, d, t.left.shorter)
  {
    hide Division;
    var i := FirstDifference(d, f);
    WorthEnds(x, t, d, b, e);
    WorthEnds(x, t, f, b, e);
    if i < |d| && i < |f| {
      assert AheadAt(d, f, t.left.shorter, i) || AheadAt(f, d, t.left.shorter, i);
    } else {
      assert d[..i] == f[..i];
      if i == |d| { NoPrefix(d, f, i - 1, t.min, e); } else { NoPrefix(f, d, i - 1, t.min, e); }
    }
  }

  lemma WorthEnds(x: Ctx, t: Subre, d: seq<nat>, b: nat, e: nat)
    requires t.Iter? && Worth(x, t, d, b, e)
    ensures |d| >= 1 && d[0] == b && d[|d| - 1] == e && (|d| == 1 ==> b == e && t.min == 0)
  {
  }

  lemma NoPrefix(d: seq<nat>, f: seq<nat>, i: nat, least: nat, e: nat)
    requires i + 1 == |d| < |f| && d[..i + 1] == f[..i + 1] && d[i] == e && Thrifty(f, least, e)
    ensures i == 0
  {
    assert f[i] == f[..i + 1][i];
    assert i > 0 ==> Frugal(f, i, least, e);
  }

  lemma {:induction false} FirstDifference(d: seq<nat>, f: seq<nat>) returns (i: nat)
    requires d != f
    ensures i <= |d| && i <= |f| && d[..i] == f[..i] && (i < |d| && i < |f| ==> d[i] != f[i]) && (i == |d| ==> i < |f|)
    decreases |d|
  {
    if d == [] || f == [] || d[0] != f[0] {
      i := 0;
    } else {
      var j := FirstDifference(d[1..], f[1..]);
      i := j + 1;
      assert d[..i] == [d[0]] + d[1..][..j] && f[..i] == [f[0]] + f[1..][..j];
    }
  }

  /** A match that is found leaves nothing to fail. */
  lemma {:induction false} NotBoth(x: Ctx, t: Subre, p: Parse, b: nat, e: nat, c: Caps, c2: Caps)
    requires Ok(x, t, p, b, e, c) && Real(x, t, p, b, e, c)
    ensures !LeftBehind(x, t, b, e, c, c2)
    decreases t, 3
  {
    if LeftBehind(x, t, b, e, c, c2) {
      match (t, p)
      case (Concat(_, _, l, r), Cat(mid, lp, rp)) =>
        AccOrdered(x, r, mid, e);
        MidpointFound(x, t, mid, lp, rp, b, e, c);
      case (Alt(_, _, _, _), Pick(i, junk, q)) =>
        var c3 := BranchMet(x, t, Branches(t), i, b, e, c, c2, junk);
        NotBoth(x, Nth(t, i).left, q, b, e, junk, c3);
      case (Iter(_, _, l, _, _), Reps(ends, ps)) =>
        DivisionFound(x, t, p, b, e, c);
      case (Capture(_, _, _, l), Cap(q)) =>
        NotBoth(x, l, q, b, e, c, c2);
      case _ =>
    }
  }

  lemma MidpointFound(x: Ctx, t: Subre, mid: nat, lp: Parse, rp: Parse, b: nat, e: nat, c: Caps)
    requires t.Concat? && Acc(x, t.left, b, mid) && Acc(x, t.right, mid, e) && Ok(x, t.left, lp, b, mid, c) && Real(x, t.left, lp, b, mid, c)
    requires var c1 := After(x, t.left, lp, b, mid, c); Ok(x, t.right, rp, mid, e, c1) && Real(x, t.right, rp, mid, e, c1)
    ensures !MidpointVain(x, t, b, mid, e, c)
    decreases t, 0
  {
    var l, r := t.left, t.right;
    forall c3 ensures !MidpointLeft(x, t, b, mid, e, c, c3) {
      NotBoth(x, l, lp, b, mid, c, c3);
      forall c1 | Gained(x, l, b, mid, c, c1) ensures !LeftBehind(x, r, mid, e, c1, c3) {
        var lq :| Ok(x, l, lq, b, mid, c) && Real(x, l, lq, b, mid, c) && c1 == After(x, l, lq, b, mid, c);
        OneMatch(x, l, lp, lq, b, mid, c);
        NotBoth(x, r, rp, mid, e, c1, c3);
      }
    }
  }

  /** An alternative that is passed on the way to others was tried. */
  lemma {:induction false} BranchMet(x: Ctx, t: Subre, n: nat, i: nat, b: nat, e: nat, c: Caps, c2: Caps, junk: Caps) returns (c3: Caps)
    requires t.Alt? && BranchesLeft(x, t, n, b, e, c, c2) && i < n && i < Branches(t) && BranchesLeft(x, t, i, b, e, c, junk)
    requires Acc(x, Nth(t, i).left, b, e)
    ensures LeftBehind(x, Nth(t, i).left, b, e, junk, c3)
    decreases t, 0
  {
    var c1 :| BranchLeft(x, t.left, b, e, c, c1)
           && if n == 1 then c2 == c1 else t.next.Some? && t.next.value.Alt? && BranchesLeft(x, t.next.value, n - 1, b, e, c1, c2);
    if i == 0 {
      c3 := c1;
    } else {
      var c4 :| BranchLeft(x, t.left, b, e, c, c4)
             && if i == 1 then junk == c4 else t.next.Some? && t.next.value.Alt? && BranchesLeft(x, t.next.value, i - 1, b, e, c4, junk);
      OneBranch(x, t.left, b, e, c, c1, c4);
      assert i == 1 ==> BranchesLeft(x, t.next.value, 0, b, e, c4, junk);
      c3 := BranchMet(x, t.next.value, n - 1, i - 1, b, e, c1, c2, junk);
    }
  }

  lemma OneBranch(x: Ctx, t: Subre, b: nat, e: nat, c: Caps, c2: Caps, c3: Caps)
    requires BranchLeft(x, t, b, e, c, c2) && BranchLeft(x, t, b, e, c, c3)
    ensures c2 == c3
    decreases t, 5
  {
    if Acc(x, t, b, e) { OneRest(x, t, b, e, c, c2, c3); }
  }

  lemma {:induction false} OneJunk(x: Ctx, t: Subre, n: nat, b: nat, e: nat, c: Caps, c2: Caps, c3: Caps)
    requires t.Alt? && BranchesLeft(x, t, n, b, e, c, c2) && BranchesLeft(x, t, n, b, e, c, c3)
    ensures c2 == c3
    decreases t, 0
  {
    if n > 0 {
      var c1 :| BranchLeft(x, t.left, b, e, c, c1)
             && if n == 1 then c2 == c1 else t.next.Some? && t.next.value.Alt? && BranchesLeft(x, t.next.value, n - 1, b, e, c1, c2);
      var c4 :| BranchLeft(x, t.left, b, e, c, c4)
             && if n == 1 then c3 == c4 else t.next.Some? && t.next.value.Alt? && BranchesLeft(x, t.next.value, n - 1, b, e, c4, c3);
      OneBranch(x, t.left, b, e, c, c1, c4);
      if n > 1 { OneJunk(x, t.next.value, n - 1, b, e, c1, c2, c3); }
    }
  }

  /** The pieces of a match that is found have matches. */
  lemma DivisionFound(x: Ctx, t: Subre, p: Parse, b: nat, e: nat, c: Caps)
    requires t.Iter? && Ok(x, t, p, b, e, c) && Real(x, t, p, b, e, c)
    ensures p.Reps? && Worth(x, t, p.ends, b, e) && !HasVain(x, t.left, p.ends, Zap(c, Subs(t.left)))
    decreases t, 0
  {
    var l, c0 := t.left, Zap(c, Subs(t.left));
    forall i | 0 <= i < |p.ends| - 1 ensures !PieceVain(x, l, p.ends, i, c0) {
      assert Ok(x, l, p.ps[i], p.ends[i], p.ends[i + 1], c0) && Real(x, l, p.ps[i], p.ends[i], p.ends[i + 1], c0);
      FoundNotVain(x, l, p.ps[i], p.ends[i], p.ends[i + 1], c0);
    }
  }

  lemma FoundNotVain(x: Ctx, t: Subre, p: Parse, b: nat, e: nat, c: Caps)
    requires Ok(x, t, p, b, e, c) && Real(x, t, p, b, e, c)
    ensures !InVain(x, t, b, e, c)
    decreases t, 4
  {
    forall c2 ensures !LeftBehind(x, t, b, e, c, c2) { NotBoth(x, t, p, b, e, c, c2); }
  }

  /** No two matches can be found. */
  lemma {:induction false} OneMatch(x: Ctx, t: Subre, p: Parse, q: Parse, b: nat, e: nat, c: Caps)
    requires Ok(x, t, p, b, e, c) && Real(x, t, p, b, e, c) && Ok(x, t, q, b, e, c) && Real(x, t, q, b, e, c)
    ensures p == q
    decreases t, 3
  {
    match t
    case Concat(_, _, l, r) =>
      OneMidpoint(x, t, p, q, b, e, c);
      OneMatch(x, l, p.lp, q.lp, b, p.mid, c);
      OneMatch(x, r, p.rp, q.rp, p.mid, e, After(x, l, p.lp, b, p.mid, c));
    case Alt(_, _, _, _) =>
      OneChoice(x, t, p, q, b, e, c);
      OneMatch(x, Nth(t, p.i).left, p.p, q.p, b, e, p.junk);
    case Iter(_, _, l, _, _) =>
      OneDivision(x, t, p, q, b, e, c);
      forall i | 0 <= i < |p.ps| ensures p.ps[i] == q.ps[i] {
        OneMatch(x, l, p.ps[i], q.ps[i], p.ends[i], p.ends[i + 1], Zap(c, Subs(l)));
      }
      assert p.ps == q.ps;
    case Capture(_, _, _, l) =>
      OneMatch(x, l, p.p, q.p, b, e, c);
    case _ =>
  }

  lemma OneMidpoint(x: Ctx, t: Subre, p: Parse, q: Parse, b: nat, e: nat, c: Caps)
    requires t.Concat? && Ok(x, t, p, b, e, c) && Real(x, t, p, b, e, c) && Ok(x, t, q, b, e, c) && Real(x, t, q, b, e, c)
    ensures p.Cat? && q.Cat? && p.mid == q.mid
    decreases t, 1
  {
    AccOrdered(x, t.right, p.mid, e);
    AccOrdered(x, t.right, q.mid, e);
    MidpointFound(x, t, p.mid, p.lp, p.rp, b, e, c);
    MidpointFound(x, t, q.mid, q.lp, q.rp, b, e, c);
  }

  lemma OneChoice(x: Ctx, t: Subre, p: Parse, q: Parse, b: nat, e: nat, c: Caps)
    requires t.Alt? && Ok(x, t, p, b, e, c) && Real(x, t, p, b, e, c) && Ok(x, t, q, b, e, c) && Real(x, t, q, b, e, c)
    ensures p.Pick? && q.Pick? && p.i == q.i && p.junk == q.junk
    decreases t, 1
  {
    if p.i < q.i {
      var c3 := BranchMet(x, t, q.i, p.i, b, e, c, q.junk, p.junk);
      NotBoth(x, Nth(t, p.i).left, p.p, b, e, p.junk, c3);
    } else if q.i < p.i {
      var c3 := BranchMet(x, t, p.i, q.i, b, e, c, p.junk, q.junk);
      NotBoth(x, Nth(t, q.i).left, q.p, b, e, q.junk, c3);
    } else {
      OneJunk(x, t, p.i, b, e, c, p.junk, q.junk);
    }
  }

  lemma OneDivision(x: Ctx, t: Subre, p: Parse, q: Parse, b: nat, e: nat, c: Caps)
    requires t.Iter? && Ok(x, t, p, b, e, c) && Real(x, t, p, b, e, c) && Ok(x, t, q, b, e, c) && Real(x, t, q, b, e, c)
    ensures p.Reps? && q.Reps? && p.ends == q.ends
    decreases t, 1
  {
    DivisionFound(x, t, p, b, e, c);
    DivisionFound(x, t, q, b, e, c);
    if p.ends != q.ends { WorthOrder(x, t, p.ends, q.ends, b, e); }
  }

  /** What a dissection in vain leaves is settled. */
  lemma {:induction false} OneRest(x: Ctx, t: Subre, b: nat, e: nat, c: Caps, c2: Caps, c3: Caps)
    requires LeftBehind(x, t, b, e, c, c2) && LeftBehind(x, t, b, e, c, c3)
    ensures c2 == c3
    decreases t, 3
  {
    match t
    case Concat(_, _, l, r) =>
      if m: nat :| LastTried(x, l, b, e, m) && MidpointLeft(x, t, b, m, e, c, c2) {
        var k: nat :| LastTried(x, l, b, e, k) && MidpointLeft(x, t, b, k, e, c, c3);
        OneMidpointRest(x, t, b, m, e, c, c2, c3);
      }
    case Alt(_, _, _, _) => OneJunk(x, t, Branches(t), b, e, c, c2, c3);
    case Iter(_, _, l, _, _) =>
      var c0 := Zap(c, Subs(l));
      if d :| LastWorth(x, t, d, b, e) && DivisionLeft(x, l, d, c0, c2) {
        var f :| LastWorth(x, t, f, b, e) && DivisionLeft(x, l, f, c0, c3);
        OneLastWorth(x, t, d, f, b, e);
        OneDivisionRest(x, l, d, c0, c2, c3);
      }
    case Capture(_, _, _, l) => OneRest(x, l, b, e, c, c2, c3);
    case _ =>
  }

  lemma OneMidpointRest(x: Ctx, t: Subre, b: nat, m: nat, e: nat, c: Caps, c2: Caps, c3: Caps)
    requires t.Concat? && MidpointLeft(x, t, b, m, e, c, c2) && MidpointLeft(x, t, b, m, e, c, c3)
    ensures c2 == c3
    decreases t, 0
  {
    var l, r := t.left, t.right;
    if Acc(x, r, m, e) {
      if LeftBehind(x, l, b, m, c, c2) && LeftBehind(x, l, b, m, c, c3) {
        OneRest(x, l, b, m, c, c2, c3);
      } else {
        forall c1 | Gained(x, l, b, m, c, c1) ensures !LeftBehind(x, l, b, m, c, c2) && !LeftBehind(x, l, b, m, c, c3) {
          GainedNotLeft(x, l, b, m, c, c1, c2);
          GainedNotLeft(x, l, b, m, c, c1, c3);
        }
        var c1 :| Gained(x, l, b, m, c, c1) && LeftBehind(x, r, m, e, c1, c2);
        var c4 :| Gained(x, l, b, m, c, c4) && LeftBehind(x, r, m, e, c4, c3);
        OneGain(x, l, b, m, c, c1, c4);
        OneRest(x, r, m, e, c1, c2, c3);
      }
    }
  }

  lemma GainedNotLeft(x: Ctx, t: Subre, b: nat, e: nat, c: Caps, c1: Caps, c2: Caps)
    requires Gained(x, t, b, e, c, c1)
    ensures !LeftBehind(x, t, b, e, c, c2)
    decreases t, 4
  {
    var p :| Ok(x, t, p, b, e, c) && Real(x, t, p, b, e, c) && c1 == After(x, t, p, b, e, c);
    NotBoth(x, t, p, b, e, c, c2);
  }

  lemma OneGain(x: Ctx, t: Subre, b: nat, e: nat, c: Caps, c1: Caps, c2: Caps)
    requires Gained(x, t, b, e, c, c1) && Gained(x, t, b, e, c, c2)
    ensures c1 == c2
    decreases t, 4
  {
    var p :| Ok(x, t, p, b, e, c) && Real(x, t, p, b, e, c) && c1 == After(x, t, p, b, e, c);
    var q :| Ok(x, t, q, b, e, c) && Real(x, t, q, b, e, c) && c2 == After(x, t, q, b, e, c);
    OneMatch(x, t, p, q, b, e, c);
  }

  lemma OneLastWorth(x: Ctx, t: Subre, d: seq<nat>, f: seq<nat>, b: nat, e: nat)
    requires t.Iter? && LastWorth(x, t, d, b, e) && LastWorth(x, t, f, b, e)
    ensures d == f
  {
    hide Worth;
    if d != f { NotBothAhead(d, f, t.left.shorter); }
  }

  lemma NotBothAhead(d: seq<nat>, f: seq<nat>, shorter: bool)
    requires Ahead(d, f, shorter)
    ensures !Ahead(f, d, shorter)
  {
    var i: nat :| AheadAt(d, f, shorter, i);
    forall j: nat ensures !AheadAt(f, d, shorter, j) {
      if j < |d| && j < |f| && f[..j] == d[..j] {
        if i < j { SamePrefix(f, d, j, i); }
        if j < i { SamePrefix(f, d, i, j); }
      }
    }
  }

  lemma OneDivisionRest(x: Ctx, t: Subre, d: seq<nat>, c: Caps, c2: Caps, c3: Caps)
    requires DivisionLeft(x, t, d, c, c2) && DivisionLeft(x, t, d, c, c3)
    ensures c2 == c3
    decreases t, 5
  {
    var i :| 0 <= i < |d| - 1 && PieceLeft(x, t, d, i, c, c2);
    var j :| 0 <= j < |d| - 1 && PieceLeft(x, t, d, j, c, c3);
    if i < j {
      assert PieceFound(x, t, d, i, c);
      FoundNotLeft(x, t, d[i], d[i + 1], c, c2);
    } else if j < i {
      assert PieceFound(x, t, d, j, c);
      FoundNotLeft(x, t, d[j], d[j + 1], c, c3);
    } else {
      OneRest(x, t, d[i], d[i + 1], c, c2, c3);
    }
  }

  lemma FoundNotLeft(x: Ctx, t: Subre, b: nat, e: nat, c: Caps, c2: Caps)
    requires Found(x, t, b, e, c)
    ensures !LeftBehind(x, t, b, e, c, c2)
    decreases t, 4
  {
    var p :| Ok(x, t, p, b, e, c) && Real(x, t, p, b, e, c);
    NotBoth(x, t, p, b, e, c, c2);
  }

  /** What is found, and what is left, is settled: one match and nothing left, or no match and what is left. */
  lemma OneOutcome(x: Ctx, t: Subre, b: nat, e: nat, c: Caps)
    ensures !(Found(x, t, b, e, c) && InVain(x, t, b, e, c))
    ensures forall p, q :: Ok(x, t, p, b, e, c) && Real(x, t, p, b, e, c) && Ok(x, t, q, b, e, c) && Real(x, t, q, b, e, c) ==> p == q
    ensures forall c2, c3 :: LeftBehind(x, t, b, e, c, c2) && LeftBehind(x, t, b, e, c, c3) ==> c2 == c3
  {
    hide *;
    assert !(Found(x, t, b, e, c) && InVain(x, t, b, e, c)) by { if Found(x, t, b, e, c) { FoundNone(x, t, b, e, c); } }
    forall p, q | Ok(x, t, p, b, e, c) && Real(x, t, p, b, e, c) && Ok(x, t, q, b, e, c) && Real(x, t, q, b, e, c) ensures p == q {
      OneMatch(x, t, p, q, b, e, c);
    }
    forall c2, c3 | LeftBehind(x, t, b, e, c, c2) && LeftBehind(x, t, b, e, c, c3) ensures c2 == c3 {
      OneRest(x, t, b, e, c, c2, c3);
    }
  }

  lemma FoundNone(x: Ctx, t: Subre, b: nat, e: nat, c: Caps)
    requires Found(x, t, b, e, c)
    ensures !InVain(x, t, b, e, c)
  {
    forall c2 ensures !LeftBehind(x, t, b, e, c, c2) { FoundNotLeft(x, t, b, e, c, c2); }
  }
}
