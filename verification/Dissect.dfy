/** The dissection of a match, regexec.c:544-1337: which substring each group matched, with a search
    through midpoints, alternatives and endpoints whenever there is a choice. */
module Dissect {
  import opened Options
  import opened Cnfa
  import opened Subres
  import opened LazyDfa
  import opened Iterations
  import opened Refusals

  datatype Code = OKAY | NOMATCH

  class Vars {
    const x: Ctx
    const small: bool
    var pmatch: Caps
    var subdfas: map<Cnfa, Dfa>     // the DFAs made so far
    ghost var dfas: set<Dfa>        // all of them

    ghost predicate Valid()
      reads this`pmatch
    {
      CapsOk(x, pmatch) && |x.chars| == x.text.Stop()
    }

    /** The DFAs at hand are in order, whatever earlier calls have left in their caches. */
    ghost predicate Kept()
      reads this`subdfas, this`dfas, dfas
    {
      forall c :: c in subdfas ==> subdfas[c] in dfas && subdfas[c].cnfa == c && subdfas[c].Valid()
    }

    constructor (x: Ctx, small: bool)
      requires |x.chars| == x.text.Stop()
      ensures Valid() && Kept() && dfas == {} && this.x == x && this.small == small && pmatch == map[]
    {
      this.x, this.small := x, small;
      pmatch, subdfas, dfas := map[], map[], {};
    }

    /** getsubdfa(), regexec.c:291-306. One DFA serves all nodes with the same automaton. */
    method GetSubDfa(t: Subre) returns (d: Dfa)
      requires Kept() && WellFormed(t.cnfa)
      modifies this`subdfas, this`dfas
      ensures Kept() && d in dfas && t.cnfa in subdfas && subdfas[t.cnfa] == d && fresh(dfas - old(dfas))
      ensures forall c :: c in old(subdfas) ==> c in subdfas && subdfas[c] == old(subdfas)[c]
    {
      if t.cnfa !in subdfas {
        d := new Dfa(t.cnfa, small);
        subdfas := subdfas[t.cnfa := d];
        dfas := dfas + {d};
      }
      d := subdfas[t.cnfa];
    }

    /** longest() with the DFA of the node. */
    method LongestEnd(t: Subre, b: nat, stop: nat) returns (r: Option<nat>)
      requires Kept() && Usable(x, t) && b <= stop <= x.text.Stop()
      modifies this`subdfas, this`dfas, dfas
      ensures Kept() && fresh(dfas - old(dfas))
      ensures IsLongest(t.cnfa, x.text, b, stop, r)
    {
      hide NoReturn, Fits, IsLongest, IsShortest, WellFormed, Usable;
      UsableHere(x, t);
      var d := GetSubDfa(t);
      var hitstop, err;
      r, hitstop, err := d.Longest(x.text, b, stop);
    }

    /** shortest() with the DFA of the node. */
    method ShortestEnd(t: Subre, b: nat, min: nat, max: nat) returns (r: Option<nat>)
      requires Kept() && Usable(x, t) && b <= min <= max <= x.text.Stop()
      modifies this`subdfas, this`dfas, dfas
      ensures Kept() && fresh(dfas - old(dfas))
      ensures IsShortest(t.cnfa, x.text, b, min, max, r)
    {
      hide NoReturn, Fits, IsLongest, IsShortest, WellFormed, Usable;
      UsableHere(x, t);
      var d := GetSubDfa(t);
      var cold, hitstop, err;
      r, cold, hitstop, err := d.Shortest(x.text, b, min, max);
    }

    /** longest(v, d, b, e) == e. */
    method Reaches(t: Subre, b: nat, e: nat) returns (r: bool)
      requires Kept() && Usable(x, t) && b <= e <= x.text.Stop()
      modifies this`subdfas, this`dfas, dfas
      ensures Kept() && fresh(dfas - old(dfas))
      ensures r <==> Acc(x, t, b, e)
    {
      var l := LongestEnd(t, b, e);
      r := l == Some(e);
    }

    /** zaptreesubs(), regexec.c:561-581. */
    method ZapTreeSubs(t: Subre)
      requires forall n :: n in pmatch ==> n < x.nmatch
      modifies this`pmatch
      ensures pmatch == Zap(old(pmatch), Subs(t))
      decreases t
    {
      match t {
        case Plain(_, _) =>
        case Backref(_, _, _, _, _) =>
        case Concat(_, _, l, r) =>
          ZapTreeSubs(l);
          ZapTreeSubs(r);
        case Alt(_, _, l, next) =>
          ZapTreeSubs(l);
          if next.Some? { ZapTreeSubs(next.value); }
        case Iter(_, _, l, _, _) =>
          ZapTreeSubs(l);
        case Capture(_, _, n, l) =>
          if n < x.nmatch { pmatch := pmatch - {n}; }
          ZapTreeSubs(l);
      }
    }

    /** subset(), regexec.c:587-604. */
    method Subset(n: nat, b: nat, e: nat)
      requires Valid() && b <= e <= |x.chars|
      modifies this`pmatch
      ensures Valid() && pmatch == SetCap(x, old(pmatch), n, b, e)
    {
      if n >= x.nmatch { return; }
      pmatch := pmatch[n := (b, e)];
    }

    /** cbrdissect(), regexec.c:869-944. */
    method CBrDissect(t: Subre, b: nat, e: nat) returns (er: Code)
      requires Valid() && t.Backref? && Usable(x, t) && b <= e <= |x.chars|
      ensures er == OKAY <==> RefersTo(x, pmatch, t.subno, t.min, t.max, b, e)
    {
      var n, min, max := t.subno, t.min, t.max;
      if n !in pmatch { return NOMATCH; }
      var brstring := x.chars[pmatch[n].0..pmatch[n].1];
      var brlen := |brstring|;
      if brlen == 0 {
        return if b == e && min <= max then OKAY else NOMATCH;
      }
      ghost var w := x.chars[b..e];
      if b == e {
        NoCopies(x, brstring, w);
        assert w == x.chars[b..e] && Repeats(x, brstring, w, 0);
        return if min == 0 then OKAY else NOMATCH;
      }
      var tlen := e - b;
      CopiesLength(x, brstring, w);
      if tlen % brlen != 0 { return NOMATCH; }
      var numreps := tlen / brlen;
      if numreps < min || (numreps > max && max != DUPINF) { return NOMATCH; }
      er := CompareAll(brstring, b, e, numreps);
    }

    /** The comparison loop of cbrdissect(). */
    method CompareAll(brstring: seq<nat>, b: nat, e: nat, numreps: nat) returns (er: Code)
      requires b <= e <= |x.chars| && e - b == numreps * |brstring|
      ensures er == OKAY <==> Repeats(x, brstring, x.chars[b..e], numreps)
    {
      var brlen := |brstring|;
      var p: nat, left: nat := b, numreps;
      while left > 0
        invariant b <= p <= e && e - p == left * brlen
        invariant Repeats(x, brstring, x.chars[b..e], numreps) <==> Repeats(x, brstring, x.chars[p..e], left)
        decreases left
      {
        MulMono(1, left, brlen);
        MulStep(left, brlen);
        assert x.chars[p..e][..brlen] == x.chars[p..p + brlen] && x.chars[p..e][brlen..] == x.chars[p + brlen..e];
        if !x.same(brstring, x.chars[p..p + brlen]) { return NOMATCH; }
        p := p + brlen;
        left := left - 1;
      }
      assert x.chars[p..e] == [];
      er := OKAY;
    }

    /** What the caller of any dissection has seen to: the captures of the tree are cleared. */
    ghost predicate Ready(t: Subre)
      reads this`pmatch
    {
      Valid() && Usable(x, t) && Clear(pmatch, Subs(t))
    }

    /** cdissect(), regexec.c:620-682. The caller has checked the substring against the node's DFA. */
    method CDissect(t: Subre, b: nat, e: nat) returns (er: Code, ghost p: Parse)
      requires Kept() && Ready(t) && b <= e <= |x.chars| && Acc(x, t, b, e)
      modifies this`pmatch, this`subdfas, this`dfas, dfas
      ensures Kept() && fresh(dfas - old(dfas))
      ensures Valid() && SameOutside(old(pmatch), pmatch, Subs(t))
      ensures er == OKAY ==> Dissected(x, t, p, b, e, old(pmatch), pmatch)
      ensures Complete(x, t) ==> er == OKAY
      ensures er == NOMATCH ==> LeftBehind(x, t, b, e, old(pmatch), pmatch)
      ensures t.Backref? ==> (er == OKAY <==> RefersTo(x, old(pmatch), t.subno, t.min, t.max, b, e))
      decreases t, 9
    {
      hide Dissected, LeftBehind, Complete, Usable, Subs, SameOutside, Clear, RefersTo, Acc;
      ghost var c := pmatch;
      er, p := OKAY, Leaf;
      SameHere(c, Subs(t));
      match t {
        case Plain(_, _) =>
          PlainDone(x, t, b, e, c);
        case Backref(_, _, _, _, _) =>
          er := CBrDissect(t, b, e);
          BackrefDone(x, t, b, e, c);
        case Concat(_, _, l, _) =>
          if l.shorter {
            er, p := CRevConDissect(t, b, e);
          } else {
            er, p := CConDissect(t, b, e);
          }
        case Alt(_, _, _, _) =>
          er, p := CAltDissect(t, b, e);
        case Iter(_, _, l, _, _) =>
          if l.shorter {
            er, p := CRevIterDissect(t, b, e);
          } else {
            er, p := CIterDissect(t, b, e);
          }
        case Capture(_, _, n, l) =>
          CaptureChild(x, t, b, e, c);
          er, p := CDissect(l, b, e);
          CaptureDone(x, t, p, b, e, c, pmatch);
          p := Cap(p);
          if er == OKAY {
            Subset(n, b, e);
          }
      }
      if er == NOMATCH { OnlyIncomplete(x, t, b, e, c, pmatch); }
    }

    /** One midpoint of a concatenation (regexec.c:728-745). */
    method TryMidpoint(t: Subre, b: nat, mid: nat, e: nat) returns (er: Code, ghost p: Parse)
      requires Kept() && Ready(t) && t.Concat? && b <= mid <= e <= |x.chars| && Acc(x, t.left, b, mid)
      modifies this`pmatch, this`subdfas, this`dfas, dfas
      ensures Kept() && fresh(dfas - old(dfas))
      ensures Valid() && SameOutside(old(pmatch), pmatch, Subs(t))
      ensures er == OKAY ==> MidpointGood(x, t, p, b, mid, e, old(pmatch), pmatch)
      ensures er == NOMATCH ==> MidpointLeft(x, t, b, mid, e, old(pmatch), pmatch)
      decreases t, 0
    {
      hide Dissected, MidpointGood, LeftBehind, MidpointLeft, Complete, Usable, Subs, SameOutside, Clear, Gained, Acc;
      ghost var c := pmatch;
      var l, r := t.left, t.right;
      er, p := NOMATCH, Leaf;
      ConcatParts(x, t, c);
      var reaches := Reaches(r, mid, e);
      if reaches {
        ghost var lp, rp;
        er, lp := CDissect(l, b, mid);
        if er == OKAY {
          ghost var c1 := pmatch;
          LeftMatched(x, t, lp, b, mid, c, c1);
          er, rp := CDissect(r, mid, e);
          RightTried(x, t, lp, rp, b, mid, e, c, c1, pmatch);
          p := Cat(mid, lp, rp);
        } else {
          LeftFailed(x, t, b, mid, e, c, pmatch);
        }
      } else {
        NotReached(x, t, b, mid, e, c);
      }
    }

    /** ccondissect(), regexec.c:688-772. */
    method CConDissect(t: Subre, b: nat, e: nat) returns (er: Code, ghost p: Parse)
      requires Kept() && Ready(t) && t.Concat? && !t.left.shorter && b <= e <= |x.chars| && Acc(x, t, b, e)
      modifies this`pmatch, this`subdfas, this`dfas, dfas
      ensures Kept() && fresh(dfas - old(dfas))
      ensures Valid() && SameOutside(old(pmatch), pmatch, Subs(t))
      ensures er == OKAY ==> Dissected(x, t, p, b, e, old(pmatch), pmatch)
      ensures er == NOMATCH ==> LeftBehind(x, t, b, e, old(pmatch), pmatch)
      decreases t, 1
    {
      hide Dissected, MidpointGood, Passed, LeftBehind, MidpointLeft;
      ghost var c := pmatch;
      er, p := NOMATCH, Leaf;
      var r := LongestEnd(t.left, b, e);
      FirstMidpoint(x, t, b, e, r, c);
      if r.None? {
        NoMidpoint(x, t, b, e, c);
        return;
      }
      var mid := r.value;
      while true
        invariant Kept() && fresh(dfas - old(dfas))
        invariant pmatch == c && b <= mid <= e && Acc(x, t.left, b, mid)
        invariant Passed(x, t, b, e, mid, c)
        decreases mid
      {
        er, p := TryMidpoint(t, b, mid, e);
        if er == OKAY {
          ChosenMidpoint(x, t, p, b, mid, e, c, pmatch);
          return;
        }
        if mid == b {
          LastMidpoint(x, t, b, mid, e, c, pmatch);
          return;
        }
        r := LongestEnd(t.left, b, mid - 1);
        if r.None? {
          LastMidpoint(x, t, b, mid, e, c, pmatch);
          return;
        }
        NextMidpoint(x, t, b, e, mid, r.value, c, pmatch);
        mid := r.value;
        ZapBoth(t, c, pmatch);
        ZapTreeSubs(t.left);
        ZapTreeSubs(t.right);
      }
    }

    /** crevcondissect(), regexec.c:778-863: the midpoints in the opposite order. */
    method CRevConDissect(t: Subre, b: nat, e: nat) returns (er: Code, ghost p: Parse)
      requires Kept() && Ready(t) && t.Concat? && t.left.shorter && b <= e <= |x.chars| && Acc(x, t, b, e)
      modifies this`pmatch, this`subdfas, this`dfas, dfas
      ensures Kept() && fresh(dfas - old(dfas))
      ensures Valid() && SameOutside(old(pmatch), pmatch, Subs(t))
      ensures er == OKAY ==> Dissected(x, t, p, b, e, old(pmatch), pmatch)
      ensures er == NOMATCH ==> LeftBehind(x, t, b, e, old(pmatch), pmatch)
      decreases t, 1
    {
      hide Dissected, MidpointGood, Passed, LeftBehind, MidpointLeft;
      ghost var c := pmatch;
      er, p := NOMATCH, Leaf;
      var r := ShortestEnd(t.left, b, b, e);
      FirstRevMidpoint(x, t, b, e, r, c);
      if r.None? {
        NoRevMidpoint(x, t, b, e, c);
        return;
      }
      var mid := r.value;
      while true
        invariant Kept() && fresh(dfas - old(dfas))
        invariant pmatch == c && b <= mid <= e && Acc(x, t.left, b, mid)
        invariant Passed(x, t, b, e, mid, c)
        decreases e - mid
      {
        er, p := TryMidpoint(t, b, mid, e);
        if er == OKAY {
          ChosenMidpoint(x, t, p, b, mid, e, c, pmatch);
          return;
        }
        if mid == e {
          LastRevMidpoint(x, t, b, mid, e, c, pmatch);
          return;
        }
        r := ShortestEnd(t.left, b, mid + 1, e);
        if r.None? {
          LastRevMidpoint(x, t, b, mid, e, c, pmatch);
          return;
        }
        NextRevMidpoint(x, t, b, e, mid, r.value, c, pmatch);
        mid := r.value;
        ZapBoth(t, c, pmatch);
        ZapTreeSubs(t.left);
        ZapTreeSubs(t.right);
      }
    }

    /** caltdissect(), regexec.c:950-981. What a failed alternative captured is not cleared. */
    method CAltDissect(t: Subre, b: nat, e: nat) returns (er: Code, ghost p: Parse)
      requires Kept() && Ready(t) && t.Alt? && b <= e <= |x.chars| && Acc(x, t, b, e)
      modifies this`pmatch, this`subdfas, this`dfas, dfas
      ensures Kept() && fresh(dfas - old(dfas))
      ensures Valid() && SameOutside(old(pmatch), pmatch, Subs(t))
      ensures er == OKAY ==> Dissected(x, t, p, b, e, old(pmatch), pmatch)
      ensures er == NOMATCH ==> LeftBehind(x, t, b, e, old(pmatch), pmatch)
      decreases t, 1
    {
      hide Dissected, Complete, Usable, SameOutside, Clear, CapsOk, LeftBehind, BranchesLeft;
      ghost var c := pmatch;
      er, p := NOMATCH, Leaf;
      var cur := Some(t);
      ghost var i: nat := 0;
      FirstBranch(x, t, b, e, c);
      while cur.Some?
        invariant Kept() && fresh(dfas - old(dfas))
        invariant i <= Branches(t) && (cur.Some? <==> i < Branches(t))
        invariant cur.Some? ==> cur.value == Nth(t, i) && (i == 0 || cur.value < t)
        invariant Valid() && SameOutside(c, pmatch, Subs(t)) && er == NOMATCH
        invariant cur.Some? ==> SameOutside(c, pmatch, Earlier(t, i))
        invariant BranchesLeft(x, t, i, b, e, c, pmatch)
        decreases Branches(t) - i
      {
        var l := cur.value.left;
        BranchReady(x, t, i, c, pmatch);
        SameHere(pmatch, Subs(l));
        var reaches := Reaches(l, b, e);
        ghost var junk := pmatch;
        if reaches {
          er, p := CDissect(l, b, e);
          BranchFrame(x, t, i, c, junk, pmatch);
          if er != NOMATCH {
            ChosenBranch(x, t, i, p, b, e, c, junk, pmatch);
            p := Pick(i, junk, p);
            return;
          }
        }
        BranchGone(x, t, i, b, e, c, junk, pmatch);
        NthNext(x, t, i);
        BranchFrame(x, t, i, c, junk, pmatch);
        if i + 1 < Branches(t) { NthInherits(x, t, i + 1); }
        cur := cur.value.next;
        i := i + 1;
      }
      NoBranchLeft(x, t, b, e, c, pmatch);
    }

    /** Verify the pieces nverified+1..k (regexec.c:1110-1123). */
    method VerifyPieces(t: Subre, es: seq<nat>, k: nat, nverified: nat, ghost ps: seq<Parse>, ghost c: Caps)
      returns (er: Code, nv: nat, ghost ps2: seq<Parse>)
      requires Kept() && Iterating(t, c) && PiecesHeld(x, t.left, es, k) && nverified < k <= |ps|
      requires Verified(x, t.left, es, ps, nverified, c)
      modifies this`pmatch, this`subdfas, this`dfas, dfas
      ensures Kept() && fresh(dfas - old(dfas))
      ensures Iterating(t, c) && |ps2| == |ps| && nv <= k && Verified(x, t.left, es, ps2, nv, c)
      ensures er == OKAY ==> nv == k && pmatch == After(x, t.left, ps2[k - 1], es[k - 1], es[k], c)
      ensures er == NOMATCH ==> nv < k && PieceLost(x, t.left, es, nv, c, pmatch)
      decreases t, 0
    {
      hide Verified, Usable, Dissected, Subs, After, Complete, LeftBehind;
      var l := t.left;
      er, nv, ps2 := NOMATCH, nverified, ps;
      var i := nverified + 1;
      while i <= k
        invariant Kept() && fresh(dfas - old(dfas))
        invariant nverified < i <= k + 1 && nv == i - 1 && |ps2| == |ps|
        invariant Iterating(t, c) && Verified(x, l, es, ps2, nv, c)
        invariant i > nverified + 1 ==> pmatch == After(x, l, ps2[i - 2], es[i - 2], es[i - 1], c)
      {
        ZapPiece(c, pmatch, Subs(l));
        ZapTreeSubs(l);
        ghost var q;
        er, q := CDissect(l, es[i - 1], es[i]);
        if er != OKAY { return; }
        PieceVerified(x, l, es, ps2, nv, c, q, pmatch);
        ps2 := ps2[nv := q];
        nv := i;
        i := i + 1;
      }
      er := OKAY;
    }

    /** The captures outside the iterated part are those the iteration began with. */
    ghost predicate Iterating(t: Subre, c: Caps)
      reads this`pmatch
    {
      && t.Iter? && Valid() && Usable(x, t)
      && Usable(x, t.left) && Subs(t.left) == Subs(t)
      && CapsOk(x, c) && Clear(c, Subs(t)) && SameOutside(c, pmatch, Subs(t))
    }

    /** What holds at the head of the search loop, looking for endpoint k. */
    ghost predicate Searching(t: Subre, es: seq<nat>, k: nat, limit: nat, nverified: nat, ps: seq<Parse>, b: nat, e: nat, g: Goal)
      reads this`pmatch
    {
      && Iterating(t, g.c) && Aims(t, b, e, g) && TriedVain(x, t, b, e, g) && LastLeft(x, t, g, pmatch) && b <= limit <= e <= |x.chars| && |ps| == g.n && |es| == g.n + 1 && k <= g.n
      && InRange(es, k, b, e) && (k > 0 ==> Standing(x, t.left, es, k, limit, b, e, g))
      && Verified(x, t.left, es, ps, Settling(nverified, k), g.c)
    }

    /** What the search has found once it succeeds with k pieces. */
    ghost predicate Succeeded(t: Subre, es: seq<nat>, k: nat, ps: seq<Parse>, b: nat, e: nat, g: Goal)
      reads this`pmatch
    {
      && Iterating(t, g.c) && Aims(t, b, e, g) && TriedVain(x, t, b, e, g) && 1 <= k <= g.n == |ps| && Held(x, t.left, es, k, b, e, g) && es[k] == e
      && Verified(x, t.left, es, ps, k, g.c) && pmatch == After(x, t.left, ps[k - 1], es[k - 1], es[k], g.c)
    }

    /** Look for endpoint k, going forward. */
    method PlaceForward(t: Subre, endpts: array<nat>, k: nat, limit: nat, b: nat, e: nat, ghost g: Goal) returns (found: bool)
      requires Kept() && t.Iter? && Usable(x, t) && b <= e <= |x.chars| == x.text.Stop()
      requires Standing(x, t.left, endpts[..], k, limit, b, e, g) && StillAhead(x, t.left, endpts[..], k, limit, b, e, g, false)
      modifies endpts, this`subdfas, this`dfas, dfas
      ensures Kept() && fresh(dfas - old(dfas))
      ensures found ==> k < endpts.Length && endpts[..] == old(endpts[..])[k := endpts[k]] && Held(x, t.left, endpts[..], k, b, e, g)
      ensures found ==> old(endpts[k - 1]) <= endpts[k] <= limit && StillAhead(x, t.left, endpts[..], k, endpts[k], b, e, g, false)
      ensures !found ==> endpts[..] == old(endpts[..]) && Backing(x, t.left, endpts[..], k - 1, b, e, g, false)
    {
      hide StillAhead, Backing, Settled;
      var l := t.left;
      ghost var es := endpts[..];
      var r := LongestEnd(l, endpts[k - 1], limit);
      if r.None? {
        found := false;
        EndMissing(x, l, es, k, limit, b, e, g, false);
      } else {
        found := true;
        EndWritten(x, l, es, k, limit, b, e, g, r.value);
        EndFound(x, l, es, k, limit, b, e, g, false, r.value);
        endpts[k] := r.value;
        assert endpts[..] == es[k := r.value];
      }
    }

    /** What is known before and after a turn of either search loop: es and es2 are the endpoints then. */
    ghost predicate Turned(es: seq<nat>, k: nat, limit: nat, es2: seq<nat>, b: nat, e: nat, n: nat, shorter: bool, moved: bool) {
      && 1 <= k <= n && |es2| == |es| == n + 1 && es2[..k] == es[..k] && InRange(es, k, b, e) && b <= limit <= e
      && (moved ==> InRange(es2, k + 1, b, e) && (es2[k] == limit || Later(es2[k], limit, shorter)))
    }

    /** The endpoints held up to j, and the pieces still known good. */
    ghost predicate Holding(t: Subre, es: seq<nat>, j: nat, nverified: nat, ps: seq<Parse>, b: nat, e: nat, g: Goal)
      reads this`pmatch
    {
      && Iterating(t, g.c) && Aims(t, b, e, g) && TriedVain(x, t, b, e, g) && LastLeft(x, t, g, pmatch) && b <= e <= |x.chars| && |ps| == g.n && |es| == g.n + 1 && j <= g.n
      && Held(x, t.left, es, j, b, e, g) && Verified(x, t.left, es, ps, Settling(nverified, j + 1), g.c)
    }

    /** The first half of a turn of citerdissect(): find endpoint k and see what to do (regexec.c:1066-1130). */
    method AttemptForward(t: Subre, endpts: array<nat>, k: nat, limit: nat, nverified: nat, least: nat, b: nat, e: nat, n: nat,
                          ghost ps: seq<Parse>, ghost g: Goal)
      returns (v: Verdict, nv: nat, ghost ps2: seq<Parse>, ghost g2: Goal)
      requires Kept() && Searching(t, endpts[..], k, limit, nverified, ps, b, e, g) && !t.left.shorter && k > 0 && 1 <= least == g.least && n == g.n
      requires StillAhead(x, t.left, endpts[..], k, limit, b, e, g, false)
      modifies endpts, this`pmatch, this`subdfas, this`dfas, dfas
      ensures Kept() && fresh(dfas - old(dfas))
      ensures Turned(old(endpts[..]), k, limit, endpts[..], b, e, n, false, v != BackFrom(k - 1))
      ensures g2.c == g.c && g2.least == g.least && g2.n == g.n
      ensures v == Done ==> Succeeded(t, endpts[..], k, ps2, b, e, g2) && least <= k
      ensures v == Next ==> Searching(t, endpts[..], k + 1, e, nv, ps2, b, e, g2)
      ensures v.BackFrom? ==> k - 1 <= v.j <= k && Holding(t, endpts[..], v.j, nv, ps2, b, e, g2)
      ensures Prospect(x, t.left, endpts[..], k, v, b, e, g2, false)
      decreases t, 1
    {
      hide StillAhead, Backing, Standing, Held, Verified, Usable, Complete, Subs, After, Rank, Settled, TriedVain, LastLeft, Aims, InRange, SameOutside, Clear, CapsOk;
      ghost var es0, c := endpts[..], g.c;
      nv, ps2, g2 := nverified, ps, g;
      IterationStarts(t, x);
      var found := PlaceForward(t, endpts, k, limit, b, e, g);
      if !found {
        VerifiedLess(x, t.left, es0, ps, Settling(nverified, k), Settling(nverified, k), c);
        StandingHeld(x, t.left, es0, k, limit, b, e, g);
        v := BackFrom(k - 1);
        return;
      }
      if nv >= k { nv := k - 1; }
      VerifiedStays(x, t.left, es0, endpts[..], ps, Settling(nverified, k), nv, k, c);
      HeldPieces(x, t.left, endpts[..], k, b, e, g);
      v := JudgeForward(endpts[..], k, least, e, n, x, t.left, b, g);
      if v == Done {
        var er;
        er, nv, ps2 := VerifyPieces(t, endpts[..], k, nv, ps, c);
        if er != OKAY {
          DivisionTried(x, t.left, endpts[..], k, b, e, g, false);
          DivisionFailed(x, t, endpts[..], k, nv, ps2, b, e, g, pmatch, false);
          HeldOn(x, t.left, endpts[..], k, b, e, g);
          g2 := Iterations.Tried(g, endpts[..], k);
          VerifiedLess(x, t.left, endpts[..], ps2, nv, Settling(nv, k + 1), c);
          v := BackFrom(k);
        }
      }
    }

    /** One turn of the outer loop of citerdissect() (regexec.c:987-1159). */
    method TurnForward(t: Subre, endpts: array<nat>, k: nat, limit: nat, nverified: nat, least: nat, b: nat, e: nat, n: nat,
                       ghost ps: seq<Parse>, ghost g: Goal)
      returns (done: bool, k2: nat, limit2: nat, nv: nat, ghost ps2: seq<Parse>, ghost g2: Goal)
      requires Kept() && Searching(t, endpts[..], k, limit, nverified, ps, b, e, g) && !t.left.shorter && k > 0 && 1 <= least == g.least && n == g.n
      requires StillAhead(x, t.left, endpts[..], k, limit, b, e, g, false)
      modifies endpts, this`pmatch, this`subdfas, this`dfas, dfas
      ensures Kept() && fresh(dfas - old(dfas))
      ensures g2.c == g.c && g2.least == g.least && g2.n == g.n
      ensures done ==> Succeeded(t, endpts[..], k2, ps2, b, e, g2) && least <= k2
      ensures !done ==> Searching(t, endpts[..], k2, limit2, nv, ps2, b, e, g2)
      ensures !done ==> Measure(endpts[..], k2, limit2, b, e, n, false) < old(Measure(endpts[..], k, limit, b, e, n, false))
      ensures StillAhead(x, t.left, endpts[..], k2, if done then e else limit2, b, e, g2, false)
      decreases t, 2
    {
      hide StillAhead, Backing, Standing, Held, Verified, Usable, Complete, Subs, After, Rank, Settled, TriedVain, LastLeft, Aims;
      ghost var es0 := endpts[..];
      var v;
      v, nv, ps2, g2 := AttemptForward(t, endpts, k, limit, nverified, least, b, e, n, ps, g);
      match v {
        case Done =>
          return true, k, limit, nv, ps2, g2;
        case Next =>
          AdvanceDrops(es0, k, limit, endpts[..], e, b, e, n, false);
          return false, k + 1, e, nv, ps2, g2;
        case BackFrom(j) =>
          k2, limit2 := BackForward(endpts[..], j, least, b, e, x, t.left, g2);
          VerifiedLess(x, t.left, endpts[..], ps2, Settling(nv, j + 1), Settling(nv, k2), g2.c);
          BackDrops(es0, k, limit, endpts[..], k2, limit2, b, e, n, false);
          BackInRange(x, t.left, endpts[..], k2, limit2, b, e, g2);
          done := false;
      }
    }

    /** What citerdissect() and creviterdissect() settle before their search loop: at least `least` and
        at most n pieces. */
    ghost predicate Bounded(t: Subre, least: nat, b: nat, e: nat, n: nat) {
      && t.Iter? && b <= e && least == (if t.min == 0 then 1 else t.min) && (t.min == 0 ==> b < e)
      && n == MaxMatches(b, e, least, t.max)
    }

    /** The outer loop of citerdissect() (regexec.c:987-1159). */
    method SearchForward(t: Subre, b: nat, e: nat, least: nat, n: nat) returns (er: Code, ghost p: Parse)
      requires Kept() && Ready(t) && t.Iter? && !t.left.shorter && b <= e <= |x.chars| && Acc(x, t, b, e) && Bounded(t, least, b, e, n)
      modifies this`pmatch, this`subdfas, this`dfas, dfas
      ensures Kept() && fresh(dfas - old(dfas))
      ensures Valid() && SameOutside(old(pmatch), pmatch, Subs(t))
      ensures er == OKAY ==> Dissected(x, t, p, b, e, old(pmatch), pmatch)
      ensures er == NOMATCH ==> LeftBehind(x, t, b, e, old(pmatch), pmatch)
      decreases t, 3
    {
      hide StillAhead, Standing, Held, Verified, Dissected, Usable, Complete, Subs, MaxMatches, LeftBehind;
      ghost var c, g := pmatch, Goal(least, n, pmatch, {});
      IterationStarts(t, x);
      er, p := NOMATCH, Leaf;
      var endpts := new nat[n + 1];
      endpts[0] := b;
      var nverified: nat, k: nat, limit: nat := 0, 1, e;
      ghost var ps := seq(n, _ => Leaf);
      StandingStart(x, t.left, endpts[..], limit, b, e, g);
      SearchStart(x, t.left, endpts[..], b, e, g, false);
      NoneVerified(x, t.left, endpts[..], ps, c);
      SameHere(c, Subs(t));
      NoneTried(x, t, b, e, g);
      while k > 0
        invariant Kept() && fresh(dfas - old(dfas)) && g.c == c && g.least == least && g.n == n
        invariant Searching(t, endpts[..], k, limit, nverified, ps, b, e, g)
        invariant StillAhead(x, t.left, endpts[..], k, limit, b, e, g, false)
        decreases Measure(endpts[..], k, limit, b, e, n, false)
      {
        var done;
        done, k, limit, nverified, ps, g := TurnForward(t, endpts, k, limit, nverified, least, b, e, n, ps, g);
        if done {
          p := Reps(endpts[..k + 1], ps[..k]);
          IterationDone(x, t, endpts[..], k, ps, b, e, g, pmatch, false);
          return OKAY, p;
        }
      }
      NoDivision(x, t, endpts[..], limit, b, e, g, false, pmatch);
    }

    /** citerdissect(), regexec.c:987-1159. */
    method CIterDissect(t: Subre, b: nat, e: nat) returns (er: Code, ghost p: Parse)
      requires Kept() && Ready(t) && t.Iter? && !t.left.shorter && b <= e <= |x.chars| && Acc(x, t, b, e)
      modifies this`pmatch, this`subdfas, this`dfas, dfas
      ensures Kept() && fresh(dfas - old(dfas))
      ensures Valid() && SameOutside(old(pmatch), pmatch, Subs(t))
      ensures er == OKAY ==> Dissected(x, t, p, b, e, old(pmatch), pmatch)
      ensures er == NOMATCH ==> LeftBehind(x, t, b, e, old(pmatch), pmatch)
      decreases t, 4
    {
      er, p := OKAY, Reps([b], []);
      var least := t.min;
      if least <= 0 {
        if b == e {
          NoPieces(x, t, b, pmatch);
          return;
        }
        least := 1;
      }
      er, p := SearchForward(t, b, e, least, MaxMatches(b, e, least, t.max));
    }

    /** Look for endpoint k, going backward: not too close to the previous one, and no closer than the
        end if it is the last one allowed (regexec.c:1242-1251). */
    method PlaceBackward(t: Subre, endpts: array<nat>, k: nat, limit: nat, least: nat, b: nat, e: nat, n: nat, ghost g: Goal) returns (found: bool)
      requires Kept() && t.Iter? && Usable(x, t) && b <= e <= |x.chars| == x.text.Stop() && g.n == n && g.least == least
      requires Standing(x, t.left, endpts[..], k, limit, b, e, g) && StillAhead(x, t.left, endpts[..], k, limit, b, e, g, true)
      modifies endpts, this`subdfas, this`dfas, dfas
      ensures Kept() && fresh(dfas - old(dfas))
      ensures found ==> k < endpts.Length && endpts[..] == old(endpts[..])[k := endpts[k]] && Held(x, t.left, endpts[..], k, b, e, g)
      ensures found ==> limit <= endpts[k] <= e && !Spare(endpts[..], k, endpts[k], e, least) && (k >= n ==> endpts[k] == e) && StillAhead(x, t.left, endpts[..], k, endpts[k], b, e, g, true)
      ensures !found ==> endpts[..] == old(endpts[..]) && Backing(x, t.left, endpts[..], k - 1, b, e, g, true)
    {
      hide StillAhead, Backing, Settled;
      var l, lim := t.left, limit;
      ghost var es := endpts[..];
      if lim == endpts[k - 1] && lim != e && (k >= least || least - k < e - lim) {
        SkipEmpty(x, l, es, k, b, e, g);
        lim := lim + 1;
      }
      if k >= n {
        LastPiece(x, l, es, k, lim, b, e, g);
        lim := e;
      }
      var r := ShortestEnd(l, endpts[k - 1], lim, e);
      if r.None? {
        found := false;
        EndMissing(x, l, es, k, lim, b, e, g, true);
      } else {
        found := true;
        EndWritten(x, l, es, k, limit, b, e, g, r.value);
        EndFound(x, l, es, k, lim, b, e, g, true, r.value);
        endpts[k] := r.value;
        assert endpts[..] == es[k := r.value];
      }
    }

    /** The first half of a turn of creviterdissect(): find endpoint k and see what to do (regexec.c:1242-1307). */
    method AttemptBackward(t: Subre, endpts: array<nat>, k: nat, limit: nat, nverified: nat, least: nat, b: nat, e: nat, n: nat,
                          ghost ps: seq<Parse>, ghost g: Goal)
      returns (v: Verdict, nv: nat, ghost ps2: seq<Parse>, ghost g2: Goal)
      requires Kept() && Searching(t, endpts[..], k, limit, nverified, ps, b, e, g) && t.left.shorter && k > 0 && 1 <= least == g.least && n == g.n
      requires StillAhead(x, t.left, endpts[..], k, limit, b, e, g, true)
      modifies endpts, this`pmatch, this`subdfas, this`dfas, dfas
      ensures Kept() && fresh(dfas - old(dfas))
      ensures Turned(old(endpts[..]), k, limit, endpts[..], b, e, n, true, v != BackFrom(k - 1))
      ensures g2.c == g.c && g2.least == g.least && g2.n == g.n
      ensures v == Done ==> Succeeded(t, endpts[..], k, ps2, b, e, g2) && least <= k
      ensures v == Next ==> k < endpts.Length && Searching(t, endpts[..], k + 1, endpts[k], nv, ps2, b, e, g2)
      ensures v.BackFrom? ==> k - 1 <= v.j <= k && Holding(t, endpts[..], v.j, nv, ps2, b, e, g2)
      ensures Prospect(x, t.left, endpts[..], k, v, b, e, g2, true)
      decreases t, 1
    {
      hide StillAhead, Backing, Standing, Held, Verified, Usable, Complete, Subs, After, Rank, Settled, TriedVain, LastLeft, Aims, InRange, SameOutside, Clear, CapsOk;
      ghost var es0, c := endpts[..], g.c;
      nv, ps2, g2 := nverified, ps, g;
      IterationStarts(t, x);
      var found := PlaceBackward(t, endpts, k, limit, least, b, e, n, g);
      if !found {
        VerifiedLess(x, t.left, es0, ps, Settling(nverified, k), Settling(nverified, k), c);
        StandingHeld(x, t.left, es0, k, limit, b, e, g);
        v := BackFrom(k - 1);
        return;
      }
      if nv >= k { nv := k - 1; }
      VerifiedStays(x, t.left, es0, endpts[..], ps, Settling(nverified, k), nv, k, c);
      HeldPieces(x, t.left, endpts[..], k, b, e, g);
      v := JudgeBackward(endpts[..], k, least, e, n, x, t.left, b, g);
      if v == Done {
        var er;
        er, nv, ps2 := VerifyPieces(t, endpts[..], k, nv, ps, c);
        if er != OKAY {
          DivisionTried(x, t.left, endpts[..], k, b, e, g, true);
          DivisionFailed(x, t, endpts[..], k, nv, ps2, b, e, g, pmatch, true);
          HeldOn(x, t.left, endpts[..], k, b, e, g);
          g2 := Iterations.Tried(g, endpts[..], k);
          VerifiedLess(x, t.left, endpts[..], ps2, nv, Settling(nv, k + 1), c);
          v := BackFrom(k);
        }
      }
    }

    /** One turn of the outer loop of creviterdissect() (regexec.c:1165-1337). */
    method TurnBackward(t: Subre, endpts: array<nat>, k: nat, limit: nat, nverified: nat, least: nat, b: nat, e: nat, n: nat,
                       ghost ps: seq<Parse>, ghost g: Goal)
      returns (done: bool, k2: nat, limit2: nat, nv: nat, ghost ps2: seq<Parse>, ghost g2: Goal)
      requires Kept() && Searching(t, endpts[..], k, limit, nverified, ps, b, e, g) && t.left.shorter && k > 0 && 1 <= least == g.least && n == g.n
      requires StillAhead(x, t.left, endpts[..], k, limit, b, e, g, true)
      modifies endpts, this`pmatch, this`subdfas, this`dfas, dfas
      ensures Kept() && fresh(dfas - old(dfas))
      ensures g2.c == g.c && g2.least == g.least && g2.n == g.n
      ensures done ==> Succeeded(t, endpts[..], k2, ps2, b, e, g2) && least <= k2
      ensures !done ==> Searching(t, endpts[..], k2, limit2, nv, ps2, b, e, g2)
      ensures !done ==> Measure(endpts[..], k2, limit2, b, e, n, true) < old(Measure(endpts[..], k, limit, b, e, n, true))
      ensures StillAhead(x, t.left, endpts[..], k2, if done then e else limit2, b, e, g2, true)
      decreases t, 2
    {
      hide StillAhead, Backing, Standing, Held, Verified, Usable, Complete, Subs, After, Rank, Settled, TriedVain, LastLeft, Aims;
      ghost var es0 := endpts[..];
      var v;
      v, nv, ps2, g2 := AttemptBackward(t, endpts, k, limit, nverified, least, b, e, n, ps, g);
      match v {
        case Done =>
          return true, k, limit, nv, ps2, g2;
        case Next =>
          AdvanceDrops(es0, k, limit, endpts[..], endpts[k], b, e, n, true);
          return false, k + 1, endpts[k], nv, ps2, g2;
        case BackFrom(j) =>
          k2, limit2 := BackBackward(endpts[..], j, b, e, x, t.left, g2);
          VerifiedLess(x, t.left, endpts[..], ps2, Settling(nv, j + 1), Settling(nv, k2), g2.c);
          BackDrops(es0, k, limit, endpts[..], k2, limit2, b, e, n, true);
          BackInRange(x, t.left, endpts[..], k2, limit2, b, e, g2);
          done := false;
      }
    }

    /** The outer loop of creviterdissect() (regexec.c:1165-1337). */
    method SearchBackward(t: Subre, b: nat, e: nat, least: nat, n: nat) returns (er: Code, ghost p: Parse)
      requires Kept() && Ready(t) && t.Iter? && t.left.shorter && b <= e <= |x.chars| && Acc(x, t, b, e) && Bounded(t, least, b, e, n)
      modifies this`pmatch, this`subdfas, this`dfas, dfas
      ensures Kept() && fresh(dfas - old(dfas))
      ensures Valid() && SameOutside(old(pmatch), pmatch, Subs(t))
      ensures er == OKAY ==> Dissected(x, t, p, b, e, old(pmatch), pmatch)
      ensures er == NOMATCH ==> LeftBehind(x, t, b, e, old(pmatch), pmatch)
      decreases t, 3
    {
      hide StillAhead, Standing, Held, Verified, Dissected, Usable, Complete, Subs, MaxMatches, LeftBehind;
      ghost var c, g := pmatch, Goal(least, n, pmatch, {});
      IterationStarts(t, x);
      er, p := NOMATCH, Leaf;
      var endpts := new nat[n + 1];
      endpts[0] := b;
      var nverified: nat, k: nat, limit: nat := 0, 1, b;
      ghost var ps := seq(n, _ => Leaf);
      StandingStart(x, t.left, endpts[..], limit, b, e, g);
      SearchStart(x, t.left, endpts[..], b, e, g, true);
      NoneVerified(x, t.left, endpts[..], ps, c);
      SameHere(c, Subs(t));
      NoneTried(x, t, b, e, g);
      while k > 0
        invariant Kept() && fresh(dfas - old(dfas)) && g.c == c && g.least == least && g.n == n
        invariant Searching(t, endpts[..], k, limit, nverified, ps, b, e, g)
        invariant StillAhead(x, t.left, endpts[..], k, limit, b, e, g, true)
        decreases Measure(endpts[..], k, limit, b, e, n, true)
      {
        var done;
        done, k, limit, nverified, ps, g := TurnBackward(t, endpts, k, limit, nverified, least, b, e, n, ps, g);
        if done {
          p := Reps(endpts[..k + 1], ps[..k]);
          IterationDone(x, t, endpts[..], k, ps, b, e, g, pmatch, true);
          return OKAY, p;
        }
      }
      NoDivision(x, t, endpts[..], limit, b, e, g, true, pmatch);
    }

    /** creviterdissect(), regexec.c:1165-1337. */
    method CRevIterDissect(t: Subre, b: nat, e: nat) returns (er: Code, ghost p: Parse)
      requires Kept() && Ready(t) && t.Iter? && t.left.shorter && b <= e <= |x.chars| && Acc(x, t, b, e)
      modifies this`pmatch, this`subdfas, this`dfas, dfas
      ensures Kept() && fresh(dfas - old(dfas))
      ensures Valid() && SameOutside(old(pmatch), pmatch, Subs(t))
      ensures er == OKAY ==> Dissected(x, t, p, b, e, old(pmatch), pmatch)
      ensures er == NOMATCH ==> LeftBehind(x, t, b, e, old(pmatch), pmatch)
      decreases t, 4
    {
      er, p := OKAY, Reps([b], []);
      var least := t.min;
      if least <= 0 {
        if b == e {
          NoPieces(x, t, b, pmatch);
          return;
        }
        least := 1;
      }
      er, p := SearchBackward(t, b, e, least, MaxMatches(b, e, least, t.max));
    }
  }

  lemma NoCopies(x: Ctx, s: seq<nat>, w: seq<nat>)
    requires |s| > 0 && w == []
    ensures forall n: nat :: Repeats(x, s, w, n) <==> n == 0
  {
  }

  lemma {:induction false} RepeatsLength(x: Ctx, s: seq<nat>, w: seq<nat>, n: nat)
    requires Repeats(x, s, w, n)
    ensures |w| == n * |s|
    decreases n
  {
    if n > 0 {
      RepeatsLength(x, s, w[|s|..], n - 1);
      assert n * |s| == (n - 1) * |s| + |s|;
    }
  }

  lemma CopiesLength(x: Ctx, s: seq<nat>, w: seq<nat>)
    requires |s| > 0
    ensures forall n: nat :: Repeats(x, s, w, n) ==> |w| % |s| == 0 && n == |w| / |s|
  {
    forall n: nat | Repeats(x, s, w, n) ensures |w| % |s| == 0 && n == |w| / |s| {
      RepeatsLength(x, s, w, n);
      Divided(|w|, |s|, n);
    }
  }

  lemma Divided(a: nat, b: nat, n: nat)
    requires b > 0 && a == n * b
    ensures a % b == 0 && a / b == n
  {
    MulMono(a / b + 1, n, b);
    MulMono(n + 1, a / b, b);
  }

  lemma MulMono(m: nat, n: nat, b: nat)
    ensures m <= n ==> m * b <= n * b
  {
    if m <= n { assert n * b == m * b + (n - m) * b; }
  }

  lemma MulStep(n: nat, b: nat)
    requires n > 0
    ensures n * b == (n - 1) * b + b
  {
  }

  // ---------------------------------------------------------------- the outcome of a dissection

  /** p describes a match of the substring, c2 its captures, with what failed attempts before it have left;
      it is the preferred one if the tree is complete. */
  ghost predicate Dissected(x: Ctx, t: Subre, p: Parse, b: nat, e: nat, c: Caps, c2: Caps) {
    && Ok(x, t, p, b, e, c) && c2 == After(x, t, p, b, e, c)
    && Real(x, t, p, b, e, c)
    && (Complete(x, t) ==> Preferred(x, t, p, b, e))
  }

  lemma FirstMatch(x: Ctx, t: Subre, p: Parse, b: nat, e: nat, c: Caps)
    requires Ok(x, t, p, b, e, c) && Real(x, t, p, b, e, c)
    ensures Dissected(x, t, p, b, e, c, After(x, t, p, b, e, c))
  {
    if Complete(x, t) { FirstIsPreferred(x, t, p, b, e, c); }
  }

  lemma OnlyIncomplete(x: Ctx, t: Subre, b: nat, e: nat, c: Caps, c2: Caps)
    requires Acc(x, t, b, e) && LeftBehind(x, t, b, e, c, c2)
    ensures !Complete(x, t)
  {
    if Complete(x, t) { NeverVain(x, t, b, e, c, c2); }
  }

  lemma PlainDone(x: Ctx, t: Subre, b: nat, e: nat, c: Caps)
    requires t.Plain? && b <= e <= |x.chars| && CapsOk(x, c)
    ensures Dissected(x, t, Leaf, b, e, c, c)
  {
  }

  lemma BackrefDone(x: Ctx, t: Subre, b: nat, e: nat, c: Caps)
    requires t.Backref? && b <= e <= |x.chars| && CapsOk(x, c)
    ensures !RefersTo(x, c, t.subno, t.min, t.max, b, e) ==> LeftBehind(x, t, b, e, c, c)
    ensures RefersTo(x, c, t.subno, t.min, t.max, b, e) ==> Dissected(x, t, Leaf, b, e, c, c)
  {
    hide RefersTo;
  }

  lemma CaptureChild(x: Ctx, t: Subre, b: nat, e: nat, c: Caps)
    requires t.Capture? && Usable(x, t) && Clear(c, Subs(t)) && Acc(x, t, b, e)
    ensures Usable(x, t.left) && Clear(c, Subs(t.left)) && Acc(x, t.left, b, e)
    ensures Complete(x, t) ==> Complete(x, t.left)
  {
    hide WellFormed, Fits, Matches;
  }

  lemma CaptureDone(x: Ctx, t: Subre, p: Parse, b: nat, e: nat, c: Caps, c2: Caps)
    requires t.Capture? && SameOutside(c, c2, Subs(t.left))
    ensures SameOutside(c, c2, Subs(t)) && SameOutside(c, SetCap(x, c2, t.subno, b, e), Subs(t))
    ensures Dissected(x, t.left, p, b, e, c, c2) ==> Dissected(x, t, Cap(p), b, e, c, SetCap(x, c2, t.subno, b, e))
    ensures LeftBehind(x, t.left, b, e, c, c2) ==> LeftBehind(x, t, b, e, c, c2)
  {
  }

  // ---------------------------------------------------------------- concatenation

  ghost predicate MidpointGood(x: Ctx, t: Subre, p: Parse, b: nat, mid: nat, e: nat, c: Caps, c2: Caps)
    requires t.Concat?
  {
    && p.Cat? && p.mid == mid && Acc(x, t.right, mid, e)
    && Ok(x, t, p, b, e, c) && c2 == After(x, t, p, b, e, c)
    && Real(x, t.left, p.lp, b, mid, c) && Real(x, t.right, p.rp, mid, e, After(x, t.left, p.lp, b, mid, c))
  }

  lemma ConcatParts(x: Ctx, t: Subre, c: Caps)
    requires t.Concat? && Usable(x, t) && Clear(c, Subs(t))
    ensures Usable(x, t.left) && Clear(c, Subs(t.left))
    ensures Usable(x, t.right) && Clear(c, Subs(t.right))
    ensures SameOutside(c, c, Subs(t))
  {
    hide WellFormed, Fits, Acc;
  }

  lemma LeftMatched(x: Ctx, t: Subre, lp: Parse, b: nat, mid: nat, c: Caps, c1: Caps)
    requires t.Concat? && Usable(x, t) && Clear(c, Subs(t)) && SameOutside(c, c1, Subs(t.left)) && Dissected(x, t.left, lp, b, mid, c, c1)
    ensures Clear(c1, Subs(t.right)) && Gained(x, t.left, b, mid, c, c1)
  {
    hide WellFormed, Fits, Acc;
  }

  lemma RightTried(x: Ctx, t: Subre, lp: Parse, rp: Parse, b: nat, mid: nat, e: nat, c: Caps, c1: Caps, c2: Caps)
    requires t.Concat? && Acc(x, t.left, b, mid) && Acc(x, t.right, mid, e) && Gained(x, t.left, b, mid, c, c1)
    requires Dissected(x, t.left, lp, b, mid, c, c1) && SameOutside(c, c1, Subs(t.left)) && SameOutside(c1, c2, Subs(t.right))
    ensures SameOutside(c, c2, Subs(t))
    ensures Dissected(x, t.right, rp, mid, e, c1, c2) ==> MidpointGood(x, t, Cat(mid, lp, rp), b, mid, e, c, c2)
    ensures LeftBehind(x, t.right, mid, e, c1, c2) ==> MidpointLeft(x, t, b, mid, e, c, c2)
  {
    hide LeftBehind, Gained, Acc;
  }

  lemma LeftFailed(x: Ctx, t: Subre, b: nat, mid: nat, e: nat, c: Caps, c1: Caps)
    requires t.Concat? && Acc(x, t.right, mid, e) && SameOutside(c, c1, Subs(t.left)) && LeftBehind(x, t.left, b, mid, c, c1)
    ensures SameOutside(c, c1, Subs(t)) && MidpointLeft(x, t, b, mid, e, c, c1)
  {
    hide LeftBehind, Acc;
  }

  lemma NotReached(x: Ctx, t: Subre, b: nat, mid: nat, e: nat, c: Caps)
    requires t.Concat? && !Acc(x, t.right, mid, e)
    ensures MidpointLeft(x, t, b, mid, e, c, c)
  {
  }

  /** Every midpoint before mid has been left in vain. */
  ghost predicate Passed(x: Ctx, t: Subre, b: nat, e: nat, mid: nat, c: Caps)
    requires t.Concat?
  {
    forall m: nat :: m <= e && Acc(x, t.left, b, m) && Sooner(m, mid, t.left.shorter) ==> MidpointVain(x, t, b, m, e, c)
  }

  lemma FirstMidpoint(x: Ctx, t: Subre, b: nat, e: nat, r: Option<nat>, c: Caps)
    requires t.Concat? && !t.left.shorter && IsLongest(t.left.cnfa, x.text, b, e, r)
    ensures r.Some? ==> Passed(x, t, b, e, r.value, c)
  {
    hide MidpointVain;
  }

  lemma FirstRevMidpoint(x: Ctx, t: Subre, b: nat, e: nat, r: Option<nat>, c: Caps)
    requires t.Concat? && t.left.shorter && IsShortest(t.left.cnfa, x.text, b, b, e, r)
    ensures r.Some? ==> Passed(x, t, b, e, r.value, c)
  {
    hide MidpointVain;
  }

  lemma NextMidpoint(x: Ctx, t: Subre, b: nat, e: nat, mid: nat, next: nat, c: Caps, c2: Caps)
    requires t.Concat? && !t.left.shorter && b < mid <= e && Passed(x, t, b, e, mid, c) && MidpointLeft(x, t, b, mid, e, c, c2)
    requires IsLongest(t.left.cnfa, x.text, b, mid - 1, Some(next))
    ensures Passed(x, t, b, e, next, c)
  {
    hide MidpointLeft, Matches;
  }

  lemma NextRevMidpoint(x: Ctx, t: Subre, b: nat, e: nat, mid: nat, next: nat, c: Caps, c2: Caps)
    requires t.Concat? && t.left.shorter && b <= mid < e && Passed(x, t, b, e, mid, c) && MidpointLeft(x, t, b, mid, e, c, c2)
    requires IsShortest(t.left.cnfa, x.text, b, mid + 1, e, Some(next))
    ensures Passed(x, t, b, e, next, c)
  {
    hide MidpointLeft;
  }

  lemma ChosenMidpoint(x: Ctx, t: Subre, p: Parse, b: nat, mid: nat, e: nat, c: Caps, c2: Caps)
    requires t.Concat? && MidpointGood(x, t, p, b, mid, e, c, c2) && Passed(x, t, b, e, mid, c)
    ensures Dissected(x, t, p, b, e, c, c2)
  {
    hide MidpointVain, Ok, Complete, Preferred, After;
    FirstMatch(x, t, p, b, e, c);
  }

  lemma NoMidpoint(x: Ctx, t: Subre, b: nat, e: nat, c: Caps)
    requires t.Concat? && IsLongest(t.left.cnfa, x.text, b, e, None)
    ensures LeftBehind(x, t, b, e, c, c)
  {
  }

  lemma NoRevMidpoint(x: Ctx, t: Subre, b: nat, e: nat, c: Caps)
    requires t.Concat? && IsShortest(t.left.cnfa, x.text, b, b, e, None)
    ensures LeftBehind(x, t, b, e, c, c)
  {
  }

  lemma LastMidpoint(x: Ctx, t: Subre, b: nat, mid: nat, e: nat, c: Caps, c2: Caps)
    requires t.Concat? && !t.left.shorter && b <= mid <= e && Acc(x, t.left, b, mid) && Passed(x, t, b, e, mid, c)
    requires mid > b ==> IsLongest(t.left.cnfa, x.text, b, mid - 1, None)
    requires MidpointLeft(x, t, b, mid, e, c, c2)
    ensures LeftBehind(x, t, b, e, c, c2)
  {
    hide MidpointLeft;
    assert LastTried(x, t.left, b, e, mid);
    assert MidpointVain(x, t, b, mid, e, c);
  }

  lemma LastRevMidpoint(x: Ctx, t: Subre, b: nat, mid: nat, e: nat, c: Caps, c2: Caps)
    requires t.Concat? && t.left.shorter && b <= mid <= e && Acc(x, t.left, b, mid) && Passed(x, t, b, e, mid, c)
    requires mid < e ==> IsShortest(t.left.cnfa, x.text, b, mid + 1, e, None)
    requires MidpointLeft(x, t, b, mid, e, c, c2)
    ensures LeftBehind(x, t, b, e, c, c2)
  {
    hide MidpointLeft;
    assert LastTried(x, t.left, b, e, mid);
    assert MidpointVain(x, t, b, mid, e, c);
  }

  lemma ZapBoth(t: Subre, c: Caps, c2: Caps)
    requires t.Concat? && SameOutside(c, c2, Subs(t)) && Clear(c, Subs(t))
    ensures Zap(Zap(c2, Subs(t.left)), Subs(t.right)) == c
  {
  }

  // ---------------------------------------------------------------- alternation

  lemma FirstBranch(x: Ctx, t: Subre, b: nat, e: nat, c: Caps)
    requires t.Alt?
    ensures SameOutside(c, c, {}) && SameOutside(c, c, Subs(t))
    ensures BranchesLeft(x, t, 0, b, e, c, c)
  {
  }

  lemma {:induction false} NthInherits(x: Ctx, t: Subre, i: nat)
    requires i < Branches(t)
    ensures Usable(x, t) ==> Usable(x, Nth(t, i)) && Earlier(t, i) !! Subs(Nth(t, i))
    ensures i > 0 ==> Nth(t, i) < t
    decreases i
  {
    if i > 0 {
      NthInherits(x, t.next.value, i - 1);
      EarlierWithin(t.next.value, i - 1);
    }
  }

  lemma {:induction false} NthNext(x: Ctx, t: Subre, i: nat)
    requires i < Branches(t) && Usable(x, t)
    ensures Nth(t, i).next.Some? <==> i + 1 < Branches(t)
    ensures i + 1 < Branches(t) ==> Nth(t, i).next.value == Nth(t, i + 1) && Earlier(t, i + 1) == Earlier(t, i) + Subs(Nth(t, i).left)
    decreases i
  {
    if i > 0 { NthNext(x, t.next.value, i - 1); }
  }

  lemma BranchReady(x: Ctx, t: Subre, i: nat, c: Caps, c2: Caps)
    requires i < Branches(t) && Usable(x, t) && Clear(c, Subs(t)) && SameOutside(c, c2, Earlier(t, i))
    ensures Usable(x, Nth(t, i).left) && Clear(c2, Subs(Nth(t, i).left))
  {
    NthInherits(x, t, i);
  }

  lemma BranchFrame(x: Ctx, t: Subre, i: nat, c: Caps, junk: Caps, c2: Caps)
    requires i < Branches(t) && Usable(x, t) && SameOutside(c, junk, Earlier(t, i)) && SameOutside(junk, c2, Subs(Nth(t, i).left))
    ensures SameOutside(c, c2, Subs(t))
    ensures i + 1 < Branches(t) ==> SameOutside(c, c2, Earlier(t, i + 1))
  {
    EarlierWithin(t, i);
    NthNext(x, t, i);
  }

  lemma {:induction false} BranchGone(x: Ctx, t: Subre, i: nat, b: nat, e: nat, c: Caps, junk: Caps, c2: Caps)
    requires i < Branches(t) && BranchesLeft(x, t, i, b, e, c, junk)
    requires BranchLeft(x, Nth(t, i).left, b, e, junk, c2)
    ensures BranchesLeft(x, t, i + 1, b, e, c, c2)
    decreases i
  {
    hide BranchLeft;
    if i == 1 {
      assert t.next.Some? && t.next.value.Alt? && Nth(t, 1) == t.next.value;
      BranchGone(x, t.next.value, 0, b, e, junk, junk, c2);
    } else if i > 1 {
      assert t.next.Some? && t.next.value.Alt? && Nth(t, i) == Nth(t.next.value, i - 1);
      var c1 :| BranchLeft(x, t.left, b, e, c, c1) && BranchesLeft(x, t.next.value, i - 1, b, e, c1, junk);
      BranchGone(x, t.next.value, i - 1, b, e, c1, junk, c2);
    }
  }

  lemma ChosenBranch(x: Ctx, t: Subre, i: nat, p: Parse, b: nat, e: nat, c: Caps, junk: Caps, c2: Caps)
    requires t.Alt? && i < Branches(t) && SameOutside(c, junk, Earlier(t, i)) && CapsOk(x, c)
    requires Acc(x, Nth(t, i).left, b, e) && Dissected(x, Nth(t, i).left, p, b, e, junk, c2) && BranchesLeft(x, t, i, b, e, c, junk)
    ensures Dissected(x, t, Pick(i, junk, p), b, e, c, c2)
  {
    hide Nth, Earlier, Branches, Acc, SameOutside, BranchesLeft, Complete, Preferred;
    FirstMatch(x, t, Pick(i, junk, p), b, e, c);
  }

  lemma NoBranchLeft(x: Ctx, t: Subre, b: nat, e: nat, c: Caps, c2: Caps)
    requires t.Alt? && BranchesLeft(x, t, Branches(t), b, e, c, c2)
    ensures LeftBehind(x, t, b, e, c, c2)
  {
    hide BranchesLeft;
  }

  lemma SameHere(c: Caps, ns: set<nat>)
    ensures SameOutside(c, c, ns)
  {
  }

  // ---------------------------------------------------------------- iteration

  ghost predicate PiecesHeld(x: Ctx, t: Subre, es: seq<nat>, k: nat) {
    k < |es| && forall i :: 0 <= i < k ==> Acc(x, t, es[i], es[i + 1])
  }

  /** The first n pieces have been dissected, each starting from the captures the iteration began with. */
  ghost predicate Verified(x: Ctx, t: Subre, es: seq<nat>, ps: seq<Parse>, n: nat, c: Caps) {
    && n <= |ps| && n < |es|
    && forall i :: 0 <= i < n ==> Dissected(x, t, ps[i], es[i], es[i + 1], c, After(x, t, ps[i], es[i], es[i + 1], c))
  }

  /** How many pieces are still known good when endpoint k is about to change. */
  function Settling(nverified: nat, k: nat): nat {
    if nverified < k then nverified else if k == 0 then 0 else k - 1
  }

  lemma ZapPiece(c: Caps, c2: Caps, ns: set<nat>)
    requires SameOutside(c, c2, ns) && Clear(c, ns)
    ensures Zap(c2, ns) == c && SameOutside(c, c, ns)
  {
  }

  lemma PieceVerified(x: Ctx, t: Subre, es: seq<nat>, ps: seq<Parse>, n: nat, c: Caps, q: Parse, c2: Caps)
    requires Verified(x, t, es, ps, n, c) && n < |ps| && n + 1 < |es| && Dissected(x, t, q, es[n], es[n + 1], c, c2)
    ensures Verified(x, t, es, ps[n := q], n + 1, c) && c2 == After(x, t, q, es[n], es[n + 1], c)
  {
    hide After, Ok, Complete, Real, Preferred;
  }

  lemma IterationStarts(t: Subre, x: Ctx)
    requires t.Iter? && Usable(x, t)
    ensures Usable(x, t.left) && Subs(t.left) == Subs(t)
    ensures t.min <= t.max && 0 < t.max <= DUPINF
  {
  }

  lemma NoneVerified(x: Ctx, t: Subre, es: seq<nat>, ps: seq<Parse>, c: Caps)
    requires |es| >= 1
    ensures Verified(x, t, es, ps, 0, c)
  {
  }

  /** A piece without a match, and what remains of it. */
  ghost predicate PieceLost(x: Ctx, t: Subre, es: seq<nat>, i: nat, c: Caps, c2: Caps) {
    i + 1 < |es| && Acc(x, t, es[i], es[i + 1]) && LeftBehind(x, t, es[i], es[i + 1], c, c2)
  }

  /** The divisions tried have a piece without a match each. */
  ghost predicate TriedVain(x: Ctx, t: Subre, b: nat, e: nat, g: Goal) {
    t.Iter? && forall d :: d in g.tried ==> Worth(x, t, d, b, e) && HasVain(x, t.left, d, g.c)
  }

  ghost predicate LastOf(tried: set<seq<nat>>, d: seq<nat>, shorter: bool) {
    d in tried && forall f :: f in tried ==> f == d || Ahead(d, f, shorter)
  }

  /** The captures are what the last of them left. */
  ghost predicate LastLeft(x: Ctx, t: Subre, g: Goal, c2: Caps) {
    && t.Iter?
    && if g.tried == {} then c2 == g.c else exists d :: LastOf(g.tried, d, t.left.shorter) && DivisionLeft(x, t.left, d, g.c, c2)
  }

  lemma NoneTried(x: Ctx, t: Subre, b: nat, e: nat, g: Goal)
    requires t.Iter? && g.tried == {}
    ensures TriedVain(x, t, b, e, g) && LastLeft(x, t, g, g.c)
  {
  }

  lemma HeldOn(x: Ctx, t: Subre, es: seq<nat>, k: nat, b: nat, e: nat, g: Goal)
    requires Held(x, t, es, k, b, e, g)
    ensures k < |es| && Held(x, t, es, k, b, e, Iterations.Tried(g, es, k))
  {
  }

  /** The division found has been tried in vain, and it is the last one that was. */
  lemma DivisionFailed(x: Ctx, t: Subre, es: seq<nat>, k: nat, nv: nat, ps: seq<Parse>, b: nat, e: nat, g: Goal, c2: Caps, shorter: bool)
    requires Aims(t, b, e, g) && TriedVain(x, t, b, e, g) && t.left.shorter == shorter && t.min <= t.max && 0 < t.max <= DUPINF
    requires 1 <= k <= g.n && g.least <= k && Held(x, t.left, es, k, b, e, g) && es[k] == e && StillAhead(x, t.left, es, k, e, b, e, g, shorter)
    requires Verified(x, t.left, es, ps, nv, g.c) && nv < k && PieceLost(x, t.left, es, nv, g.c, c2)
    ensures k < |es| && Aims(t, b, e, Iterations.Tried(g, es, k)) && TriedVain(x, t, b, e, Iterations.Tried(g, es, k))
    ensures LastLeft(x, t, Iterations.Tried(g, es, k), c2)
  {
    hide Held, Settled, LeftBehind, Worth, HasVain, Complete, DivisionLeft, MaxMatches, Ahead, Candidate;
    HeldFits(x, t.left, es, k, b, e, g);
    HeldWorth(x, t, es, k, b, e, g);
    PastAhead(g.tried, es, k, shorter);
    LostInVain(x, t.left, es, k, nv, ps, g.c, c2);
    assert LastOf(Iterations.Tried(g, es, k).tried, es[..k + 1], shorter);
  }

  lemma LostInVain(x: Ctx, t: Subre, es: seq<nat>, k: nat, nv: nat, ps: seq<Parse>, c: Caps, c2: Caps)
    requires Verified(x, t, es, ps, nv, c) && nv < k < |es| && PieceLost(x, t, es, nv, c, c2)
    ensures HasVain(x, t, es[..k + 1], c) && DivisionLeft(x, t, es[..k + 1], c, c2)
  {
    hide LeftBehind, Acc, Ok, Real, Complete, Preferred, After;
    var d := es[..k + 1];
    assert d[nv] == es[nv] && d[nv + 1] == es[nv + 1];
    assert InVain(x, t, d[nv], d[nv + 1], c);
    assert PieceVain(x, t, d, nv, c);
    forall j | 0 <= j < nv ensures PieceFound(x, t, d, j, c) { PieceHolds(x, t, es, ps, nv, c, j); }
    assert PieceLeft(x, t, d, nv, c, c2);
  }

  lemma HeldWorth(x: Ctx, t: Subre, es: seq<nat>, k: nat, b: nat, e: nat, g: Goal)
    requires Aims(t, b, e, g) && 1 <= k <= g.n && g.least <= k && Held(x, t.left, es, k, b, e, g) && es[k] == e && t.min <= t.max && 0 < t.max <= DUPINF
    ensures k < |es| && Worth(x, t, es[..k + 1], b, e) && Allowed(k, t.min, t.max)
  {
    hide Held, Division;
    HeldFits(x, t.left, es, k, b, e, g);
    HeldDivides(x, t.left, es, k, b, e, g);
    LeastOne(es[..k + 1], t.min, g.least, e);
  }

  lemma NoPieces(x: Ctx, t: Subre, b: nat, c: Caps)
    requires t.Iter? && t.min == 0 && b <= |x.chars| && CapsOk(x, c)
    ensures Dissected(x, t, Reps([b], []), b, b, c, c)
  {
    forall d | Division(x, t.left, d, b, b) ensures !Ahead([b], d, t.left.shorter) {
      forall i: nat ensures !AheadAt([b], d, t.left.shorter, i) {}
    }
    assert Worth(x, t, [b], b, b);
    FirstMatch(x, t, Reps([b], []), b, b, c);
  }

  /** What the search for the pieces of b..e is after. */
  ghost predicate Aims(t: Subre, b: nat, e: nat, g: Goal) {
    && t.Iter? && b <= e && (t.min == 0 ==> b < e) && g.least == (if t.min == 0 then 1 else t.min)
    && g.n == MaxMatches(b, e, g.least, t.max) && Clear(g.c, Subs(t.left))
  }

  /** The pieces found make up the iteration, and every division before them has one without a match. */
  lemma IterationDone(x: Ctx, t: Subre, es: seq<nat>, k: nat, ps: seq<Parse>, b: nat, e: nat, g: Goal, c2: Caps, shorter: bool)
    requires Aims(t, b, e, g) && t.left.shorter == shorter && e <= |x.chars| && CapsOk(x, g.c) && t.min <= t.max && 0 < t.max <= DUPINF
    requires 1 <= k <= g.n == |ps| && g.least <= k && Held(x, t.left, es, k, b, e, g) && es[k] == e
    requires Verified(x, t.left, es, ps, k, g.c) && c2 == After(x, t.left, ps[k - 1], es[k - 1], es[k], g.c)
    requires StillAhead(x, t.left, es, k, e, b, e, g, shorter) && TriedVain(x, t, b, e, g)
    ensures Dissected(x, t, Reps(es[..k + 1], ps[..k]), b, e, g.c, c2)
  {
    hide Held, Verified, Ok, Real, Preferred, After, Complete;
    HeldFits(x, t.left, es, k, b, e, g);
    IterationMatches(x, t, es, k, ps, b, e, g, c2);
    HeldWorth(x, t, es, k, b, e, g);
    IterationFirst(x, t, es, k, b, e, g, shorter);
    FirstMatch(x, t, Reps(es[..k + 1], ps[..k]), b, e, g.c);
  }

  lemma VerifiedFits(x: Ctx, t: Subre, es: seq<nat>, ps: seq<Parse>, n: nat, c: Caps)
    requires Verified(x, t, es, ps, n, c)
    ensures n <= |ps| && n < |es|
  {
  }

  lemma PieceHolds(x: Ctx, t: Subre, es: seq<nat>, ps: seq<Parse>, n: nat, c: Caps, i: nat)
    requires Verified(x, t, es, ps, n, c) && i < n
    ensures Ok(x, t, ps[i], es[i], es[i + 1], c) && Real(x, t, ps[i], es[i], es[i + 1], c)
  {
  }

  lemma IterationMatches(x: Ctx, t: Subre, es: seq<nat>, k: nat, ps: seq<Parse>, b: nat, e: nat, g: Goal, c2: Caps)
    requires t.Iter? && b <= e <= |x.chars| && CapsOk(x, g.c) && Clear(g.c, Subs(t.left))
    requires 1 <= k <= g.n == |ps| && Allowed(k, t.min, t.max) && Held(x, t.left, es, k, b, e, g) && es[k] == e
    requires Verified(x, t.left, es, ps, k, g.c) && c2 == After(x, t.left, ps[k - 1], es[k - 1], es[k], g.c)
    ensures Ok(x, t, Reps(es[..k + 1], ps[..k]), b, e, g.c) && c2 == After(x, t, Reps(es[..k + 1], ps[..k]), b, e, g.c)
    ensures forall i :: 0 <= i < k ==> Real(x, t.left, ps[..k][i], es[..k + 1][i], es[..k + 1][i + 1], Zap(g.c, Subs(t.left)))
  {
    hide SameOutside, Subs, Held, Zap, Verified, Dissected, Complete, Acc, Real;
    var c := g.c;
    VerifiedFits(x, t.left, es, ps, k, c);
    var p := Reps(es[..k + 1], ps[..k]);
    var l := t.left;
    HeldDivides(x, l, es, k, b, e, g);
    ZapPiece(c, c, Subs(l)) by { SameHere(c, Subs(l)); }
    forall i | 0 <= i < k
      ensures Ok(x, l, p.ps[i], p.ends[i], p.ends[i + 1], Zap(c, Subs(l))) && Real(x, l, p.ps[i], p.ends[i], p.ends[i + 1], Zap(c, Subs(l)))
    {
      assert p.ps[i] == ps[i] && p.ends[i] == es[i] && p.ends[i + 1] == es[i + 1];
      PieceHolds(x, l, es, ps, k, c, i);
    }
  }

  /** The divisions before the one found have a piece without a match. */
  lemma IterationFirst(x: Ctx, t: Subre, es: seq<nat>, k: nat, b: nat, e: nat, g: Goal, shorter: bool)
    requires Aims(t, b, e, g) && TriedVain(x, t, b, e, g) && 1 <= k < |es| && es[k] == e && StillAhead(x, t.left, es, k, e, b, e, g, shorter)
    ensures forall d :: Worth(x, t, d, b, e) && Ahead(es[..k + 1], d, shorter) ==> HasVain(x, t.left, d, Zap(g.c, Subs(t.left)))
  {
    hide StillAhead, Candidate, HasVain, Ahead, Division, Worth;
    ZapClear(g.c, Subs(t.left));
    forall d | Worth(x, t, d, b, e) && Ahead(es[..k + 1], d, shorter) ensures HasVain(x, t.left, d, g.c) {
      if d !in g.tried {
        WorthIsCandidate(x, t, d, b, e, g);
        FoundFirst(x, t.left, es, k, b, e, g, shorter, d);
      }
    }
  }

  lemma LeastOne(d: seq<nat>, min: nat, least: nat, e: nat)
    requires Thrifty(d, least, e) && least == (if min == 0 then 1 else min)
    ensures Thrifty(d, min, e)
  {
    forall i | 1 <= i < |d| - 1 ensures Frugal(d, i, min, e) { assert Frugal(d, i, least, e); }
  }

  lemma HeldFits(x: Ctx, t: Subre, es: seq<nat>, k: nat, b: nat, e: nat, g: Goal)
    requires Held(x, t, es, k, b, e, g)
    ensures k < |es|
  {
  }

  lemma ZapClear(c: Caps, ns: set<nat>)
    requires Clear(c, ns)
    ensures Zap(c, ns) == c
  {
  }

  /** The search has run out of endpoints: every division has been tried in vain. */
  lemma NoDivision(x: Ctx, t: Subre, es: seq<nat>, limit: nat, b: nat, e: nat, g: Goal, shorter: bool, c2: Caps)
    requires Aims(t, b, e, g) && StillAhead(x, t.left, es, 0, limit, b, e, g, shorter) && TriedVain(x, t, b, e, g) && LastLeft(x, t, g, c2)
    ensures LeftBehind(x, t, b, e, g.c, c2)
  {
    hide HasVain, Worth, Candidate, DivisionLeft, Ahead;
    NothingLeft(x, t.left, es, b, e, g, shorter);
    ZapClear(g.c, Subs(t.left));
    forall d | Worth(x, t, d, b, e) ensures d in g.tried {
      if d !in g.tried { WorthIsCandidate(x, t, d, b, e, g); }
    }
    if g.tried != {} {
      var d :| LastOf(g.tried, d, t.left.shorter) && DivisionLeft(x, t.left, d, g.c, c2);
      assert LastWorth(x, t, d, b, e);
    }
  }

  lemma VerifiedStays(x: Ctx, t: Subre, es: seq<nat>, es2: seq<nat>, ps: seq<Parse>, n: nat, m: nat, k: nat, c: Caps)
    requires Verified(x, t, es, ps, n, c) && m <= n < k && |es2| == |es| && k <= |es| && es2[..k] == es[..k]
    ensures Verified(x, t, es2, ps, m, c)
  {
    forall i | 0 <= i < k ensures es2[i] == es[i] { assert es2[..k][i] == es[..k][i]; }
  }

  lemma HeldPieces(x: Ctx, t: Subre, es: seq<nat>, k: nat, b: nat, e: nat, g: Goal)
    requires Held(x, t, es, k, b, e, g) && k >= 1
    ensures PiecesHeld(x, t, es, k) && InRange(es, k + 1, b, e) && |es| == g.n + 1 && k <= g.n
  {
    HeldDivides(x, t, es, k, b, e, g);
  }

  lemma VerifiedLess(x: Ctx, t: Subre, es: seq<nat>, ps: seq<Parse>, n: nat, m: nat, c: Caps)
    requires Verified(x, t, es, ps, n, c) && m <= n
    ensures Verified(x, t, es, ps, m, c)
  {
  }
}
