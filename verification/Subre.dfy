/** The subexpression tree (regguts.h:327-376), and what it means for a substring to match one of its
    nodes with given captures. */
module Subres {
  import opened Options
  import opened Cnfa

  /** The bound that stands for "no upper limit" (regguts.h:74-75). */
  const DUPINF: nat := 256

  /** Captures: parenthesis number to the positions of its match; absent when not set (FREESTATE). */
  type Caps = map<nat, (nat, nat)>

  /** A node; cnfa is its DFA, shorter its SHORTER flag. The next of an alternation is another one. */
  datatype Subre =
    | Plain(cnfa: Cnfa, shorter: bool)
    | Backref(cnfa: Cnfa, shorter: bool, subno: nat, min: nat, max: nat)
    | Concat(cnfa: Cnfa, shorter: bool, left: Subre, right: Subre)
    | Alt(cnfa: Cnfa, shorter: bool, left: Subre, next: Option<Subre>)
    | Iter(cnfa: Cnfa, shorter: bool, left: Subre, min: nat, max: nat)
    | Capture(cnfa: Cnfa, shorter: bool, subno: nat, left: Subre)

  /** The string, its characters, how substrings compare, and how many captures are wanted. */
  datatype Ctx = Ctx(text: Text, chars: seq<nat>, same: (seq<nat>, seq<nat>) -> bool, nmatch: nat)

  /** The node's DFA accepts the characters b..e. */
  ghost predicate Acc(x: Ctx, t: Subre, b: nat, e: nat) {
    Matches(t.cnfa, x.text, b, e)
  }

  /** The capture numbers set below a node. */
  function Subs(t: Subre): set<nat> {
    match t
    case Plain(_, _) => {}
    case Backref(_, _, _, _, _) => {}
    case Concat(_, _, l, r) => Subs(l) + Subs(r)
    case Alt(_, _, l, next) => Subs(l) + if next.Some? then Subs(next.value) else {}
    case Iter(_, _, l, _, _) => Subs(l)
    case Capture(_, _, n, l) => Subs(l) + {n}
  }

  function Zap(c: Caps, ns: set<nat>): Caps {
    map n | n in c && n !in ns :: c[n]
  }

  ghost predicate Clear(c: Caps, ns: set<nat>) {
    forall n :: n in ns ==> n !in c
  }

  /** c2 differs from c only in captures of ns. */
  ghost predicate SameOutside(c: Caps, c2: Caps, ns: set<nat>) {
    forall n :: n !in ns ==> (n in c <==> n in c2) && (n in c ==> c[n] == c2[n])
  }

  /** Setting the capture of a group; a number the caller did not ask for is dropped (subset()). */
  function SetCap(x: Ctx, c: Caps, n: nat, b: nat, e: nat): Caps {
    if n < x.nmatch then c[n := (b, e)] else c
  }

  ghost predicate CapsOk(x: Ctx, c: Caps) {
    forall n :: n in c ==> n < x.nmatch && c[n].0 <= c[n].1 <= |x.chars|
  }

  /** The tree is one the compiler builds: nothing enters pre of an automaton, and it knows the colours of the
      text; groups are numbered apart, bounds are in order, and a capture node is strung between the states of its
      child. */
  ghost predicate Usable(x: Ctx, t: Subre) {
    && WellFormed(t.cnfa) && NoReturn(t.cnfa) && Fits(t.cnfa, x.text)
    && match t
       case Plain(_, _) => true
       case Backref(_, _, n, m, k) => n < x.nmatch && m <= k && 0 < k <= DUPINF
       case Concat(_, _, l, r) => Usable(x, l) && Usable(x, r) && Subs(l) !! Subs(r)
       case Alt(_, _, l, next) => Usable(x, l) && (next.Some? ==> next.value.Alt? && Usable(x, next.value) && Subs(l) !! Subs(next.value))
       case Iter(_, _, l, m, k) => Usable(x, l) && m <= k && 0 < k <= DUPINF
       case Capture(_, _, n, l) => Usable(x, l) && n !in Subs(l) && forall b, e :: Acc(x, t, b, e) ==> Acc(x, l, b, e)
  }

  lemma UsableHere(x: Ctx, t: Subre)
    requires Usable(x, t)
    ensures WellFormed(t.cnfa) && NoReturn(t.cnfa) && Fits(t.cnfa, x.text)
  {
  }

  // ---------------------------------------------------------------- matching with captures

  /** How a node matches: the midpoint of a concatenation, the alternative taken and the captures it
      started from, the pieces of an iteration. */
  datatype Parse =
    | Leaf
    | Cat(mid: nat, lp: Parse, rp: Parse)
    | Pick(i: nat, junk: Caps, p: Parse)
    | Reps(ends: seq<nat>, ps: seq<Parse>)
    | Cap(p: Parse)

  function Branches(t: Subre): nat {
    if !t.Alt? then 0 else if t.next.None? then 1 else 1 + Branches(t.next.value)
  }

  /** The i-th '|' node of a chain. */
  function Nth(t: Subre, i: nat): (r: Subre)
    requires i < Branches(t)
    ensures r.Alt? && Branches(r) == Branches(t) - i && Subs(r) <= Subs(t) && r.left < t
  {
    if i == 0 then t else Nth(t.next.value, i - 1)
  }

  /** The captures of the alternatives before the i-th. */
  function Earlier(t: Subre, i: nat): set<nat>
    requires i < Branches(t)
  {
    if i == 0 then {} else Subs(t.left) + Earlier(t.next.value, i - 1)
  }

  /** Some number of copies of s make up w. */
  ghost predicate Repeats(x: Ctx, s: seq<nat>, w: seq<nat>, n: nat)
    decreases n
  {
    if n == 0 then w == []
    else |w| >= |s| && x.same(s, w[..|s|]) && Repeats(x, s, w[|s|..], n - 1)
  }

  /** The characters b..e are between min and max copies of the captured substring; if that is empty,
      so are they. */
  ghost predicate RefersTo(x: Ctx, c: Caps, subno: nat, min: nat, max: nat, b: nat, e: nat)
    requires b <= e <= |x.chars| && CapsOk(x, c)
  {
    && subno in c
    && var s := x.chars[c[subno].0..c[subno].1];
       if s == [] then b == e
       else exists n: nat :: min <= n && (n <= max || max == DUPINF) && Repeats(x, s, x.chars[b..e], n)
  }

  /** ends divides b..e into pieces the DFA of t accepts. */
  ghost predicate Division(x: Ctx, t: Subre, ends: seq<nat>, b: nat, e: nat) {
    && |ends| >= 1 && ends[0] == b && ends[|ends| - 1] == e
    && forall i :: 0 <= i < |ends| - 1 ==> Piece(x, t, ends, i)
  }

  ghost predicate Piece(x: Ctx, t: Subre, ends: seq<nat>, i: nat)
    requires i + 1 < |ends|
  {
    Acc(x, t, ends[i], ends[i + 1])
  }

  predicate Allowed(k: nat, min: nat, max: nat) {
    min <= k && (k <= max || max == DUPINF)
  }

  /** A division is not carried on behind the end, and has an empty piece only where the pieces still required are no
      fewer than the characters left. */
  ghost predicate Thrifty(ends: seq<nat>, least: nat, e: nat) {
    forall i :: 1 <= i < |ends| - 1 ==> Frugal(ends, i, least, e)
  }

  ghost predicate Frugal(ends: seq<nat>, i: nat, least: nat, e: nat)
    requires 1 <= i < |ends|
  {
    ends[i] != e && (ends[i] != ends[i - 1] || (i < least && least - i >= e - ends[i]))
  }

  /** A division the search through the endpoints of an iteration owes a try. */
  ghost predicate Worth(x: Ctx, t: Subre, ends: seq<nat>, b: nat, e: nat)
    requires t.Iter?
  {
    && Division(x, t.left, ends, b, e) && Allowed(|ends| - 1, t.min, t.max) && Thrifty(ends, t.min, e)
    && (b == e && t.min == 0 ==> |ends| == 1)
  }

  /** The captures after matching b..e as p says, starting from c. */
  function After(x: Ctx, t: Subre, p: Parse, b: nat, e: nat, c: Caps): Caps
    decreases p
  {
    match (t, p)
    case (Concat(_, _, l, r), Cat(mid, lp, rp)) => After(x, r, rp, mid, e, After(x, l, lp, b, mid, c))
    case (Alt(_, _, _, _), Pick(i, junk, q)) => if i < Branches(t) then After(x, Nth(t, i).left, q, b, e, junk) else c
    case (Iter(_, _, l, _, _), Reps(ends, ps)) =>
      if 0 < |ps| < |ends| then After(x, l, ps[|ps| - 1], ends[|ps| - 1], ends[|ps|], Zap(c, Subs(l))) else c
    case (Capture(_, _, n, l), Cap(q)) => SetCap(x, After(x, l, q, b, e, c), n, b, e)
    case _ => c
  }

  /** The characters b..e match t as p says, starting from captures c. */
  ghost predicate Ok(x: Ctx, t: Subre, p: Parse, b: nat, e: nat, c: Caps)
    decreases p
  {
    && b <= e <= |x.chars| && CapsOk(x, c)
    && match (t, p)
       case (Plain(_, _), Leaf) => true
       case (Backref(_, _, n, m, k), Leaf) => RefersTo(x, c, n, m, k, b, e)
       case (Concat(_, _, l, r), Cat(mid, lp, rp)) =>
         && Acc(x, l, b, mid) && Acc(x, r, mid, e)
         && Ok(x, l, lp, b, mid, c) && Ok(x, r, rp, mid, e, After(x, l, lp, b, mid, c))
       case (Alt(_, _, _, _), Pick(i, junk, q)) =>
         && i < Branches(t) && SameOutside(c, junk, Earlier(t, i))
         && Acc(x, Nth(t, i).left, b, e) && Ok(x, Nth(t, i).left, q, b, e, junk)
       case (Iter(_, _, l, m, k), Reps(ends, ps)) =>
         && |ends| == |ps| + 1 && Allowed(|ps|, m, k) && Division(x, l, ends, b, e)
         && forall i :: 0 <= i < |ps| ==> Ok(x, l, ps[i], ends[i], ends[i + 1], Zap(c, Subs(l)))
       case (Capture(_, _, n, l), Cap(q)) => Ok(x, l, q, b, e, c)
       case _ => false
  }

  /** Matching sets captures of the node only. */
  lemma {:induction false} AfterFrame(x: Ctx, t: Subre, p: Parse, b: nat, e: nat, c: Caps)
    requires Ok(x, t, p, b, e, c)
    ensures SameOutside(c, After(x, t, p, b, e, c), Subs(t))
    decreases p
  {
    match (t, p)
    case (Concat(_, _, l, r), Cat(mid, lp, rp)) =>
      AfterFrame(x, l, lp, b, mid, c);
      AfterFrame(x, r, rp, mid, e, After(x, l, lp, b, mid, c));
    case (Alt(_, _, _, _), Pick(i, junk, q)) =>
      AfterFrame(x, Nth(t, i).left, q, b, e, junk);
      EarlierWithin(t, i);
    case (Iter(_, _, l, _, _), Reps(ends, ps)) =>
      if |ps| > 0 { AfterFrame(x, l, ps[|ps| - 1], ends[|ps| - 1], ends[|ps|], Zap(c, Subs(l))); }
    case (Capture(_, _, n, l), Cap(q)) => AfterFrame(x, l, q, b, e, c);
    case _ =>
  }

  lemma {:induction false} EarlierWithin(t: Subre, i: nat)
    requires i < Branches(t)
    ensures Earlier(t, i) + Subs(Nth(t, i)) <= Subs(t)
    decreases i
  {
    if i > 0 { EarlierWithin(t.next.value, i - 1); }
  }

  /** No alternative was entered with captures left over from a failed one. */
  ghost predicate Clean(x: Ctx, t: Subre, p: Parse, b: nat, e: nat, c: Caps)
    decreases p
  {
    match (t, p)
    case (Concat(_, _, l, r), Cat(mid, lp, rp)) => Clean(x, l, lp, b, mid, c) && Clean(x, r, rp, mid, e, After(x, l, lp, b, mid, c))
    case (Alt(_, _, _, _), Pick(i, junk, q)) => i < Branches(t) && junk == c && Clean(x, Nth(t, i).left, q, b, e, c)
    case (Iter(_, _, l, _, _), Reps(ends, ps)) =>
      |ends| > |ps| && forall i :: 0 <= i < |ps| ==> Clean(x, l, ps[i], ends[i], ends[i + 1], Zap(c, Subs(l)))
    case (Capture(_, _, n, l), Cap(q)) => Clean(x, l, q, b, e, c)
    case _ => true
  }

  // ---------------------------------------------------------------- trees without back references

  ghost predicate Splits(x: Ctx, l: Subre, r: Subre, b: nat, m: nat, e: nat) {
    Acc(x, l, b, m) && Acc(x, r, m, e)
  }

  /** Some allowed number of pieces. */
  ghost predicate Divides(x: Ctx, t: Subre, min: nat, max: nat, b: nat, e: nat) {
    exists ends :: Division(x, t, ends, b, e) && Allowed(|ends| - 1, min, max)
  }

  /** The i-th alternative accepts the substring. */
  ghost predicate BranchTakes(x: Ctx, t: Subre, i: nat, b: nat, e: nat) {
    i < Branches(t) && Acc(x, Nth(t, i).left, b, e)
  }

  ghost predicate BranchesComplete(x: Ctx, t: Subre)
    requires t.Alt?
    decreases t, 0
  {
    Complete(x, t.left) && (t.next.Some? ==> t.next.value.Alt? && BranchesComplete(x, t.next.value))
  }

  /** No back reference, no iteration that must happen twice, and every DFA accepts only what the node's
      parts can make up. All '|' nodes of a chain are strung between the same states (regcomp.c:665, 675), so the
      automaton of each one accepts what any of the alternatives does. */
  ghost predicate Complete(x: Ctx, t: Subre)
    decreases t, 1
  {
    match t
    case Plain(_, _) => true
    case Backref(_, _, _, _, _) => false
    case Concat(_, _, l, r) =>
      Complete(x, l) && Complete(x, r) && forall b, e :: Acc(x, t, b, e) ==> exists m :: Splits(x, l, r, b, m, e)
    case Alt(_, _, _, _) =>
      BranchesComplete(x, t) && forall b, e :: Acc(x, t, b, e) ==> exists i :: BranchTakes(x, t, i, b, e)
    case Iter(_, _, l, m, k) =>
      Complete(x, l) && m <= 1 && forall b, e :: Acc(x, t, b, e) ==> Divides(x, l, m, k, b, e)
    case Capture(_, _, _, l) => Complete(x, l) && forall b, e :: Acc(x, t, b, e) ==> Acc(x, l, b, e)
  }

  /** Every alternative but the last is without groups or without back references. */
  ghost predicate Tidy(x: Ctx, t: Subre) {
    match t
    case Plain(_, _) => true
    case Backref(_, _, _, _, _) => true
    case Concat(_, _, l, r) => Tidy(x, l) && Tidy(x, r)
    case Alt(_, _, l, next) => Tidy(x, l) && (next.Some? ==> Tidy(x, next.value) && (Subs(l) == {} || Complete(x, l)))
    case Iter(_, _, l, _, _) => Tidy(x, l)
    case Capture(_, _, _, l) => Tidy(x, l)
  }

  /** e comes before d: at the first place where they differ it is longer (shorter, if so wanted). */
  ghost predicate Ahead(d: seq<nat>, e: seq<nat>, shorter: bool) {
    exists i :: AheadAt(d, e, shorter, i)
  }

  ghost predicate AheadAt(d: seq<nat>, e: seq<nat>, shorter: bool, i: nat) {
    i < |d| && i < |e| && d[..i] == e[..i] && if shorter then e[i] < d[i] else e[i] > d[i]
  }

  /** The division that is tried last. */
  ghost predicate LastWorth(x: Ctx, t: Subre, d: seq<nat>, b: nat, e: nat)
    requires t.Iter?
  {
    Worth(x, t, d, b, e) && forall f :: Worth(x, t, f, b, e) ==> f == d || Ahead(d, f, t.left.shorter)
  }

  // ---------------------------------------------------------------- dissections in vain

  /** The midpoint a concatenation tries last: the nearest end of its left side (the farthest, for SHORTER). */
  ghost predicate LastTried(x: Ctx, l: Subre, b: nat, e: nat, m: nat) {
    && m <= e && Acc(x, l, b, m)
    && forall k: nat :: k <= e && Acc(x, l, b, k) ==> if l.shorter then k <= m else m <= k
  }

  /** c2 are the captures after the first match. */
  ghost predicate Gained(x: Ctx, t: Subre, b: nat, e: nat, c: Caps, c2: Caps)
    decreases t, 7
  {
    exists p :: Ok(x, t, p, b, e, c) && Real(x, t, p, b, e, c) && c2 == After(x, t, p, b, e, c)
  }

  /** What a dissection that found no match leaves of captures that were c, after every choice there was: every
      midpoint was left in vain, the nearest (the farthest, for SHORTER) last; every alternative was, in turn; every
      division of an iteration has a piece without a match, and what remains is from such a piece of the last one. */
  ghost predicate LeftBehind(x: Ctx, t: Subre, b: nat, e: nat, c: Caps, c2: Caps)
    decreases t, 3
  {
    match t
    case Plain(_, _) => false
    case Backref(_, _, n, m, k) => c2 == c && b <= e <= |x.chars| && CapsOk(x, c) && !RefersTo(x, c, n, m, k, b, e)
    case Concat(_, _, l, r) =>
      && (forall m: nat :: m <= e && Acc(x, l, b, m) ==> MidpointVain(x, t, b, m, e, c))
      && if exists m: nat :: LastTried(x, l, b, e, m)
         then exists m: nat :: LastTried(x, l, b, e, m) && MidpointLeft(x, t, b, m, e, c, c2)
         else c2 == c
    case Alt(_, _, _, _) => BranchesLeft(x, t, Branches(t), b, e, c, c2)
    case Iter(_, _, l, _, _) =>
      && (forall d :: Worth(x, t, d, b, e) ==> HasVain(x, l, d, Zap(c, Subs(l))))
      && if exists d :: LastWorth(x, t, d, b, e)
         then exists d :: LastWorth(x, t, d, b, e) && DivisionLeft(x, l, d, Zap(c, Subs(l)), c2)
         else c2 == c
    case Capture(_, _, _, l) => LeftBehind(x, l, b, e, c, c2)
  }

  ghost predicate MidpointLeft(x: Ctx, t: Subre, b: nat, m: nat, e: nat, c: Caps, c2: Caps)
    requires t.Concat?
    decreases t, 0
  {
    if !Acc(x, t.right, m, e) then c2 == c
    else
      || LeftBehind(x, t.left, b, m, c, c2)
      || exists c1 :: Gained(x, t.left, b, m, c, c1) && LeftBehind(x, t.right, m, e, c1, c2)
  }

  /** A match with the midpoint m has been looked for in vain. */
  ghost predicate MidpointVain(x: Ctx, t: Subre, b: nat, m: nat, e: nat, c: Caps)
    requires t.Concat?
    decreases t, 1
  {
    exists c2 :: MidpointLeft(x, t, b, m, e, c, c2)
  }

  /** An alternative has been passed over, or tried in vain. */
  ghost predicate BranchLeft(x: Ctx, t: Subre, b: nat, e: nat, c: Caps, c2: Caps)
    decreases t, 4
  {
    if Acc(x, t, b, e) then LeftBehind(x, t, b, e, c, c2) else c2 == c
  }

  /** The first i alternatives have come to nothing. */
  ghost predicate BranchesLeft(x: Ctx, t: Subre, i: nat, b: nat, e: nat, c: Caps, c2: Caps)
    requires t.Alt?
    decreases t, 0
  {
    if i == 0 then c2 == c
    else
      exists c1 ::
        && BranchLeft(x, t.left, b, e, c, c1)
        && if i == 1 then c2 == c1 else t.next.Some? && t.next.value.Alt? && BranchesLeft(x, t.next.value, i - 1, b, e, c1, c2)
  }

  ghost predicate InVain(x: Ctx, t: Subre, b: nat, e: nat, c: Caps)
    decreases t, 4
  {
    exists c2 :: LeftBehind(x, t, b, e, c, c2)
  }

  ghost predicate PieceVain(x: Ctx, t: Subre, ends: seq<nat>, i: nat, c: Caps)
    requires i + 1 < |ends|
    decreases t, 5
  {
    Acc(x, t, ends[i], ends[i + 1]) && InVain(x, t, ends[i], ends[i + 1], c)
  }

  /** Some piece of a division has no match. */
  ghost predicate HasVain(x: Ctx, t: Subre, ends: seq<nat>, c: Caps)
    decreases t, 6
  {
    exists i :: 0 <= i < |ends| - 1 && PieceVain(x, t, ends, i, c)
  }

  /** The last piece of a division that was looked at is the first without a match. */
  ghost predicate DivisionLeft(x: Ctx, t: Subre, ends: seq<nat>, c: Caps, c2: Caps)
    decreases t, 9
  {
    exists i :: 0 <= i < |ends| - 1 && PieceLeft(x, t, ends, i, c, c2)
  }

  ghost predicate PieceLeft(x: Ctx, t: Subre, ends: seq<nat>, i: nat, c: Caps, c2: Caps)
    requires i + 1 < |ends|
    decreases t, 8
  {
    && (forall j :: 0 <= j < i ==> PieceFound(x, t, ends, j, c))
    && Acc(x, t, ends[i], ends[i + 1]) && LeftBehind(x, t, ends[i], ends[i + 1], c, c2)
  }

  ghost predicate PieceFound(x: Ctx, t: Subre, ends: seq<nat>, j: nat, c: Caps)
    requires j + 1 < |ends|
    decreases t, 7, 1
  {
    Found(x, t, ends[j], ends[j + 1], c)
  }

  ghost predicate Found(x: Ctx, t: Subre, b: nat, e: nat, c: Caps)
    decreases t, 7, 0
  {
    exists p :: Ok(x, t, p, b, e, c) && Real(x, t, p, b, e, c)
  }

  // ---------------------------------------------------------------- preferences

  /** m is tried before mid. */
  predicate Sooner(m: nat, mid: nat, shorter: bool) {
    if shorter then m < mid else mid < m
  }

  /** Every choice is the first that did not fail: the midpoints before it were left in vain, an alternative was entered
      with what the dissections of those before it had left, and a division before it has a piece without a match. */
  ghost predicate Real(x: Ctx, t: Subre, p: Parse, b: nat, e: nat, c: Caps)
    decreases t, 6, 1
  {
    match (t, p)
    case (Concat(_, _, l, r), Cat(mid, lp, rp)) =>
      && (forall m: nat :: m <= e && Acc(x, l, b, m) && Sooner(m, mid, l.shorter) ==> MidpointVain(x, t, b, m, e, c))
      && Real(x, l, lp, b, mid, c) && Real(x, r, rp, mid, e, After(x, l, lp, b, mid, c))
    case (Alt(_, _, _, _), Pick(i, junk, q)) =>
      i < Branches(t) && BranchesLeft(x, t, i, b, e, c, junk) && Real(x, Nth(t, i).left, q, b, e, junk)
    case (Iter(_, _, l, _, _), Reps(ends, ps)) =>
      && Worth(x, t, ends, b, e) && (forall d :: Worth(x, t, d, b, e) && Ahead(ends, d, l.shorter) ==> HasVain(x, l, d, Zap(c, Subs(l))))
      && |ends| > |ps| && forall i :: 0 <= i < |ps| ==> Real(x, l, ps[i], ends[i], ends[i + 1], Zap(c, Subs(l)))
    case (Capture(_, _, n, l), Cap(q)) => Real(x, l, q, b, e, c)
    case _ => true
  }

  ghost predicate Increasing(ends: seq<nat>) {
    forall i, j :: 0 <= i < j < |ends| ==> ends[i] < ends[j]
  }

  /** The match p is the preferred one: each midpoint and piece end is as far right (left, for SHORTER)
      as the rest allows, each alternative the first possible. */
  ghost predicate Preferred(x: Ctx, t: Subre, p: Parse, b: nat, e: nat)
    decreases p
  {
    match (t, p)
    case (Concat(_, _, l, r), Cat(mid, lp, rp)) =>
      && (forall m: nat :: Splits(x, l, r, b, m, e) ==> if l.shorter then mid <= m else m <= mid)
      && Preferred(x, l, lp, b, mid) && Preferred(x, r, rp, mid, e)
    case (Alt(_, _, _, _), Pick(i, junk, q)) =>
      && i < Branches(t) && (forall j :: 0 <= j < i ==> !Acc(x, Nth(t, j).left, b, e))
      && Preferred(x, Nth(t, i).left, q, b, e)
    case (Iter(_, _, l, m, k), Reps(ends, ps)) =>
      && |ends| > |ps|
      && (forall d :: Division(x, l, d, b, e) && Increasing(d) && Allowed(|d| - 1, m, k) ==> !Ahead(ends, d, l.shorter))
      && forall i :: 0 <= i < |ps| ==> Preferred(x, l, ps[i], ends[i], ends[i + 1])
    case (Capture(_, _, n, l), Cap(q)) => Preferred(x, l, q, b, e)
    case _ => true
  }
}
