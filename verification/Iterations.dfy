/** The search for the endpoints of an iteration (regexec.c:987-1337), on values: which divisions are
    still to be tried in a state of the search, and why the search ends. Going forward a piece is
    first taken as long as possible and then shortened; going backward (shorter) the reverse. */
module Iterations {
  import opened Options
  import opened Cnfa
  import opened Subres

  // ---------------------------------------------------------------- termination

  ghost function Rank(ds: seq<nat>, base: nat): nat {
    if ds == [] then 0 else Rank(ds[..|ds| - 1], base) * base + ds[|ds| - 1]
  }

  lemma {:induction false} RankDrops(ds: seq<nat>, fs: seq<nat>, base: nat, j: nat)
    requires j < |ds| == |fs| && ds[..j] == fs[..j] && ds[j] < fs[j]
    requires forall i :: 0 <= i < |ds| ==> ds[i] < base
    ensures Rank(ds, base) < Rank(fs, base)
  {
    var n := |ds| - 1;
    if j == n {
      assert ds[..n] == fs[..n];
    } else {
      assert ds[..n][..j] == ds[..j] && fs[..n][..j] == fs[..j];
      RankDrops(ds[..n], fs[..n], base, j);
      LeadingDigit(Rank(ds[..n], base), Rank(fs[..n], base), base);
    }
  }

  lemma {:induction false} LeadingDigit(a: nat, b: nat, base: nat)
    requires a < b
    ensures a * base + base <= b * base
    decreases b
  {
    if b > a + 1 {
      LeadingDigit(a, b - 1, base);
      assert b * base == (b - 1) * base + base;
    }
  }

  /** How far y is from the last endpoint that would be tried. */
  function Dist(y: nat, b: nat, e: nat, shorter: bool): nat
    requires b <= y <= e
  {
    if shorter then e - y else y - b
  }

  ghost predicate InRange(es: seq<nat>, k: nat, b: nat, e: nat) {
    k <= |es| && forall i :: 0 <= i < k ==> b <= es[i] <= e
  }

  /** The digit of endpoint i: settled, being looked for (up to limit), not yet begun. */
  ghost function Digit(es: seq<nat>, k: nat, limit: nat, b: nat, e: nat, shorter: bool, i: nat): (d: nat)
    requires InRange(es, k, b, e) && b <= limit <= e
    ensures d < 2 * (e - b) + 3
  {
    if i < k then 2 * Dist(es[i], b, e, shorter)
    else if i == k then 2 * Dist(limit, b, e, shorter) + 1
    else 2 * (e - b) + 2
  }

  ghost function Digits(es: seq<nat>, k: nat, limit: nat, b: nat, e: nat, n: nat, shorter: bool): seq<nat>
    requires InRange(es, k, b, e) && b <= limit <= e
  {
    seq(n, i requires 0 <= i < n => Digit(es, k, limit, b, e, shorter, i + 1))
  }

  ghost function Measure(es: seq<nat>, k: nat, limit: nat, b: nat, e: nat, n: nat, shorter: bool): nat
    requires InRange(es, k, b, e) && b <= limit <= e
  {
    if k == 0 then 0 else 1 + Rank(Digits(es, k, limit, b, e, n, shorter), 2 * (e - b) + 3)
  }

  /** The search has moved on: at some place it stands closer to the last endpoint, before it nothing changed. */
  lemma MeasureDrops(es: seq<nat>, k: nat, limit: nat, es2: seq<nat>, k2: nat, limit2: nat, b: nat, e: nat, n: nat, shorter: bool, j: nat)
    requires InRange(es, k, b, e) && InRange(es2, k2, b, e) && b <= limit <= e && b <= limit2 <= e
    requires 1 <= j <= k <= n && j <= k2 && es2[..j] == es[..j]
    requires Digit(es2, k2, limit2, b, e, shorter, j) < Digit(es, k, limit, b, e, shorter, j)
    ensures Measure(es2, k2, limit2, b, e, n, shorter) < Measure(es, k, limit, b, e, n, shorter)
  {
    var ds, fs := Digits(es2, k2, limit2, b, e, n, shorter), Digits(es, k, limit, b, e, n, shorter);
    forall i | 0 <= i < j - 1 ensures ds[i] == fs[i] {
      assert es2[..j][i + 1] == es[..j][i + 1];
    }
    assert ds[..j - 1] == fs[..j - 1];
    assert ds[j - 1] == Digit(es2, k2, limit2, b, e, shorter, j) && fs[j - 1] == Digit(es, k, limit, b, e, shorter, j);
    hide Digit, Rank;
    RankDrops(ds, fs, 2 * (e - b) + 3, j - 1);
  }

  // ---------------------------------------------------------------- what is left to be tried

  /** What the search is after: at least `least` and at most n pieces, each with a match from captures c; and the divisions
      it has tried. */
  datatype Goal = Goal(least: nat, n: nat, c: Caps, tried: set<seq<nat>>)

  /** A division worth trying and not tried yet. */
  ghost predicate Candidate(x: Ctx, t: Subre, d: seq<nat>, b: nat, e: nat, g: Goal) {
    Division(x, t, d, b, e) && g.least <= |d| - 1 <= g.n && |d| > 1 && Thrifty(d, g.least, e) && d !in g.tried
  }

  /** y would be tried after z. */
  predicate Later(y: nat, z: nat, shorter: bool) {
    if shorter then y > z else y < z
  }

  /** d differs from the endpoints es first at i, in a way still to be tried. */
  ghost predicate LaterAt(d: seq<nat>, es: seq<nat>, shorter: bool, i: nat) {
    i < |d| && i < |es| && d[..i] == es[..i] && Later(d[i], es[i], shorter)
  }

  ghost predicate LaterThan(d: seq<nat>, es: seq<nat>, shorter: bool, k: nat) {
    exists i :: 1 <= i <= k && LaterAt(d, es, shorter, i)
  }

  /** d agrees with the first k endpoints and goes on to limit or later. */
  ghost predicate GoesTo(d: seq<nat>, es: seq<nat>, shorter: bool, k: nat, limit: nat) {
    k < |d| && k <= |es| && d[..k] == es[..k] && (d[k] == limit || Later(d[k], limit, shorter))
  }

  /** d agrees with the endpoints before i, and goes on to where y comes later. */
  ghost predicate PastAt(d: seq<nat>, es: seq<nat>, i: nat, y: nat, shorter: bool) {
    i < |d| && i <= |es| && d[..i] == es[..i] && Later(y, d[i], shorter)
  }

  /** A search that is looking for endpoint k from y on has left d behind. */
  ghost predicate Past(d: seq<nat>, es: seq<nat>, k: nat, y: nat, shorter: bool) {
    PastAt(d, es, k, y, shorter) || exists i: nat :: PastBefore(d, es, k, i, shorter)
  }

  ghost predicate PastBefore(d: seq<nat>, es: seq<nat>, k: nat, i: nat, shorter: bool) {
    1 <= i < k && i < |es| && PastAt(d, es, i, es[i], shorter)
  }

  ghost predicate AllPast(tried: set<seq<nat>>, es: seq<nat>, k: nat, y: nat, shorter: bool) {
    forall d :: d in tried ==> Past(d, es, k, y, shorter)
  }

  /** d has been left behind, or agrees with the endpoints up to k. */
  ghost predicate Met(d: seq<nat>, es: seq<nat>, k: nat, shorter: bool) {
    k < |es| && ((k < |d| && d[..k + 1] == es[..k + 1]) || Past(d, es, k, es[k], shorter))
  }

  ghost predicate AllMet(tried: set<seq<nat>>, es: seq<nat>, k: nat, shorter: bool) {
    forall d :: d in tried ==> Met(d, es, k, shorter)
  }

  /** Every candidate is still ahead of a search that has to give up endpoint k, and what was tried is not. */
  ghost predicate Backing(x: Ctx, t: Subre, es: seq<nat>, k: nat, b: nat, e: nat, g: Goal, shorter: bool) {
    AllMet(g.tried, es, k, shorter) && forall d :: Candidate(x, t, d, b, e, g) ==> LaterThan(d, es, shorter, k)
  }

  /** Every candidate is still ahead of a search that is looking for endpoint k up to limit, or, when k
      is 0, has given up; and what was tried is not. */
  ghost predicate StillAhead(x: Ctx, t: Subre, es: seq<nat>, k: nat, limit: nat, b: nat, e: nat, g: Goal, shorter: bool) {
    if k == 0 then Backing(x, t, es, 0, b, e, g, shorter)
    else
      && AllPast(g.tried, es, k, limit, shorter)
      && forall d :: Candidate(x, t, d, b, e, g) ==> LaterThan(d, es, shorter, k - 1) || GoesTo(d, es, shorter, k, limit)
  }

  /** On to a later limit, or to an endpoint found there. */
  lemma PastOn(tried: set<seq<nat>>, es: seq<nat>, es2: seq<nat>, k: nat, limit: nat, y: nat, shorter: bool)
    requires AllPast(tried, es, k, limit, shorter) && (y == limit || Later(y, limit, shorter)) && k <= |es| == |es2| && es2[..k] == es[..k]
    ensures AllPast(tried, es2, k, y, shorter)
  {
    forall d | d in tried ensures Past(d, es2, k, y, shorter) {
      if i: nat :| PastBefore(d, es, k, i, shorter) {
        assert es2[..i] == es2[..k][..i] && es[..i] == es[..k][..i] && es2[i] == es2[..k][i] && es[i] == es[..k][i];
        assert PastBefore(d, es2, k, i, shorter);
      }
    }
  }

  /** On to the next endpoint. */
  lemma PastNext(tried: set<seq<nat>>, es: seq<nat>, k: nat, y: nat, shorter: bool)
    requires 1 <= k < |es| && AllPast(tried, es, k, es[k], shorter)
    ensures AllPast(tried, es, k + 1, y, shorter) && AllMet(tried, es, k, shorter)
  {
    forall d | d in tried ensures Past(d, es, k + 1, y, shorter) {
      if PastAt(d, es, k, es[k], shorter) {
        assert PastBefore(d, es, k + 1, k, shorter);
      } else {
        var i: nat :| PastBefore(d, es, k, i, shorter);
        assert PastBefore(d, es, k + 1, i, shorter);
      }
    }
  }

  lemma MetBefore(d: seq<nat>, es: seq<nat>, k: nat, y: nat, shorter: bool)
    requires 1 <= k <= |es| && Past(d, es, k, y, shorter)
    ensures Met(d, es, k - 1, shorter)
  {
    if PastAt(d, es, k, y, shorter) {
      assert d[..(k - 1) + 1] == es[..(k - 1) + 1];
    } else {
      var i: nat :| PastBefore(d, es, k, i, shorter);
      if i < k - 1 { assert PastBefore(d, es, k - 1, i, shorter); }
    }
  }

  /** Back to the endpoint before. */
  lemma PastBack(tried: set<seq<nat>>, es: seq<nat>, k: nat, y: nat, shorter: bool)
    requires 1 <= k <= |es| && AllPast(tried, es, k, y, shorter)
    ensures AllMet(tried, es, k - 1, shorter)
  {
    forall d | d in tried ensures Met(d, es, k - 1, shorter) { MetBefore(d, es, k, y, shorter); }
  }

  lemma MetBack(tried: set<seq<nat>>, es: seq<nat>, k: nat, shorter: bool)
    requires 1 <= k < |es| && AllMet(tried, es, k, shorter)
    ensures AllMet(tried, es, k - 1, shorter)
  {
    forall d | d in tried ensures Met(d, es, k - 1, shorter) {
      if Past(d, es, k, es[k], shorter) {
        MetBefore(d, es, k, es[k], shorter);
      } else {
        assert d[..k] == d[..k + 1][..k] && es[..k] == es[..k + 1][..k];
      }
    }
  }

  lemma MetMoves(tried: set<seq<nat>>, es: seq<nat>, k: nat, limit: nat, shorter: bool)
    requires 1 <= k < |es| && AllMet(tried, es, k, shorter) && Later(limit, es[k], shorter)
    ensures AllPast(tried, es, k, limit, shorter)
  {
    forall d | d in tried ensures Past(d, es, k, limit, shorter) {
      if Past(d, es, k, es[k], shorter) {
        if i: nat :| PastBefore(d, es, k, i, shorter) {} else { assert PastAt(d, es, k, limit, shorter); }
      } else {
        assert d[..k] == d[..k + 1][..k] && es[..k] == es[..k + 1][..k] && d[k] == d[..k + 1][k] && es[k] == es[..k + 1][k];
        assert PastAt(d, es, k, limit, shorter);
      }
    }
  }

  /** What was tried before comes before. */
  lemma PastAhead(tried: set<seq<nat>>, es: seq<nat>, k: nat, shorter: bool)
    requires 1 <= k < |es| && AllPast(tried, es, k, es[k], shorter)
    ensures forall d :: d in tried ==> Ahead(es[..k + 1], d, shorter)
  {
    forall d | d in tried ensures Ahead(es[..k + 1], d, shorter) {
      var f := es[..k + 1];
      if PastAt(d, es, k, es[k], shorter) {
        assert f[..k] == es[..k] && AheadAt(f, d, shorter, k);
      } else {
        var i: nat :| PastBefore(d, es, k, i, shorter);
        assert f[..i] == es[..i] && AheadAt(f, d, shorter, i);
      }
    }
  }

  /** The endpoints so far: the pieces the DFA accepts, short of the end. */
  ghost predicate Settled(x: Ctx, t: Subre, es: seq<nat>, k: nat, b: nat, e: nat, least: nat) {
    && 1 <= k <= |es| && es[0] == b
    && (forall i :: 0 <= i < k - 1 ==> Acc(x, t, es[i], es[i + 1]))
    && (forall i :: 1 <= i < k ==> Frugal(es, i, least, e))
  }

  lemma {:induction false} SettledInRange(x: Ctx, t: Subre, es: seq<nat>, k: nat, b: nat, e: nat, least: nat)
    requires Settled(x, t, es, k, b, e, least) && b <= e
    ensures forall i, j :: 0 <= i <= j < k ==> es[i] <= es[j]
    decreases k
  {
    if k > 1 {
      SettledInRange(x, t, es, k - 1, b, e, least);
      assert Acc(x, t, es[k - 2], es[k - 2 + 1]);
    }
  }

  lemma SearchStart(x: Ctx, t: Subre, es: seq<nat>, b: nat, e: nat, g: Goal, shorter: bool)
    requires |es| >= 1 && es[0] == b && b <= e && g.tried == {}
    ensures StillAhead(x, t, es, 1, if shorter then b else e, b, e, g, shorter)
  {
    forall d | Candidate(x, t, d, b, e, g) ensures GoesTo(d, es, shorter, 1, if shorter then b else e) {
      assert d[..1] == es[..1];
      DivisionOrdered(x, t, d, b, e);
    }
  }

  lemma {:induction false} DivisionOrdered(x: Ctx, t: Subre, d: seq<nat>, b: nat, e: nat)
    requires Division(x, t, d, b, e)
    ensures forall i, j :: 0 <= i <= j < |d| ==> d[i] <= d[j]
    decreases |d|
  {
    if |d| > 1 {
      var d2 := d[..|d| - 1];
      forall i | 0 <= i < |d2| - 1 ensures Piece(x, t, d2, i) { assert Piece(x, t, d, i); }
      DivisionOrdered(x, t, d2, b, d2[|d2| - 1]);
      assert Piece(x, t, d, |d| - 2);
      forall i, j | 0 <= i <= j < |d| ensures d[i] <= d[j] {
        if j == |d| - 1 && i < j { assert d2[i] <= d2[|d2| - 1]; } else if j < |d2| { assert d2[i] <= d2[j]; }
      }
    }
  }

  /** No piece from start ends at limit or later. */
  ghost predicate NoEnd(x: Ctx, t: Subre, start: nat, limit: nat, e: nat, shorter: bool) {
    forall z: nat :: Acc(x, t, start, z) && start <= z <= e ==> z != limit && !Later(z, limit, shorter)
  }

  /** Of the pieces from start that end at limit or later, none would be tried before y. */
  ghost predicate AllLater(x: Ctx, t: Subre, start: nat, limit: nat, e: nat, shorter: bool, y: nat) {
    forall z: nat :: Acc(x, t, start, z) && start <= z <= e && (z == limit || Later(z, limit, shorter)) ==> z == y || Later(z, y, shorter)
  }

  /** The preferred endpoint y for piece k has been found. */
  lemma EndFound(x: Ctx, t: Subre, es: seq<nat>, k: nat, limit: nat, b: nat, e: nat, g: Goal, shorter: bool, y: nat)
    requires k >= 1 && StillAhead(x, t, es, k, limit, b, e, g, shorter) && k < |es| && Settled(x, t, es, k, b, e, g.least) && b <= e
    requires AllLater(x, t, es[k - 1], limit, e, shorter, y) && (y == limit || Later(y, limit, shorter))
    ensures StillAhead(x, t, es[k := y], k, y, b, e, g, shorter)
  {
    var es2 := es[k := y];
    PastOn(g.tried, es, es2, k, limit, y, shorter);
    forall d | Candidate(x, t, d, b, e, g) ensures LaterThan(d, es2, shorter, k - 1) || GoesTo(d, es2, shorter, k, y) {
      if LaterThan(d, es, shorter, k - 1) {
        KeepLater(d, es, es2, shorter, k - 1);
      } else {
        assert es2[..k] == es[..k];
        SamePrefix(d, es, k, k - 1);
        PieceOf(x, t, d, b, e, k);
        DivisionOrdered(x, t, d, b, e);
      }
    }
  }

  lemma KeepLater(d: seq<nat>, es: seq<nat>, es2: seq<nat>, shorter: bool, k: nat)
    requires LaterThan(d, es, shorter, k) && |es2| == |es| && k + 1 <= |es| && es2[..k + 1] == es[..k + 1]
    ensures LaterThan(d, es2, shorter, k)
  {
    var i :| 1 <= i <= k && LaterAt(d, es, shorter, i);
    assert es2[..i] == es2[..k + 1][..i] && es[..i] == es[..k + 1][..i];
    assert es2[i] == es2[..k + 1][i] && es[i] == es[..k + 1][i];
    assert LaterAt(d, es2, shorter, i);
  }

  lemma WeakenLater(d: seq<nat>, es: seq<nat>, shorter: bool, k: nat, k2: nat)
    requires LaterThan(d, es, shorter, k) && k <= k2
    ensures LaterThan(d, es, shorter, k2)
  {
    var i :| 1 <= i <= k && LaterAt(d, es, shorter, i);
  }

  lemma NoPieceHere(x: Ctx, t: Subre, d: seq<nat>, b: nat, e: nat, k: nat, start: nat, limit: nat, shorter: bool)
    requires Division(x, t, d, b, e) && 1 <= k < |d| && d[k - 1] == start
    requires NoEnd(x, t, start, limit, e, shorter)
    ensures d[k] != limit && !Later(d[k], limit, shorter)
  {
    PieceOf(x, t, d, b, e, k);
    hide Division;
  }

  /** No endpoint for piece k. */
  lemma EndMissing(x: Ctx, t: Subre, es: seq<nat>, k: nat, limit: nat, b: nat, e: nat, g: Goal, shorter: bool)
    requires k >= 1 && StillAhead(x, t, es, k, limit, b, e, g, shorter) && k < |es| && Settled(x, t, es, k, b, e, g.least) && b <= e
    requires NoEnd(x, t, es[k - 1], limit, e, shorter)
    ensures Backing(x, t, es, k - 1, b, e, g, shorter)
  {
    PastBack(g.tried, es, k, limit, shorter);
    forall d | Candidate(x, t, d, b, e, g) ensures LaterThan(d, es, shorter, k - 1) {
      if !LaterThan(d, es, shorter, k - 1) {
        SamePrefix(d, es, k, k - 1);
        NoPieceHere(x, t, d, b, e, k, es[k - 1], limit, shorter);
      }
    }
  }

  /** Endpoint k is not the end, and no further piece is allowed. */
  lemma TooMany(x: Ctx, t: Subre, es: seq<nat>, k: nat, b: nat, e: nat, g: Goal)
    requires k < |es| && k >= 1 && StillAhead(x, t, es, k, es[k], b, e, g, false) && k >= g.n && es[k] < e
    ensures Backing(x, t, es, k - 1, b, e, g, false)
  {
    PastBack(g.tried, es, k, es[k], false);
    forall d | Candidate(x, t, d, b, e, g) ensures LaterThan(d, es, false, k - 1) {
      assert |d| > k ==> |d| == k + 1;
    }
  }

  /** Piece k is empty and need not be. */
  ghost predicate Spare(es: seq<nat>, k: nat, y: nat, e: nat, least: nat)
    requires 1 <= k <= |es|
  {
    y == es[k - 1] && y != e && (k >= least || least - k < e - y)
  }

  lemma NotSpare(x: Ctx, t: Subre, d: seq<nat>, b: nat, e: nat, g: Goal, es: seq<nat>, k: nat)
    requires Candidate(x, t, d, b, e, g) && 1 <= k < |d| && k <= |es| && d[..k] == es[..k]
    ensures !Spare(es, k, d[k], e, g.least)
  {
    SamePrefix(d, es, k, k - 1);
    assert d[k] != e ==> Frugal(d, k, g.least, e);
  }

  /** Going forward, piece k came out empty. */
  lemma EmptyPiece(x: Ctx, t: Subre, es: seq<nat>, k: nat, b: nat, e: nat, g: Goal)
    requires k < |es| && k >= 1 && StillAhead(x, t, es, k, es[k], b, e, g, false) && Spare(es, k, es[k], e, g.least)
    ensures Backing(x, t, es, k, b, e, g, false)
  {
    PastNext(g.tried, es, k, es[k], false);
    forall d | Candidate(x, t, d, b, e, g) ensures LaterThan(d, es, false, k) {
      if LaterThan(d, es, false, k - 1) {
        WeakenLater(d, es, false, k - 1, k);
      } else {
        NotSpare(x, t, d, b, e, g, es, k);
        assert LaterAt(d, es, false, k);
      }
    }
  }

  /** The end is reached with too few pieces. */
  lemma TooFew(x: Ctx, t: Subre, es: seq<nat>, k: nat, b: nat, e: nat, g: Goal, shorter: bool)
    requires k < |es| && k >= 1 && StillAhead(x, t, es, k, es[k], b, e, g, shorter) && es[k] == e && k < g.least
    ensures Backing(x, t, es, k, b, e, g, shorter)
  {
    PastNext(g.tried, es, k, e, shorter);
    forall d | Candidate(x, t, d, b, e, g) ensures LaterThan(d, es, shorter, k) {
      if LaterThan(d, es, shorter, k - 1) {
        WeakenLater(d, es, shorter, k - 1, k);
      } else {
        assert d[k] == e ==> Frugal(d, k, g.least, e);
        assert LaterAt(d, es, shorter, k);
      }
    }
  }

  /** The division found has been tried. */
  function Tried(g: Goal, es: seq<nat>, k: nat): Goal
    requires k < |es|
  {
    g.(tried := g.tried + {es[..k + 1]})
  }

  lemma DivisionTried(x: Ctx, t: Subre, es: seq<nat>, k: nat, b: nat, e: nat, g: Goal, shorter: bool)
    requires 1 <= k < |es| && StillAhead(x, t, es, k, e, b, e, g, shorter) && es[k] == e
    ensures Backing(x, t, es, k, b, e, Tried(g, es, k), shorter)
  {
    var g2 := Tried(g, es, k);
    PastNext(g.tried, es, k, e, shorter);
    assert Met(es[..k + 1], es, k, shorter);
    forall d | Candidate(x, t, d, b, e, g2) ensures LaterThan(d, es, shorter, k) {
      assert Candidate(x, t, d, b, e, g);
      if LaterThan(d, es, shorter, k - 1) {
        WeakenLater(d, es, shorter, k - 1, k);
      } else {
        EndsThere(x, t, d, es, k, b, e, g);
        assert LaterAt(d, es, shorter, k);
      }
    }
  }

  lemma EndsThere(x: Ctx, t: Subre, d: seq<nat>, es: seq<nat>, k: nat, b: nat, e: nat, g: Goal)
    requires Candidate(x, t, d, b, e, g) && 1 <= k < |d| && k < |es| && d[..k] == es[..k] && es[k] == e
    ensures d[k] == e ==> d == es[..k + 1]
  {
    if d[k] == e {
      assert k < |d| - 1 ==> Frugal(d, k, g.least, e);
      assert d == d[..k] + [d[k]] && es[..k + 1] == es[..k] + [es[k]];
    }
  }

  /** On to the next piece. */
  lemma NextPiece(x: Ctx, t: Subre, es: seq<nat>, k: nat, b: nat, e: nat, g: Goal, shorter: bool)
    requires k + 1 < |es| && k >= 1 && StillAhead(x, t, es, k, es[k], b, e, g, shorter) && es[k] != e
    ensures StillAhead(x, t, es, k + 1, if shorter then es[k] else e, b, e, g, shorter)
  {
    var limit := if shorter then es[k] else e;
    PastNext(g.tried, es, k, limit, shorter);
    forall d | Candidate(x, t, d, b, e, g) ensures LaterThan(d, es, shorter, k) || GoesTo(d, es, shorter, k + 1, limit) {
      if LaterThan(d, es, shorter, k - 1) {
        WeakenLater(d, es, shorter, k - 1, k);
      } else if d[k] == es[k] {
        assert d[..k + 1] == d[..k] + [d[k]] && es[..k + 1] == es[..k] + [es[k]];
        DivisionOrdered(x, t, d, b, e);
      } else {
        assert LaterAt(d, es, shorter, k);
      }
    }
  }

  /** Endpoint k is moved by one. */
  lemma MoveEnd(x: Ctx, t: Subre, es: seq<nat>, k: nat, limit: nat, b: nat, e: nat, g: Goal, shorter: bool)
    requires Backing(x, t, es, k, b, e, g, shorter) && 1 <= k < |es|
    requires if shorter then limit == es[k] + 1 else es[k] > 0 && limit == es[k] - 1
    ensures StillAhead(x, t, es, k, limit, b, e, g, shorter)
  {
    MetMoves(g.tried, es, k, limit, shorter);
    forall d | Candidate(x, t, d, b, e, g) ensures LaterThan(d, es, shorter, k - 1) || GoesTo(d, es, shorter, k, limit) {
      var i :| 1 <= i <= k && LaterAt(d, es, shorter, i);
      if i < k { assert LaterThan(d, es, shorter, k - 1); }
    }
  }

  /** Endpoint k cannot be moved any further. */
  lemma GiveUp(x: Ctx, t: Subre, es: seq<nat>, k: nat, b: nat, e: nat, g: Goal, shorter: bool)
    requires Backing(x, t, es, k, b, e, g, shorter) && 1 <= k < |es| && b <= es[k] <= e
    requires if shorter then es[k] >= e else es[k] <= es[k - 1] || (es[k] == es[k - 1] + 1 && Spare(es, k, es[k - 1], e, g.least))
    ensures Backing(x, t, es, k - 1, b, e, g, shorter)
  {
    MetBack(g.tried, es, k, shorter);
    forall d | Candidate(x, t, d, b, e, g) ensures LaterThan(d, es, shorter, k - 1) {
      var i :| 1 <= i <= k && LaterAt(d, es, shorter, i);
      if i == k {
        DivisionOrdered(x, t, d, b, e);
        SamePrefix(d, es, k, k - 1);
        NotSpare(x, t, d, b, e, g, es, k);
      }
      assert i < k;
    }
  }

  /** Going backward, an empty piece is not wanted. */
  lemma SkipEmpty(x: Ctx, t: Subre, es: seq<nat>, k: nat, b: nat, e: nat, g: Goal)
    requires k <= |es| && k >= 1 && StillAhead(x, t, es, k, es[k - 1], b, e, g, true) && Spare(es, k, es[k - 1], e, g.least)
    ensures StillAhead(x, t, es, k, es[k - 1] + 1, b, e, g, true)
  {
    PastOn(g.tried, es, es, k, es[k - 1], es[k - 1] + 1, true);
    forall d | Candidate(x, t, d, b, e, g) ensures LaterThan(d, es, true, k - 1) || GoesTo(d, es, true, k, es[k - 1] + 1) {
      if !LaterThan(d, es, true, k - 1) { NotSpare(x, t, d, b, e, g, es, k); }
    }
  }

  /** Going backward, the last piece allowed must reach the end. */
  lemma LastPiece(x: Ctx, t: Subre, es: seq<nat>, k: nat, limit: nat, b: nat, e: nat, g: Goal)
    requires 1 <= k <= |es| && StillAhead(x, t, es, k, limit, b, e, g, true) && k >= g.n && limit <= e
    ensures StillAhead(x, t, es, k, e, b, e, g, true)
  {
    PastOn(g.tried, es, es, k, limit, e, true);
    forall d | Candidate(x, t, d, b, e, g) ensures LaterThan(d, es, true, k - 1) || GoesTo(d, es, true, k, e) {
      if !LaterThan(d, es, true, k - 1) { assert |d| == k + 1; }
    }
  }

  // ---------------------------------------------------------------- the outcome

  /** The search has run out of endpoints: there was no candidate. */
  lemma NothingLeft(x: Ctx, t: Subre, es: seq<nat>, b: nat, e: nat, g: Goal, shorter: bool)
    requires Backing(x, t, es, 0, b, e, g, shorter)
    ensures forall d :: !Candidate(x, t, d, b, e, g)
  {
  }

  /** The division found comes first. */
  lemma FoundFirst(x: Ctx, t: Subre, es: seq<nat>, k: nat, b: nat, e: nat, g: Goal, shorter: bool, d: seq<nat>)
    requires k < |es| && k >= 1 && StillAhead(x, t, es, k, es[k], b, e, g, shorter) && es[k] == e
    requires Candidate(x, t, d, b, e, g)
    ensures !Ahead(es[..k + 1], d, shorter)
  {
    var f := es[..k + 1];
    forall j: nat ensures !AheadAt(f, d, shorter, j) {
      if j < |d| && j <= k && f[..j] == d[..j] {
        assert f[..j] == es[..j];
        if LaterThan(d, es, shorter, k - 1) {
          var i :| 1 <= i <= k - 1 && LaterAt(d, es, shorter, i);
          if i < j { SamePrefix(d, es, j, i); }
          if j < i { SamePrefix(d, es, i, j); }
        } else if j < k {
          SamePrefix(d, es, k, j);
        }
      }
    }
  }

  lemma PieceOf(x: Ctx, t: Subre, d: seq<nat>, b: nat, e: nat, i: nat)
    requires Division(x, t, d, b, e) && 1 <= i < |d|
    ensures Acc(x, t, d[i - 1], d[i]) && d[i - 1] <= d[i] <= e
  {
    assert Piece(x, t, d, i - 1);
    DivisionOrdered(x, t, d, b, e);
  }

  lemma SamePrefix(d: seq<nat>, es: seq<nat>, i: nat, j: nat)
    requires i <= |d| && i <= |es| && d[..i] == es[..i] && j < i
    ensures d[j] == es[j]
  {
    assert d[..i][j] == es[..i][j];
  }

  /** Dropping the empty pieces of a division. */
  lemma {:induction false} Compress(x: Ctx, t: Subre, ends: seq<nat>, b: nat, e: nat) returns (d: seq<nat>)
    requires Division(x, t, ends, b, e)
    ensures Division(x, t, d, b, e) && Increasing(d) && |d| <= |ends|
    decreases |ends|
  {
    if |ends| == 1 {
      d := ends;
    } else {
      var rest := ends[1..];
      forall i | 0 <= i < |rest| - 1 ensures Piece(x, t, rest, i) { assert Piece(x, t, ends, i + 1); }
      d := Compress(x, t, rest, ends[1], e);
      assert Piece(x, t, ends, 0);
      if ends[0] != ends[1] {
        var d2 := d;
        d := [ends[0]] + d2;
        forall i | 0 <= i < |d| - 1 ensures Piece(x, t, d, i) {
          if i > 0 { assert Piece(x, t, d2, i - 1); }
        }
      }
    }
  }

  lemma {:induction false} IncreasingSpan(d: seq<nat>)
    requires Increasing(d) && |d| >= 1
    ensures |d| - 1 <= d[|d| - 1] - d[0]
    decreases |d|
  {
    if |d| > 1 {
      var d2 := d[..|d| - 1];
      IncreasingSpan(d2);
      assert d2[|d2| - 1] < d[|d| - 1];
    }
  }

  /** The bound on the number of pieces (regexec.c:1030-1035). */
  function MaxMatches(b: nat, e: nat, least: nat, max: nat): (n: nat)
    requires b <= e
    ensures n >= least
    ensures least <= max && Allowed(least, 0, max) ==> forall k: nat :: k <= n ==> Allowed(k, 0, max)
  {
    var n0 := if e - b > max && max != DUPINF then max else e - b;
    if n0 < least then least else n0
  }

  /** A division with no empty piece. */
  lemma IncreasingIsWorth(x: Ctx, t: Subre, d: seq<nat>, b: nat, e: nat)
    requires t.Iter? && Division(x, t.left, d, b, e) && Allowed(|d| - 1, t.min, t.max) && Increasing(d)
    ensures Worth(x, t, d, b, e)
  {
  }

  /** If the string can be divided at all and one piece is enough, some division is worth a try. */
  lemma WorthExists(x: Ctx, t: Subre, b: nat, e: nat)
    requires t.Iter? && Divides(x, t.left, t.min, t.max, b, e) && t.min <= 1
    ensures exists d :: Worth(x, t, d, b, e)
  {
    var ends :| Division(x, t.left, ends, b, e) && Allowed(|ends| - 1, t.min, t.max);
    var d := Compress(x, t.left, ends, b, e);
    if |d| - 1 >= t.min {
      IncreasingIsWorth(x, t, d, b, e);
    } else {
      DivisionOrdered(x, t.left, ends, b, e);
      assert Piece(x, t.left, ends, 0) && ends[1] == b;
      assert Piece(x, t.left, [b, b], 0);
      assert Worth(x, t, [b, b], b, e);
    }
  }

  /** Where a division has an empty piece, so many are required that no other bound on their number matters. */
  lemma {:induction false} ThriftySpan(x: Ctx, t: Subre, d: seq<nat>, b: nat, e: nat, least: nat, i: nat)
    requires Division(x, t, d, b, e) && Thrifty(d, least, e) && i < |d|
    ensures var k := |d| - 1; k <= least || k - i <= e - d[i] || (b == e && k == 1)
    decreases |d| - i
  {
    DivisionOrdered(x, t, d, b, e);
    if i + 1 < |d| {
      ThriftySpan(x, t, d, b, e, least, i + 1);
      if i + 2 < |d| { assert Frugal(d, i + 1, least, e); } else if i > 0 { assert Frugal(d, i, least, e); }
    }
  }

  /** Every division worth a try is a candidate until it has been tried. */
  lemma WorthIsCandidate(x: Ctx, t: Subre, d: seq<nat>, b: nat, e: nat, g: Goal)
    requires t.Iter? && Worth(x, t, d, b, e) && d !in g.tried
    requires b <= e && (t.min == 0 ==> b < e) && g.least == (if t.min == 0 then 1 else t.min) && g.n == MaxMatches(b, e, g.least, t.max)
    ensures Candidate(x, t.left, d, b, e, g)
  {
    assert |d| > 1;
    ThriftySpan(x, t.left, d, b, e, t.min, 0);
    forall i | 1 <= i < |d| - 1 ensures Frugal(d, i, g.least, e) { assert Frugal(d, i, t.min, e); }
  }

  // ---------------------------------------------------------------- the states of the two loops

  /** The search is looking for endpoint k, up to limit. */
  ghost predicate Standing(x: Ctx, t: Subre, es: seq<nat>, k: nat, limit: nat, b: nat, e: nat, g: Goal) {
    |es| == g.n + 1 && 1 <= k <= g.n && Settled(x, t, es, k, b, e, g.least) && InRange(es, k, b, e) && es[k - 1] <= limit <= e
  }

  /** Endpoint k has been found. */
  ghost predicate Held(x: Ctx, t: Subre, es: seq<nat>, k: nat, b: nat, e: nat, g: Goal) {
    && |es| == g.n + 1 && k <= g.n && es[0] == b && InRange(es, k + 1, b, e)
    && (k >= 1 ==> Settled(x, t, es, k, b, e, g.least) && Acc(x, t, es[k - 1], es[k]))
  }

  lemma HeldBefore(x: Ctx, t: Subre, es: seq<nat>, k: nat, b: nat, e: nat, g: Goal)
    requires |es| == g.n + 1 && 1 <= k <= g.n && Settled(x, t, es, k, b, e, g.least) && InRange(es, k, b, e)
    ensures Held(x, t, es, k - 1, b, e, g)
  {
    if k >= 2 { assert Acc(x, t, es[k - 2], es[k - 2 + 1]); }
  }

  lemma StandingStart(x: Ctx, t: Subre, es: seq<nat>, limit: nat, b: nat, e: nat, g: Goal)
    requires |es| == g.n + 1 && g.n >= 1 && es[0] == b && b <= limit <= e
    ensures Standing(x, t, es, 1, limit, b, e, g) && InRange(es, 1, b, e)
  {
  }

  /** Writing endpoint k. */
  lemma EndWritten(x: Ctx, t: Subre, es: seq<nat>, k: nat, limit: nat, b: nat, e: nat, g: Goal, y: nat)
    requires Standing(x, t, es, k, limit, b, e, g) && Acc(x, t, es[k - 1], y) && es[k - 1] <= y <= e
    ensures Held(x, t, es[k := y], k, b, e, g)
  {
    var es2 := es[k := y];
    forall i | 0 <= i < k - 1 ensures Acc(x, t, es2[i], es2[i + 1]) { assert Acc(x, t, es[i], es[i + 1]); }
    forall i | 1 <= i < k ensures Frugal(es2, i, g.least, e) { assert Frugal(es, i, g.least, e); }
  }

  lemma HeldStep(x: Ctx, t: Subre, es: seq<nat>, k: nat, limit: nat, b: nat, e: nat, g: Goal)
    requires Held(x, t, es, k, b, e, g) && 1 <= k && k + 1 <= g.n && es[k] != e && !Spare(es, k, es[k], e, g.least) && es[k] <= limit <= e
    ensures Standing(x, t, es, k + 1, limit, b, e, g)
  {
    forall i | 0 <= i < k ensures Acc(x, t, es[i], es[i + 1]) {}
  }

  /** The k pieces held make a division once endpoint k is the end. */
  lemma HeldDivides(x: Ctx, t: Subre, es: seq<nat>, k: nat, b: nat, e: nat, g: Goal)
    requires Held(x, t, es, k, b, e, g) && k >= 1
    ensures forall i :: 0 <= i < k ==> Acc(x, t, es[i], es[i + 1])
    ensures es[k] == e ==> Division(x, t, es[..k + 1], b, e) && Thrifty(es[..k + 1], g.least, e)
  {
    forall i | 0 <= i < k ensures Acc(x, t, es[i], es[i + 1]) {
      if i == k - 1 { assert Acc(x, t, es[k - 1], es[k]); }
    }
    var f := es[..k + 1];
    forall i | 0 <= i < k ensures Piece(x, t, f, i) {
      assert Acc(x, t, es[i], es[i + 1]);
    }
    forall i | 1 <= i < k ensures Frugal(f, i, g.least, e) { assert Frugal(es, i, g.least, e); }
  }

  /** The first loop of "backtrack:" going forward (regexec.c:1134-1152). */
  method BackForward(es: seq<nat>, k0: nat, least: nat, b: nat, e: nat, ghost x: Ctx, ghost t: Subre, ghost g: Goal)
    returns (k: nat, limit: nat)
    requires Held(x, t, es, k0, b, e, g) && b <= e && g.least == least && Backing(x, t, es, k0, b, e, g, false)
    ensures k <= k0 && b <= limit <= e && (k > 0 ==> Standing(x, t, es, k, limit, b, e, g) && limit + 1 == es[k])
    ensures StillAhead(x, t, es, k, limit, b, e, g, false)
  {
    hide Backing, Settled, Division;
    k, limit := k0, b;
    while k > 0
      invariant k <= k0 && Held(x, t, es, k, b, e, g) && b <= limit <= e && Backing(x, t, es, k, b, e, g, false)
    {
      var prevEnd := es[k - 1];
      if es[k] > prevEnd {
        limit := es[k] - 1;
        if limit > prevEnd || (k < least && least - k >= e - prevEnd) {
          MoveEnd(x, t, es, k, limit, b, e, g, false);
          return;
        }
      }
      HeldBefore(x, t, es, k, b, e, g);
      GiveUp(x, t, es, k, b, e, g, false);
      k := k - 1;
    }
  }

  /** "backtrack:" going backward (regexec.c:1318-1330). */
  method BackBackward(es: seq<nat>, k0: nat, b: nat, e: nat, ghost x: Ctx, ghost t: Subre, ghost g: Goal)
    returns (k: nat, limit: nat)
    requires Held(x, t, es, k0, b, e, g) && b <= e && Backing(x, t, es, k0, b, e, g, true)
    ensures k <= k0 && b <= limit <= e && (k > 0 ==> Standing(x, t, es, k, limit, b, e, g) && limit == es[k] + 1)
    ensures StillAhead(x, t, es, k, limit, b, e, g, true)
  {
    hide Backing, Settled, Division;
    k, limit := k0, b;
    while k > 0
      invariant k <= k0 && Held(x, t, es, k, b, e, g) && b <= limit <= e && Backing(x, t, es, k, b, e, g, true)
    {
      if es[k] < e {
        limit := es[k] + 1;
        MoveEnd(x, t, es, k, limit, b, e, g, true);
        AccOrdered(x, t, es[k - 1], es[k]);
        return;
      }
      HeldBefore(x, t, es, k, b, e, g);
      GiveUp(x, t, es, k, b, e, g, true);
      k := k - 1;
    }
  }

  lemma AccOrdered(x: Ctx, t: Subre, b: nat, e: nat)
    requires Acc(x, t, b, e)
    ensures b <= e <= x.text.Stop()
  {
  }

  lemma StandingHeld(x: Ctx, t: Subre, es: seq<nat>, k: nat, limit: nat, b: nat, e: nat, g: Goal)
    requires Standing(x, t, es, k, limit, b, e, g)
    ensures Held(x, t, es, k - 1, b, e, g)
  {
    HeldBefore(x, t, es, k, b, e, g);
  }

  lemma AdvanceDrops(es: seq<nat>, k: nat, limit: nat, es2: seq<nat>, limit2: nat, b: nat, e: nat, n: nat, shorter: bool)
    requires InRange(es, k, b, e) && InRange(es2, k + 1, b, e) && b <= limit <= e && b <= limit2 <= e
    requires 1 <= k <= n && es2[..k] == es[..k] && (es2[k] == limit || Later(es2[k], limit, shorter))
    ensures Measure(es2, k + 1, limit2, b, e, n, shorter) < Measure(es, k, limit, b, e, n, shorter)
  {
    MeasureDrops(es, k, limit, es2, k + 1, limit2, b, e, n, shorter, k);
  }

  lemma BackDrops(es: seq<nat>, k: nat, limit: nat, es2: seq<nat>, k2: nat, limit2: nat, b: nat, e: nat, n: nat, shorter: bool)
    requires InRange(es, k, b, e) && InRange(es2, k2, b, e) && b <= limit <= e && b <= limit2 <= e
    requires 1 <= k <= n && k2 <= k <= |es| && |es2| == |es| && es2[..k] == es[..k]
    requires k2 == k ==> k < |es2| && (es2[k] == limit || Later(es2[k], limit, shorter))
    requires k2 > 0 ==> k2 < |es2| && if shorter then limit2 == es2[k2] + 1 else limit2 + 1 == es2[k2]
    ensures Measure(es2, k2, limit2, b, e, n, shorter) < Measure(es, k, limit, b, e, n, shorter)
  {
    if k2 > 0 {
      assert es2[..k2] == es2[..k][..k2] && es[..k2] == es[..k][..k2];
      if k2 < k { assert es2[..k][k2] == es[..k][k2]; }
      MeasureDrops(es, k, limit, es2, k2, limit2, b, e, n, shorter, k2);
    }
  }

  // ---------------------------------------------------------------- deciding what to do with an endpoint

  /** Verify the division, look for the next endpoint, or backtrack from endpoint j. */
  datatype Verdict = Done | Next | BackFrom(j: nat)

  ghost predicate Prospect(x: Ctx, t: Subre, es: seq<nat>, k: nat, v: Verdict, b: nat, e: nat, g: Goal, shorter: bool) {
    match v
    case Done => StillAhead(x, t, es, k, e, b, e, g, shorter)
    case Next => k < |es| && StillAhead(x, t, es, k + 1, if shorter then es[k] else e, b, e, g, shorter)
    case BackFrom(j) => Backing(x, t, es, j, b, e, g, shorter)
  }

  /** regexec.c:1080-1106. */
  method JudgeForward(es: seq<nat>, k: nat, least: nat, e: nat, n: nat, ghost x: Ctx, ghost t: Subre, ghost b: nat, ghost g: Goal) returns (v: Verdict)
    requires Held(x, t, es, k, b, e, g) && k >= 1 && b <= e && g.least == least && g.n == n
    requires StillAhead(x, t, es, k, es[k], b, e, g, false)
    ensures v == Done <==> es[k] == e && k >= least
    ensures v == Next ==> k < n && Standing(x, t, es, k + 1, e, b, e, g)
    ensures v.BackFrom? ==> k - 1 <= v.j <= k && Held(x, t, es, v.j, b, e, g)
    ensures Prospect(x, t, es, k, v, b, e, g, false)
  {
    hide StillAhead, Backing, Settled;
    if es[k] != e {
      if k >= n {
        HeldBefore(x, t, es, k, b, e, g);
        TooMany(x, t, es, k, b, e, g);
        return BackFrom(k - 1);
      }
      if es[k] == es[k - 1] && (k >= least || least - k < e - es[k]) {
        EmptyPiece(x, t, es, k, b, e, g);
        return BackFrom(k);
      }
      HeldStep(x, t, es, k, e, b, e, g);
      NextPiece(x, t, es, k, b, e, g, false);
      return Next;
    }
    if k < least { TooFew(x, t, es, k, b, e, g, false); }
    v := if k < least then BackFrom(k) else Done;
  }

  lemma BackInRange(x: Ctx, t: Subre, es: seq<nat>, k: nat, limit: nat, b: nat, e: nat, g: Goal)
    requires |es| == g.n + 1 && (k > 0 ==> Standing(x, t, es, k, limit, b, e, g))
    ensures InRange(es, k, b, e)
  {
  }

  /** regexec.c:1249-1251, 1269-1290. The last piece allowed always ends at e. */
  method JudgeBackward(es: seq<nat>, k: nat, least: nat, e: nat, n: nat, ghost x: Ctx, ghost t: Subre, ghost b: nat, ghost g: Goal) returns (v: Verdict)
    requires Held(x, t, es, k, b, e, g) && k >= 1 && b <= e && g.least == least && g.n == n
    requires StillAhead(x, t, es, k, es[k], b, e, g, true) && !Spare(es, k, es[k], e, least)
    ensures v == Done <==> es[k] == e && k >= least
    ensures v == Next ==> k < n && Standing(x, t, es, k + 1, es[k], b, e, g)
    ensures v.BackFrom? ==> k - 1 <= v.j <= k && Held(x, t, es, v.j, b, e, g)
    ensures (k >= n ==> es[k] == e) ==> Prospect(x, t, es, k, v, b, e, g, true)
  {
    hide StillAhead, Backing, Settled;
    if es[k] != e {
      if k >= n {
        HeldBefore(x, t, es, k, b, e, g);
        return BackFrom(k - 1);
      }
      HeldStep(x, t, es, k, es[k], b, e, g);
      NextPiece(x, t, es, k, b, e, g, true);
      return Next;
    }
    if k < least { TooFew(x, t, es, k, b, e, g, true); }
    v := if k < least then BackFrom(k) else Done;
  }
}
