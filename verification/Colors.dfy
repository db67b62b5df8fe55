/** The colours themselves (regguts.h:149-161, regc_color.c:229-428, 587-642): who has how many characters, which
    colours have an open subcolour, and what the coloured arcs of the automaton stand for meanwhile. */
module Colors {
  import opened Options
  import opened Nfa
  import R = Runs

  /** CHR_MAX + 1 and MAX_COLOR. */
  const NCHRS: nat := 0x11_0000
  const MAX_COLOR: nat := 0x7FFF
  const WHITE: nat := 0
  const NOSUB: int := -1

  /** struct colordesc; in a free colour sub is the free chain. */
  datatype Desc = Desc(nchrs: int, sub: int, arcs: seq<Arc>, isFree: bool, pseudo: bool, block: Option<nat>)

  predicate Used(cd: seq<Desc>, co: int) { 0 <= co < |cd| && !cd[co].isFree }

  /** A colour of real characters. */
  predicate Real(cd: seq<Desc>, co: int) { Used(cd, co) && !cd[co].pseudo }

  predicate Open(cd: seq<Desc>, co: int) { Used(cd, co) && cd[co].sub == co }

  ghost function Members(f: nat -> nat, co: nat): set<nat> {
    set c: nat | c < NCHRS && f(c) == co
  }

  // ---------------------------------------------------------------- what has to hold

  /** Colours above max are free, max itself is not; free colours have no arcs and no block. */
  ghost predicate Ranges(cd: seq<Desc>, max: nat) {
    && max < |cd| <= MAX_COLOR + 1 && Real(cd, WHITE) && Used(cd, max)
    && (forall co :: max < co < |cd| ==> cd[co].isFree)
    && (forall co :: 0 <= co < |cd| && cd[co].isFree ==> cd[co].arcs == [] && cd[co].block.None?)
  }

  /** Every character has a real colour, and every real colour knows how many characters it has. */
  ghost predicate Counted(cd: seq<Desc>, f: nat -> nat) {
    && (forall c :: 0 <= c < NCHRS ==> Real(cd, f(c)))
    && (forall co :: Real(cd, co) ==> cd[co].nchrs == |Members(f, co)|)
  }

  /** A subcolour is open, real and no other colour's; an open one is somebody's. */
  ghost predicate SubsOk(cd: seq<Desc>) {
    && (forall co :: Used(cd, co) && cd[co].sub != NOSUB ==> Real(cd, co) && Real(cd, cd[co].sub) && Open(cd, cd[co].sub))
    && (forall p, q :: Used(cd, p) && Used(cd, q) && p != q && cd[p].sub != p && cd[q].sub != q && cd[p].sub != NOSUB ==> cd[p].sub != cd[q].sub)
    && (forall co :: Open(cd, co) ==> co != WHITE && exists p :: Parent(cd, p, co))
  }

  predicate Parent(cd: seq<Desc>, p: int, co: int) { Used(cd, p) && p != co && cd[p].sub == co }

  /** Open subcolours are not empty. */
  ghost predicate Busy(cd: seq<Desc>) {
    forall co :: Open(cd, co) ==> cd[co].nchrs > 0
  }

  /** The colour chains hold the arcs of their colours. */
  ghost predicate ChainsOk(cd: seq<Desc>) {
    forall co, a :: 0 <= co < |cd| && a in cd[co].arcs ==> a.co == co
  }

  ghost predicate ColoursOk(cd: seq<Desc>, max: nat, f: nat -> nat) {
    Ranges(cd, max) && Counted(cd, f) && SubsOk(cd) && ChainsOk(cd)
  }

  // ---------------------------------------------------------------- what arcs stand for

  /** An arc of colour co stands for the characters of co and of its open subcolour. */
  predicate Stands(cd: seq<Desc>, f: nat -> nat, co: nat, c: nat)
    requires co < |cd|
  {
    f(c) == co || cd[co].sub == f(c)
  }

  ghost predicate MeansBy(cd: seq<Desc>, f: nat -> nat, typ: ArcType, from: nat, to: nat, c: nat, co: nat) {
    co < |cd| && Arc(typ, co, from, to) in cd[co].arcs && Stands(cd, f, co, c)
  }

  /** Some coloured arc of this type between these states lets c pass. */
  ghost predicate Means(cd: seq<Desc>, f: nat -> nat, typ: ArcType, from: nat, to: nat, c: nat) {
    exists co: nat :: MeansBy(cd, f, typ, from, to, c, co)
  }

  /** The characters of d may now pass from lp to rp, and that is all that has changed. */
  ghost predicate Gained(cd: seq<Desc>, f: nat -> nat, cd2: seq<Desc>, f2: nat -> nat, lp: nat, rp: nat, d: set<nat>) {
    forall typ, from, to, c :: 0 <= c < NCHRS ==>
      (Means(cd2, f2, typ, from, to, c) <==> Means(cd, f, typ, from, to, c) || (typ == PLAIN && from == lp && to == rp && c in d))
  }

  lemma GainedTrans(cd: seq<Desc>, f: nat -> nat, cd2: seq<Desc>, f2: nat -> nat, cd3: seq<Desc>, f3: nat -> nat, lp: nat, rp: nat, d: set<nat>, d2: set<nat>)
    requires Gained(cd, f, cd2, f2, lp, rp, d) && Gained(cd2, f2, cd3, f3, lp, rp, d2)
    ensures Gained(cd, f, cd3, f3, lp, rp, d + d2)
  {
  }

  /** While a bracket expression between lp and rp is read, open subcolours have one arc, from lp to rp. */
  ghost predicate Bracket(cd: seq<Desc>, lp: nat, rp: nat) {
    forall co :: Open(cd, co) ==> cd[co].arcs == [Arc(PLAIN, co, lp, rp)]
  }

  // ---------------------------------------------------------------- a new subcolour

  const NEW: Desc := Desc(0, NOSUB, [], false, false, None)

  /** newcolor() has put a new colour sco into use. */
  ghost predicate Added(cd: seq<Desc>, cd2: seq<Desc>, sco: nat) {
    && !Used(cd, sco) && sco != WHITE && Used(cd2, sco) && cd2[sco] == NEW
    && (|cd2| == |cd| || (|cd2| == |cd| + 1 && sco == |cd|)) && (forall x :: 0 <= x < |cd| && x != sco ==> cd2[x] == cd[x])
  }

  lemma AddedKeeps(cd: seq<Desc>, cd2: seq<Desc>, sco: nat, max: nat, max2: nat, f: nat -> nat)
    requires ColoursOk(cd, max, f) && Added(cd, cd2, sco) && |cd2| <= MAX_COLOR + 1
    requires max2 == max || (max2 == sco && sco == max + 1)
    requires max2 == max ==> sco < max && |cd2| == |cd|
    ensures ColoursOk(cd2, max2, f)
  {
    forall x: int ensures Used(cd2, x) <==> Used(cd, x) || x == sco {}
    forall c | 0 <= c < NCHRS ensures f(c) != sco { assert Real(cd, f(c)); }
    assert Members(f, sco) == {};
    assert SubsOk(cd2) by {
      forall co | Open(cd2, co) ensures co != WHITE && exists p :: Parent(cd2, p, co) {
        assert Open(cd, co);
        var p :| Parent(cd, p, co);
        assert Parent(cd2, p, co);
      }
      forall co | Used(cd2, co) && cd2[co].sub != NOSUB ensures Real(cd2, co) && Real(cd2, cd2[co].sub) && Open(cd2, cd2[co].sub) {
        assert Used(cd, co) && Open(cd, cd[co].sub);
      }
    }
  }

  /** What newsub() leaves behind: the open subcolour there is; or the colour itself, if it has but one
      character; or a new open subcolour without characters. */
  ghost predicate Subbed(cd: seq<Desc>, cd2: seq<Desc>, co: nat, sco: nat) {
    || (cd2 == cd && co < |cd| && cd[co].sub == sco)
    || (cd2 == cd && co < |cd| && cd[co].sub == NOSUB && cd[co].nchrs == 1 && sco == co)
    || (co < |cd| <= |cd2| && cd[co].sub == NOSUB && cd[co].nchrs != 1 && sco != co && SubMade(cd, cd2, co, sco))
  }

  ghost predicate SubMade(cd: seq<Desc>, cd2: seq<Desc>, co: nat, sco: nat)
    requires co < |cd| <= |cd2|
  {
    && !Used(cd, sco) && sco != WHITE && Used(cd2, sco) && cd2[sco] == NEW.(sub := sco) && cd2[co] == cd[co].(sub := sco)
    && (|cd2| == |cd| || (|cd2| == |cd| + 1 && sco == |cd|)) && (forall x :: 0 <= x < |cd| && x != sco && x != co ==> cd2[x] == cd[x])
  }

  /** After newcolor(), the two assignments of newsub(). */
  lemma SubMadeKeeps(cd: seq<Desc>, cd1: seq<Desc>, cd2: seq<Desc>, co: nat, sco: nat, max: nat, f: nat -> nat)
    requires ColoursOk(cd1, max, f) && Added(cd, cd1, sco) && Real(cd, co) && cd[co].sub == NOSUB && co != sco
    requires sco < |cd1| && co < |cd1| && cd2 == cd1[co := cd1[co].(sub := sco)][sco := NEW.(sub := sco)]
    ensures ColoursOk(cd2, max, f) && SubMade(cd, cd2, co, sco)
  {
    SubMadeIs(cd, cd1, cd2, co, sco);
    SubMadeSubs(cd, cd1, cd2, co, sco, max, f);
    hide SubsOk, Members, Added, SubMade;
    forall x: int ensures (Used(cd2, x) <==> Used(cd1, x)) && (Real(cd2, x) <==> Real(cd1, x)) {}
  }

  lemma SubMadeIs(cd: seq<Desc>, cd1: seq<Desc>, cd2: seq<Desc>, co: nat, sco: nat)
    requires Added(cd, cd1, sco) && co < |cd| && co != sco
    requires sco < |cd1| && co < |cd1| && cd2 == cd1[co := cd1[co].(sub := sco)][sco := NEW.(sub := sco)]
    ensures SubMade(cd, cd2, co, sco)
  {
    assert cd2[co] == cd1[co].(sub := sco) && cd1[co] == cd[co];
  }

  lemma SubMadeSubs(cd: seq<Desc>, cd1: seq<Desc>, cd2: seq<Desc>, co: nat, sco: nat, max: nat, f: nat -> nat)
    requires ColoursOk(cd1, max, f) && Added(cd, cd1, sco) && Real(cd, co) && cd[co].sub == NOSUB && co != sco
    requires sco < |cd1| && co < |cd1| && cd2 == cd1[co := cd1[co].(sub := sco)][sco := NEW.(sub := sco)]
    ensures SubsOk(cd2)
  {
    hide Counted, ChainsOk, Ranges;
    forall x: int ensures (Used(cd2, x) <==> Used(cd1, x)) && (Real(cd2, x) <==> Real(cd1, x)) {}
    forall x | Used(cd1, x) && x != sco ensures cd1[x].sub != sco {
      assert cd1[x].sub != NOSUB ==> Open(cd1, cd1[x].sub);
    }
    assert Parent(cd2, co, sco);
    forall x | Open(cd2, x) && x != sco ensures x != WHITE && exists p :: Parent(cd2, p, x) {
      assert Open(cd1, x);
      var p :| Parent(cd1, p, x);
      assert Parent(cd2, p, x);
    }
    forall x | Used(cd2, x) && cd2[x].sub != NOSUB ensures Real(cd2, x) && Real(cd2, cd2[x].sub) && Open(cd2, cd2[x].sub) {
      if x != co && x != sco { assert Open(cd1, cd1[x].sub); }
    }
  }

  // ---------------------------------------------------------------- characters change colour

  /** nchrs of co and sco after n characters have gone from one to the other. */
  function Shifted(cd: seq<Desc>, co: nat, sco: nat, n: int): (r: seq<Desc>)
    requires co < |cd| && sco < |cd|
    ensures |r| == |cd|
  {
    var cd1 := cd[co := cd[co].(nchrs := cd[co].nchrs - n)];
    cd1[sco := cd1[sco].(nchrs := cd1[sco].nchrs + n)]
  }

  /** newarc() for a coloured arc: on the chain of its colour unless it is there already. */
  function ArcAdded(cd: seq<Desc>, a: Arc): (r: seq<Desc>)
    requires a.co < |cd|
    ensures |r| == |cd|
  {
    if a in cd[a.co].arcs then cd else cd[a.co := cd[a.co].(arcs := [a] + cd[a.co].arcs)]
  }

  function Arced(cd: seq<Desc>, sco: nat, lp: nat, rp: nat): (r: seq<Desc>)
    requires sco < |cd|
    ensures |r| == |cd|
  {
    ArcAdded(cd, Arc(PLAIN, sco, lp, rp))
  }

  lemma ShiftArcs(cd: seq<Desc>, co: nat, sco: nat, n: int, lp: nat, rp: nat)
    requires co < |cd| && sco < |cd|
    ensures Shifted(Arced(cd, sco, lp, rp), co, sco, n) == Arced(Shifted(cd, co, sco, n), sco, lp, rp)
    ensures co == sco ==> Shifted(cd, co, sco, n) == cd
  {
    var a, b := Shifted(Arced(cd, sco, lp, rp), co, sco, n), Arced(Shifted(cd, co, sco, n), sco, lp, rp);
    assert forall x :: 0 <= x < |cd| ==> a[x] == b[x];
  }

  ghost predicate Recoloured(f: nat -> nat, f2: nat -> nat, d: set<nat>, sco: nat) {
    forall c :: 0 <= c < NCHRS ==> f2(c) == if c in d then sco else f(c)
  }

  lemma SubbedReal(cd: seq<Desc>, cd2: seq<Desc>, co: nat, sco: nat, max: nat, f: nat -> nat)
    requires ColoursOk(cd, max, f) && Subbed(cd, cd2, co, sco) && Real(cd, co)
    ensures Real(cd2, co) && Real(cd2, sco) && (sco != co ==> cd2[co].sub == sco && Open(cd2, sco))
  {
  }

  lemma ShiftMembers(f: nat -> nat, f2: nat -> nat, co: nat, sco: nat, d: set<nat>, x: nat)
    requires d <= Members(f, co) && Recoloured(f, f2, d, sco)
    ensures co == sco || (x != co && x != sco) ==> Members(f2, x) == Members(f, x)
    ensures co != sco && x == co ==> Members(f2, x) == Members(f, x) - d
    ensures co != sco && x == sco ==> Members(f2, x) == Members(f, x) + d && Members(f, x) !! d
  {
  }

  lemma ShiftCountsAt(cd: seq<Desc>, f: nat -> nat, f2: nat -> nat, co: nat, sco: nat, d: set<nat>, x: nat)
    requires Real(cd, co) && Real(cd, sco) && Real(cd, x) && d <= Members(f, co) && Recoloured(f, f2, d, sco)
    requires cd[x].nchrs == |Members(f, x)| && cd[co].nchrs == |Members(f, co)| && cd[sco].nchrs == |Members(f, sco)|
    ensures Shifted(cd, co, sco, |d|)[x].nchrs == |Members(f2, x)|
  {
    ShiftMembers(f, f2, co, sco, d, x);
    hide Members;
  }

  /** Counting stays right. */
  lemma ShiftCounts(cd: seq<Desc>, f: nat -> nat, f2: nat -> nat, co: nat, sco: nat, d: set<nat>)
    requires Counted(cd, f) && Real(cd, co) && Real(cd, sco) && d <= Members(f, co) && Recoloured(f, f2, d, sco)
    ensures Counted(Shifted(cd, co, sco, |d|), f2)
  {
    var cd2 := Shifted(cd, co, sco, |d|);
    hide Members;
    forall x: int ensures Real(cd2, x) <==> Real(cd, x) {}
    forall x | Real(cd2, x) ensures cd2[x].nchrs == |Members(f2, x)| {
      ShiftCountsAt(cd, f, f2, co, sco, d, x);
    }
  }

  /** The characters of d, of colour co, have gone over to its subcolour, which has its arc. */
  lemma {:induction false} ShiftMeans(cd: seq<Desc>, cd1: seq<Desc>, cd2: seq<Desc>, max: nat, f: nat -> nat, f2: nat -> nat, co: nat, sco: nat, d: set<nat>, lp: nat, rp: nat)
    requires ColoursOk(cd, max, f) && Bracket(cd, lp, rp) && Real(cd, co) && Subbed(cd, cd1, co, sco)
    requires d <= Members(f, co) && d != {} && Recoloured(f, f2, d, sco)
    requires Used(cd1, sco) && co < |cd1| && cd2 == Arced(Shifted(cd1, co, sco, |d|), sco, lp, rp)
    ensures Gained(cd, f, cd2, f2, lp, rp, d)
  {
    SubbedReal(cd, cd1, co, sco, max, f);
    forall typ, from, to, c | 0 <= c < NCHRS
      ensures Means(cd2, f2, typ, from, to, c) <==> Means(cd, f, typ, from, to, c) || (typ == PLAIN && from == lp && to == rp && c in d)
    {
      if Means(cd2, f2, typ, from, to, c) {
        var x: nat :| MeansBy(cd2, f2, typ, from, to, c, x);
        ShiftMeansLess(cd, cd1, cd2, max, f, f2, co, sco, d, lp, rp, typ, from, to, c, x);
      }
      if Means(cd, f, typ, from, to, c) {
        var x: nat :| MeansBy(cd, f, typ, from, to, c, x);
        assert MeansBy(cd2, f2, typ, from, to, c, x) by { ShiftMeansMore(cd, cd1, cd2, max, f, f2, co, sco, d, lp, rp, typ, from, to, c, x); }
      }
      if typ == PLAIN && from == lp && to == rp && c in d {
        assert MeansBy(cd2, f2, typ, from, to, c, sco);
      }
    }
  }

  lemma ShiftMeansMore(cd: seq<Desc>, cd1: seq<Desc>, cd2: seq<Desc>, max: nat, f: nat -> nat, f2: nat -> nat, co: nat, sco: nat, d: set<nat>, lp: nat, rp: nat,
                       typ: ArcType, from: nat, to: nat, c: nat, x: nat)
    requires ColoursOk(cd, max, f) && Real(cd, co) && Subbed(cd, cd1, co, sco) && c < NCHRS
    requires d <= Members(f, co) && Recoloured(f, f2, d, sco)
    requires Used(cd1, sco) && co < |cd1| && cd2 == Arced(Shifted(cd1, co, sco, |d|), sco, lp, rp)
    requires MeansBy(cd, f, typ, from, to, c, x)
    ensures MeansBy(cd2, f2, typ, from, to, c, x)
  {
    hide Counted, ChainsOk, Members;
    assert !cd[x].isFree;
    if c in d && x != co {
      MemberOf(f, co, d, c);
      assert cd[x].sub == co;
      assert Open(cd, co);
    }
  }

  lemma MemberOf(f: nat -> nat, co: nat, d: set<nat>, c: nat)
    requires d <= Members(f, co) && c in d
    ensures f(c) == co && c < NCHRS
  {
  }

  /** The only member there is has gone over. */
  lemma OnlyMember(f: nat -> nat, co: nat, d: set<nat>, c: nat)
    requires d <= Members(f, co) && d != {} && |Members(f, co)| == 1 && c < NCHRS && f(c) == co
    ensures c in d
  {
    var others := Members(f, co) - {c};
    assert c in Members(f, co) && |others| == 0;
    forall e | e in d ensures e == c { assert e !in others; }
  }

  /** An arc of the subcolour. */
  lemma ShiftMeansSub(cd: seq<Desc>, cd1: seq<Desc>, cd2: seq<Desc>, max: nat, f: nat -> nat, f2: nat -> nat, co: nat, sco: nat, d: set<nat>, lp: nat, rp: nat,
                      typ: ArcType, from: nat, to: nat, c: nat)
    requires ColoursOk(cd, max, f) && Bracket(cd, lp, rp) && Real(cd, co) && Subbed(cd, cd1, co, sco) && c < NCHRS
    requires d <= Members(f, co) && d != {} && Recoloured(f, f2, d, sco) && (c in d ==> f(c) == co)
    requires Used(cd1, sco) && co < |cd1| && cd2 == Arced(Shifted(cd1, co, sco, |d|), sco, lp, rp)
    requires MeansBy(cd2, f2, typ, from, to, c, sco)
    ensures Means(cd, f, typ, from, to, c) || (typ == PLAIN && from == lp && to == rp && c in d)
  {
    var a := Arc(typ, sco, from, to);
    if cd1 == cd && cd[co].sub == sco {
      assert Open(cd, sco) && cd[sco].arcs == [Arc(PLAIN, sco, lp, rp)];
      if c !in d { assert MeansBy(cd, f, typ, from, to, c, sco); }
    } else if cd1 == cd && sco == co {
      if c !in d {
        if f(c) == co { OnlyMember(f, co, d, c); }
      } else if a in cd[co].arcs {
        assert MeansBy(cd, f, typ, from, to, c, co);
      }
    } else {
      assert cd1[sco].arcs == [] && a == Arc(PLAIN, sco, lp, rp) && Real(cd, f(c));
    }
  }

  /** An arc of another colour. */
  lemma ShiftMeansOther(cd: seq<Desc>, cd1: seq<Desc>, cd2: seq<Desc>, max: nat, f: nat -> nat, f2: nat -> nat, co: nat, sco: nat, d: set<nat>, lp: nat, rp: nat,
                        typ: ArcType, from: nat, to: nat, c: nat, x: nat)
    requires ColoursOk(cd, max, f) && Real(cd, co) && Subbed(cd, cd1, co, sco) && c < NCHRS && x != sco
    requires Recoloured(f, f2, d, sco) && (c in d ==> f(c) == co)
    requires Used(cd1, sco) && co < |cd1| && cd2 == Arced(Shifted(cd1, co, sco, |d|), sco, lp, rp)
    requires MeansBy(cd2, f2, typ, from, to, c, x)
    ensures MeansBy(cd, f, typ, from, to, c, x)
  {
    assert x < |cd| && cd2[x].arcs == cd1[x].arcs == cd[x].arcs;
    assert Used(cd, x);
    assert Real(cd, f(c));
    if c in d && cd[x].sub == sco && x != co { assert Open(cd, sco); }
  }

  lemma ShiftMeansLess(cd: seq<Desc>, cd1: seq<Desc>, cd2: seq<Desc>, max: nat, f: nat -> nat, f2: nat -> nat, co: nat, sco: nat, d: set<nat>, lp: nat, rp: nat,
                       typ: ArcType, from: nat, to: nat, c: nat, x: nat)
    requires ColoursOk(cd, max, f) && Bracket(cd, lp, rp) && Real(cd, co) && Subbed(cd, cd1, co, sco) && c < NCHRS
    requires d <= Members(f, co) && d != {} && Recoloured(f, f2, d, sco)
    requires Used(cd1, sco) && co < |cd1| && cd2 == Arced(Shifted(cd1, co, sco, |d|), sco, lp, rp)
    requires MeansBy(cd2, f2, typ, from, to, c, x)
    ensures Means(cd, f, typ, from, to, c) || (typ == PLAIN && from == lp && to == rp && c in d)
  {
    if c in d { MemberOf(f, co, d, c); }
    hide ColoursOk, Subbed, Bracket, MeansBy, Arced, Shifted;
    if x == sco {
      ShiftMeansSub(cd, cd1, cd2, max, f, f2, co, sco, d, lp, rp, typ, from, to, c);
    } else {
      ShiftMeansOther(cd, cd1, cd2, max, f, f2, co, sco, d, lp, rp, typ, from, to, c, x);
    }
  }

  /** Everything still holds, and the subcolour is open and busy or was not needed. */
  lemma ShiftOk(cd: seq<Desc>, cd1: seq<Desc>, max: nat, max1: nat, f: nat -> nat, f2: nat -> nat, co: nat, sco: nat, d: set<nat>)
    requires ColoursOk(cd, max, f) && Busy(cd) && Real(cd, co) && Subbed(cd, cd1, co, sco) && ColoursOk(cd1, max1, f)
    requires d <= Members(f, co) && d != {} && Recoloured(f, f2, d, sco) && Used(cd1, sco) && co < |cd1|
    ensures ColoursOk(Shifted(cd1, co, sco, |d|), max1, f2) && Busy(Shifted(cd1, co, sco, |d|))
  {
    var cd2 := Shifted(cd1, co, sco, |d|);
    SubbedReal(cd, cd1, co, sco, max, f);
    ShiftCounts(cd1, f, f2, co, sco, d);
    ShiftedSame(cd1, co, sco, |d|);
    assert |d| > 0;
    hide Counted, Members, Shifted;
    SubsSame(cd1, cd2);
    ShiftBusy(cd, cd1, co, sco, |d|);
    ShiftRanges(cd1, cd2, max1);
  }

  lemma ShiftRanges(cd1: seq<Desc>, cd2: seq<Desc>, max1: nat)
    requires Ranges(cd1, max1) && ChainsOk(cd1) && |cd2| == |cd1| && forall x :: 0 <= x < |cd2| ==> cd2[x].(nchrs := 0) == cd1[x].(nchrs := 0)
    ensures Ranges(cd2, max1) && ChainsOk(cd2)
  {
    forall x | 0 <= x < |cd2| ensures cd2[x].arcs == cd1[x].arcs && cd2[x].block == cd1[x].block && cd2[x].isFree == cd1[x].isFree && cd2[x].pseudo == cd1[x].pseudo {
      assert cd2[x].(nchrs := 0) == cd1[x].(nchrs := 0);
    }
  }

  lemma ShiftBusy(cd: seq<Desc>, cd1: seq<Desc>, co: nat, sco: nat, n: nat)
    requires Busy(cd) && Subbed(cd, cd1, co, sco) && Real(cd1, co) && Real(cd1, sco) && (sco != co ==> cd1[co].sub == sco) && n > 0
    requires cd1 != cd ==> cd1[sco].nchrs == 0
    ensures Busy(Shifted(cd1, co, sco, n))
  {
    var cd2 := Shifted(cd1, co, sco, n);
    ShiftedSame(cd1, co, sco, n);
    forall x | Open(cd2, x) ensures cd2[x].nchrs > 0 {
      assert Open(cd1, x);
      if x != sco { assert Open(cd, x); } else if cd1 == cd && co != sco { assert Open(cd, x); }
    }
  }

  lemma ArcAddedOk(cd: seq<Desc>, max: nat, f: nat -> nat, a: Arc)
    requires ColoursOk(cd, max, f) && Used(cd, a.co)
    ensures ColoursOk(ArcAdded(cd, a), max, f) && (Busy(cd) ==> Busy(ArcAdded(cd, a)))
  {
    var cd2 := ArcAdded(cd, a);
    forall x: int ensures (Used(cd2, x) <==> Used(cd, x)) && (Real(cd2, x) <==> Real(cd, x)) && (Open(cd2, x) <==> Open(cd, x)) {}
    SubsSame(cd, cd2);
    hide Members, SubsOk;
  }

  lemma BracketKept(cd: seq<Desc>, cd1: seq<Desc>, max: nat, f: nat -> nat, co: nat, sco: nat, n: int, lp: nat, rp: nat)
    requires ColoursOk(cd, max, f) && Bracket(cd, lp, rp) && Real(cd, co) && Subbed(cd, cd1, co, sco) && Used(cd1, sco) && co < |cd1|
    ensures Bracket(Arced(Shifted(cd1, co, sco, n), sco, lp, rp), lp, rp)
  {
    var cd2 := Arced(Shifted(cd1, co, sco, n), sco, lp, rp);
    ShiftedSame(cd1, co, sco, n);
    forall x | Open(cd2, x) ensures cd2[x].arcs == [Arc(PLAIN, x, lp, rp)] {
      assert Open(cd1, x);
      if x != sco { assert Open(cd, x); }
    }
  }

  lemma ShiftedSame(cd1: seq<Desc>, co: nat, sco: nat, n: int)
    requires co < |cd1| && sco < |cd1|
    ensures var cd2 := Shifted(cd1, co, sco, n); |cd2| == |cd1| && forall x :: 0 <= x < |cd2| ==>
      cd2[x].(nchrs := 0) == cd1[x].(nchrs := 0) && cd2[x].sub == cd1[x].sub && cd2[x].isFree == cd1[x].isFree && cd2[x].pseudo == cd1[x].pseudo
    ensures Shifted(cd1, co, sco, n)[sco].nchrs == if co == sco then cd1[sco].nchrs else cd1[sco].nchrs + n
    ensures forall x :: 0 <= x < |cd1| && x != co && x != sco ==> Shifted(cd1, co, sco, n)[x] == cd1[x]
  {
  }

  lemma SubsSame(cd: seq<Desc>, cd2: seq<Desc>)
    requires SubsOk(cd) && |cd2| == |cd|
    requires forall x :: 0 <= x < |cd2| ==> cd2[x].sub == cd[x].sub && cd2[x].isFree == cd[x].isFree && cd2[x].pseudo == cd[x].pseudo
    ensures SubsOk(cd2)
  {
    forall x: int ensures (Used(cd2, x) <==> Used(cd, x)) && (Real(cd2, x) <==> Real(cd, x)) && (Open(cd2, x) <==> Open(cd, x)) {}
    forall co | Open(cd2, co) ensures co != WHITE && exists p :: Parent(cd2, p, co) {
      var p :| Parent(cd, p, co);
      assert Parent(cd2, p, co);
    }
  }

  // ---------------------------------------------------------------- promotion

  /** The subcolour has got an arc for every one of its parent's, which has lost its subcolour, and has gone out of
      use if it was empty. */
  ghost predicate Promoted(cd: seq<Desc>, cd2: seq<Desc>, co: nat, sco: nat) {
    && |cd2| == |cd| && co < |cd| && sco < |cd| && co != sco
    && cd2[sco].sub == NOSUB && SameKind(cd[sco], cd2[sco]) && cd2[co].sub == NOSUB
    && (forall a :: a in cd2[sco].arcs <==> a in cd[sco].arcs || (a.co == sco && a.(co := co) in cd[co].arcs))
    && (forall x :: 0 <= x < |cd| && x != co && x != sco ==> cd2[x] == cd[x])
    && (if cd[co].nchrs == 0 then cd2[co].arcs == [] && SameKind(cd[co], cd2[co]) else cd2[co] == cd[co].(sub := NOSUB))
  }

  predicate SameKind(a: Desc, b: Desc) { a.nchrs == b.nchrs && a.isFree == b.isFree && a.pseudo == b.pseudo && a.block == b.block }

  lemma PromotedMeans(cd: seq<Desc>, cd2: seq<Desc>, co: nat, sco: nat, max: nat, f: nat -> nat, typ: ArcType, from: nat, to: nat, c: nat)
    requires ColoursOk(cd, max, f) && Parent(cd, co, sco) && Promoted(cd, cd2, co, sco) && c < NCHRS
    ensures Means(cd2, f, typ, from, to, c) <==> Means(cd, f, typ, from, to, c)
  {
    assert Open(cd, sco) && Real(cd, co);
    if Means(cd, f, typ, from, to, c) {
      var x: nat :| MeansBy(cd, f, typ, from, to, c, x);
      if x == co {
        if f(c) == co {
          NotEmpty(cd, f, co, c);
          assert MeansBy(cd2, f, typ, from, to, c, co);
        } else {
          assert Arc(typ, sco, from, to).(co := co) == Arc(typ, co, from, to);
          assert MeansBy(cd2, f, typ, from, to, c, sco);
        }
      } else {
        assert MeansBy(cd2, f, typ, from, to, c, x);
      }
    }
    if Means(cd2, f, typ, from, to, c) {
      var x: nat :| MeansBy(cd2, f, typ, from, to, c, x);
      if x == sco && Arc(typ, sco, from, to) !in cd[sco].arcs {
        assert Arc(typ, sco, from, to).(co := co) == Arc(typ, co, from, to);
        assert MeansBy(cd, f, typ, from, to, c, co);
      } else {
        assert MeansBy(cd, f, typ, from, to, c, x);
      }
    }
  }

  /** nchrs at work: a colour without characters colours none. */
  lemma NotEmpty(cd: seq<Desc>, f: nat -> nat, co: nat, c: nat)
    requires Counted(cd, f) && Real(cd, co) && c < NCHRS && f(c) == co
    ensures cd[co].nchrs > 0
  {
    assert c in Members(f, co);
  }

  lemma PromotedOk(cd: seq<Desc>, cd2: seq<Desc>, co: nat, sco: nat, max: nat, f: nat -> nat)
    requires ColoursOk(cd, max, f) && Busy(cd) && Parent(cd, co, sco) && Promoted(cd, cd2, co, sco)
    ensures ColoursOk(cd2, max, f) && Busy(cd2) && Gained(cd, f, cd2, f, 0, 0, {})
  {
    forall x: int ensures (Used(cd2, x) <==> Used(cd, x)) && (Real(cd2, x) <==> Real(cd, x)) && (Open(cd2, x) <==> Open(cd, x) && x != sco) {}
    forall typ, from, to, c | 0 <= c < NCHRS ensures Means(cd2, f, typ, from, to, c) <==> Means(cd, f, typ, from, to, c) {
      PromotedMeans(cd, cd2, co, sco, max, f, typ, from, to, c);
    }
    hide Means, Gained;
    assert Counted(cd2, f) by { hide Members; }
    PromotedSubs(cd, cd2, co, sco, max, f);
    hide SubsOk, Counted;
    assert Busy(cd2) by { forall x | Open(cd2, x) ensures cd2[x].nchrs > 0 { assert Open(cd, x); } }
    assert ChainsOk(cd2);
  }

  lemma PromotedSubs(cd: seq<Desc>, cd2: seq<Desc>, co: nat, sco: nat, max: nat, f: nat -> nat)
    requires ColoursOk(cd, max, f) && Parent(cd, co, sco) && Promoted(cd, cd2, co, sco)
    ensures SubsOk(cd2)
  {
    hide Counted, ChainsOk;
    forall x: int ensures (Used(cd2, x) <==> Used(cd, x)) && (Real(cd2, x) <==> Real(cd, x)) && (Open(cd2, x) <==> Open(cd, x) && x != sco) {}
    forall x | Used(cd2, x) && cd2[x].sub != NOSUB ensures Real(cd2, x) && Real(cd2, cd2[x].sub) && Open(cd2, cd2[x].sub) {
      assert Open(cd, cd[x].sub) && cd[co].sub != co;
    }
    forall x | Open(cd2, x) ensures x != WHITE && exists p :: Parent(cd2, p, x) {
      assert Open(cd, x);
      var p :| Parent(cd, p, x);
      assert Parent(cd2, p, x);
    }
  }

  /** A colour that is empty and has neither arcs nor subcolour goes out of use. */
  ghost predicate Freed(cd: seq<Desc>, cd2: seq<Desc>, co: nat) {
    && |cd2| == |cd| && co < |cd| && cd2[co].isFree && cd2[co].arcs == [] && cd2[co].block.None?
    && (forall x :: 0 <= x < |cd| && x != co ==> cd2[x].(sub := 0) == cd[x].(sub := 0))
    && (forall x :: Used(cd, x) && x != co ==> cd2[x] == cd[x])
  }

  lemma FreedOk(cd: seq<Desc>, cd2: seq<Desc>, co: nat, max: nat, max2: nat, f: nat -> nat)
    requires ColoursOk(cd, max, f) && Busy(cd) && Real(cd, co) && co != WHITE && cd[co].nchrs == 0 && cd[co].sub == NOSUB && cd[co].arcs == []
    requires Freed(cd, cd2, co) && Ranges(cd2, max2)
    ensures ColoursOk(cd2, max2, f) && Busy(cd2) && Gained(cd, f, cd2, f, 0, 0, {})
  {
    forall x: int ensures (Used(cd2, x) <==> Used(cd, x) && x != co) && (Real(cd2, x) <==> Real(cd, x) && x != co) && (Open(cd2, x) <==> Open(cd, x)) {}
    forall x | 0 <= x < |cd| ensures cd2[x].arcs == cd[x].arcs { assert x != co ==> cd2[x].(sub := 0) == cd[x].(sub := 0); }
    forall c | 0 <= c < NCHRS ensures f(c) != co {
      if f(c) == co { NotEmpty(cd, f, co, c); }
    }
    forall typ, from, to, c | 0 <= c < NCHRS ensures Means(cd2, f, typ, from, to, c) <==> Means(cd, f, typ, from, to, c) {
      FreedMeans(cd, cd2, co, f, max, typ, from, to, c);
    }
    hide Means, Gained;
    assert Counted(cd2, f) by { hide Members; }
    FreedSubs(cd, cd2, co, max, f);
    hide SubsOk, Counted;
    assert Busy(cd2) by { forall x | Open(cd2, x) ensures cd2[x].nchrs > 0 { assert Open(cd, x); } }
    assert ChainsOk(cd2);
  }

  lemma FreedMeans(cd: seq<Desc>, cd2: seq<Desc>, co: nat, f: nat -> nat, max: nat, typ: ArcType, from: nat, to: nat, c: nat)
    requires Ranges(cd, max) && Freed(cd, cd2, co) && cd[co].arcs == [] && forall x :: 0 <= x < |cd| ==> cd2[x].arcs == cd[x].arcs
    ensures Means(cd2, f, typ, from, to, c) <==> Means(cd, f, typ, from, to, c)
  {
    if Means(cd, f, typ, from, to, c) {
      var x: nat :| MeansBy(cd, f, typ, from, to, c, x);
      assert Used(cd, x) && MeansBy(cd2, f, typ, from, to, c, x);
    }
    if Means(cd2, f, typ, from, to, c) {
      var x: nat :| MeansBy(cd2, f, typ, from, to, c, x);
      assert Used(cd, x) && MeansBy(cd, f, typ, from, to, c, x);
    }
  }

  lemma FreedSubs(cd: seq<Desc>, cd2: seq<Desc>, co: nat, max: nat, f: nat -> nat)
    requires ColoursOk(cd, max, f) && Real(cd, co) && cd[co].sub == NOSUB && Freed(cd, cd2, co)
    ensures SubsOk(cd2)
  {
    hide Counted, ChainsOk;
    forall x: int ensures (Used(cd2, x) <==> Used(cd, x) && x != co) && (Real(cd2, x) <==> Real(cd, x) && x != co) && (Open(cd2, x) <==> Open(cd, x)) {}
    forall x | Used(cd2, x) && cd2[x].sub != NOSUB ensures Real(cd2, x) && Real(cd2, cd2[x].sub) && Open(cd2, cd2[x].sub) {
      assert Open(cd, cd[x].sub);
    }
    forall x | Open(cd2, x) ensures x != WHITE && exists p :: Parent(cd2, p, x) {
      var p :| Parent(cd, p, x);
      assert Parent(cd2, p, x);
    }
  }

  // ---------------------------------------------------------------- what the executor sees

  /** All the coloured arcs. */
  ghost predicate Coloured(cd: seq<Desc>, a: Arc) {
    a.co < |cd| && a in cd[a.co].arcs
  }

  /** Once no colour has an open subcolour, the arcs that let a character pass are those of its own colour. */
  lemma MeansColour(cd: seq<Desc>, max: nat, f: nat -> nat, typ: ArcType, from: nat, to: nat, c: nat)
    requires ColoursOk(cd, max, f) && (forall x :: Used(cd, x) ==> cd[x].sub == NOSUB) && c < NCHRS
    ensures Means(cd, f, typ, from, to, c) <==> Coloured(cd, Arc(typ, f(c), from, to))
  {
    if co: nat :| MeansBy(cd, f, typ, from, to, c, co) {
      assert cd[co].arcs != [];
      assert Used(cd, co) && f(c) == co;
    }
    if Coloured(cd, Arc(typ, f(c), from, to)) {
      assert MeansBy(cd, f, typ, from, to, c, f(c));
    }
  }

  /** So a text whose symbols are the colours of its characters is run through the coloured PLAIN arcs exactly as
      the arcs let the characters pass. */
  lemma TakenAsMeant(cd: seq<Desc>, max: nat, f: nat -> nat, v: R.Env, from: nat, to: nat, c: nat, k: nat)
    requires ColoursOk(cd, max, f) && (forall x :: Used(cd, x) ==> cd[x].sub == NOSUB) && c < NCHRS && v.sym(k) == f(c)
    ensures Means(cd, f, PLAIN, from, to, c) <==>
      exists a :: Coloured(cd, a) && a.typ == PLAIN && a.from == from && a.to == to && R.Takes(v, a, k, k + 1)
  {
    MeansColour(cd, max, f, PLAIN, from, to, c);
    hide ColoursOk, Means;
    var own := Arc(PLAIN, f(c), from, to);
    assert R.Takes(v, own, k, k + 1);
    forall a | Coloured(cd, a) && a.typ == PLAIN && a.from == from && a.to == to && R.Takes(v, a, k, k + 1) ensures a == own {}
  }
}
