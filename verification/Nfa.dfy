/** The NFA of the regex compiler (regguts.h:224-274, regc_nfa.c:41-1197): states in a chain, and
    every arc on the out-chain of its source and the in-chain of its target. */
module Nfa {

  datatype ArcType = EMPTY | PLAIN | CARET | DOLLAR | AHEAD | BEHIND | LACON

  datatype Arc = Arc(typ: ArcType, co: nat, from: nat, to: nat)

  /** The character codes of regcomp.c:247-259, which sortins_cmp and sortouts_cmp order by. */
  function Code(t: ArcType): nat {
    match t
    case EMPTY => 110
    case PLAIN => 112
    case CARET => 94
    case DOLLAR => 36
    case AHEAD => 97
    case BEHIND => 114
    case LACON => 76
  }

  // ---------------------------------------------------------------- sets of arcs

  ghost function InSet(arcs: set<Arc>, s: nat): set<Arc> { set a | a in arcs && a.to == s }

  ghost function OutSet(arcs: set<Arc>, s: nat): set<Arc> { set a | a in arcs && a.from == s }

  /** The arc with its target (source) replaced by s. */
  function Rehung(a: Arc, inward: bool, s: nat): Arc {
    if inward then a.(to := s) else a.(from := s)
  }

  ghost function AllRehung(es: set<Arc>, inward: bool, s: nat): set<Arc> {
    set a | a in es :: Rehung(a, inward, s)
  }

  ghost function SideSet(arcs: set<Arc>, s: nat, inward: bool): set<Arc> {
    if inward then InSet(arcs, s) else OutSet(arcs, s)
  }

  /** All in-arcs (out-arcs) of o become arcs of n; a duplicate of an existing arc vanishes. */
  ghost function Moved(arcs: set<Arc>, inward: bool, o: nat, n: nat): set<Arc> {
    arcs - SideSet(arcs, o, inward) + AllRehung(SideSet(arcs, o, inward), inward, n)
  }

  /** All in-arcs (out-arcs) of o are also given to n. */
  ghost function Copied(arcs: set<Arc>, inward: bool, o: nat, n: nat): set<Arc> {
    arcs + AllRehung(SideSet(arcs, o, inward), inward, n)
  }

  lemma RehungGrows(es: set<Arc>, inward: bool, s: nat, a: Arc)
    ensures AllRehung(es + {a}, inward, s) == AllRehung(es, inward, s) + {Rehung(a, inward, s)}
  {
  }

  // ---------------------------------------------------------------- chains of arcs

  ghost predicate NoDup(ch: seq<Arc>) {
    forall i, j :: 0 <= i < j < |ch| ==> ch[i] != ch[j]
  }

  /** The chain lists the arcs of the set, each once. */
  ghost predicate Lists(ch: seq<Arc>, es: set<Arc>) {
    NoDup(ch) && forall a :: a in ch <==> a in es
  }

  function Without(ch: seq<Arc>, a: Arc): seq<Arc> {
    if ch == [] then [] else if ch[0] == a then ch[1..] else [ch[0]] + Without(ch[1..], a)
  }

  lemma WithoutLists(ch: seq<Arc>, es: set<Arc>, a: Arc)
    requires Lists(ch, es) && a in es
    ensures Lists(Without(ch, a), es - {a}) && |Without(ch, a)| == |ch| - 1
  {
    if ch[0] == a {
    } else {
      forall b ensures b in ch[1..] <==> b in es - {ch[0]} {}
      WithoutLists(ch[1..], es - {ch[0]}, a);
      var r := Without(ch[1..], a);
      assert forall j :: 0 <= j < |r| ==> r[j] in es - {ch[0]} - {a};
      forall b ensures b in [ch[0]] + r <==> b in es - {a} {}
    }
  }

  lemma PrependLists(ch: seq<Arc>, es: set<Arc>, a: Arc)
    requires Lists(ch, es) && a !in es
    ensures Lists([a] + ch, es + {a})
  {
  }

  lemma ReplaceLists(ch: seq<Arc>, es: set<Arc>, i: nat, b: Arc)
    requires Lists(ch, es) && i < |ch| && b !in es
    ensures Lists(ch[i := b], es - {ch[i]} + {b})
  {
    forall a ensures a in ch[i := b] <==> a in es - {ch[i]} + {b} {
      if a in ch && a != ch[i] {
        var j :| 0 <= j < |ch| && ch[j] == a;
        assert ch[i := b][j] == a;
      }
      assert ch[i := b][i] == b;
    }
  }

  lemma SameSetSameLength(a: seq<Arc>, b: seq<Arc>, es: set<Arc>)
    requires Lists(a, es) && Lists(b, es)
    ensures |a| == |b|
    decreases a
  {
    if a == [] {
      assert forall i :: 0 <= i < |b| ==> b[i] in es;
    } else {
      assert a[0] in b;
      forall x ensures x in a[1..] <==> x in es - {a[0]} {}
      WithoutLists(b, es, a[0]);
      SameSetSameLength(a[1..], Without(b, a[0]), es - {a[0]});
    }
  }

  // ---------------------------------------------------------------- all the chains of one direction

  function End(a: Arc, inward: bool): nat { if inward then a.to else a.from }

  /** Every chain of the map lists the arcs that enter (leave) its state. */
  ghost predicate Agree(m: map<nat, seq<Arc>>, arcs: set<Arc>, inward: bool) {
    forall s :: s in m ==> Lists(m[s], SideSet(arcs, s, inward))
  }

  lemma AddAgrees(m: map<nat, seq<Arc>>, arcs: set<Arc>, inward: bool, a: Arc)
    requires Agree(m, arcs, inward) && a !in arcs && End(a, inward) in m
    ensures Agree(m[End(a, inward) := [a] + m[End(a, inward)]], arcs + {a}, inward)
  {
    var k := End(a, inward);
    var m2 := m[k := [a] + m[k]];
    forall s | s in m2 ensures Lists(m2[s], SideSet(arcs + {a}, s, inward)) {
      if s == k {
        PrependLists(m[s], SideSet(arcs, s, inward), a);
        assert SideSet(arcs + {a}, s, inward) == SideSet(arcs, s, inward) + {a};
      } else {
        assert SideSet(arcs + {a}, s, inward) == SideSet(arcs, s, inward);
      }
    }
  }

  lemma RemoveAgrees(m: map<nat, seq<Arc>>, arcs: set<Arc>, inward: bool, a: Arc)
    requires Agree(m, arcs, inward) && a in arcs && End(a, inward) in m
    ensures Agree(m[End(a, inward) := Without(m[End(a, inward)], a)], arcs - {a}, inward)
  {
    var k := End(a, inward);
    var m2 := m[k := Without(m[k], a)];
    forall s | s in m2 ensures Lists(m2[s], SideSet(arcs - {a}, s, inward)) {
      if s == k {
        WithoutLists(m[s], SideSet(arcs, s, inward), a);
        assert SideSet(arcs - {a}, s, inward) == SideSet(arcs, s, inward) - {a};
      } else {
        assert SideSet(arcs - {a}, s, inward) == SideSet(arcs, s, inward);
      }
    }
  }

  lemma ReplaceAgrees(m: map<nat, seq<Arc>>, arcs: set<Arc>, inward: bool, a: Arc, b: Arc, i: nat)
    requires Agree(m, arcs, inward) && a in arcs && b !in arcs && End(a, inward) == End(b, inward)
    requires End(a, inward) in m && i < |m[End(a, inward)]| && m[End(a, inward)][i] == a
    ensures Agree(m[End(a, inward) := m[End(a, inward)][i := b]], arcs - {a} + {b}, inward)
  {
    var k := End(a, inward);
    var m2 := m[k := m[k][i := b]];
    forall s | s in m2 ensures Lists(m2[s], SideSet(arcs - {a} + {b}, s, inward)) {
      if s == k {
        ReplaceLists(m[s], SideSet(arcs, s, inward), i, b);
        assert SideSet(arcs - {a} + {b}, s, inward) == SideSet(arcs, s, inward) - {a} + {b};
      } else {
        assert SideSet(arcs - {a} + {b}, s, inward) == SideSet(arcs, s, inward);
      }
    }
  }

  lemma ChainHead(m: map<nat, seq<Arc>>, arcs: set<Arc>, inward: bool, s: nat)
    requires Agree(m, arcs, inward) && s in m && m[s] != []
    ensures m[s][0] in arcs && End(m[s][0], inward) == s
  {
    assert m[s][0] in m[s];
  }

  lemma ChainEmpty(m: map<nat, seq<Arc>>, arcs: set<Arc>, inward: bool, s: nat)
    requires Agree(m, arcs, inward) && s in m && m[s] == []
    ensures forall a :: a in arcs ==> End(a, inward) != s
  {
    var e := SideSet(arcs, s, inward);
    assert forall a :: a in e <==> a in m[s];
    assert e == {};
    forall a | a in arcs ensures End(a, inward) != s { assert End(a, inward) == s <==> a in e; }
  }

  /** An arc is on a chain exactly when it exists. */
  lemma ChainMember(m: map<nat, seq<Arc>>, arcs: set<Arc>, inward: bool, a: Arc)
    requires Agree(m, arcs, inward) && End(a, inward) in m
    ensures a in m[End(a, inward)] <==> a in arcs
  {
    assert a in SideSet(arcs, End(a, inward), inward) <==> a in arcs;
  }

  /** The state chain lists the existing states, each once, with numbers below nstates. */
  ghost predicate StatesAgree(states: seq<nat>, nstates: nat, keys: set<nat>) {
    && (forall i, j :: 0 <= i < j < |states| ==> states[i] != states[j])
    && (forall s :: s in states ==> s < nstates)
    && (forall s :: s in keys <==> s in states)
  }

  /** Arcs join existing states only. */
  ghost predicate Within(arcs: set<Arc>, keys: set<nat>) {
    forall a :: a in arcs ==> a.from in keys && a.to in keys
  }

  // ---------------------------------------------------------------- sorting

  datatype Key = Key(no: nat, co: nat, ty: nat)

  function KeyOf(a: Arc, byFrom: bool): Key {
    Key(if byFrom then a.from else a.to, a.co, Code(a.typ))
  }

  /** sortins_cmp and sortouts_cmp, regc_nfa.c:631-659, 707-735: -1, 0 or +1. */
  function Compare(a: Arc, b: Arc, byFrom: bool): int {
    var x, y := KeyOf(a, byFrom), KeyOf(b, byFrom);
    if x.no < y.no then -1 else if x.no > y.no then 1
    else if x.co < y.co then -1 else if x.co > y.co then 1
    else if x.ty < y.ty then -1 else if x.ty > y.ty then 1
    else 0
  }

  lemma CompareOrder(a: Arc, b: Arc, c: Arc, byFrom: bool)
    ensures Compare(a, b, byFrom) == -Compare(b, a, byFrom)
    ensures Compare(a, b, byFrom) <= 0 && Compare(b, c, byFrom) <= 0 ==> Compare(a, c, byFrom) <= 0
    ensures Compare(a, b, byFrom) < 0 && Compare(b, c, byFrom) <= 0 ==> Compare(a, c, byFrom) < 0
    ensures Compare(a, b, byFrom) <= 0 && Compare(b, c, byFrom) < 0 ==> Compare(a, c, byFrom) < 0
    ensures Compare(a, b, byFrom) == 0 <==> a.typ == b.typ && a.co == b.co && (if byFrom then a.from == b.from else a.to == b.to)
  {
  }

  ghost predicate Sorted(ch: seq<Arc>, byFrom: bool) {
    forall i, j :: 0 <= i < j < |ch| ==> Compare(ch[i], ch[j], byFrom) <= 0
  }

  function Insert(ch: seq<Arc>, a: Arc, byFrom: bool): seq<Arc> {
    if ch == [] then [a]
    else if Compare(a, ch[0], byFrom) <= 0 then [a] + ch
    else [ch[0]] + Insert(ch[1..], a, byFrom)
  }

  /** The outcome of qsort() with either comparison function. */
  function Sort(ch: seq<Arc>, byFrom: bool): seq<Arc> {
    if ch == [] then [] else Insert(Sort(ch[1..], byFrom), ch[0], byFrom)
  }

  lemma {:induction false} InsertKeeps(ch: seq<Arc>, a: Arc, byFrom: bool)
    ensures multiset(Insert(ch, a, byFrom)) == multiset(ch) + multiset{a}
  {
    if ch == [] || Compare(a, ch[0], byFrom) <= 0 {
    } else {
      InsertKeeps(ch[1..], a, byFrom);
      assert ch == [ch[0]] + ch[1..];
    }
  }

  lemma InsertMember(ch: seq<Arc>, a: Arc, byFrom: bool, x: Arc)
    requires x in Insert(ch, a, byFrom)
    ensures x == a || x in ch
  {
    InsertKeeps(ch, a, byFrom);
    assert x in multiset(Insert(ch, a, byFrom));
  }

  lemma {:induction false} InsertSorts(ch: seq<Arc>, a: Arc, byFrom: bool)
    requires Sorted(ch, byFrom)
    ensures Sorted(Insert(ch, a, byFrom), byFrom)
  {
    hide Compare;
    if ch == [] {
    } else if Compare(a, ch[0], byFrom) <= 0 {
      forall j | 0 <= j < |ch| ensures Compare(a, ch[j], byFrom) <= 0 {
        if j > 0 { CompareOrder(a, ch[0], ch[j], byFrom); }
      }
    } else {
      InsertSorts(ch[1..], a, byFrom);
      var r := Insert(ch[1..], a, byFrom);
      CompareOrder(a, ch[0], ch[0], byFrom);
      forall j | 0 <= j < |r| ensures Compare(ch[0], r[j], byFrom) <= 0 {
        InsertMember(ch[1..], a, byFrom, r[j]);
      }
      hide Insert;
    }
  }

  lemma {:induction false} SortSorts(ch: seq<Arc>, byFrom: bool)
    ensures Sorted(Sort(ch, byFrom), byFrom) && multiset(Sort(ch, byFrom)) == multiset(ch)
  {
    if ch != [] {
      assert ch == [ch[0]] + ch[1..];
      SortSorts(ch[1..], byFrom);
      InsertSorts(Sort(ch[1..], byFrom), ch[0], byFrom);
      InsertKeeps(Sort(ch[1..], byFrom), ch[0], byFrom);
    }
  }

  lemma MultisetLists(ch: seq<Arc>, ch2: seq<Arc>, es: set<Arc>)
    requires Lists(ch, es) && multiset(ch) == multiset(ch2)
    ensures Lists(ch2, es)
  {
    forall a ensures a in ch2 <==> a in es { assert a in multiset(ch) <==> a in multiset(ch2); }
    forall i, j | 0 <= i < j < |ch2| ensures ch2[i] != ch2[j] {
      if ch2[i] == ch2[j] {
        assert ch2 == ch2[..i] + [ch2[i]] + ch2[i + 1..j] + [ch2[j]] + ch2[j + 1..];
        assert multiset(ch2)[ch2[i]] >= 2;
        NoDupCount(ch, ch2[i]);
      }
    }
  }

  lemma NoDupCount(ch: seq<Arc>, a: Arc)
    requires NoDup(ch)
    ensures multiset(ch)[a] <= 1
  {
    if ch != [] {
      assert ch == [ch[0]] + ch[1..];
      NoDupCount(ch[1..], a);
      if ch[0] == a { assert a !in ch[1..]; }
    }
  }

  /** Sorting a chain rearranges it; within one state's chain the order is strict. */
  lemma SortLists(ch: seq<Arc>, es: set<Arc>, byFrom: bool)
    requires Lists(ch, es)
    ensures Lists(Sort(ch, byFrom), es) && Sorted(Sort(ch, byFrom), byFrom)
  {
    SortSorts(ch, byFrom);
    MultisetLists(ch, Sort(ch, byFrom), es);
  }

  // ---------------------------------------------------------------- merging sorted chains

  ghost predicate StrictlySorted(ch: seq<Arc>, byFrom: bool) {
    forall i, j :: 0 <= i < j < |ch| ==> Compare(ch[i], ch[j], byFrom) < 0
  }

  /** The chain of one state, once sorted, is strictly sorted: it holds no duplicate. */
  lemma ChainStrict(ch: seq<Arc>, arcs: set<Arc>, o: nat, inward: bool)
    requires Lists(ch, SideSet(arcs, o, inward)) && Sorted(ch, inward)
    ensures StrictlySorted(ch, inward)
  {
    hide Compare;
    forall i, j | 0 <= i < j < |ch| ensures Compare(ch[i], ch[j], inward) < 0 {
      assert ch[i] in SideSet(arcs, o, inward) && ch[j] in SideSet(arcs, o, inward);
      CompareOrder(ch[i], ch[j], ch[j], inward);
    }
  }

  /** oas, strictly sorted, is to be merged into nas, the sorted chain of n. */
  ghost predicate Merging(arcs: set<Arc>, n: nat, inward: bool, oas: seq<Arc>, nas: seq<Arc>) {
    StrictlySorted(oas, inward) && Lists(nas, SideSet(arcs, n, inward)) && Sorted(nas, inward)
  }

  /** oas lists the arcs of o, a state other than n. */
  ghost predicate Source(arcs: set<Arc>, o: nat, n: nat, inward: bool, oas: seq<Arc>) {
    o != n && Lists(oas, SideSet(arcs, o, inward))
  }

  /** Every entry of nas before j sorts before every entry of oas from i on. */
  ghost predicate Behind(oas: seq<Arc>, i: nat, nas: seq<Arc>, j: nat, inward: bool) {
    forall x, y :: i <= x < |oas| && 0 <= y < j && y < |nas| ==> Compare(nas[y], oas[x], inward) < 0
  }

  lemma BehindStart(oas: seq<Arc>, nas: seq<Arc>, inward: bool)
    ensures Behind(oas, 0, nas, 0, inward)
  {
  }

  /** Advancing past nas[j] when it does not sort after oas[i]; past oas[i] too when they are equal. */
  lemma AdvanceNew(arcs: set<Arc>, n: nat, inward: bool, oas: seq<Arc>, i: nat, nas: seq<Arc>, j: nat)
    requires Merging(arcs, n, inward, oas, nas) && Behind(oas, i, nas, j, inward) && i < |oas| && j < |nas|
    requires Compare(oas[i], nas[j], inward) >= 0
    ensures Behind(oas, i + 1, nas, j + 1, inward)
    ensures Compare(oas[i], nas[j], inward) > 0 ==> Behind(oas, i, nas, j + 1, inward)
  {
    hide Compare;
    CompareOrder(oas[i], nas[j], oas[i], inward);
    forall x | i + 1 <= x < |oas| ensures Compare(nas[j], oas[x], inward) < 0 {
      assert Compare(oas[i], oas[x], inward) < 0;
      CompareOrder(nas[j], oas[i], oas[x], inward);
    }
  }

  /** When oas[i] sorts before the rest of nas, no entry of nas has its label and far end. */
  lemma NoTwin(arcs: set<Arc>, n: nat, inward: bool, oas: seq<Arc>, i: nat, nas: seq<Arc>, j: nat)
    requires Merging(arcs, n, inward, oas, nas) && Behind(oas, i, nas, j, inward) && i < |oas| && j <= |nas|
    requires j < |nas| ==> Compare(oas[i], nas[j], inward) < 0
    ensures Rehung(oas[i], inward, n) !in arcs
  {
    hide Compare;
    var a := oas[i];
    forall y | 0 <= y < |nas| ensures nas[y] != Rehung(a, inward, n) {
      CompareOrder(nas[y], a, a, inward);
      if y >= j {
        assert j == y || Compare(nas[j], nas[y], inward) <= 0;
        CompareOrder(a, nas[j], nas[y], inward);
      }
      CompareOrder(a, nas[y], nas[y], inward);
    }
    assert Rehung(a, inward, n) in SideSet(arcs, n, inward) <==> Rehung(a, inward, n) in arcs;
  }

  lemma TwinPresent(arcs: set<Arc>, n: nat, inward: bool, oas: seq<Arc>, i: nat, nas: seq<Arc>, j: nat)
    requires Merging(arcs, n, inward, oas, nas) && i < |oas| && j < |nas|
    requires Compare(oas[i], nas[j], inward) == 0
    ensures Rehung(oas[i], inward, n) in arcs
  {
    CompareOrder(oas[i], nas[j], nas[j], inward);
    assert nas[j] in SideSet(arcs, n, inward);
    assert Rehung(oas[i], inward, n) == nas[j];
  }

  /** The arcs once the first i of oas have been moved (copied) to n. */
  ghost function MovedUpto(arcs: set<Arc>, inward: bool, n: nat, oas: seq<Arc>, i: nat): set<Arc>
    requires i <= |oas|
  {
    arcs - Set(oas[..i]) + AllRehung(Set(oas[..i]), inward, n)
  }

  ghost function CopiedUpto(arcs: set<Arc>, inward: bool, n: nat, oas: seq<Arc>, i: nat): set<Arc>
    requires i <= |oas|
  {
    arcs + AllRehung(Set(oas[..i]), inward, n)
  }

  ghost function Set(ch: seq<Arc>): set<Arc> { set a | a in ch }

  lemma SetGrows(ch: seq<Arc>, i: nat)
    requires i < |ch|
    ensures Set(ch[..i + 1]) == Set(ch[..i]) + {ch[i]}
  {
    assert ch[..i + 1] == ch[..i] + [ch[i]];
  }

  lemma SetAll(ch: seq<Arc>, es: set<Arc>)
    requires Lists(ch, es)
    ensures Set(ch[..|ch|]) == es
  {
    assert ch[..|ch|] == ch;
  }

  lemma MovedNone(arcs: set<Arc>, inward: bool, n: nat, oas: seq<Arc>)
    ensures MovedUpto(arcs, inward, n, oas, 0) == arcs
  {
  }

  lemma CopiedNone(arcs: set<Arc>, inward: bool, n: nat, oas: seq<Arc>)
    ensures CopiedUpto(arcs, inward, n, oas, 0) == arcs
  {
  }

  lemma MovedAll(arcs: set<Arc>, o: nat, n: nat, inward: bool, oas: seq<Arc>)
    requires Source(arcs, o, n, inward, oas)
    ensures MovedUpto(arcs, inward, n, oas, |oas|) == Moved(arcs, inward, o, n)
  {
    SetAll(oas, SideSet(arcs, o, inward));
  }

  lemma CopiedAll(arcs: set<Arc>, o: nat, n: nat, inward: bool, oas: seq<Arc>)
    requires Source(arcs, o, n, inward, oas)
    ensures CopiedUpto(arcs, inward, n, oas, |oas|) == Copied(arcs, inward, o, n)
  {
    SetAll(oas, SideSet(arcs, o, inward));
  }

  lemma RehungDistinct(inward: bool, n: nat, oas: seq<Arc>, i: nat)
    requires StrictlySorted(oas, inward) && i < |oas|
    ensures Rehung(oas[i], inward, n) !in AllRehung(Set(oas[..i]), inward, n)
  {
    hide Compare;
    forall b | b in Set(oas[..i]) ensures Rehung(b, inward, n) != Rehung(oas[i], inward, n) {
      var x :| 0 <= x < i && oas[x] == b;
      assert Compare(b, oas[i], inward) < 0;
      CompareOrder(b, oas[i], oas[i], inward);
    }
  }

  lemma CopyMiss(arcs: set<Arc>, n: nat, inward: bool, oas: seq<Arc>, i: nat, nas: seq<Arc>, j: nat)
    requires Merging(arcs, n, inward, oas, nas) && Behind(oas, i, nas, j, inward) && i < |oas| && j <= |nas|
    requires j < |nas| ==> Compare(oas[i], nas[j], inward) < 0
    ensures Behind(oas, i + 1, nas, j, inward)
    ensures Rehung(oas[i], inward, n) !in CopiedUpto(arcs, inward, n, oas, i)
    ensures CopiedUpto(arcs, inward, n, oas, i + 1) == CopiedUpto(arcs, inward, n, oas, i) + {Rehung(oas[i], inward, n)}
  {
    NoTwin(arcs, n, inward, oas, i, nas, j);
    RehungDistinct(inward, n, oas, i);
    SetGrows(oas, i);
    RehungGrows(Set(oas[..i]), inward, n, oas[i]);
    hide Merging, Compare, Rehung;
  }

  lemma CopyHit(arcs: set<Arc>, n: nat, inward: bool, oas: seq<Arc>, i: nat, nas: seq<Arc>, j: nat)
    requires Merging(arcs, n, inward, oas, nas) && Behind(oas, i, nas, j, inward) && i < |oas| && j < |nas|
    requires Compare(oas[i], nas[j], inward) == 0
    ensures Behind(oas, i + 1, nas, j + 1, inward)
    ensures CopiedUpto(arcs, inward, n, oas, i + 1) == CopiedUpto(arcs, inward, n, oas, i)
  {
    AdvanceNew(arcs, n, inward, oas, i, nas, j);
    TwinPresent(arcs, n, inward, oas, i, nas, j);
    SetGrows(oas, i);
    RehungGrows(Set(oas[..i]), inward, n, oas[i]);
    hide Merging, Compare, Behind, Rehung;
  }

  lemma CopyStep(arcs: set<Arc>, o: nat, n: nat, inward: bool, oas: seq<Arc>, i: nat)
    requires Source(arcs, o, n, inward, oas) && i < |oas|
    ensures oas[i] in arcs
    ensures CopiedUpto(arcs, inward, n, oas, i + 1) == CopiedUpto(arcs, inward, n, oas, i) + {Rehung(oas[i], inward, n)}
  {
    assert oas[i] in SideSet(arcs, o, inward);
    SetGrows(oas, i);
    RehungGrows(Set(oas[..i]), inward, n, oas[i]);
  }

  /** Moving oas[i] is copying it and dropping it, for it is not one of the copies. */
  lemma MoveStep(arcs: set<Arc>, o: nat, n: nat, inward: bool, oas: seq<Arc>, i: nat)
    requires Source(arcs, o, n, inward, oas) && i < |oas|
    ensures oas[i] in arcs && oas[i] in MovedUpto(arcs, inward, n, oas, i)
    ensures Rehung(oas[i], inward, n) in CopiedUpto(arcs, inward, n, oas, i) <==> Rehung(oas[i], inward, n) in MovedUpto(arcs, inward, n, oas, i)
    ensures MovedUpto(arcs, inward, n, oas, i + 1) == MovedUpto(arcs, inward, n, oas, i) - {oas[i]} + {Rehung(oas[i], inward, n)}
  {
    assert forall x :: 0 <= x < |oas| ==> oas[x] in SideSet(arcs, o, inward);
    SetGrows(oas, i);
    RehungGrows(Set(oas[..i]), inward, n, oas[i]);
    assert oas[i] !in Set(oas[..i]);
    assert forall b :: b in AllRehung(Set(oas[..i]), inward, n) ==> End(b, inward) == n;
  }

  lemma MoveMiss(arcs: set<Arc>, o: nat, n: nat, inward: bool, oas: seq<Arc>, i: nat, nas: seq<Arc>, j: nat)
    requires Source(arcs, o, n, inward, oas)
    requires Merging(arcs, n, inward, oas, nas) && Behind(oas, i, nas, j, inward) && i < |oas| && j <= |nas|
    requires j < |nas| ==> Compare(oas[i], nas[j], inward) < 0
    ensures Behind(oas, i + 1, nas, j, inward) && End(oas[i], inward) == o
    ensures oas[i] in MovedUpto(arcs, inward, n, oas, i)
    ensures Rehung(oas[i], inward, n) !in MovedUpto(arcs, inward, n, oas, i)
    ensures MovedUpto(arcs, inward, n, oas, i + 1)
         == MovedUpto(arcs, inward, n, oas, i) - {oas[i]} + {Rehung(oas[i], inward, n)}
  {
    assert oas[i] in SideSet(arcs, o, inward);
    CopyMiss(arcs, n, inward, oas, i, nas, j);
    MoveStep(arcs, o, n, inward, oas, i);
  }

  lemma MoveHit(arcs: set<Arc>, o: nat, n: nat, inward: bool, oas: seq<Arc>, i: nat, nas: seq<Arc>, j: nat)
    requires Source(arcs, o, n, inward, oas)
    requires Merging(arcs, n, inward, oas, nas) && Behind(oas, i, nas, j, inward) && i < |oas| && j < |nas|
    requires Compare(oas[i], nas[j], inward) == 0
    ensures Behind(oas, i + 1, nas, j + 1, inward)
    ensures oas[i] in MovedUpto(arcs, inward, n, oas, i)
    ensures MovedUpto(arcs, inward, n, oas, i + 1) == MovedUpto(arcs, inward, n, oas, i) - {oas[i]}
  {
    assert oas[i] in SideSet(arcs, o, inward);
    AdvanceNew(arcs, n, inward, oas, i, nas, j);
    TwinPresent(arcs, n, inward, oas, i, nas, j);
    MoveStep(arcs, o, n, inward, oas, i);
    hide Merging, Compare, Behind, MovedUpto;
  }

  lemma StatesLess(states: seq<nat>, nstates: nat, keys: set<nat>, s: nat)
    requires StatesAgree(states, nstates, keys)
    ensures StatesAgree(Removed(states, s), nstates, keys - {s})
  {
    RemovedMembers(states, s);
    hide Removed;
  }

  lemma AgreeLess(m: map<nat, seq<Arc>>, arcs: set<Arc>, inward: bool, s: nat)
    requires Agree(m, arcs, inward)
    ensures Agree(m - {s}, arcs, inward)
  {
    hide Lists;
  }

  lemma WithinChanged(arcs: set<Arc>, keys: set<nat>, a: Arc, b: Arc)
    requires Within(arcs, keys) && b.from in keys && b.to in keys
    ensures Within(arcs - {a} + {b}, keys)
  {
  }

  lemma WithinLess(arcs: set<Arc>, keys: set<nat>, s: nat)
    requires Within(arcs, keys) && forall a :: a in arcs ==> a.from != s && a.to != s
    ensures Within(arcs, keys - {s})
  {
  }

  lemma Ends(arcs: set<Arc>, a: Arc, keys: set<nat>)
    requires Within(arcs, keys) && a in arcs
    ensures a.from in keys && a.to in keys
  {
  }

  // ---------------------------------------------------------------- the automaton

  class Nfa {
    const pre: nat
    const post: nat
    var states: seq<nat>            // the state chain, in order
    var nstates: nat                // the next state number
    var ins: map<nat, seq<Arc>>     // in-chains, newest arc first
    var outs: map<nat, seq<Arc>>    // out-chains, newest arc first
    var tmp: map<nat, nat>          // the tmp pointers that are not NULL
    ghost var arcs: set<Arc>        // all arcs

    /** newnfa() makes post and pre first, regc_nfa.c:68-69, and no state with a flag is ever dropped. */
    predicate Headed()
      reads this`states
    {
      2 <= |states| && states[0] == post == 0 && states[1] == pre == 1
    }

    /** Only pre and post carry a flag (newnfa, regc_nfa.c:68-69). */
    predicate Flagged(s: nat) { s == pre || s == post }

    ghost predicate Valid()
      reads this`states, this`nstates, this`ins, this`outs, this`arcs
    {
      && Headed() && ins.Keys == outs.Keys && StatesAgree(states, nstates, ins.Keys)
      && Agree(ins, arcs, true) && Agree(outs, arcs, false)
      && Within(arcs, ins.Keys)
    }

    /** The four states newnfa() makes, regc_nfa.c:62-74: post, pre, init, final. */
    constructor ()
      ensures Valid() && tmp == map[] && arcs == {} && ins.Keys == {0, 1, 2, 3}
    {
      pre, post := 1, 0;
      states, nstates := [0, 1, 2, 3], 4;
      ins := map[0 := [], 1 := [], 2 := [], 3 := []];
      outs := map[0 := [], 1 := [], 2 := [], 3 := []];
      tmp, arcs := map[], {};
    }

    /** newstate(), regc_nfa.c:121-165. */
    method NewState() returns (s: nat)
      requires Valid()
      modifies this`states, this`nstates, this`ins, this`outs
      ensures Valid() && s !in old(ins) && s == old(nstates) && nstates == s + 1
      ensures states == old(states) + [s]
      ensures ins == old(ins)[s := []] && outs == old(outs)[s := []]
    {
      s := nstates;
      nstates := nstates + 1;
      assert s !in states;
      states := states + [s];
      ins := ins[s := []];
      outs := outs[s := []];
    }

    /** createarc(), regc_nfa.c:307-353. */
    method CreateArc(a: Arc)
      requires Valid() && a !in arcs && a.from in outs && a.to in ins
      modifies this`ins, this`outs, this`arcs
      ensures Valid() && arcs == old(arcs) + {a}
      ensures ins == old(ins)[a.to := [a] + old(ins)[a.to]]
      ensures outs == old(outs)[a.from := [a] + old(outs)[a.from]]
    {
      AddAgrees(ins, arcs, true, a);
      AddAgrees(outs, arcs, false, a);
      hide Agree;
      ins := ins[a.to := [a] + ins[a.to]];
      outs := outs[a.from := [a] + outs[a.from]];
      arcs := arcs + {a};
    }

    /** newarc(), regc_nfa.c:270-299: never creates a duplicate. */
    method NewArc(a: Arc)
      requires Valid() && a.from in outs && a.to in ins
      modifies this`ins, this`outs, this`arcs
      ensures Valid() && arcs == old(arcs) + {a}
      ensures a in old(arcs) ==> ins == old(ins) && outs == old(outs)
      ensures a !in old(arcs) ==> ins == old(ins)[a.to := [a] + old(ins)[a.to]]
      ensures a !in old(arcs) ==> outs == old(outs)[a.from := [a] + old(outs)[a.from]]
    {
      // check for a duplicate, on whichever chain is shorter
      ChainMember(ins, arcs, true, a);
      ChainMember(outs, arcs, false, a);
      hide Agree;
      var chain := if |outs[a.from]| <= |ins[a.to]| then outs[a.from] else ins[a.to];
      var i := 0;
      while i < |chain|
        invariant 0 <= i <= |chain|
        invariant forall j :: 0 <= j < i ==> chain[j] != a
      {
        if chain[i] == a { return; }
        i := i + 1;
      }
      CreateArc(a);
    }

    /** freearc(), regc_nfa.c:415-485. */
    method FreeArc(a: Arc)
      requires Valid() && a in arcs
      modifies this`ins, this`outs, this`arcs
      ensures Valid() && arcs == old(arcs) - {a}
      ensures a.from in old(outs) && a.to in old(ins)
      ensures ins == old(ins)[a.to := Without(old(ins)[a.to], a)]
      ensures outs == old(outs)[a.from := Without(old(outs)[a.from], a)]
    {
      hide Agree;
      RemoveAgrees(ins, arcs, true, a);
      RemoveAgrees(outs, arcs, false, a);
      ins := ins[a.to := Without(ins[a.to], a)];
      outs := outs[a.from := Without(outs[a.from], a)];
      arcs := arcs - {a};
    }

    /** changearctarget(), regc_nfa.c:495-529: the arc keeps its place on its source's out-chain. */
    method ChangeArcTarget(a: Arc, newto: nat)
      requires Valid() && a in arcs && newto in ins && newto != a.to && a.(to := newto) !in arcs
      modifies this`ins, this`outs, this`arcs
      ensures Valid() && arcs == old(arcs) - {a} + {a.(to := newto)}
      ensures ins.Keys == old(ins.Keys)
    {
      hide Agree, StatesAgree;
      ghost var keys := ins.Keys;
      var b := a.(to := newto);
      Ends(arcs, a, ins.Keys);
      WithinChanged(arcs, ins.Keys, a, b);
      hide Within;
      ChainMember(outs, arcs, false, a);
      var i := 0;
      while outs[a.from][i] != a
        invariant 0 <= i < |outs[a.from]| && a in outs[a.from][i..]
        decreases |outs[a.from]| - i
      {
        i := i + 1;
      }
      RemoveAgrees(ins, arcs, true, a);
      AddAgrees(ins[a.to := Without(ins[a.to], a)], arcs - {a}, true, b);
      ReplaceAgrees(outs, arcs, false, a, b, i);
      ins := ins[a.to := Without(ins[a.to], a)][newto := [b] + ins[newto]];
      outs := outs[a.from := outs[a.from][i := b]];
      arcs := arcs - {a} + {b};
      assert ins.Keys == keys && outs.Keys == keys;
    }

    /** sortins(), regc_nfa.c:588-629. */
    method SortIns(s: nat)
      requires Valid() && s in ins
      modifies this`ins
      ensures Valid() && ins == old(ins)[s := Sort(old(ins)[s], true)]
      ensures Sorted(ins[s], true)
    {
      SortLists(ins[s], InSet(arcs, s), true);
      ins := ins[s := Sort(ins[s], true)];
    }

    /** sortouts(), regc_nfa.c:664-705. */
    method SortOuts(s: nat)
      requires Valid() && s in outs
      modifies this`outs
      ensures Valid() && outs == old(outs)[s := Sort(old(outs)[s], false)]
      ensures Sorted(outs[s], false)
    {
      SortLists(outs[s], OutSet(arcs, s), false);
      outs := outs[s := Sort(outs[s], false)];
    }

    /** The first loop of dropstate(), regc_nfa.c:189-203. */
    method FreeIns(s: nat)
      requires Valid() && s in ins
      modifies this`ins, this`outs, this`arcs
      ensures Valid() && arcs == old(arcs) - InSet(old(arcs), s) && ins.Keys == old(ins).Keys
    {
      hide Agree, Within, StatesAgree, Without;
      while ins[s] != []
        invariant Valid() && s in ins && ins.Keys == old(ins).Keys
        invariant arcs <= old(arcs) && forall a :: a in old(arcs) && a !in arcs ==> a.to == s
        decreases |arcs|
      {
        ChainHead(ins, arcs, true, s);
        FreeArc(ins[s][0]);
      }
      ChainEmpty(ins, arcs, true, s);
    }

    /** The second loop of dropstate(), regc_nfa.c:189-203. */
    method FreeOuts(s: nat)
      requires Valid() && s in ins
      modifies this`ins, this`outs, this`arcs
      ensures Valid() && arcs == old(arcs) - OutSet(old(arcs), s) && ins.Keys == old(ins).Keys
    {
      hide Agree, Within, StatesAgree, Without;
      while outs[s] != []
        invariant Valid() && s in ins && ins.Keys == old(ins).Keys
        invariant arcs <= old(arcs) && forall a :: a in old(arcs) && a !in arcs ==> a.from == s
        decreases |arcs|
      {
        ChainHead(outs, arcs, false, s);
        FreeArc(outs[s][0]);
      }
      ChainEmpty(outs, arcs, false, s);
    }

    /** freestate(), regc_nfa.c:209-234. */
    method FreeState(s: nat)
      requires Valid() && s in ins && !Flagged(s)
      requires forall a :: a in arcs ==> a.from != s && a.to != s
      modifies this`states, this`ins, this`outs
      ensures Valid() && states == Removed(old(states), s)
      ensures ins == old(ins) - {s} && outs == old(outs) - {s}
    {
      hide Lists, Agree, StatesAgree, Within, Removed;
      StatesLess(states, nstates, ins.Keys, s);
      RemovedLater(states, s);
      AgreeLess(ins, arcs, true, s);
      AgreeLess(outs, arcs, false, s);
      WithinLess(arcs, ins.Keys, s);
      assert (ins - {s}).Keys == ins.Keys - {s} && (outs - {s}).Keys == outs.Keys - {s};
      states := Removed(states, s);
      ins := ins - {s};
      outs := outs - {s};
    }

    /** dropstate(), regc_nfa.c:189-203: free every arc of s, then s itself. */
    method DropState(s: nat)
      requires Valid() && s in ins && !Flagged(s)
      modifies this`states, this`ins, this`outs, this`arcs
      ensures Valid() && arcs == old(arcs) - InSet(old(arcs), s) - OutSet(old(arcs), s)
      ensures states == Removed(old(states), s) && ins.Keys == old(ins).Keys - {s}
    {
      hide Agree, Within, StatesAgree;
      FreeIns(s);
      FreeOuts(s);
      FreeState(s);
    }

    /** BULK_ARC_OP_USE_SORT, regc_nfa.c:745-746. */
    static predicate UseSort(nsrc: nat, ndest: nat) {
      if nsrc < 4 then false else nsrc > 32 || ndest > 32
    }

    /** createarc(), with its effect on the arc set and the in-chains stated. */
    method PushIn(a: Arc)
      requires Valid() && a !in arcs && a.from in ins && a.to in ins
      modifies this`ins, this`outs, this`arcs
      ensures Valid() && ins.Keys == old(ins).Keys && arcs == old(arcs) + {a}
      ensures ins[a.to] == [a] + old(ins)[a.to]
      ensures forall t :: t in ins && t != a.to ==> ins[t] == old(ins)[t]
    {
      hide Agree, StatesAgree, Within;
      CreateArc(a);
    }

    /** createarc(), with only its effect on the arc set stated. */
    method Link(a: Arc)
      requires Valid() && a !in arcs && a.from in outs && a.to in ins
      modifies this`ins, this`outs, this`arcs
      ensures Valid() && ins.Keys == old(ins).Keys && arcs == old(arcs) + {a}
    {
      hide Agree, StatesAgree, Within;
      CreateArc(a);
    }

    /** freearc(), with only its effect on the arc set stated. */
    method Unlink(a: Arc)
      requires Valid() && a in arcs
      modifies this`ins, this`outs, this`arcs
      ensures Valid() && ins.Keys == old(ins).Keys && arcs == old(arcs) - {a}
    {
      hide Agree, StatesAgree, Without;
      FreeArc(a);
    }

    /** newarc(), with only its effect on the arc set stated. */
    method LinkUnlessPresent(a: Arc)
      requires Valid() && a.from in outs && a.to in ins
      modifies this`ins, this`outs, this`arcs
      ensures Valid() && ins.Keys == old(ins).Keys && arcs == old(arcs) + {a}
    {
      hide Agree, StatesAgree, Within;
      NewArc(a);
    }
    /** createarc() on the new source, then freearc() (regc_nfa.c:1069-1070). */
    method RehangOut(a: Arc, n: nat)
      requires Valid() && a in arcs && n in outs && a.(from := n) !in arcs
      modifies this`ins, this`outs, this`arcs
      ensures Valid() && ins.Keys == old(ins).Keys && arcs == old(arcs) - {a} + {a.(from := n)}
    {
      hide Agree, StatesAgree, Without;
      CreateArc(a.(from := n));
      FreeArc(a);
    }

    /** moveins(), regc_nfa.c:761-842: the same arcs whichever branch runs. */
    method MoveIns(o: nat, n: nat)
      requires Valid() && o in ins && n in ins && o != n
      modifies this`ins, this`outs, this`arcs
      ensures Valid() && ins.Keys == old(ins).Keys
      ensures arcs == Moved(old(arcs), true, o, n)
    {
      hide Agree, StatesAgree, Sorted;
      if !UseSort(|ins[o]|, |ins[n]|) {
        MoveInsSingly(o, n);
      } else {
        SortIns(o);
        SortIns(n);
        MoveInsMerged(o, n);
      }
    }

    /** With not too many arcs, one at a time (regc_nfa.c:769-777). */
    method MoveInsSingly(o: nat, n: nat)
      requires Valid() && o in ins && n in ins && o != n
      modifies this`ins, this`outs, this`arcs
      ensures Valid() && ins.Keys == old(ins).Keys
      ensures arcs == Moved(old(arcs), true, o, n)
    {
      hide Agree, StatesAgree, Lists;
      ghost var done: set<Arc> := {};
      while ins[o] != []
        invariant Valid() && ins.Keys == old(ins).Keys
        invariant done <= InSet(old(arcs), o)
        invariant arcs == old(arcs) - done + AllRehung(done, true, n)
        decreases InSet(old(arcs), o) - done
      {
        ChainHead(ins, arcs, true, o);
        var a := ins[o][0];
        NewArc(a.(to := n));
        FreeArc(a);
        RehungGrows(done, true, n, a);
        done := done + {a};
      }
      ChainEmpty(ins, arcs, true, o);
      assert forall a :: a in InSet(old(arcs), o) && a !in done ==> a in arcs;
      assert done == InSet(old(arcs), o);
    }

    /** With many arcs, a merge of the two sorted chains (regc_nfa.c:800-837). */
    method MoveInsMerged(o: nat, n: nat)
      requires Valid() && o in ins && n in ins && o != n && Sorted(ins[o], true) && Sorted(ins[n], true)
      modifies this`ins, this`outs, this`arcs
      ensures Valid() && ins.Keys == old(ins).Keys
      ensures arcs == Moved(old(arcs), true, o, n)
    {
      var oas, nas := ins[o], ins[n];
      ghost var was := arcs;
      ChainStrict(oas, was, o, true);
      assert Merging(was, n, true, oas, nas) && Source(was, o, n, true, oas);
      BehindStart(oas, nas, true);
      MovedNone(was, true, n, oas);
      hide Agree, StatesAgree, Within, Without, Sorted, Lists, Behind, MovedUpto, Merging, Source, Compare, Moved;
      var i, j := 0, 0;
      while i < |oas|
        invariant Valid() && ins.Keys == old(ins).Keys
        invariant 0 <= i <= |oas| && 0 <= j <= |nas| && Behind(oas, i, nas, j, true)
        invariant arcs == MovedUpto(was, true, n, oas, i)
        decreases |oas| - i + |nas| - j
      {
        var a := oas[i];
        var cmp := if j < |nas| then Compare(a, nas[j], true) else -1;
        if cmp < 0 {
          MoveMiss(was, o, n, true, oas, i, nas, j);
          Ends(arcs, a, ins.Keys);
          ChangeArcTarget(a, n);
          i := i + 1;
        } else if cmp == 0 {
          MoveHit(was, o, n, true, oas, i, nas, j);
          Unlink(a);
          i, j := i + 1, j + 1;
        } else {
          AdvanceNew(was, n, true, oas, i, nas, j);
          j := j + 1;
        }
      }
      MovedAll(was, o, n, true, oas);
    }

    /** copyins(), regc_nfa.c:848-918: the same arcs whichever branch runs. */
    method CopyIns(o: nat, n: nat)
      requires Valid() && o in ins && n in ins && o != n
      modifies this`ins, this`outs, this`arcs
      ensures Valid() && ins.Keys == old(ins).Keys
      ensures arcs == Copied(old(arcs), true, o, n)
    {
      hide Agree, StatesAgree, Sorted;
      if !UseSort(|ins[o]|, |ins[n]|) {
        CopyInsSingly(o, n);
      } else {
        SortIns(o);
        SortIns(n);
        CopyInsMerged(o, n);
      }
    }

    /** With not too many arcs, one at a time (regc_nfa.c:856-862). */
    method CopyInsSingly(o: nat, n: nat)
      requires Valid() && o in ins && n in ins && o != n
      modifies this`ins, this`outs, this`arcs
      ensures Valid() && ins.Keys == old(ins).Keys
      ensures arcs == Copied(old(arcs), true, o, n)
    {
      var oas := ins[o];
      ghost var was := arcs;
      assert Source(was, o, n, true, oas);
      CopiedNone(was, true, n, oas);
      hide Agree, StatesAgree, Within, Source, CopiedUpto;
      var i := 0;
      while i < |oas|
        invariant Valid() && ins.Keys == old(ins).Keys && 0 <= i <= |oas|
        invariant arcs == CopiedUpto(was, true, n, oas, i)
      {
        var a := oas[i];
        CopyStep(was, o, n, true, oas, i);
        Ends(was, a, ins.Keys);
        LinkUnlessPresent(a.(to := n));
        i := i + 1;
      }
      CopiedAll(was, o, n, true, oas);
    }

    /** With many arcs, a merge of the two sorted chains (regc_nfa.c:886-916). */
    method CopyInsMerged(o: nat, n: nat)
      requires Valid() && o in ins && n in ins && o != n && Sorted(ins[o], true) && Sorted(ins[n], true)
      modifies this`ins, this`outs, this`arcs
      ensures Valid() && ins.Keys == old(ins).Keys
      ensures arcs == Copied(old(arcs), true, o, n)
    {
      var oas, nas := ins[o], ins[n];
      ghost var was := arcs;
      ChainStrict(oas, was, o, true);
      assert Merging(was, n, true, oas, nas) && Source(was, o, n, true, oas);
      BehindStart(oas, nas, true);
      CopiedNone(was, true, n, oas);
      hide Agree, StatesAgree, Within, Without, Sorted, Lists, Behind, CopiedUpto, Merging, Source, Compare, Copied;
      var i, j := 0, 0;
      while i < |oas|
        invariant Valid() && ins.Keys == old(ins).Keys
        invariant 0 <= i <= |oas| && 0 <= j <= |nas| && Behind(oas, i, nas, j, true)
        invariant arcs == CopiedUpto(was, true, n, oas, i)
        decreases |oas| - i + |nas| - j
      {
        var a := oas[i];
        var cmp := if j < |nas| then Compare(a, nas[j], true) else -1;
        if cmp < 0 {
          CopyMiss(was, n, true, oas, i, nas, j);
          MoveStep(was, o, n, true, oas, i);
          Ends(was, a, ins.Keys);
          Link(a.(to := n));
          i := i + 1;
        } else if cmp == 0 {
          CopyHit(was, n, true, oas, i, nas, j);
          i, j := i + 1, j + 1;
        } else {
          AdvanceNew(was, n, true, oas, i, nas, j);
          j := j + 1;
        }
      }
      CopiedAll(was, o, n, true, oas);
    }

    /** moveouts(), regc_nfa.c:1021-1099: the same arcs whichever branch runs. */
    method MoveOuts(o: nat, n: nat)
      requires Valid() && o in ins && n in ins && o != n
      modifies this`ins, this`outs, this`arcs
      ensures Valid() && ins.Keys == old(ins).Keys
      ensures arcs == Moved(old(arcs), false, o, n)
    {
      hide Agree, StatesAgree, Sorted;
      if !UseSort(|outs[o]|, |outs[n]|) {
        MoveOutsSingly(o, n);
      } else {
        SortOuts(o);
        SortOuts(n);
        MoveOutsMerged(o, n);
      }
    }

    /** With not too many arcs, one at a time (regc_nfa.c:1029-1036). */
    method MoveOutsSingly(o: nat, n: nat)
      requires Valid() && o in ins && n in ins && o != n
      modifies this`ins, this`outs, this`arcs
      ensures Valid() && ins.Keys == old(ins).Keys
      ensures arcs == Moved(old(arcs), false, o, n)
    {
      hide Agree, StatesAgree, Lists;
      ghost var done: set<Arc> := {};
      while outs[o] != []
        invariant Valid() && ins.Keys == old(ins).Keys
        invariant done <= OutSet(old(arcs), o)
        invariant arcs == old(arcs) - done + AllRehung(done, false, n)
        decreases OutSet(old(arcs), o) - done
      {
        ChainHead(outs, arcs, false, o);
        var a := outs[o][0];
        NewArc(a.(from := n));
        FreeArc(a);
        RehungGrows(done, false, n, a);
        done := done + {a};
      }
      ChainEmpty(outs, arcs, false, o);
      assert forall a :: a in OutSet(old(arcs), o) && a !in done ==> a in arcs;
      assert done == OutSet(old(arcs), o);
    }

    /** With many arcs, a merge of the two sorted chains (regc_nfa.c:1060-1094). */
    method MoveOutsMerged(o: nat, n: nat)
      requires Valid() && o in ins && n in ins && o != n && Sorted(outs[o], false) && Sorted(outs[n], false)
      modifies this`ins, this`outs, this`arcs
      ensures Valid() && ins.Keys == old(ins).Keys
      ensures arcs == Moved(old(arcs), false, o, n)
    {
      var oas, nas := outs[o], outs[n];
      ghost var was := arcs;
      ChainStrict(oas, was, o, false);
      assert Merging(was, n, false, oas, nas) && Source(was, o, n, false, oas);
      BehindStart(oas, nas, false);
      MovedNone(was, false, n, oas);
      hide Agree, StatesAgree, Within, Without, Sorted, Lists, Behind, MovedUpto, Merging, Source, Compare, Moved;
      var i, j := 0, 0;
      while i < |oas|
        invariant Valid() && ins.Keys == old(ins).Keys
        invariant 0 <= i <= |oas| && 0 <= j <= |nas| && Behind(oas, i, nas, j, false)
        invariant arcs == MovedUpto(was, false, n, oas, i)
        decreases |oas| - i + |nas| - j
      {
        var a := oas[i];
        var cmp := if j < |nas| then Compare(a, nas[j], false) else -1;
        if cmp < 0 {
          MoveMiss(was, o, n, false, oas, i, nas, j);
          Ends(arcs, a, ins.Keys);
          RehangOut(a, n);
          i := i + 1;
        } else if cmp == 0 {
          MoveHit(was, o, n, false, oas, i, nas, j);
          Unlink(a);
          i, j := i + 1, j + 1;
        } else {
          AdvanceNew(was, n, false, oas, i, nas, j);
          j := j + 1;
        }
      }
      MovedAll(was, o, n, false, oas);
    }

    /** copyouts(), regc_nfa.c:1105-1175: the same arcs whichever branch runs. */
    method CopyOuts(o: nat, n: nat)
      requires Valid() && o in ins && n in ins && o != n
      modifies this`ins, this`outs, this`arcs
      ensures Valid() && ins.Keys == old(ins).Keys
      ensures arcs == Copied(old(arcs), false, o, n)
    {
      hide Agree, StatesAgree, Sorted;
      if !UseSort(|outs[o]|, |outs[n]|) {
        CopyOutsSingly(o, n);
      } else {
        SortOuts(o);
        SortOuts(n);
        CopyOutsMerged(o, n);
      }
    }

    /** With not too many arcs, one at a time (regc_nfa.c:1113-1119). */
    method CopyOutsSingly(o: nat, n: nat)
      requires Valid() && o in ins && n in ins && o != n
      modifies this`ins, this`outs, this`arcs
      ensures Valid() && ins.Keys == old(ins).Keys
      ensures arcs == Copied(old(arcs), false, o, n)
    {
      var oas := outs[o];
      ghost var was := arcs;
      assert Source(was, o, n, false, oas);
      CopiedNone(was, false, n, oas);
      hide Agree, StatesAgree, Within, Source, CopiedUpto;
      var i := 0;
      while i < |oas|
        invariant Valid() && ins.Keys == old(ins).Keys && 0 <= i <= |oas|
        invariant arcs == CopiedUpto(was, false, n, oas, i)
      {
        var a := oas[i];
        CopyStep(was, o, n, false, oas, i);
        Ends(was, a, ins.Keys);
        LinkUnlessPresent(a.(from := n));
        i := i + 1;
      }
      CopiedAll(was, o, n, false, oas);
    }

    /** With many arcs, a merge of the two sorted chains (regc_nfa.c:1143-1173). */
    method CopyOutsMerged(o: nat, n: nat)
      requires Valid() && o in ins && n in ins && o != n && Sorted(outs[o], false) && Sorted(outs[n], false)
      modifies this`ins, this`outs, this`arcs
      ensures Valid() && ins.Keys == old(ins).Keys
      ensures arcs == Copied(old(arcs), false, o, n)
    {
      var oas, nas := outs[o], outs[n];
      ghost var was := arcs;
      ChainStrict(oas, was, o, false);
      assert Merging(was, n, false, oas, nas) && Source(was, o, n, false, oas);
      BehindStart(oas, nas, false);
      CopiedNone(was, false, n, oas);
      hide Agree, StatesAgree, Within, Without, Sorted, Lists, Behind, CopiedUpto, Merging, Source, Compare, Copied;
      var i, j := 0, 0;
      while i < |oas|
        invariant Valid() && ins.Keys == old(ins).Keys
        invariant 0 <= i <= |oas| && 0 <= j <= |nas| && Behind(oas, i, nas, j, false)
        invariant arcs == CopiedUpto(was, false, n, oas, i)
        decreases |oas| - i + |nas| - j
      {
        var a := oas[i];
        var cmp := if j < |nas| then Compare(a, nas[j], false) else -1;
        if cmp < 0 {
          CopyMiss(was, n, false, oas, i, nas, j);
          MoveStep(was, o, n, false, oas, i);
          Ends(was, a, ins.Keys);
          Link(a.(from := n));
          i := i + 1;
        } else if cmp == 0 {
          CopyHit(was, n, false, oas, i, nas, j);
          i, j := i + 1, j + 1;
        } else {
          AdvanceNew(was, n, false, oas, i, nas, j);
          j := j + 1;
        }
      }
      CopiedAll(was, o, n, false, oas);
    }

    /** mergeins(), regc_nfa.c:926-1015: the existing in-arcs of s end up, sorted, behind the new ones. */
    method MergeIns(s: nat, arcarray: seq<Arc>)
      requires Valid() && s in ins && Set(arcarray) <= arcs
      modifies this`ins, this`outs, this`arcs
      ensures Valid() && ins.Keys == old(ins).Keys
      ensures arcs == old(arcs) + AllRehung(Set(arcarray), true, s)
      ensures forall t :: t in ins && t != s ==> ins[t] == old(ins)[t]
      ensures |ins[s]| >= |old(ins)[s]|
      ensures Lists(ins[s][|ins[s]| - |old(ins)[s]|..], InSet(old(arcs), s))
    {
      if |arcarray| <= 0 {
        assert ins[s][0..] == ins[s];
        return;
      }
      ghost var was := arcs;
      assert Lists(ins[s], InSet(was, s));
      SortLength(ins[s], InSet(was, s));
      SortLists(ins[s], InSet(was, s), true);
      hide Agree, StatesAgree, Within, Sort, Lists, Sorted, StrictlySorted, AllRehung, Set;
      SortIns(s);
      var sorted := Dedup(Sort(arcarray, true), arcarray);
      SameLabelsSameRehung(arcarray, sorted, s);
      MergeArray(s, sorted, ins[s]);
    }

    /** The duplicate elimination of mergeins (regc_nfa.c:956-977). */
    static method Dedup(sorted: seq<Arc>, ghost given: seq<Arc>) returns (d: seq<Arc>)
      requires sorted == Sort(given, true) && |given| > 0
      ensures StrictlySorted(d, true) && Set(d) <= Set(given)
      ensures forall a :: a in given ==> exists b :: b in d && Compare(a, b, true) == 0
    {
      DedupStart(sorted, given);
      hide Deduped, Sort, Compare, Sorted, StrictlySorted, Set;
      d := [sorted[0]];     // the kept prefix arcarray[0..j]
      for i := 1 to |sorted|
        invariant Deduped(sorted, i, d) && |d| > 0
      {
        DedupStep(sorted, i, d);
        if Compare(d[|d| - 1], sorted[i], true) == -1 {
          d := d + [sorted[i]];
        }
      }
      DedupDone(sorted, given, d);
    }

    method MergeOne(a: Arc, s: nat, ghost was: set<Arc>, ghost chains: map<nat, seq<Arc>>, ghost added: seq<Arc>, ghost nas: seq<Arc>)
      requires Valid() && s in ins && SameBut(chains, ins, s) && ins[s] == added + nas
      requires Within(was, chains.Keys) && a in was && a.(to := s) !in arcs
      modifies this`ins, this`outs, this`arcs
      ensures Valid() && s in ins && SameBut(chains, ins, s) && ins[s] == [a.(to := s)] + added + nas
      ensures arcs == old(arcs) + {a.(to := s)}
    {
      hide Agree, StatesAgree;
      PushIn(a.(to := s));
      assert [a.(to := s)] + (added + nas) == [a.(to := s)] + added + nas;
    }

    /** The merge of mergeins (regc_nfa.c:984-1014). */
    method MergeArray(s: nat, sorted: seq<Arc>, nas: seq<Arc>)
      requires Valid() && s in ins && Set(sorted) <= arcs && ins[s] == nas
      requires StrictlySorted(sorted, true) && Sorted(nas, true)
      modifies this`ins, this`outs, this`arcs
      ensures Valid() && ins.Keys == old(ins).Keys
      ensures arcs == old(arcs) + AllRehung(Set(sorted), true, s)
      ensures forall t :: t in ins && t != s ==> ins[t] == old(ins)[t]
      ensures |ins[s]| >= |nas| && ins[s][|ins[s]| - |nas|..] == nas
    {
      ghost var was := arcs;
      assert Merging(was, s, true, sorted, nas);
      BehindStart(sorted, nas, true);
      CopiedNone(was, true, s, sorted);
      ghost var chains := ins;
      assert Within(was, chains.Keys) && SameBut(chains, ins, s);
      hide Valid, Within, Behind, CopiedUpto, Merging, Compare, SameBut, StrictlySorted, Sorted, AllRehung, Set;
      ghost var added: seq<Arc> := [];
      var i, j := 0, 0;
      while i < |sorted|
        invariant Valid() && s in ins && SameBut(chains, ins, s)
        invariant 0 <= i <= |sorted| && 0 <= j <= |nas| && Behind(sorted, i, nas, j, true)
        invariant arcs == CopiedUpto(was, true, s, sorted, i)
        invariant ins[s] == added + nas
        decreases |sorted| - i + |nas| - j
      {
        var a := sorted[i];
        var cmp := if j < |nas| then Compare(a, nas[j], true) else -1;
        if cmp < 0 {
          CopyMiss(was, s, true, sorted, i, nas, j);
          assert a in Set(sorted);
          MergeOne(a, s, was, chains, added, nas);
          added := [a.(to := s)] + added;
          i := i + 1;
        } else if cmp == 0 {
          CopyHit(was, s, true, sorted, i, nas, j);
          i, j := i + 1, j + 1;
        } else {
          AdvanceNew(was, s, true, sorted, i, nas, j);
          j := j + 1;
        }
      }
      CopiedDone(was, true, s, sorted);
      SameButKeys(chains, ins, s);
    }
  }

  ghost predicate SameBut(m: map<nat, seq<Arc>>, m2: map<nat, seq<Arc>>, s: nat) {
    m.Keys == m2.Keys && forall t :: t in m2 && t != s ==> m2[t] == m[t]
  }

  lemma SameButKeys(m: map<nat, seq<Arc>>, m2: map<nat, seq<Arc>>, s: nat)
    requires SameBut(m, m2, s)
    ensures m.Keys == m2.Keys && forall t :: t in m2 && t != s ==> m2[t] == m[t]
  {
  }

  /** d holds the first i arcs of the sorted array, once for each label and source. */
  ghost predicate Deduped(sorted: seq<Arc>, i: nat, d: seq<Arc>) {
    && 0 < i <= |sorted| && Sorted(sorted, true)
    && |d| > 0 && StrictlySorted(d, true) && Set(d) <= Set(sorted)
    && Compare(d[|d| - 1], sorted[i - 1], true) == 0
    && forall k :: 0 <= k < i ==> exists b :: b in d && Compare(sorted[k], b, true) == 0
  }

  lemma DedupStart(sorted: seq<Arc>, given: seq<Arc>)
    requires sorted == Sort(given, true) && |given| > 0
    ensures |sorted| == |given| && Deduped(sorted, 1, [sorted[0]])
  {
    SortSorts(given, true);
    assert |multiset(sorted)| == |multiset(given)|;
    CompareOrder(sorted[0], sorted[0], sorted[0], true);
    assert sorted[0] in [sorted[0]];
  }

  lemma DedupStep(sorted: seq<Arc>, i: nat, d: seq<Arc>)
    requires Deduped(sorted, i, d) && i < |sorted|
    ensures |d| > 0
    ensures if Compare(d[|d| - 1], sorted[i], true) == -1 then Deduped(sorted, i + 1, d + [sorted[i]]) else Deduped(sorted, i + 1, d)
  {
    var last := d[|d| - 1];
    assert Compare(sorted[i - 1], sorted[i], true) <= 0;
    CompareOrder(last, sorted[i - 1], sorted[i], true);
    CompareOrder(last, sorted[i], sorted[i], true);
    CompareOrder(sorted[i], last, last, true);
    CompareOrder(sorted[i], sorted[i], sorted[i], true);
    CompareRange(last, sorted[i]);
    hide Compare;
    if Compare(last, sorted[i], true) == -1 {
      var d2 := d + [sorted[i]];
      forall x | 0 <= x < |d| ensures Compare(d[x], sorted[i], true) < 0 {
        assert x == |d| - 1 || Compare(d[x], last, true) < 0;
        CompareOrder(d[x], last, sorted[i], true);
      }
      forall k | 0 <= k < i + 1 ensures exists b :: b in d2 && Compare(sorted[k], b, true) == 0 {
        if k < i {
          var b :| b in d && Compare(sorted[k], b, true) == 0;
          assert b in d2;
        } else {
          assert sorted[i] in d2;
        }
      }
    } else {
      assert last in d;
    }
  }

  lemma DedupDone(sorted: seq<Arc>, given: seq<Arc>, d: seq<Arc>)
    requires sorted == Sort(given, true) && Deduped(sorted, |sorted|, d)
    ensures StrictlySorted(d, true) && Set(d) <= Set(given)
    ensures forall a :: a in given ==> exists b :: b in d && Compare(a, b, true) == 0
  {
    SortSorts(given, true);
    hide Compare, Sort;
    forall a | a in given ensures exists b :: b in d && Compare(a, b, true) == 0 {
      assert a in multiset(sorted);
    }
    forall a | a in Set(sorted) ensures a in Set(given) { assert a in multiset(given); }
  }

  lemma CompareRange(a: Arc, b: Arc)
    ensures -1 <= Compare(a, b, true) <= 1
  {
  }

  lemma SortLength(ch: seq<Arc>, es: set<Arc>)
    requires Lists(ch, es)
    ensures |Sort(ch, true)| == |ch|
  {
    SortLists(ch, es, true);
    SameSetSameLength(ch, Sort(ch, true), es);
  }

  lemma SameLabelsSameRehung(given: seq<Arc>, d: seq<Arc>, s: nat)
    requires Set(d) <= Set(given)
    requires forall a :: a in given ==> exists b :: b in d && Compare(a, b, true) == 0
    ensures AllRehung(Set(given), true, s) == AllRehung(Set(d), true, s)
  {
    hide Compare;
    forall a | a in given ensures Rehung(a, true, s) in AllRehung(Set(d), true, s) {
      var b :| b in d && Compare(a, b, true) == 0;
      CompareOrder(a, b, b, true);
      assert b in Set(d) && Rehung(b, true, s) == Rehung(a, true, s);
    }
  }

  lemma CopiedDone(arcs: set<Arc>, inward: bool, n: nat, oas: seq<Arc>)
    ensures CopiedUpto(arcs, inward, n, oas, |oas|) == arcs + AllRehung(Set(oas), inward, n)
  {
    assert oas[..|oas|] == oas;
  }

  function Removed(ch: seq<nat>, s: nat): seq<nat> {
    if ch == [] then [] else if ch[0] == s then ch[1..] else [ch[0]] + Removed(ch[1..], s)
  }

  lemma RemovedLater(ch: seq<nat>, s: nat)
    requires |ch| >= 2 && s != ch[0] && s != ch[1]
    ensures var r := Removed(ch, s); |r| >= 2 && r[0] == ch[0] && r[1] == ch[1]
  {
  }

  lemma {:induction false} RemovedAt(states: seq<nat>, k: nat)
    requires k < |states| && forall i, j :: 0 <= i < j < |states| ==> states[i] != states[j]
    ensures Removed(states, states[k]) == states[..k] + states[k + 1..]
    decreases k
  {
    if k > 0 {
      assert states[0] != states[k];
      RemovedAt(states[1..], k - 1);
      assert states == [states[0]] + states[1..];
    }
  }

  lemma {:induction false} RemovedMembers(ch: seq<nat>, s: nat)
    requires forall i, j :: 0 <= i < j < |ch| ==> ch[i] != ch[j]
    ensures forall t :: t in Removed(ch, s) <==> t in ch && t != s
    ensures forall i, j :: 0 <= i < j < |Removed(ch, s)| ==> Removed(ch, s)[i] != Removed(ch, s)[j]
  {
    hide Removed;
    if s in ch {
      var k :| 0 <= k < |ch| && ch[k] == s;
      RemovedAt(ch, k);
      CutMembers(ch, k);
    } else {
      RemovedNone(ch, s);
    }
  }

  lemma CutMembers(ch: seq<nat>, k: nat)
    requires k < |ch| && forall i, j :: 0 <= i < j < |ch| ==> ch[i] != ch[j]
    ensures var r := ch[..k] + ch[k + 1..]; (forall t :: t in r <==> t in ch && t != ch[k]) && forall i, j :: 0 <= i < j < |r| ==> r[i] != r[j]
  {
    var r := ch[..k] + ch[k + 1..];
    forall i | 0 <= i < |r| ensures r[i] == ch[if i < k then i else i + 1] {}
    forall t | t in ch && t != ch[k] ensures t in r {
      var j :| 0 <= j < |ch| && ch[j] == t;
      assert r[if j < k then j else j - 1] == t;
    }
  }

  lemma {:induction false} RemovedNone(ch: seq<nat>, s: nat)
    requires s !in ch
    ensures Removed(ch, s) == ch
  {
    if ch != [] { RemovedNone(ch[1..], s); }
  }
}
