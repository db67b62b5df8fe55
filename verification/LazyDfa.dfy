/** The lazily built DFA of rege_dfa.c: a bounded cache of state sets whose memoised
    transitions are threaded on per-target inarc chains, with eviction. */
module LazyDfa {
  import opened Options
  import opened Cnfa

  /** A "pointer" to outarc co of cache entry ss (struct arcp, regexec.c:37-40). */
  datatype Arcp = Arcp(ss: nat, co: nat)

  /** A cache entry (struct sset, regexec.c:42-57) without its links; the bit vector is the set
      of its members. */
  datatype SSet = SSet(
    states: set<nat>, starter: bool, poststate: bool, locked: bool, noprogress: bool,
    lastseen: Option<nat>)

  // ---------------------------------------------------------------- inarc chains

  /** The link areas of the cache (ins, outsarea and incarea, regexec.c:53-71), one cell per
      entry or per (entry, colour); an absent key is a NULL pointer. */
  datatype Links = Links(ins: map<nat, Arcp>, outs: map<Arcp, nat>, inchain: map<Arcp, Arcp>)

  function Get<K, V>(m: map<K, V>, k: K): Option<V> {
    if k in m then Some(m[k]) else None
  }

  function Put<K, V>(m: map<K, V>, k: K, v: Option<V>): map<K, V> {
    if v.Some? then m[k := v.value] else m - {k}
  }

  ghost function Head(ch: seq<Arcp>, x: nat): Option<Arcp> {
    if x < |ch| then Some(ch[x]) else None
  }

  ghost predicate OnChain(l: Links, ch: seq<Arcp>, x: nat, p: nat)
    requires x < |ch|
  {
    ch[x] in l.outs && l.outs[ch[x]] == p && Get(l.inchain, ch[x]) == Head(ch, x + 1)
  }

  ghost predicate ChainOk(l: Links, ch: seq<Arcp>, p: nat) {
    && Get(l.ins, p) == Head(ch, 0)
    && (forall x :: 0 <= x < |ch| ==> OnChain(l, ch, x, p))
    && (forall x, y :: 0 <= x < y < |ch| ==> ch[x] != ch[y])
  }

  /** The chain of every entry lists exactly the cached outarcs that lead to it, each once. */
  ghost predicate Linked(l: Links, n: nat, nc: nat, chains: map<nat, seq<Arcp>>) {
    && (forall p :: p in chains <==> 0 <= p < n)
    && (forall p :: p in chains ==> ChainOk(l, chains[p], p))
    && (forall a :: a in l.outs ==> a.ss < n && a.co < nc && l.outs[a] in chains && a in chains[l.outs[a]])
  }

  /** The chain surgery that takes element x off the chain of p (rege_dfa.c:686-696). */
  ghost function Unlinked(l: Links, ch: seq<Arcp>, p: nat, x: nat): Links
    requires x < |ch|
  {
    var nxt := Head(ch, x + 1);
    Links(
      if x == 0 then Put(l.ins, p, nxt) else l.ins,
      l.outs - {ch[x]},
      (if x == 0 then l.inchain else Put(l.inchain, ch[x - 1], nxt)) - {ch[x]})
  }

  ghost function RemoveAt(ch: seq<Arcp>, x: nat): seq<Arcp>
    requires x < |ch|
  {
    ch[..x] + ch[x + 1..]
  }

  lemma UnlinkSameChain(l: Links, ch: seq<Arcp>, p: nat, x: nat)
    requires ChainOk(l, ch, p) && x < |ch|
    ensures ChainOk(Unlinked(l, ch, p, x), RemoveAt(ch, x), p)
  {
    var l2, c2 := Unlinked(l, ch, p, x), RemoveAt(ch, x);
    forall y | 0 <= y < |c2| ensures OnChain(l2, c2, y, p) {
      var z := if y < x then y else y + 1;
      assert OnChain(l, ch, z, p) && c2[y] == ch[z] && ch[z] != ch[x];
      if y + 1 == x { assert Head(ch, x + 1) == Head(c2, x); }
    }
    assert OnChain(l, ch, 0, p);
  }

  lemma UnlinkOtherChain(l: Links, ch: seq<Arcp>, p: nat, x: nat, ch2: seq<Arcp>, q: nat)
    requires ChainOk(l, ch, p) && x < |ch| && p != q && ChainOk(l, ch2, q)
    ensures ChainOk(Unlinked(l, ch, p, x), ch2, q)
  {
    var l2 := Unlinked(l, ch, p, x);
    assert OnChain(l, ch, x, p);
    if x > 0 { assert OnChain(l, ch, x - 1, p); }
    forall y | 0 <= y < |ch2| ensures OnChain(l2, ch2, y, q) {
      assert OnChain(l, ch2, y, q);
    }
  }

  lemma OnOwnChain(l: Links, n: nat, nc: nat, chains: map<nat, seq<Arcp>>, a: Arcp) returns (x: nat)
    requires Linked(l, n, nc, chains) && a in l.outs
    ensures l.outs[a] in chains && l.outs[a] < n && x < |chains[l.outs[a]]| && chains[l.outs[a]][x] == a && ChainOk(l, chains[l.outs[a]], l.outs[a])
  {
    x :| 0 <= x < |chains[l.outs[a]]| && chains[l.outs[a]][x] == a;
  }

  /** What the surgery comes to: at the head of the chain, or after ch[x - 1]. */
  lemma UnlinkedIs(l: Links, ch: seq<Arcp>, p: nat, x: nat)
    requires ChainOk(l, ch, p) && x < |ch|
    ensures Get(l.ins, p) == Some(ch[x]) <==> x == 0
    ensures var after := Get(l.inchain, ch[x]);
      Unlinked(l, ch, p, x) == Links(if x == 0 then Put(l.ins, p, after) else l.ins, l.outs - {ch[x]},
                                     (if x == 0 then l.inchain else Put(l.inchain, ch[x - 1], after)) - {ch[x]})
  {
    assert OnChain(l, ch, x, p);
  }

  lemma UnlinkKeepsLinked(l: Links, n: nat, nc: nat, chains: map<nat, seq<Arcp>>, p: nat, x: nat)
    requires Linked(l, n, nc, chains) && p < n && x < |chains[p]|
    ensures Linked(Unlinked(l, chains[p], p, x), n, nc, chains[p := RemoveAt(chains[p], x)])
  {
    var ch := chains[p];
    var l2, c2 := Unlinked(l, ch, p, x), chains[p := RemoveAt(ch, x)];
    forall q | q in c2 ensures ChainOk(l2, c2[q], q) {
      if q == p { UnlinkSameChain(l, ch, p, x); } else { UnlinkOtherChain(l, ch, p, x, chains[q], q); }
    }
    forall a | a in l2.outs ensures l2.outs[a] in c2 && a in c2[l2.outs[a]] {
      assert a in l.outs && a != ch[x] && a in chains[l.outs[a]];
      if l.outs[a] == p {
        var y :| 0 <= y < |ch| && ch[y] == a;
        assert c2[p][if y < x then y else y - 1] == a;
      }
    }
  }

  /** The links as they stand while the inarcs of e are being cleared: its chain starts at ap. */
  function Pending(l: Links, e: nat, ap: Option<Arcp>): Links {
    l.(ins := Put(l.ins, e, ap))
  }

  lemma PopInarc(l: Links, n: nat, nc: nat, chains: map<nat, seq<Arcp>>, e: nat, ap: Option<Arcp>)
    requires Linked(Pending(l, e, ap), n, nc, chains) && e in chains && ap.Some? && e < n
    ensures chains[e] != [] && ap.value in l.outs && l.outs[ap.value] == e
    ensures Linked(Pending(Links(l.ins, l.outs - {ap.value}, l.inchain - {ap.value}), e, Get(l.inchain, ap.value)),
                   n, nc, chains[e := chains[e][1..]])
  {
    hide ChainOk;
    var w := Pending(l, e, ap);
    FirstOnChain(w, chains[e], e);
    UnlinkKeepsLinked(w, n, nc, chains, e, 0);
    hide Linked;
    assert RemoveAt(chains[e], 0) == chains[e][1..];
    assert Unlinked(w, chains[e], e, 0)
        == Pending(Links(l.ins, l.outs - {ap.value}, l.inchain - {ap.value}), e, Get(l.inchain, ap.value));
  }

  lemma FirstOnChain(l: Links, ch: seq<Arcp>, p: nat)
    requires ChainOk(l, ch, p) && p in l.ins
    ensures |ch| > 0 && l.ins[p] == ch[0] && ch[0] in l.outs && l.outs[ch[0]] == p
    ensures Get(l.inchain, ch[0]) == Head(ch, 1)
  {
    assert OnChain(l, ch, 0, p);
  }

  lemma ChainExists(l: Links, n: nat, nc: nat, chains: map<nat, seq<Arcp>>, e: nat)
    requires Linked(l, n, nc, chains) && e < n
    ensures e in chains && (Get(l.ins, e).None? <==> chains[e] == [])
    ensures Pending(l, e, Get(l.ins, e)) == l
  {
    assert ChainOk(l, chains[e], e);
  }

  lemma InChainOfTarget(l: Links, n: nat, nc: nat, chains: map<nat, seq<Arcp>>, a: Arcp)
    requires Linked(l, n, nc, chains) && a in l.outs
    ensures a.ss < n && a.co < nc && l.outs[a] < n && l.outs[a] in chains && a in chains[l.outs[a]]
  {
  }

  /** Thread outarc a, so far empty, onto the chain of p (rege_dfa.c:600-603). */
  function LinkTo(l: Links, a: Arcp, p: nat): Links {
    Links(l.ins[p := a], l.outs[a := p], Put(l.inchain, a, Get(l.ins, p)))
  }

  lemma ChainThere(l: Links, n: nat, nc: nat, chains: map<nat, seq<Arcp>>, p: nat)
    requires Linked(l, n, nc, chains) && p < n
    ensures p in chains
  {
  }

  lemma LinkKeepsLinked(l: Links, n: nat, nc: nat, chains: map<nat, seq<Arcp>>, a: Arcp, p: nat)
    requires Linked(l, n, nc, chains) && a.ss < n && a.co < nc && p < n && a !in l.outs
    ensures Linked(LinkTo(l, a, p), n, nc, chains[p := [a] + chains[p]])
  {
    var l2, c2 := LinkTo(l, a, p), chains[p := [a] + chains[p]];
    forall q | q in c2 ensures ChainOk(l2, c2[q], q) {
      if q == p { LinkSameChain(l, chains[p], a, p); } else { LinkOtherChain(l, chains[q], a, p, q); }
    }
    hide ChainOk;
    forall b | b in l2.outs ensures l2.outs[b] in c2 && b in c2[l2.outs[b]] {
      if b == a { assert c2[p][0] == a; } else { assert b in chains[l.outs[b]]; }
    }
  }

  lemma LinkSameChain(l: Links, ch: seq<Arcp>, a: Arcp, p: nat)
    requires ChainOk(l, ch, p) && a !in l.outs
    ensures ChainOk(LinkTo(l, a, p), [a] + ch, p)
  {
    var l2, ch2 := LinkTo(l, a, p), [a] + ch;
    assert Head(ch2, 1) == Head(ch, 0);
    forall y | 0 <= y < |ch2| ensures OnChain(l2, ch2, y, p) {
      if y > 0 { assert OnChain(l, ch, y - 1, p) && ch2[y] == ch[y - 1]; }
    }
    forall x, y | 0 <= x < y < |ch2| ensures ch2[x] != ch2[y] { assert OnChain(l, ch, y - 1, p) && ch2[y] == ch[y - 1]; }
  }

  lemma LinkOtherChain(l: Links, ch: seq<Arcp>, a: Arcp, p: nat, q: nat)
    requires ChainOk(l, ch, q) && a !in l.outs && p != q
    ensures ChainOk(LinkTo(l, a, p), ch, q)
  {
    forall y | 0 <= y < |ch| ensures OnChain(LinkTo(l, a, p), ch, y, q) { assert OnChain(l, ch, y, q); }
  }

  lemma FreshKeepsLinked(l: Links, n: nat, nc: nat, chains: map<nat, seq<Arcp>>)
    requires Linked(l, n, nc, chains)
    ensures Linked(l.(ins := l.ins - {n}), n + 1, nc, chains[n := []])
  {
    var l2, c2 := l.(ins := l.ins - {n}), chains[n := []];
    forall q | q in c2 ensures ChainOk(l2, c2[q], q) {
      if q != n {
        forall y | 0 <= y < |c2[q]| ensures OnChain(l2, c2[q], y, q) {
          assert OnChain(l, chains[q], y, q);
        }
      }
    }
  }

  // ---------------------------------------------------------------- the cache as a set of facts

  ghost predicate NoProg(c: Cnfa, s: set<nat>) {
    forall q :: q in s ==> q < |c.stflags| && c.stflags[q]
  }

  ghost predicate NoLacon(c: Cnfa, s: set<nat>) {
    forall p, j :: p in s && p < |c.states| && 0 <= j < |c.states[p]| ==> c.states[p][j].co < c.ncolors
  }

  ghost predicate EntryOk(c: Cnfa, e: SSet, first: bool) {
    && (forall q :: q in e.states ==> q < |c.states|)
    && e.states != {}
    && (e.poststate <==> c.post in e.states)
    && (e.noprogress <==> NoProg(c, e.states))
    && (e.starter <==> first) && (e.locked <==> first)
    && (first ==> e.states == {c.pre})
  }

  /** A memoised transition is right at every position: it was computed with no lookahead in play. */
  ghost predicate TransitionsOk(c: Cnfa, ss: seq<SSet>, outs: map<Arcp, nat>) {
    forall a :: a in outs ==>
      a.ss < |ss| && outs[a] < |ss| &&
      ss[outs[a]].states == PlainStep(c, ss[a.ss].states, a.co) &&
      NoLacon(c, ss[outs[a]].states)
  }

  /** No two entries are for the same set. */
  ghost predicate SetsDiffer(ss: seq<SSet>) {
    forall i, j :: 0 <= i < j < |ss| ==> ss[i].states != ss[j].states
  }

  ghost predicate EntriesOk(c: Cnfa, ss: seq<SSet>) {
    forall i :: 0 <= i < |ss| ==> EntryOk(c, ss[i], i == 0)
  }

  lemma TransitionAdded(c: Cnfa, ss: seq<SSet>, outs: map<Arcp, nat>, a: Arcp, p: nat)
    requires TransitionsOk(c, ss, outs) && a.ss < |ss| && p < |ss|
    requires ss[p].states == PlainStep(c, ss[a.ss].states, a.co) && NoLacon(c, ss[p].states)
    ensures TransitionsOk(c, ss, outs[a := p])
  {
    hide PlainStep, NoLacon;
  }

  lemma TransitionHere(c: Cnfa, ss: seq<SSet>, outs: map<Arcp, nat>, a: Arcp)
    requires TransitionsOk(c, ss, outs) && a in outs
    ensures a.ss < |ss| && outs[a] < |ss| && ss[outs[a]].states == PlainStep(c, ss[a.ss].states, a.co) && NoLacon(c, ss[outs[a]].states)
  {
  }

  lemma StatesKnown(c: Cnfa, ss: seq<SSet>, i: nat)
    requires EntriesOk(c, ss) && i < |ss|
    ensures forall q :: q in ss[i].states ==> q < |c.states|
  {
  }

  lemma StepLives(c: Cnfa, v: Text, s: set<nat>, co: nat, pos: nat)
    requires PlainStep(c, s, co) != {}
    ensures Step(c, v, s, co, pos) != {}
  {
    var q :| q in PlainStep(c, s, co);
    ClosureContains(c, v, pos, PlainStep(c, s, co), q);
  }

  lemma StepEntryOk(c: Cnfa, v: Text, s: set<nat>, co: nat, pos: nat, work: set<nat>, isPost: bool, noProgress: bool)
    requires work == Step(c, v, s, co, pos) && work != {} && (isPost <==> c.post in work) && (noProgress <==> NoProg(c, work))
    ensures forall l :: EntryOk(c, SSet(work, false, isPost, false, noProgress, l), false)
  {
  }

  /** Recording a visit disturbs nothing else. */
  lemma VisitKeepsFacts(c: Cnfa, ss: seq<SSet>, outs: map<Arcp, nat>, i: nat, l: Option<nat>)
    requires EntriesOk(c, ss) && TransitionsOk(c, ss, outs) && i < |ss|
    ensures EntriesOk(c, ss[i := ss[i].(lastseen := l)]) && TransitionsOk(c, ss[i := ss[i].(lastseen := l)], outs)
    ensures SetsDiffer(ss) ==> SetsDiffer(ss[i := ss[i].(lastseen := l)])
  {
  }

  /** Filling an unlinked entry keeps every other fact. */
  lemma RefillKeepsFacts(c: Cnfa, ss: seq<SSet>, outs: map<Arcp, nat>, ss1: seq<SSet>, outs1: map<Arcp, nat>, p: nat, e: SSet)
    requires EntriesOk(c, ss) && TransitionsOk(c, ss, outs)
    requires ss1 == ss || (ss1 == ss + [VACANT] && p == |ss|)
    requires p < |ss1| && EntryOk(c, e, p == 0)
    requires forall a :: a in outs1 ==> a in outs && outs1[a] == outs[a] && a.ss != p && outs1[a] != p
    ensures EntriesOk(c, ss1[p := e]) && TransitionsOk(c, ss1[p := e], outs1)
    ensures SetsDiffer(ss) && (forall i :: 0 <= i < |ss| ==> ss[i].states != e.states) ==> SetsDiffer(ss1[p := e])
  {
    hide PlainStep, NoLacon, EntryOk;
    var ss2 := ss1[p := e];
    assert forall i :: 0 <= i < |ss2| && i != p ==> i < |ss| && ss2[i] == ss[i];
  }

  lemma NoLaconStep(c: Cnfa, v: Text, s: set<nat>, co: nat, pos: nat)
    requires NoLacon(c, PlainStep(c, s, co))
    ensures Step(c, v, s, co, pos) == PlainStep(c, s, co)
  {
    var t := PlainStep(c, s, co);
    ClosureLeast(c, v, pos, t, t);
    forall q | q in t ensures q in Closure(c, v, pos, t) { ClosureContains(c, v, pos, t, q); }
  }

  /** Entries seen in the window of the most recent 2/3 of the cache size cannot fill it. */
  lemma Pigeonhole(f: seq<int>, lo: int, hi: int)
    requires forall i :: 0 <= i < |f| ==> lo <= f[i] <= hi
    requires forall i, j :: 0 <= i < j < |f| ==> f[i] != f[j]
    ensures |f| <= if lo <= hi then hi - lo + 1 else 0
    decreases hi - lo
  {
    if |f| > 0 {
      assert lo <= f[0] <= hi;
      if hi in f {
        var k :| 0 <= k < |f| && f[k] == hi;
        var g := f[..k] + f[k + 1..];
        assert forall i :: 0 <= i < |g| ==> g[i] == f[if i < k then i else i + 1];
        Pigeonhole(g, lo, hi - 1);
      } else {
        Pigeonhole(f, lo, hi - 1);
      }
    }
  }

  /** What a miss may do to the cache (ss, lp, ln): at most entry p changes content, and what an
      evicted entry had recorded moves to lastpost and lastnopr. */
  ghost predicate Grown(ss: seq<SSet>, lp: Option<nat>, ln: Option<nat>,
                        ss1: seq<SSet>, lp1: Option<nat>, ln1: Option<nat>, p: nat)
  {
    && |ss| <= |ss1| <= (if p == |ss| then p + 1 else |ss|) && p < |ss1|
    && (forall i :: 0 <= i < |ss| && i != p ==> ss1[i] == ss[i])
    && if p < |ss| && ss1[p] != ss[p] then
         && p != 0
         && lp1 == (if ss[p].poststate then MaxOpt(lp, ss[p].lastseen) else lp)
         && ln1 == (if ss[p].noprogress then MaxOpt(ln, ss[p].lastseen) else ln)
       else lp1 == lp && ln1 == ln
  }

  // ---------------------------------------------------------------- the history of one execution

  /** Position l is remembered as a success (a no-progress point): by last, or by an entry that was
      seen there or later. */
  ghost predicate Remembered(ss: seq<SSet>, last: Option<nat>, nopr: bool, l: nat) {
    AtLeast(last, l) ||
    exists i :: 0 <= i < |ss| && (if nopr then ss[i].noprogress else ss[i].poststate) && AtLeast(ss[i].lastseen, l)
  }

  /** Every lastseen is a true visit, but for the starter's first one. */
  ghost predicate VisitsTrue(c: Cnfa, v: Text, start: nat, cp: nat, ss: seq<SSet>)
    requires start <= cp <= v.Stop()
  {
    forall i :: 0 <= i < |ss| && ss[i].lastseen.Some? ==>
      start <= ss[i].lastseen.value <= cp &&
      ((i == 0 && ss[i].lastseen.value == start) || ss[i].states == SimSet(c, v, start, ss[i].lastseen.value))
  }

  /** No two unlocked entries were last seen at the same place. */
  ghost predicate VisitsDistinct(ss: seq<SSet>) {
    forall i, j :: 1 <= i < j < |ss| && ss[i].lastseen.Some? ==> ss[i].lastseen != ss[j].lastseen
  }

  /** What the cache knows after symbols start..cp: no success and no no-progress point has been
      forgotten, and nothing else is recorded. */
  ghost predicate History(c: Cnfa, v: Text, start: nat, cp: nat, ss: seq<SSet>, lp: Option<nat>, ln: Option<nat>)
    requires start <= cp <= v.Stop()
  {
    && VisitsTrue(c, v, start, cp, ss) && VisitsDistinct(ss)
    && (lp.Some? ==> start <= lp.value <= cp && c.post in SimSet(c, v, start, lp.value))
    && (ln.Some? ==> start <= ln.value <= cp && NoProg(c, SimSet(c, v, start, ln.value)))
    && (forall l :: start <= l <= cp && c.post in SimSet(c, v, start, l) ==> Remembered(ss, lp, false, l))
    && (forall l :: start <= l <= cp && NoProg(c, SimSet(c, v, start, l)) ==> Remembered(ss, ln, true, l))
  }

  /** The history right after initialize() and the startup miss: only the starter and entry p count. */
  lemma HistoryStarts(c: Cnfa, v: Text, start: nat, ss: seq<SSet>, p: nat)
    requires WellFormed(c) && EntriesOk(c, ss) && start <= v.Stop() && p < |ss|
    requires ss[0].lastseen == Some(start) && ss[p].lastseen == Some(start)
    requires forall i :: 1 <= i < |ss| && i != p ==> ss[i].lastseen.None?
    requires ss[p].states == SimSet(c, v, start, start)
    ensures History(c, v, start, start, ss, None, None)
  {
    assert EntryOk(c, ss[p], p == 0);
  }

  function Visit(ss: seq<SSet>, p: nat, l: nat): seq<SSet>
    requires p < |ss|
  {
    ss[p := ss[p].(lastseen := Some(l))]
  }

  /** Eviction forgets nothing: what an evicted entry recorded is still remembered. */
  lemma RememberedGrows(ss: seq<SSet>, lp: Option<nat>, ln: Option<nat>, ss1: seq<SSet>, lp1: Option<nat>, ln1: Option<nat>,
                        p: nat, l: nat, k: nat)
    requires Grown(ss, lp, ln, ss1, lp1, ln1, p) && l <= k
    requires forall i :: 0 <= i < |ss| && ss[i].lastseen.Some? ==> ss[i].lastseen.value <= k
    ensures Remembered(ss, lp, false, l) ==> Remembered(Visit(ss1, p, k), lp1, false, l)
    ensures Remembered(ss, ln, true, l) ==> Remembered(Visit(ss1, p, k), ln1, true, l)
  {
    var ss2 := Visit(ss1, p, k);
    forall i | 0 <= i < |ss| && i != p ensures ss2[i] == ss[i] {}
    if Remembered(ss, lp, false, l) && !AtLeast(lp, l) {
      var i :| 0 <= i < |ss| && ss[i].poststate && AtLeast(ss[i].lastseen, l);
      assert i != p ==> ss2[i] == ss[i];
      assert i == p && ss1[p] == ss[p] ==> ss2[p].poststate && AtLeast(ss2[p].lastseen, l);
    }
    if Remembered(ss, ln, true, l) && !AtLeast(ln, l) {
      var i :| 0 <= i < |ss| && ss[i].noprogress && AtLeast(ss[i].lastseen, l);
      assert i != p ==> ss2[i] == ss[i];
      assert i == p && ss1[p] == ss[p] ==> ss2[p].noprogress && AtLeast(ss2[p].lastseen, l);
    }
  }

  lemma VisitsGrow(c: Cnfa, v: Text, start: nat, cp: nat, ss: seq<SSet>, ss1: seq<SSet>, p: nat)
    requires start <= cp < v.Stop() && p < |ss1|
    requires VisitsTrue(c, v, start, cp, ss) && VisitsDistinct(ss)
    requires |ss| <= |ss1| <= (if p == |ss| then p + 1 else |ss|)
    requires forall i :: 0 <= i < |ss| && i != p ==> ss1[i] == ss[i]
    requires ss1[p].states == SimSet(c, v, start, cp + 1)
    ensures VisitsTrue(c, v, start, cp + 1, Visit(ss1, p, cp + 1)) && VisitsDistinct(Visit(ss1, p, cp + 1))
  {
    hide SimSet;
    var ss2 := Visit(ss1, p, cp + 1);
    assert forall i :: 0 <= i < |ss2| && i != p ==> i < |ss| && ss2[i] == ss[i];
  }

  /** What the visit of entry p at position l records. */
  lemma VisitRemembered(c: Cnfa, ss1: seq<SSet>, p: nat, l: nat, lp1: Option<nat>, ln1: Option<nat>)
    requires EntriesOk(c, ss1) && p < |ss1|
    ensures c.post in ss1[p].states ==> Remembered(Visit(ss1, p, l), lp1, false, l)
    ensures NoProg(c, ss1[p].states) ==> Remembered(Visit(ss1, p, l), ln1, true, l)
  {
    assert EntryOk(c, ss1[p], p == 0);
    var ss2 := Visit(ss1, p, l);
    assert AtLeast(ss2[p].lastseen, l);
  }

  /** What an evicted entry recorded was true. */
  lemma EvictedTrue(c: Cnfa, v: Text, start: nat, cp: nat,
                    ss: seq<SSet>, lp: Option<nat>, ln: Option<nat>,
                    ss1: seq<SSet>, lp1: Option<nat>, ln1: Option<nat>, p: nat)
    requires start <= cp <= v.Stop() && EntriesOk(c, ss)
    requires History(c, v, start, cp, ss, lp, ln) && Grown(ss, lp, ln, ss1, lp1, ln1, p)
    ensures lp1.Some? ==> start <= lp1.value <= cp && c.post in SimSet(c, v, start, lp1.value)
    ensures ln1.Some? ==> start <= ln1.value <= cp && NoProg(c, SimSet(c, v, start, ln1.value))
  {
    hide SimSet, NoProg, Remembered;
    if p < |ss| && ss1[p] != ss[p] { assert EntryOk(c, ss[p], false); }
  }

  /** Entering entry p at position cp + 1 extends the history by one symbol. */
  lemma HistoryGrows(c: Cnfa, v: Text, start: nat, cp: nat,
                     ss: seq<SSet>, lp: Option<nat>, ln: Option<nat>,
                     ss1: seq<SSet>, lp1: Option<nat>, ln1: Option<nat>, p: nat)
    requires start <= cp < v.Stop() && EntriesOk(c, ss) && EntriesOk(c, ss1)
    requires History(c, v, start, cp, ss, lp, ln) && Grown(ss, lp, ln, ss1, lp1, ln1, p)
    requires ss1[p].states == SimSet(c, v, start, cp + 1)
    ensures History(c, v, start, cp + 1, Visit(ss1, p, cp + 1), lp1, ln1)
  {
    EvictedTrue(c, v, start, cp, ss, lp, ln, ss1, lp1, ln1, p);
    VisitsGrow(c, v, start, cp, ss, ss1, p);
    forall l: nat | start <= l <= cp + 1
      ensures c.post in SimSet(c, v, start, l) ==> Remembered(Visit(ss1, p, cp + 1), lp1, false, l)
      ensures NoProg(c, SimSet(c, v, start, l)) ==> Remembered(Visit(ss1, p, cp + 1), ln1, true, l)
    {
      PositionRemembered(c, v, start, cp, ss, lp, ln, ss1, lp1, ln1, p, l);
    }
    hide SimSet, NoProg, Remembered, EntriesOk, VisitsDistinct, VisitsTrue, Grown;
  }

  lemma PositionRemembered(c: Cnfa, v: Text, start: nat, cp: nat,
                           ss: seq<SSet>, lp: Option<nat>, ln: Option<nat>,
                           ss1: seq<SSet>, lp1: Option<nat>, ln1: Option<nat>, p: nat, l: nat)
    requires start <= cp && start <= l <= cp + 1 <= v.Stop() && EntriesOk(c, ss1)
    requires History(c, v, start, cp, ss, lp, ln) && Grown(ss, lp, ln, ss1, lp1, ln1, p)
    requires ss1[p].states == SimSet(c, v, start, cp + 1)
    ensures c.post in SimSet(c, v, start, l) ==> Remembered(Visit(ss1, p, cp + 1), lp1, false, l)
    ensures NoProg(c, SimSet(c, v, start, l)) ==> Remembered(Visit(ss1, p, cp + 1), ln1, true, l)
  {
    hide SimSet, NoProg, Remembered;
    if l <= cp {
      RememberedGrows(ss, lp, ln, ss1, lp1, ln1, p, l, cp + 1);
    } else {
      VisitRemembered(c, ss1, p, cp + 1, lp1, ln1);
    }
  }

  /** The successes up to cp are exactly what lastpost and the entries remember. */
  ghost predicate Successes(c: Cnfa, v: Text, start: nat, cp: nat, ss: seq<SSet>, lp: Option<nat>)
    requires start <= cp <= v.Stop()
  {
    && (lp.Some? ==> start <= lp.value <= cp && c.post in SimSet(c, v, start, lp.value))
    && (forall i :: 0 <= i < |ss| && ss[i].poststate && ss[i].lastseen.Some? ==>
          start <= ss[i].lastseen.value <= cp && c.post in SimSet(c, v, start, ss[i].lastseen.value))
    && (forall l :: start <= l <= cp && c.post in SimSet(c, v, start, l) ==> Remembered(ss, lp, false, l))
  }

  lemma HistoryGivesSuccesses(c: Cnfa, v: Text, start: nat, cp: nat, ss: seq<SSet>, lp: Option<nat>, ln: Option<nat>)
    requires WellFormed(c) && EntriesOk(c, ss) && start <= cp <= v.Stop() && History(c, v, start, cp, ss, lp, ln)
    ensures Successes(c, v, start, cp, ss, lp)
  {
    hide SimSet;
    forall i | 0 <= i < |ss| && ss[i].poststate && ss[i].lastseen.Some?
      ensures start <= ss[i].lastseen.value <= cp && c.post in SimSet(c, v, start, ss[i].lastseen.value)
    {
      assert EntryOk(c, ss[i], i == 0);
    }
  }

  /** The no-progress points up to cp are what lastnopr and the entries remember, give or take start. */
  ghost predicate ColdPoints(c: Cnfa, v: Text, start: nat, cp: nat, ss: seq<SSet>, ln: Option<nat>)
    requires start <= cp <= v.Stop()
  {
    && (ln.Some? ==> start <= ln.value <= cp && NoProg(c, SimSet(c, v, start, ln.value)))
    && (forall i :: 0 <= i < |ss| && ss[i].noprogress && ss[i].lastseen.Some? ==>
          start <= ss[i].lastseen.value <= cp &&
          (ss[i].lastseen.value == start || NoProg(c, SimSet(c, v, start, ss[i].lastseen.value))))
    && (forall l :: start <= l <= cp && NoProg(c, SimSet(c, v, start, l)) ==> Remembered(ss, ln, true, l))
  }

  lemma HistoryGivesColdPoints(c: Cnfa, v: Text, start: nat, cp: nat, ss: seq<SSet>, lp: Option<nat>, ln: Option<nat>)
    requires EntriesOk(c, ss) && start <= cp <= v.Stop() && History(c, v, start, cp, ss, lp, ln)
    ensures ColdPoints(c, v, start, cp, ss, ln)
  {
    hide SimSet, NoProg;
    forall i | 0 <= i < |ss| && ss[i].noprogress && ss[i].lastseen.Some?
      ensures start <= ss[i].lastseen.value <= cp &&
              (ss[i].lastseen.value == start || NoProg(c, SimSet(c, v, start, ss[i].lastseen.value)))
    {
      assert EntryOk(c, ss[i], i == 0);
    }
  }

  /** The end-of-string miss adds no success of its own here and loses none. */
  lemma SuccessesSurvive(c: Cnfa, v: Text, start: nat, cp: nat,
                         ss: seq<SSet>, lp: Option<nat>, ln: Option<nat>,
                         ss1: seq<SSet>, lp1: Option<nat>, ln1: Option<nat>, p: nat)
    requires start <= cp <= v.Stop() && VisitsTrue(c, v, start, cp, ss)
    requires Successes(c, v, start, cp, ss, lp) && Grown(ss, lp, ln, ss1, lp1, ln1, p) && !ss1[p].poststate
    ensures Successes(c, v, start, cp, Visit(ss1, p, cp), lp1)
  {
    hide SimSet;
    forall l | start <= l <= cp && c.post in SimSet(c, v, start, l) ensures Remembered(Visit(ss1, p, cp), lp1, false, l) {
      RememberedGrows(ss, lp, ln, ss1, lp1, ln1, p, l, cp);
    }
  }

  lemma MatchAtEnd(c: Cnfa, v: Text, start: nat)
    requires start <= v.Stop() && c.post in SimSet(c, v, start, v.Stop() + 1)
    ensures IsLongest(c, v, start, v.Stop(), Some(v.Stop()))
  {
  }

  ghost predicate NoSuccess(c: Cnfa, v: Text, start: nat, l: nat) {
    start <= l <= v.Stop() && c.post !in SimSet(c, v, start, l)
  }

  /** No success at any of the positions lo..hi. */
  ghost predicate NoSuccessIn(c: Cnfa, v: Text, start: nat, lo: nat, hi: int) {
    forall l: nat :: start <= l <= hi && lo <= l ==> NoSuccess(c, v, start, l)
  }

  lemma NoSuccessAtStart(c: Cnfa, v: Text, start: nat, lo: nat)
    requires WellFormed(c) && start <= v.Stop()
    ensures NoSuccessIn(c, v, start, lo, start)
  {
    FirstSetLacksPost(c, v, start);
    hide SimSet;
  }

  lemma NoSuccessNext(c: Cnfa, v: Text, start: nat, lo: nat, hi: nat)
    requires NoSuccessIn(c, v, start, lo, hi) && (lo <= hi + 1 ==> NoSuccess(c, v, start, hi + 1))
    ensures NoSuccessIn(c, v, start, lo, hi + 1)
  {
    hide SimSet;
  }

  lemma NoMatchAmong(c: Cnfa, v: Text, start: nat, min: nat, hi: int, cp: int, realmin: nat)
    requires start <= min <= v.Stop() && hi <= v.Stop() && realmin == (if min == v.Stop() then min else min + 1)
    requires NoSuccessIn(c, v, start, realmin, cp)
    requires hi + 1 <= cp || forall l :: start <= l <= v.Stop() + 1 && cp < l ==> SimSet(c, v, start, l) == {}
    ensures forall e :: min <= e <= hi ==> !Matches(c, v, start, e)
  {
    hide SimSet;
    forall e | min <= e <= hi ensures !Matches(c, v, start, e) {
      if e + 1 <= cp { assert NoSuccess(c, v, start, e + 1); }
      else { assert SimSet(c, v, start, e + 1) == {}; }
    }
  }

  /** nopr is the last position up to cp at which no progress had been made, with start standing in
      for every earlier one. */
  ghost predicate IsCold(c: Cnfa, v: Text, start: nat, cp: nat, nopr: nat)
    requires start <= cp <= v.Stop()
  {
    && nopr <= cp && (nopr <= start || NoProg(c, SimSet(c, v, start, nopr)))
    && forall l :: nopr < l <= cp && start <= l ==> !NoProg(c, SimSet(c, v, start, l))
  }

  /** What the closing loop finds is the longest match. */
  lemma LastSuccessIsLongest(c: Cnfa, v: Text, start: nat, stop: nat, cp: nat, ss: seq<SSet>, lp: Option<nat>, post: Option<nat>)
    requires WellFormed(c) && start <= stop <= v.Stop() && start <= cp <= v.Stop()
    requires Successes(c, v, start, cp, ss, lp)
    requires post.Some? ==> post == lp || exists i :: 0 <= i < |ss| && ss[i].poststate && ss[i].lastseen == post
    requires forall l :: Remembered(ss, lp, false, l) ==> AtLeast(post, l)
    requires cp <= stop + 1
    requires forall l :: cp < l <= stop + 1 ==> c.post !in SimSet(c, v, start, l)
    ensures post.Some? ==> start < post.value
    ensures IsLongest(c, v, start, stop, if post.Some? then Some(post.value - 1) else None)
  {
    hide Successes, Remembered, SimSet, WellFormed;
    if post.Some? { SuccessTrue(c, v, start, cp, ss, lp, post.value); }
    var r := if post.Some? then Some(post.value - 1) else None;
    forall e: nat | start <= e <= stop && Matches(c, v, start, e) ensures r.Some? && e <= r.value {
      MatchRemembered(c, v, start, stop, cp, ss, lp, e);
    }
  }

  lemma SuccessTrue(c: Cnfa, v: Text, start: nat, cp: nat, ss: seq<SSet>, lp: Option<nat>, l: nat)
    requires WellFormed(c) && start <= cp <= v.Stop() && Successes(c, v, start, cp, ss, lp)
    requires Some(l) == lp || exists i :: 0 <= i < |ss| && ss[i].poststate && ss[i].lastseen == Some(l)
    ensures start < l <= cp && c.post in SimSet(c, v, start, l)
  {
    FirstSetLacksPost(c, v, start);
    hide SimSet, WellFormed, Remembered;
  }

  lemma MatchRemembered(c: Cnfa, v: Text, start: nat, stop: nat, cp: nat, ss: seq<SSet>, lp: Option<nat>, e: nat)
    requires start <= stop <= v.Stop() && start <= cp <= v.Stop() && Successes(c, v, start, cp, ss, lp)
    requires forall l :: cp < l <= stop + 1 ==> c.post !in SimSet(c, v, start, l)
    requires e <= stop && Matches(c, v, start, e)
    ensures Remembered(ss, lp, false, e + 1)
  {
    hide SimSet;
  }

  const VACANT := SSet({}, false, false, false, false, None)

  lemma SymbolKnown(c: Cnfa, v: Text, k: nat)
    requires WellFormed(c) && Fits(c, v) && k <= v.Stop() + 1
    ensures Sym(c, v, k) < c.ncolors
  {
  }

  lemma SimNext(c: Cnfa, v: Text, start: nat, k: nat)
    requires start <= k <= v.Stop()
    ensures SimSet(c, v, start, k + 1) == Step(c, v, SimSet(c, v, start, k), Sym(c, v, k + 1), Pos(v, k + 1))
  {
  }

  lemma HistoryVisits(c: Cnfa, v: Text, start: nat, cp: nat, ss: seq<SSet>, lp: Option<nat>, ln: Option<nat>)
    requires start <= cp <= v.Stop() && History(c, v, start, cp, ss, lp, ln)
    ensures VisitsTrue(c, v, start, cp, ss) && VisitsDistinct(ss)
  {
  }

  lemma EntryHere(c: Cnfa, ss: seq<SSet>, i: nat)
    requires EntriesOk(c, ss) && i < |ss|
    ensures EntryOk(c, ss[i], i == 0)
  {
  }

  // ---------------------------------------------------------------- automata of two or three states

  /** A number for each set of states other than pre. */
  function Code(s: set<nat>, q: nat, r: nat): int { (if q in s then 1 else 0) + (if r in s && r != q then 2 else 0) }

  /** Sets that all hold pre, or all do not, and hold something else besides: there are no more than three. */
  lemma FewSets(sets: seq<set<nat>>, n: nat, pre: nat, with: bool)
    requires 2 <= n <= 3 && pre < n
    requires forall i :: 0 <= i < |sets| ==> OneOf(sets[i], n, pre, with)
    requires forall i, j :: 0 <= i < j < |sets| ==> sets[i] != sets[j]
    ensures |sets| <= 2 * n - 3
  {
    var q := if pre == 0 then 1 else 0;
    var r := if n == 2 then q else 3 - pre - q;
    var codes := seq(|sets|, i requires 0 <= i < |sets| => Code(sets[i], q, r));
    forall i | 0 <= i < |codes| ensures 1 <= codes[i] <= 2 * n - 3 {
      assert OneOf(sets[i], n, pre, with);
      var x :| x in sets[i] && x != pre;
    }
    forall i, j | 0 <= i < j < |codes| ensures codes[i] != codes[j] { SameCode(sets[i], sets[j], n, pre, with, q, r); }
    Pigeonhole(codes, 1, 2 * n - 3);
  }

  ghost predicate OneOf(s: set<nat>, n: nat, pre: nat, with: bool) {
    (forall x :: x in s ==> x < n) && (pre in s <==> with) && exists x :: x in s && x != pre
  }

  lemma SameCode(s: set<nat>, t: set<nat>, n: nat, pre: nat, with: bool, q: nat, r: nat)
    requires OneOf(s, n, pre, with) && OneOf(t, n, pre, with) && q != pre && r != pre
    requires forall x :: x in s || x in t ==> x == pre || x == q || x == r
    ensures Code(s, q, r) == Code(t, q, r) ==> s == t
  {
    if Code(s, q, r) == Code(t, q, r) {
      forall x ensures x in s <==> x in t {}
    }
  }

  lemma SomeOther(s: set<nat>, p: nat)
    ensures s != {} && s != {p} ==> exists x :: x in s && x != p
  {
    if s != {} && forall x :: x in s ==> x == p { assert s == {p}; }
  }

  /** So a full cache of a steady attempt has an entry that has not been seen. */
  lemma SomeUnseen(c: Cnfa, v: Text, start: nat, cp: nat, ss: seq<SSet>)
    requires WellFormed(c) && Steady(c, v) && EntriesOk(c, ss) && SetsDiffer(ss) && start <= cp <= v.Stop()
    requires |ss| == 2 * |c.states| < 7 && VisitsTrue(c, v, start, cp, ss)
    ensures exists i :: 1 <= i < |ss| && ss[i].lastseen.None?
  {
    hide WellFormed, Steady, EntriesOk, SetsDiffer, VisitsTrue, OneOf;
    AtLeastTwo(c);
    var sets := seq(|ss| - 1, k requires 0 <= k < |ss| - 1 => ss[k + 1].states);
    if forall k :: 1 <= k < |ss| ==> ss[k].lastseen.Some? {
      forall k | 0 <= k < |sets| ensures OneOf(sets[k], |c.states|, c.pre, !NoReturn(c)) { SeenSet(c, v, start, cp, ss, k + 1); }
      forall k, m | 0 <= k < m < |sets| ensures sets[k] != sets[m] { DifferHere(ss, k + 1, m + 1); }
      FewSets(sets, |c.states|, c.pre, !NoReturn(c));
    }
  }

  lemma AtLeastTwo(c: Cnfa)
    requires WellFormed(c)
    ensures |c.states| >= 2 && c.pre < |c.states|
  {
  }

  lemma DifferHere(ss: seq<SSet>, i: nat, j: nat)
    requires SetsDiffer(ss) && i < |ss| && j < |ss| && i != j
    ensures ss[i].states != ss[j].states
  {
  }

  /** What an entry other than the starter can be seen with. */
  lemma SeenSet(c: Cnfa, v: Text, start: nat, cp: nat, ss: seq<SSet>, i: nat)
    requires Steady(c, v) && EntriesOk(c, ss) && SetsDiffer(ss) && start <= cp <= v.Stop()
    requires 1 <= i < |ss| && ss[i].lastseen.Some? && VisitsTrue(c, v, start, cp, ss)
    ensures OneOf(ss[i].states, |c.states|, c.pre, !NoReturn(c))
  {
    hide SimSet;
    assert EntryOk(c, ss[i], false) && EntryOk(c, ss[0], true);
    DifferHere(ss, 0, i);
    var l := ss[i].lastseen.value;
    if NoReturn(c) { NeverPre(c, v, start, l); } else { AlwaysPre(c, v, start, l); }
    SomeOther(ss[i].states, c.pre);
  }

  class Dfa {
    const cnfa: Cnfa
    const nssets: nat
    var ssets: seq<SSet>          // the nssused entries in use
    var lastpost: Option<nat>
    var lastnopr: Option<nat>
    var search: nat
    var links: Links
    ghost var chains: map<nat, seq<Arcp>>

    ghost predicate Valid()
      reads this
    {
      && WellFormed(cnfa) && 2 <= nssets && |ssets| <= nssets && search <= nssets
      && Linked(links, |ssets|, cnfa.ncolors, chains)
      && EntriesOk(cnfa, ssets) && TransitionsOk(cnfa, ssets, links.outs)
      && SetsDiffer(ssets) && (nssets == 7 || nssets == 2 * |cnfa.states|)
    }

    constructor (c: Cnfa, small: bool)
      requires WellFormed(c)
      ensures Valid() && cnfa == c && nssets == (if small then 7 else 2 * |c.states|)
    {
      cnfa := c;
      nssets := if small then 7 else 2 * |c.states|;
      ssets := [];
      lastpost := None;
      lastnopr := None;
      search := 0;
      links := Links(map[], map[], map[]);
      chains := map[];
    }

    function Ancient(cp: nat, start: nat): nat {
      if cp > start + nssets * 2 / 3 then cp - nssets * 2 / 3 else start
    }

    /** May entry i be replaced while position cp is being entered? */
    predicate Expendable(i: nat, cp: nat, start: nat)
      requires i < |ssets|
      reads this`ssets
    {
      (ssets[i].lastseen.None? || ssets[i].lastseen.value < Ancient(cp, start)) && !ssets[i].locked
    }

    /** rege_dfa.c:726-798. None is the "cannot find victim" error. */
    method PickNextSS(cp: nat, start: nat) returns (r: Option<nat>)
      requires |ssets| <= nssets && search <= nssets
      requires Linked(links, |ssets|, cnfa.ncolors, chains)
      modifies this`ssets, this`links, this`chains, this`search
      ensures search <= nssets && Linked(links, |ssets|, cnfa.ncolors, chains)
      ensures links.outs == old(links.outs) && links.inchain == old(links.inchain)
      ensures old(|ssets|) < nssets ==>
        && r == Some(old(|ssets|)) && ssets == old(ssets) + [VACANT]
      ensures old(|ssets|) == nssets ==>
        && ssets == old(ssets)
        && (r.Some? ==> r.value < |ssets| && old(Expendable(r.value, cp, start)))
        && (r.None? ==> forall i :: 0 <= i < |ssets| ==> !Expendable(i, cp, start))
    {
      if |ssets| < nssets {
        r := Some(|ssets|);
        FreshKeepsLinked(links, |ssets|, cnfa.ncolors, chains);
        links := links.(ins := links.ins - {|ssets|});
        chains := chains[|ssets| := []];
        ssets := ssets + [VACANT];
        return;
      }
      var i := search;
      while i < nssets
        invariant search <= i <= nssets && search == old(search)
        invariant ssets == old(ssets) && chains == old(chains) && links == old(links)
        invariant forall j :: search <= j < i ==> !Expendable(j, cp, start)
      {
        if Expendable(i, cp, start) {
          search := i + 1;
          return Some(i);
        }
        i := i + 1;
      }
      i := 0;
      while i < search
        invariant 0 <= i <= search && search == old(search)
        invariant ssets == old(ssets) && chains == old(chains) && links == old(links)
        invariant forall j :: 0 <= j < i ==> !Expendable(j, cp, start)
      {
        if Expendable(i, cp, start) {
          search := i + 1;
          return Some(i);
        }
        i := i + 1;
      }
      r := None;
    }

    /** rege_dfa.c:646-720: pick an entry and cut every link to and from it. */
    method GetVacantSS(cp: nat, start: nat) returns (r: Option<nat>)
      requires |ssets| <= nssets && search <= nssets
      requires Linked(links, |ssets|, cnfa.ncolors, chains)
      modifies this`ssets, this`links, this`chains, this`search, this`lastpost, this`lastnopr
      ensures search <= nssets && Linked(links, |ssets|, cnfa.ncolors, chains)
      ensures forall a :: a in links.outs ==> a in old(links.outs) && links.outs[a] == old(links.outs)[a]
      ensures r.None? ==> |ssets| == nssets && ssets == old(ssets) && forall i :: 0 <= i < |ssets| ==> !Expendable(i, cp, start)
      ensures r.Some? ==> r.value < |ssets| && forall a :: a in links.outs ==> a.ss != r.value && links.outs[a] != r.value
      ensures old(|ssets|) < nssets ==>
        && r == Some(old(|ssets|)) && ssets == old(ssets) + [VACANT]
        && lastpost == old(lastpost) && lastnopr == old(lastnopr)
      ensures old(|ssets|) == nssets && r.Some? ==>
        && ssets == old(ssets) && old(Expendable(r.value, cp, start))
        && lastpost == (if ssets[r.value].poststate then MaxOpt(old(lastpost), ssets[r.value].lastseen) else old(lastpost))
        && lastnopr == (if ssets[r.value].noprogress then MaxOpt(old(lastnopr), ssets[r.value].lastseen) else old(lastnopr))
    {
      r := PickNextSS(cp, start);
      if r.None? { return; }
      var e := r.value;
      CutInarcs(e);
      CutOutarcs(e);
      // Remember where an evicted success or no-progress set was last seen.
      if ssets[e].poststate { lastpost := MaxOpt(lastpost, ssets[e].lastseen); }
      if ssets[e].noprogress { lastnopr := MaxOpt(lastnopr, ssets[e].lastseen); }
    }

    /** Clear out the inarcs of e, including self-referential ones (rege_dfa.c:665-673). */
    method CutInarcs(e: nat)
      requires Linked(links, |ssets|, cnfa.ncolors, chains) && e < |ssets|
      modifies this`links, this`chains
      ensures Linked(links, |ssets|, cnfa.ncolors, chains)
      ensures forall a :: a in links.outs <==> a in old(links.outs) && old(links.outs)[a] != e
      ensures forall a :: a in links.outs ==> links.outs[a] == old(links.outs)[a]
    {
      hide Linked;
      var ap := Get(links.ins, e);
      ChainExists(links, |ssets|, cnfa.ncolors, chains, e);
      while ap.Some?
        invariant e in chains && Linked(Pending(links, e, ap), |ssets|, cnfa.ncolors, chains)
        invariant forall a :: a in links.outs ==> a in old(links.outs) && links.outs[a] == old(links.outs)[a]
        invariant forall a :: a in old(links.outs) && old(links.outs)[a] != e ==> a in links.outs
        decreases |chains[e]|
      {
        PopInarc(links, |ssets|, cnfa.ncolors, chains, e, ap);
        var a := ap.value;
        ap := Get(links.inchain, a);
        links := Links(links.ins, links.outs - {a}, links.inchain - {a});
        chains := chains[e := chains[e][1..]];
      }
      links := links.(ins := links.ins - {e});
      assert links == Pending(links, e, ap);
      ChainExists(links, |ssets|, cnfa.ncolors, chains, e);
      forall a | a in links.outs ensures links.outs[a] != e {
        InChainOfTarget(links, |ssets|, cnfa.ncolors, chains, a);
      }
    }

    /** Take e off the inarc chains of the entries its outarcs reach (rege_dfa.c:679-699). */
    method CutOutarcs(e: nat)
      requires Linked(links, |ssets|, cnfa.ncolors, chains) && e < |ssets|
      modifies this`links, this`chains
      ensures Linked(links, |ssets|, cnfa.ncolors, chains)
      ensures forall a :: a in links.outs <==> a in old(links.outs) && a.ss != e
      ensures forall a :: a in links.outs ==> links.outs[a] == old(links.outs)[a]
    {
      hide Linked;
      forall a | a in links.outs ensures a.co < cnfa.ncolors {
        InChainOfTarget(links, |ssets|, cnfa.ncolors, chains, a);
      }
      var i := 0;
      while i < cnfa.ncolors
        invariant 0 <= i <= cnfa.ncolors
        invariant Linked(links, |ssets|, cnfa.ncolors, chains)
        invariant forall a :: a in links.outs <==> a in old(links.outs) && (a.ss != e || i <= a.co)
        invariant forall a :: a in links.outs ==> links.outs[a] == old(links.outs)[a]
      {
        var a := Arcp(e, i);
        if a in links.outs {
          UnlinkOut(a);
        }
        i := i + 1;
      }
    }

    /** One turn of that loop. */
    method UnlinkOut(a: Arcp)
      requires Linked(links, |ssets|, cnfa.ncolors, chains) && a in links.outs
      modifies this`links, this`chains
      ensures Linked(links, |ssets|, cnfa.ncolors, chains)
      ensures links.outs == old(links.outs) - {a}
    {
      hide Linked, ChainOk, Unlinked;
      ghost var x := OnOwnChain(links, |ssets|, cnfa.ncolors, chains, a);
      var p := links.outs[a];
      ghost var ch := chains[p];
      UnlinkKeepsLinked(links, |ssets|, cnfa.ncolors, chains, p, x);
      UnlinkedIs(links, ch, p, x);
      if Get(links.ins, p) == Some(a) {
        links := links.(ins := Put(links.ins, p, Get(links.inchain, a)));
      } else {
        var lastap := Before(a, p, ch, x);
        links := links.(inchain := Put(links.inchain, lastap, Get(links.inchain, a)));
      }
      links := links.(outs := links.outs - {a}, inchain := links.inchain - {a});
      chains := chains[p := RemoveAt(ch, x)];
    }

    /** The outarc before a on the chain of p. */
    method Before(a: Arcp, p: nat, ghost ch: seq<Arcp>, ghost x: nat) returns (lastap: Arcp)
      requires ChainOk(links, ch, p) && 0 < x < |ch| && ch[x] == a
      ensures lastap == ch[x - 1]
    {
      var ap := Get(links.ins, p);
      lastap := a;
      ghost var y := 0;
      while ap != Some(a)
        invariant y <= x && ap == Head(ch, y)
        invariant y > 0 ==> lastap == ch[y - 1]
        decreases x - y
      {
        assert y < x && OnChain(links, ch, y, p);
        lastap := ap.value;
        ap := Get(links.inchain, lastap);
        y := y + 1;
      }
      assert y == x;
    }

    /** The plain arcs of one state of css, by colour co (rege_dfa.c:520-532). */
    method SourceArcs(i: nat, co: nat, work0: set<nat>, isPost0: bool, noProgress0: bool, gotState0: bool)
      returns (work: set<nat>, isPost: bool, noProgress: bool, gotState: bool)
      requires WellFormed(cnfa) && i < |cnfa.states|
      requires (gotState0 <==> work0 != {}) && (isPost0 <==> cnfa.post in work0) && (noProgress0 <==> NoProg(cnfa, work0))
      ensures forall q: nat :: q in work <==> q in work0 || Carc(co, q) in cnfa.states[i]
      ensures (gotState <==> work != {}) && (isPost <==> cnfa.post in work) && (noProgress <==> NoProg(cnfa, work))
    {
      work, isPost, noProgress, gotState := work0, isPost0, noProgress0, gotState0;
      for j := 0 to |cnfa.states[i]|
        invariant forall q: nat :: q in work <==> q in work0 || Carc(co, q) in cnfa.states[i][..j]
        invariant (gotState <==> work != {}) && (isPost <==> cnfa.post in work) && (noProgress <==> NoProg(cnfa, work))
      {
        var ca := cnfa.states[i][j];
        if ca.co == co {
          work := work + {ca.to};
          gotState := true;
          if ca.to == cnfa.post { isPost := true; }
          if !cnfa.stflags[ca.to] { noProgress := false; }
        }
      }
      assert cnfa.states[i][..|cnfa.states[i]|] == cnfa.states[i];
    }

    /** The first loop of miss(), over the plain arcs of css (rege_dfa.c:512-534). */
    method PlainSuccessors(css: set<nat>, co: nat)
      returns (work: set<nat>, isPost: bool, noProgress: bool, gotState: bool)
      requires WellFormed(cnfa) && co < cnfa.ncolors
      requires forall q :: q in css ==> q < |cnfa.states|
      ensures work == PlainStep(cnfa, css, co)
      ensures (gotState <==> work != {}) && (isPost <==> cnfa.post in work) && (noProgress <==> NoProg(cnfa, work))
    {
      work, isPost, noProgress, gotState := {}, false, true, false;
      for i := 0 to |cnfa.states|
        invariant work == PlainStep(cnfa, (set p | p in css && p < i), co)
        invariant (gotState <==> work != {}) && (isPost <==> cnfa.post in work) && (noProgress <==> NoProg(cnfa, work))
      {
        ghost var done := set p | p in css && p < i;
        ghost var done' := set p | p in css && p < i + 1;
        if i in css {
          work, isPost, noProgress, gotState := SourceArcs(i, co, work, isPost, noProgress, gotState);
          AddSource(done, done', i, co, work);
        } else {
          assert done == done';
        }
      }
      assert css == set p | p in css && p < |cnfa.states|;
    }

    lemma AddSource(done: set<nat>, done': set<nat>, i: nat, co: nat, work: set<nat>)
      requires WellFormed(cnfa) && i < |cnfa.states| && done' == done + {i} && co < cnfa.ncolors
      requires forall q: nat :: q in work <==> q in PlainStep(cnfa, done, co) || Carc(co, q) in cnfa.states[i]
      ensures work == PlainStep(cnfa, done', co)
    {
      forall q | q in work ensures q in PlainStep(cnfa, done', co) {
        if q in PlainStep(cnfa, done, co) {
          var p :| p in done && PlainEdge(cnfa, co, p, q);
          assert p in done' && PlainEdge(cnfa, co, p, q);
        } else {
          assert PlainEdge(cnfa, co, i, q) && i in done';
          var j :| 0 <= j < |cnfa.states[i]| && cnfa.states[i][j] == Carc(co, q);
          assert cnfa.states[i][j].to < |cnfa.states|;
        }
      }
      forall q | q in PlainStep(cnfa, done', co) ensures q in work {
        var p :| p in done' && PlainEdge(cnfa, co, p, q);
        if p in done { assert PlainReach(cnfa, done, co, q); }
      }
    }

    /** The set miss() computes into the work vector (rege_dfa.c:512-564): the plain successors
        of css, then the transitive closure over satisfied LACON arcs. */
    method Successors(v: Text, css: set<nat>, co: nat, cp: nat)
      returns (work: set<nat>, isPost: bool, noProgress: bool, gotState: bool, saw: bool)
      requires WellFormed(cnfa) && co < cnfa.ncolors
      requires forall q :: q in css ==> q < |cnfa.states|
      ensures gotState <==> PlainStep(cnfa, css, co) != {}
      ensures work == Step(cnfa, v, css, co, cp)
      ensures isPost <==> cnfa.post in work
      ensures noProgress <==> NoProg(cnfa, work)
      ensures !saw ==> NoLacon(cnfa, work) && work == PlainStep(cnfa, css, co)
    {
      work, isPost, noProgress, gotState := PlainSuccessors(css, co);
      saw := false;
      ghost var plain := work;
      forall q | q in work ensures q in Closure(cnfa, v, cp, plain) { ClosureContains(cnfa, v, cp, plain, q); }
      var again := gotState && cnfa.lacons;
      if !again {
        assert NoLacon(cnfa, plain);
        NoLaconStep(cnfa, v, css, co, cp);
      }
      while again
        invariant plain <= work <= Closure(cnfa, v, cp, plain)
        invariant isPost <==> cnfa.post in work
        invariant noProgress <==> NoProg(cnfa, work)
        invariant !again ==> work == Closure(cnfa, v, cp, plain)
        invariant !saw ==> work == plain
        invariant !again && !saw ==> NoLacon(cnfa, work)
        decreases |Closure(cnfa, v, cp, plain)| - |work|, if again then 1 else 0
      {
        ghost var before := work;
        work, isPost, noProgress, again, saw := ClosePass(v, cp, work, isPost, noProgress, saw, plain);
        if again {
          SubsetSize(before, work);
          SubsetSize(work, Closure(cnfa, v, cp, plain));
        } else {
          ClosureLeast(cnfa, v, cp, plain, work);
        }
      }
    }

    /** One pass of the closure loop over all states (rege_dfa.c:539-563). */
    method ClosePass(v: Text, cp: nat, before: set<nat>, p0: bool, n0: bool, s0: bool, ghost plain: set<nat>)
      returns (work: set<nat>, isPost: bool, noProgress: bool, again: bool, saw: bool)
      requires WellFormed(cnfa) && plain <= before <= Closure(cnfa, v, cp, plain)
      requires (p0 <==> cnfa.post in before) && (n0 <==> NoProg(cnfa, before)) && (!s0 ==> before == plain)
      ensures before <= work <= Closure(cnfa, v, cp, plain)
      ensures (isPost <==> cnfa.post in work) && (noProgress <==> NoProg(cnfa, work)) && (again <==> work != before)
      ensures !saw ==> work == plain && NoLacon(cnfa, work)
      ensures !again ==> forall p, q :: p in work && LaconEdge(cnfa, v, cp, p, q) ==> q in work
    {
      work, isPost, noProgress, again, saw := before, p0, n0, false, s0;
      var i := 0;
      while i < |cnfa.states|
        invariant 0 <= i <= |cnfa.states|
        invariant before <= work <= Closure(cnfa, v, cp, plain)
        invariant (isPost <==> cnfa.post in work) && (noProgress <==> NoProg(cnfa, work)) && (again <==> work != before)
        invariant s0 ==> saw
        invariant !saw ==> work == before
        invariant !saw ==> NoLacon(cnfa, (set p | p in work && p < i))
        invariant !again ==> forall p, q :: p in work && p < i && LaconEdge(cnfa, v, cp, p, q) ==> q in work
      {
        if i in work {
          work, isPost, noProgress, again, saw := LaconPass(v, cp, i, work, isPost, noProgress, again, saw, plain, before);
        }
        i := i + 1;
      }
    }

    ghost predicate Fires(v: Text, ca: Carc, cp: nat) {
      ca.co >= cnfa.ncolors && v.lacon(ca.co - cnfa.ncolors, cp)
    }

    /** The innermost loop of the closure, over the arcs of one state (rege_dfa.c:541-561). */
    method LaconPass(v: Text, cp: nat, i: nat, w0: set<nat>, p0: bool, n0: bool, a0: bool, s0: bool,
                     ghost plain: set<nat>, ghost before: set<nat>)
      returns (work: set<nat>, isPost: bool, noProgress: bool, again: bool, saw: bool)
      requires WellFormed(cnfa) && i < |cnfa.states| && i in w0
      requires before <= w0 <= Closure(cnfa, v, cp, plain)
      requires (p0 <==> cnfa.post in w0) && (n0 <==> NoProg(cnfa, w0)) && (a0 <==> w0 != before)
      ensures w0 <= work <= Closure(cnfa, v, cp, plain)
      ensures (isPost <==> cnfa.post in work) && (noProgress <==> NoProg(cnfa, work)) && (again <==> work != before)
      ensures s0 ==> saw
      ensures !saw ==> work == w0 && forall j :: 0 <= j < |cnfa.states[i]| ==> cnfa.states[i][j].co < cnfa.ncolors
      ensures forall q :: LaconEdge(cnfa, v, cp, i, q) ==> q in work
    {
      work, isPost, noProgress, again, saw := w0, p0, n0, a0, s0;
      for j := 0 to |cnfa.states[i]|
        invariant w0 <= work <= Closure(cnfa, v, cp, plain)
        invariant (isPost <==> cnfa.post in work) && (noProgress <==> NoProg(cnfa, work)) && (again <==> work != before)
        invariant s0 ==> saw
        invariant !saw ==> work == w0 && forall l :: 0 <= l < j ==> cnfa.states[i][l].co < cnfa.ncolors
        invariant forall l :: 0 <= l < j && Fires(v, cnfa.states[i][l], cp) ==> cnfa.states[i][l].to in work
      {
        var ca := cnfa.states[i][j];
        if ca.co < cnfa.ncolors { continue; }
        saw := true;
        if ca.to in work { continue; }
        if !v.lacon(ca.co - cnfa.ncolors, cp) { continue; }
        assert LaconEdge(cnfa, v, cp, i, ca.to) by {
          assert ca == Carc(cnfa.ncolors + (ca.co - cnfa.ncolors), ca.to);
        }
        ClosureEdge(cnfa, v, cp, plain, i, ca.to);
        work := work + {ca.to};
        again := true;
        if ca.to == cnfa.post { isPost := true; }
        if !cnfa.stflags[ca.to] { noProgress := false; }
      }
    }

    /** rege_dfa.c:482-606: the entry reached from css by colour co on arriving at cp. */
    method Miss(v: Text, css: nat, co: nat, cp: nat, start: nat) returns (r: Option<nat>, err: bool)
      requires Valid() && css < |ssets| && co < cnfa.ncolors
      requires css == 0 || (ssets[css].lastseen.Some? && start <= ssets[css].lastseen.value && cp <= ssets[css].lastseen.value + 1)
      modifies this`ssets, this`links, this`chains, this`search, this`lastpost, this`lastnopr
      ensures err ==> old(|ssets|) == nssets && ssets == old(ssets) && forall i :: 0 <= i < |ssets| ==> !Expendable(i, cp, start)
      ensures !err ==> Valid() && |ssets| >= old(|ssets|)
      ensures !err && r.None? ==> Step(cnfa, v, old(ssets[css].states), co, cp) == {}
      ensures !err && r.None? ==> ssets == old(ssets) && lastpost == old(lastpost) && lastnopr == old(lastnopr)
      ensures !err && r.Some? ==> r.value < |ssets| && ssets[r.value].states == Step(cnfa, v, old(ssets[css].states), co, cp)
      ensures !err && r.Some? ==> Grown(old(ssets), old(lastpost), old(lastnopr), ssets, lastpost, lastnopr, r.value)
    {
      hide Linked, TransitionsOk, EntriesOk, WellFormed, NoLacon, Step, NoProg;
      err := false;
      var a := Arcp(css, co);
      StatesKnown(cnfa, ssets, css);
      if a in links.outs {
        TransitionHere(cnfa, ssets, links.outs, a);
        NoLaconStep(cnfa, v, ssets[css].states, co, cp);
        return Some(links.outs[a]), false;
      }
      var work, isPost, noProgress, gotState, saw := Successors(v, ssets[css].states, co, cp);
      if !gotState {
        EmptyStep(cnfa, v, ssets[css].states, co, cp);
        return None, false;
      }
      StepLives(cnfa, v, ssets[css].states, co, cp);
      var p := Lookup(work);
      if p == |ssets| {
        StepEntryOk(cnfa, v, ssets[css].states, co, cp, work, isPost, noProgress);
        p, err := NewEntry(css, work, isPost, noProgress, cp, start);
        if err { return None, true; }
      }
      if !saw { CacheArc(a, p); }
      r := Some(p);
    }

    /** rege_dfa.c:574-579. */
    method Lookup(work: set<nat>) returns (p: nat)
      ensures p <= |ssets|
      ensures p < |ssets| ==> ssets[p].states == work
      ensures p == |ssets| ==> forall i :: 0 <= i < |ssets| ==> ssets[i].states != work
    {
      p := 0;
      while p < |ssets| && ssets[p].states != work
        invariant 0 <= p <= |ssets|
        invariant forall i :: 0 <= i < p ==> ssets[i].states != work
        decreases |ssets| - p
      {
        p := p + 1;
      }
    }

    /** rege_dfa.c:580-595. */
    method NewEntry(css: nat, work: set<nat>, isPost: bool, noProgress: bool, cp: nat, start: nat)
      returns (p: nat, err: bool)
      requires Valid() && css < |ssets|
      requires css == 0 || (ssets[css].lastseen.Some? && start <= ssets[css].lastseen.value && cp <= ssets[css].lastseen.value + 1)
      requires forall i :: 0 <= i < |ssets| ==> ssets[i].states != work
      requires forall l :: EntryOk(cnfa, SSet(work, false, isPost, false, noProgress, l), false)
      modifies this`ssets, this`links, this`chains, this`search, this`lastpost, this`lastnopr
      ensures err ==> old(|ssets|) == nssets && ssets == old(ssets) && forall i :: 0 <= i < |ssets| ==> !Expendable(i, cp, start)
      ensures !err ==> Valid() && p < |ssets| && p != css && ssets[p].states == work
      ensures !err ==> Grown(old(ssets), old(lastpost), old(lastnopr), ssets, lastpost, lastnopr, p)
      ensures !err ==> forall a :: a in links.outs ==> a in old(links.outs)
    {
      hide Linked;
      var vac := GetVacantSS(cp, start);
      if vac.None? { return 0, true; }
      p := vac.value;
      err := false;
      assert p != css;
      var e := SSet(work, false, isPost, false, noProgress, ssets[p].lastseen);
      RefillKeepsFacts(cnfa, old(ssets), old(links.outs), ssets, links.outs, p, e);
      hide EntriesOk, TransitionsOk, SetsDiffer;
      ssets := ssets[p := e];
    }

    /** rege_dfa.c:597-604: memoise the transition. */
    method CacheArc(a: Arcp, p: nat)
      requires Valid() && a.ss < |ssets| && a.co < cnfa.ncolors && p < |ssets| && a !in links.outs
      requires ssets[p].states == PlainStep(cnfa, ssets[a.ss].states, a.co) && NoLacon(cnfa, ssets[p].states)
      modifies this`links, this`chains
      ensures Valid() && links.outs == old(links.outs)[a := p]
    {
      hide Linked, TransitionsOk, EntriesOk, WellFormed, NoLacon, PlainStep;
      LinkKeepsLinked(links, |ssets|, cnfa.ncolors, chains, a, p);
      ChainThere(links, |ssets|, cnfa.ncolors, chains, p);
      TransitionAdded(cnfa, ssets, links.outs, a, p);
      links := LinkTo(links, a, p);
      chains := chains[p := [a] + chains[p]];
    }

    // -------------------------------------------------------------- one execution

    /** rege_dfa.c:438-475. */
    method Initialize(start: nat)
      requires Valid()
      modifies this`ssets, this`links, this`chains, this`search, this`lastpost, this`lastnopr
      ensures Valid() && |ssets| >= 1 && ssets[0].lastseen == Some(start)
      ensures forall i :: 1 <= i < |ssets| ==> ssets[i].lastseen.None?
      ensures lastpost.None? && lastnopr.None?
    {
      hide Linked, EntriesOk, TransitionsOk, WellFormed;
      BuildStarter(start);
      var i := 0;
      while i < |ssets|
        invariant 0 <= i <= |ssets| && |ssets| >= 1
        invariant Valid()
        invariant forall j :: 0 <= j < i ==> ssets[j].lastseen.None?
      {
        SetSeen(i, None);
        i := i + 1;
      }
      SetSeen(0, Some(start));
      lastpost, lastnopr := None, None;
    }

    /** The starter entry is kept, or built first of all (rege_dfa.c:451-471). */
    method BuildStarter(start: nat)
      requires Valid()
      modifies this`ssets, this`links, this`chains, this`search, this`lastpost, this`lastnopr
      ensures Valid() && |ssets| >= 1
    {
      hide Linked;
      if |ssets| > 0 && ssets[0].starter {
      } else {
        assert |ssets| == 0;
        var vac := GetVacantSS(start, start);
        var e := SSet({cnfa.pre}, true, false, true, true, None);
        RefillKeepsFacts(cnfa, old(ssets), old(links.outs), ssets, links.outs, 0, e);
        hide EntriesOk, TransitionsOk;
        ssets := ssets[vac.value := e];
      }
    }

    method SetSeen(i: nat, l: Option<nat>)
      requires Valid() && i < |ssets|
      modifies this`ssets
      ensures Valid() && ssets == old(ssets)[i := old(ssets)[i].(lastseen := l)]
    {
      hide Linked, EntriesOk, TransitionsOk, SetsDiffer;
      VisitKeepsFacts(cnfa, ssets, links.outs, i, l);
      ssets := ssets[i := ssets[i].(lastseen := l)];
    }

    /** With at least seven entries a victim is always found (rege_dfa.c:768-788): the entries too
        recent to be replaced were last seen at distinct positions within two thirds of the cache size,
        and only the starter is locked. */
    lemma VictimExists(cp: nat, start: nat)
      requires 7 <= nssets == |ssets| && start <= cp
      requires forall i :: 1 <= i < |ssets| ==> !ssets[i].locked
      requires forall i :: 1 <= i < |ssets| && ssets[i].lastseen.Some? ==> ssets[i].lastseen.value <= cp
      requires forall i, j :: 1 <= i < j < |ssets| && ssets[i].lastseen.Some? ==> ssets[i].lastseen != ssets[j].lastseen
      ensures exists i :: 1 <= i < |ssets| && Expendable(i, cp, start)
    {
      if forall i :: 1 <= i < |ssets| ==> !Expendable(i, cp, start) {
        var f := seq(|ssets| - 1, i requires 0 <= i < |ssets| - 1 reads this`ssets => if ssets[i + 1].lastseen.Some? then ssets[i + 1].lastseen.value else 0);
        forall i | 0 <= i < |f| ensures Ancient(cp, start) <= f[i] <= cp {
          assert !Expendable(i + 1, cp, start);
        }
        forall i, j | 0 <= i < j < |f| ensures f[i] != f[j] {
          assert !Expendable(i + 1, cp, start) && !Expendable(j + 1, cp, start);
        }
        Pigeonhole(f, Ancient(cp, start), cp);
        assert false;
      }
    }

    /** The closing loop of longest(), rege_dfa.c:37-157. */
    method LastSuccess() returns (post: Option<nat>)
      ensures post.Some? ==> post == lastpost || exists i :: 0 <= i < |ssets| && ssets[i].poststate && ssets[i].lastseen == post
      ensures forall l :: Remembered(ssets, lastpost, false, l) ==> AtLeast(post, l)
    {
      post := lastpost;
      for i := 0 to |ssets|
        invariant post.Some? ==> post == lastpost || exists j :: 0 <= j < i && ssets[j].poststate && ssets[j].lastseen == post
        invariant lastpost.Some? ==> AtLeast(post, lastpost.value)
        invariant forall j :: 0 <= j < i && ssets[j].poststate && ssets[j].lastseen.Some? ==> AtLeast(post, ssets[j].lastseen.value)
      {
        if ssets[i].poststate && post != ssets[i].lastseen
          && (post.None? || (ssets[i].lastseen.Some? && post.value < ssets[i].lastseen.value)) {
          post := ssets[i].lastseen;
        }
      }
    }

    /** lastCold(), rege_dfa.c:288-306: the last no-progress position, or the start of the string. */
    method LastCold(v: Text, start: nat, cp: nat) returns (nopr: nat)
      requires start <= cp <= v.Stop() && ColdPoints(cnfa, v, start, cp, ssets, lastnopr)
      ensures IsCold(cnfa, v, start, cp, nopr)
    {
      hide SimSet, NoProg;
      nopr := if lastnopr.Some? then lastnopr.value else 0;
      for i := 0 to |ssets|
        invariant nopr <= cp && (nopr <= start || NoProg(cnfa, SimSet(cnfa, v, start, nopr)))
        invariant lastnopr.Some? ==> lastnopr.value <= nopr
        invariant forall j :: 0 <= j < i && ssets[j].noprogress && ssets[j].lastseen.Some? ==> ssets[j].lastseen.value <= nopr
      {
        if ssets[i].noprogress && ssets[i].lastseen.Some? && nopr < ssets[i].lastseen.value {
          nopr := ssets[i].lastseen.value;
        }
      }
      forall l | start <= l <= cp && NoProg(cnfa, SimSet(cnfa, v, start, l)) ensures l <= nopr {
        assert Remembered(ssets, lastnopr, true, l);
      }
    }

    /** The startup shared by longest() and shortest() (rege_dfa.c:56-79, 185-208). */
    method Startup(v: Text, start: nat) returns (css: Option<nat>, err: bool)
      requires Valid() && Fits(cnfa, v) && start <= v.Stop()
      modifies this`ssets, this`links, this`chains, this`search, this`lastpost, this`lastnopr
      ensures 7 <= nssets || Steady(cnfa, v) ==> !err
      ensures !err ==> Valid()
      ensures !err && css.None? ==> SimSet(cnfa, v, start, start) == {}
      ensures !err && css.Some? ==> At(v, start, start, css.value)
    {
      hide Linked;
      Initialize(start);
      var co := if start == 0 then (if v.notBol then cnfa.bos.0 else cnfa.bos.1) else v.colors[start - 1];
      assert co == Sym(cnfa, v, start);
      assert ssets[0].states == {cnfa.pre} by { assert EntryOk(cnfa, ssets[0], true); }
      css, err := Miss(v, 0, co, start, start);
      if err {
        FirstVictim(start);
        return;
      }
      if css.None? { return; }
      assert EntryOk(cnfa, ssets[css.value], css.value == 0);
      SetSeen(css.value, Some(start));
      HistoryStarts(cnfa, v, start, ssets, css.value);
    }

    /** The engine stands in entry css at position cp. */
    ghost predicate At(v: Text, start: nat, cp: nat, css: nat)
      reads this
    {
      && start <= cp <= v.Stop() && css < |ssets|
      && ssets[css].lastseen == Some(cp) && ssets[css].states == SimSet(cnfa, v, start, cp)
      && (ssets[css].poststate <==> cnfa.post in SimSet(cnfa, v, start, cp)) && ssets[css].states != {}
      && History(cnfa, v, start, cp, ssets, lastpost, lastnopr)
    }

    /** Nothing but the starter has been seen when an attempt begins. */
    lemma FirstVictim(start: nat)
      requires EntriesOk(cnfa, ssets) && 2 <= nssets == |ssets| && forall i :: 1 <= i < |ssets| ==> ssets[i].lastseen.None?
      ensures exists i :: 0 <= i < |ssets| && Expendable(i, start, start)
    {
      assert EntryOk(cnfa, ssets[1], false);
      assert Expendable(1, start, start);
    }

    /** An entry that has not been seen, or not for a while: with seven entries by counting places, with fewer by
        counting sets of states. */
    lemma SomeVictim(v: Text, cp: nat, start: nat, seen: nat)
      requires WellFormed(cnfa) && EntriesOk(cnfa, ssets) && SetsDiffer(ssets) && (nssets == 7 || nssets == 2 * |cnfa.states|)
      requires nssets == |ssets| && (7 <= nssets || Steady(cnfa, v))
      requires start <= seen <= cp && seen <= v.Stop() && VisitsTrue(cnfa, v, start, seen, ssets) && VisitsDistinct(ssets)
      ensures exists i :: 0 <= i < |ssets| && Expendable(i, cp, start)
    {
      forall i | 1 <= i < |ssets| ensures !ssets[i].locked { assert EntryOk(cnfa, ssets[i], false); }
      if 7 <= nssets {
        VictimExists(cp, start);
      } else {
        SomeUnseen(cnfa, v, start, seen, ssets);
        var i :| 1 <= i < |ssets| && ssets[i].lastseen.None?;
        assert Expendable(i, cp, start);
      }
    }

    /** One turn of the main loop: consume the character at cp (rege_dfa.c:102-114). */
    method Advance(v: Text, start: nat, cp: nat, css: nat) returns (ss: Option<nat>, ok: bool, err: bool)
      requires Valid() && Fits(cnfa, v) && At(v, start, cp, css) && cp < v.Stop()
      modifies this`ssets, this`links, this`chains, this`search, this`lastpost, this`lastnopr
      ensures 7 <= nssets || Steady(cnfa, v) ==> !err
      ensures !err ==> Valid()
      ensures !err && ss.None? ==> SimSet(cnfa, v, start, cp + 1) == {} && At(v, start, cp, css)
      ensures !err && ss.Some? ==> At(v, start, cp + 1, ss.value) && (ok <==> !NoSuccess(cnfa, v, start, cp + 1))
    {
      hide Linked, WellFormed, EntriesOk, TransitionsOk, SetsDiffer, SimSet, History, Grown, Fits;
      ok := false;
      var co := v.colors[cp];
      SymbolKnown(cnfa, v, cp + 1);
      SimNext(cnfa, v, start, cp);
      HistoryVisits(cnfa, v, start, cp, ssets, lastpost, lastnopr);
      ss, err := Miss(v, css, co, cp + 1, start);
      if err {
        if 7 <= nssets || Steady(cnfa, v) { SomeVictim(v, cp + 1, start, cp); }
        return;
      }
      if ss.None? { return; }
      HistoryGrows(cnfa, v, start, cp, old(ssets), old(lastpost), old(lastnopr), ssets, lastpost, lastnopr, ss.value);
      EntryHere(cnfa, ssets, ss.value);
      SetSeen(ss.value, Some(cp + 1));
      ok := ssets[ss.value].poststate;
    }

    /** The end-of-string step of longest() (rege_dfa.c:37-157). */
    method AtEnd(v: Text, start: nat, css: nat) returns (ok: bool, err: bool)
      requires Valid() && At(v, start, v.Stop(), css) && Successes(cnfa, v, start, v.Stop(), ssets, lastpost)
      modifies this`ssets, this`links, this`chains, this`search, this`lastpost, this`lastnopr
      ensures 7 <= nssets || Steady(cnfa, v) ==> !err
      ensures !err ==> Valid() && (ok <==> cnfa.post in SimSet(cnfa, v, start, v.Stop() + 1))
      ensures !err && !ok ==> Successes(cnfa, v, start, v.Stop(), ssets, lastpost)
    {
      hide Linked, Successes;
      ok := false;
      var co := if v.notEol then cnfa.eos.0 else cnfa.eos.1;
      assert co == Sym(cnfa, v, v.Stop() + 1);
      var ss;
      ss, err := Miss(v, css, co, v.Stop(), start);
      if err {
        if 7 <= nssets || Steady(cnfa, v) { SomeVictim(v, v.Stop(), start, v.Stop()); }
        return;
      }
      if ss.None? { return; }
      assert EntryOk(cnfa, ssets[ss.value], ss.value == 0);
      if ssets[ss.value].poststate { return true, false; }
      SuccessesSurvive(cnfa, v, start, v.Stop(), old(ssets), old(lastpost), old(lastnopr), ssets, lastpost, lastnopr, ss.value);
      SetSeen(ss.value, Some(v.Stop()));
    }

    /** The main loop of longest() (rege_dfa.c:37-157): up to realstop, or to the last position
        where any state is still alive. */
    method Run(v: Text, start: nat, css0: nat, realstop: nat) returns (css: nat, cp: nat, err: bool)
      requires Valid() && Fits(cnfa, v) && At(v, start, start, css0) && start <= realstop <= v.Stop()
      modifies this`ssets, this`links, this`chains, this`search, this`lastpost, this`lastnopr
      ensures 7 <= nssets || Steady(cnfa, v) ==> !err
      ensures !err ==> Valid() && cp <= realstop && At(v, start, cp, css)
      ensures !err && cp < realstop ==> forall l :: cp < l <= v.Stop() + 1 ==> SimSet(cnfa, v, start, l) == {}
    {
      hide Linked, SimSet, History;
      css, cp, err := css0, start, false;
      while cp < realstop
        invariant Valid() && cp <= realstop && At(v, start, cp, css)
        invariant !err
      {
        var ss, ok;
        ss, ok, err := Advance(v, start, cp, css);
        if err { return; }
        if ss.None? {
          DeadFrom(cnfa, v, start, cp + 1);
          break;
        }
        cp := cp + 1;
        css := ss.value;
      }
    }

    /** longest(), rege_dfa.c:37-157. */
    method Longest(v: Text, start: nat, stop: nat) returns (r: Option<nat>, hitstop: bool, err: bool)
      requires Valid() && Fits(cnfa, v) && start <= stop <= v.Stop()
      modifies this`ssets, this`links, this`chains, this`search, this`lastpost, this`lastnopr
      ensures 7 <= nssets || Steady(cnfa, v) ==> !err
      ensures !err ==> Valid() && IsLongest(cnfa, v, start, stop, r)
      ensures !err ==> (hitstop <==> stop == v.Stop() && SimSet(cnfa, v, start, v.Stop()) != {})
    {
      hide Linked, SimSet, History;
      var realstop := if stop == v.Stop() then stop else stop + 1;
      hitstop := false;
      r := None;
      var first;
      first, err := Startup(v, start);
      if err { return; }
      if first.None? {
        DeadFrom(cnfa, v, start, start);
        return;
      }
      var css, cp := first.value, start;
      css, cp, err := Run(v, start, css, realstop);
      if err { return; }
      HistoryGivesSuccesses(cnfa, v, start, cp, ssets, lastpost, lastnopr);
      hide Successes, IsLongest;
      if cp == v.Stop() && stop == v.Stop() {
        hitstop := true;
        var ok;
        ok, err := AtEnd(v, start, css);
        if err { return; }
        if ok {
          MatchAtEnd(cnfa, v, start);
          return Some(cp), true, false;
        }
      }
      var post := LastSuccess();
      LastSuccessIsLongest(cnfa, v, start, stop, cp, ssets, lastpost, post);
      r := if post.Some? then Some(post.value - 1) else None;
    }

    /** The main loop of shortest() (rege_dfa.c:164-282): stop at the first success at or after realmin. */
    method RunToSuccess(v: Text, start: nat, css0: nat, realmin: nat, realmax: nat)
      returns (css: nat, cp: nat, dead: bool, found: bool, err: bool)
      requires Valid() && Fits(cnfa, v) && At(v, start, start, css0) && start <= realmax <= v.Stop()
      modifies this`ssets, this`links, this`chains, this`search, this`lastpost, this`lastnopr
      ensures 7 <= nssets || Steady(cnfa, v) ==> !err
      ensures !err ==> Valid() && start <= cp <= realmax && At(v, start, cp, css)
      ensures !err && dead ==> cp < realmax && SimSet(cnfa, v, start, cp + 1) == {}
      ensures !err && !dead && !found ==> cp == realmax
      ensures !err && found ==> realmin <= cp && !dead && !NoSuccess(cnfa, v, start, cp)
      ensures !err ==> NoSuccessIn(cnfa, v, start, realmin, if found then cp - 1 else cp)
    {
      hide At, SimSet, NoSuccess, NoSuccessIn, Linked;
      NoSuccessAtStart(cnfa, v, start, realmin);
      css, cp, dead, found, err := css0, start, false, false, false;
      while cp < realmax
        invariant Valid() && start <= cp <= realmax && At(v, start, cp, css)
        invariant !err && !dead && !found
        invariant NoSuccessIn(cnfa, v, start, realmin, cp)
      {
        var ss, ok;
        ss, ok, err := Advance(v, start, cp, css);
        if err { return; }
        if ss.None? {
          dead := true;
          break;
        }
        cp := cp + 1;
        css := ss.value;
        if ok && realmin <= cp {
          found := true;
          break;
        }
        NoSuccessNext(cnfa, v, start, realmin, cp - 1);
      }
    }

    /** shortest(), rege_dfa.c:164-282. cold is what it stores through coldp, None when it stores nothing. */
    method Shortest(v: Text, start: nat, min: nat, max: nat)
      returns (r: Option<nat>, cold: Option<nat>, hitstop: bool, err: bool)
      requires Valid() && Fits(cnfa, v) && start <= min <= max <= v.Stop()
      modifies this`ssets, this`links, this`chains, this`search, this`lastpost, this`lastnopr
      ensures 7 <= nssets || Steady(cnfa, v) ==> !err
      ensures !err ==> Valid() && IsShortest(cnfa, v, start, min, max, r)
      ensures !err && r.Some? ==> cold.Some? && IsCold(cnfa, v, start, Pos(v, r.value + 1), cold.value)
      ensures !err && r.None? && max == v.Stop() ==>
        if cold.Some? then IsCold(cnfa, v, start, v.Stop(), cold.value) else SimSet(cnfa, v, start, v.Stop()) == {}
      ensures !err ==> (hitstop <==> max == v.Stop() && r.None? && SimSet(cnfa, v, start, v.Stop()) != {})
    {
      hide Linked, SimSet, History, WellFormed, EntriesOk, TransitionsOk, ColdPoints, IsCold;
      var realmin := if min == v.Stop() then min else min + 1;
      var realmax := if max == v.Stop() then max else max + 1;
      r, cold, hitstop := None, None, false;
      var first;
      first, err := Startup(v, start);
      if err { return; }
      if first.None? {
        DeadFrom(cnfa, v, start, start);
        return;
      }
      var css, cp, dead, found;
      css, cp, dead, found, err := RunToSuccess(v, start, first.value, realmin, realmax);
      if err { return; }
      if dead {
        DeadFrom(cnfa, v, start, cp + 1);
        NoMatchAmong(cnfa, v, start, min, max, cp, realmin);
        return;
      }
      HistoryGivesColdPoints(cnfa, v, start, cp, ssets, lastpost, lastnopr);
      var nopr := LastCold(v, start, cp);
      cold := Some(nopr);
      if ssets[css].poststate && cp > min {
        NoMatchAmong(cnfa, v, start, min, cp - 2, cp - 1, realmin);
        r := Some(cp - 1);
      } else if cp == v.Stop() && max == v.Stop() {
        if !found { NoMatchAmong(cnfa, v, start, min, v.Stop() - 1, cp, realmin); }
        var ok;
        ok, err := Finish(v, start, css);
        if err { return; }
        hitstop := !ok;
        if ok { r := Some(cp); }
      } else {
        NoMatchAmong(cnfa, v, start, min, max, cp, realmin);
      }
    }

    /** The end-of-string step of shortest() (rege_dfa.c:164-282). */
    method Finish(v: Text, start: nat, css: nat) returns (ok: bool, err: bool)
      requires Valid() && At(v, start, v.Stop(), css)
      modifies this`ssets, this`links, this`chains, this`search, this`lastpost, this`lastnopr
      ensures 7 <= nssets || Steady(cnfa, v) ==> !err
      ensures !err ==> Valid() && (ok <==> cnfa.post in SimSet(cnfa, v, start, v.Stop() + 1))
    {
      hide Linked;
      ok := false;
      var co := if v.notEol then cnfa.eos.0 else cnfa.eos.1;
      assert co == Sym(cnfa, v, v.Stop() + 1);
      var ss;
      ss, err := Miss(v, css, co, v.Stop(), start);
      if err {
        if 7 <= nssets || Steady(cnfa, v) { SomeVictim(v, v.Stop(), start, v.Stop()); }
        return;
      }
      if ss.None? { return; }
      assert EntryOk(cnfa, ssets[ss.value], ss.value == 0);
      ok := ssets[ss.value].poststate;
    }
  }

  lemma SubsetSize(a: set<nat>, b: set<nat>)
    requires a <= b
    ensures |a| <= |b| && (a != b ==> |a| < |b|)
  {
    if a != b {
      var x :| x in b && x !in a;
      assert b - a >= {x};
      assert b == a + (b - a) && |b| == |a| + |b - a|;
    }
  }
}
