/** The tree behind the colormap (regguts.h:119-198): four levels, one byte of the character each. Blocks are known
    by their addresses; 0 is the top, 1 and 2 are the pointer fill blocks, 3 is the fill block of colours. */
module ColorTree {

  const BYTTAB: nat := 256
  /** Every 32-bit number has a path. */
  const PATHS: nat := 0x1_0000_0000
  const WHITE: nat := 0

  type Ptrs = map<nat, seq<nat>>
  type Cols = map<nat, seq<nat>>

  /** The byte of c that indexes a block of the given level. */
  function Byte(c: nat, level: nat): nat {
    if level == 0 then c / 0x100_0000 else if level == 1 then c / 0x1_0000 % 256 else if level == 2 then c / 256 % 256 else c % 256
  }

  lemma Bytes(c: nat)
    requires c < PATHS
    ensures Byte(c, 0) < 256 && Byte(c, 1) < 256 && Byte(c, 2) < 256 && Byte(c, 3) < 256
    ensures c == ((Byte(c, 0) * 256 + Byte(c, 1)) * 256 + Byte(c, 2)) * 256 + Byte(c, 3)
  {
  }

  function Child(ptrs: Ptrs, p: nat, i: nat): nat {
    if p in ptrs && i < |ptrs[p]| then ptrs[p][i] else 0
  }

  /** The block c's path has reached at a level. */
  function Walk(ptrs: Ptrs, c: nat, level: nat): nat {
    if level == 0 then 0 else Child(ptrs, Walk(ptrs, c, level - 1), Byte(c, level - 1))
  }

  /** GETCOLOR, regguts.h:185-198. */
  function Look(ptrs: Ptrs, cols: Cols, c: nat): nat {
    var t := Walk(ptrs, c, 3);
    if t in cols && Byte(c, 3) < |cols[t]| then cols[t][Byte(c, 3)] else WHITE
  }

  /** Fill blocks and solid blocks may hang in several places. */
  predicate Shared(b: nat, solid: set<nat>) { 1 <= b <= 3 || b in solid }

  /** A block of pointers leads to blocks of the next level; one that is not shared hangs only where parent says. */
  ghost predicate BlockOk(ptrs: Ptrs, cols: Cols, lvl: map<nat, nat>, parent: map<nat, (nat, nat)>, solid: set<nat>, p: nat, i: nat)
    requires p in ptrs && i < |ptrs[p]|
  {
    var b := ptrs[p][i];
    && p in lvl
    && (if lvl[p] < 2 then b in ptrs && b in lvl && lvl[b] == lvl[p] + 1 else b in cols)
    && (!Shared(b, solid) ==> b in parent && parent[b] == (p, i))
  }

  ghost predicate HungUp(ptrs: Ptrs, parent: map<nat, (nat, nat)>, p: nat) {
    && p in parent && parent[p].0 in ptrs && parent[p].1 < |ptrs[parent[p].0]| && ptrs[parent[p].0][parent[p].1] == p
    && !(1 <= parent[p].0 <= 2)
  }

  ghost predicate Tree(ptrs: Ptrs, cols: Cols, lvl: map<nat, nat>, parent: map<nat, (nat, nat)>, solid: set<nat>) {
    && 0 in ptrs && 1 in ptrs && 2 in ptrs && 3 in cols && ptrs.Keys !! cols.Keys && 3 in solid && solid <= cols.Keys
    && (forall p :: p in ptrs ==> |ptrs[p]| == BYTTAB && p in lvl && lvl[p] <= 2 && (lvl[p] == 0 ==> p == 0))
    && (forall b :: b in cols ==> |cols[b]| == BYTTAB)
    && lvl[0] == 0 && lvl[1] == 1 && lvl[2] == 2
    && (forall i :: 0 <= i < BYTTAB ==> ptrs[1][i] == 2) && (forall i :: 0 <= i < BYTTAB ==> ptrs[2][i] == 3)
    && (forall i :: 0 <= i < BYTTAB ==> cols[3][i] == WHITE)
    && (forall p, i :: p in ptrs && 0 <= i < |ptrs[p]| ==> BlockOk(ptrs, cols, lvl, parent, solid, p, i))
    && (forall p :: p in ptrs && p > 2 ==> HungUp(ptrs, parent, p))
  }

  /** p is a block of pointers that may be written into: the top, or one that hangs in one place. */
  predicate Own(p: nat) { p == 0 || p > 3 }

  lemma WalkOk(ptrs: Ptrs, cols: Cols, lvl: map<nat, nat>, parent: map<nat, (nat, nat)>, solid: set<nat>, c: nat)
    requires Tree(ptrs, cols, lvl, parent, solid) && c < PATHS
    ensures Walk(ptrs, c, 0) == 0 && Walk(ptrs, c, 1) in ptrs && Walk(ptrs, c, 2) in ptrs && Walk(ptrs, c, 3) in cols
    ensures lvl[Walk(ptrs, c, 1)] == 1 && lvl[Walk(ptrs, c, 2)] == 2
    ensures forall l :: 0 <= l < 3 ==> Byte(c, l) < 256 && Walk(ptrs, c, l + 1) == ptrs[Walk(ptrs, c, l)][Byte(c, l)]
    ensures Look(ptrs, cols, c) == cols[Walk(ptrs, c, 3)][Byte(c, 3)]
  {
    Bytes(c);
    assert BlockOk(ptrs, cols, lvl, parent, solid, 0, Byte(c, 0));
    var w1 := Walk(ptrs, c, 1);
    assert w1 == Child(ptrs, Walk(ptrs, c, 0), Byte(c, 0)) == ptrs[0][Byte(c, 0)];
    assert BlockOk(ptrs, cols, lvl, parent, solid, w1, Byte(c, 1));
    var w2 := Walk(ptrs, c, 2);
    assert BlockOk(ptrs, cols, lvl, parent, solid, w2, Byte(c, 2));
  }

  /** A block that is not shared is reached by the characters of one subtree only. */
  lemma OnePath(ptrs: Ptrs, cols: Cols, lvl: map<nat, nat>, parent: map<nat, (nat, nat)>, solid: set<nat>, c: nat, d: nat, level: nat)
    requires Tree(ptrs, cols, lvl, parent, solid) && c < PATHS && d < PATHS && level <= 3
    requires Walk(ptrs, c, level) == Walk(ptrs, d, level) && !Shared(Walk(ptrs, c, level), solid)
    ensures forall l :: 0 <= l < level ==> Byte(c, l) == Byte(d, l)
    ensures forall l :: 0 <= l <= level ==> Walk(ptrs, c, l) == Walk(ptrs, d, l)
  {
    if level > 0 {
      WalkOk(ptrs, cols, lvl, parent, solid, c);
      WalkOk(ptrs, cols, lvl, parent, solid, d);
      var p, q := Walk(ptrs, c, level - 1), Walk(ptrs, d, level - 1);
      assert BlockOk(ptrs, cols, lvl, parent, solid, p, Byte(c, level - 1)) && BlockOk(ptrs, cols, lvl, parent, solid, q, Byte(d, level - 1));
      assert p == q;
      assert p !in solid;
      OnePath(ptrs, cols, lvl, parent, solid, c, d, level - 1);
    }
  }

  // ---------------------------------------------------------------- copying blocks

  function Put(row: seq<nat>, i: nat, x: nat): (r: seq<nat>)
    requires i < |row|
  {
    row[..i] + [x] + row[i + 1..]
  }

  /** The pointer at p, i set to b. */
  function Repoint(ptrs: Ptrs, p: nat, i: nat, b: nat): Ptrs
    requires p in ptrs && i < |ptrs[p]|
  {
    ptrs[p := Put(ptrs[p], i, b)]
  }

  /** A fill block of pointers has been copied to n: no character changes colour. */
  lemma GrowPtr(ptrs: Ptrs, cols: Cols, lvl: map<nat, nat>, parent: map<nat, (nat, nat)>, solid: set<nat>, p: nat, i: nat, n: nat)
    requires Tree(ptrs, cols, lvl, parent, solid) && p in ptrs && Own(p) && lvl[p] < 2 && i < BYTTAB && ptrs[p][i] == lvl[p] + 1
    requires n !in ptrs && n !in cols && n > 3
    ensures Tree(Repoint(ptrs[n := ptrs[lvl[p] + 1]], p, i, n), cols, lvl[n := lvl[p] + 1], parent[n := (p, i)], solid)
  {
    var t := lvl[p] + 1;
    var ptrs2, lvl2, parent2 := Repoint(ptrs[n := ptrs[t]], p, i, n), lvl[n := t], parent[n := (p, i)];
    forall q, j | q in ptrs2 && 0 <= j < |ptrs2[q]| ensures BlockOk(ptrs2, cols, lvl2, parent2, solid, q, j) {
      GrowPtrBlock(ptrs, cols, lvl, parent, solid, p, i, n, q, j);
    }
    forall q | q in ptrs2 && q > 2 ensures HungUp(ptrs2, parent2, q) {
      if q != n { GrowPtrHung(ptrs, cols, lvl, parent, solid, p, i, n, q); }
    }
    hide BlockOk, HungUp;
  }

  lemma GrowPtrBlock(ptrs: Ptrs, cols: Cols, lvl: map<nat, nat>, parent: map<nat, (nat, nat)>, solid: set<nat>, p: nat, i: nat, n: nat, q: nat, j: nat)
    requires Tree(ptrs, cols, lvl, parent, solid) && p in ptrs && Own(p) && lvl[p] < 2 && i < BYTTAB && ptrs[p][i] == lvl[p] + 1
    requires n !in ptrs && n !in cols && n > 3
    requires var ptrs2 := Repoint(ptrs[n := ptrs[lvl[p] + 1]], p, i, n); q in ptrs2 && j < |ptrs2[q]|
    ensures BlockOk(Repoint(ptrs[n := ptrs[lvl[p] + 1]], p, i, n), cols, lvl[n := lvl[p] + 1], parent[n := (p, i)], solid, q, j)
  {
    var r := if q == n then lvl[p] + 1 else q;
    assert BlockOk(ptrs, cols, lvl, parent, solid, r, j);
  }

  lemma GrowPtrHung(ptrs: Ptrs, cols: Cols, lvl: map<nat, nat>, parent: map<nat, (nat, nat)>, solid: set<nat>, p: nat, i: nat, n: nat, q: nat)
    requires Tree(ptrs, cols, lvl, parent, solid) && p in ptrs && Own(p) && lvl[p] < 2 && i < BYTTAB && ptrs[p][i] == lvl[p] + 1
    requires n !in ptrs && n !in cols && n > 3 && q in ptrs && q > 2
    ensures HungUp(Repoint(ptrs[n := ptrs[lvl[p] + 1]], p, i, n), parent[n := (p, i)], q)
  {
    assert HungUp(ptrs, parent, q) && parent[q] != (p, i);
    hide BlockOk;
  }

  lemma GrowPtrWalk(ptrs: Ptrs, cols: Cols, lvl: map<nat, nat>, parent: map<nat, (nat, nat)>, solid: set<nat>, p: nat, i: nat, n: nat, c: nat)
    requires Tree(ptrs, cols, lvl, parent, solid) && p in ptrs && Own(p) && lvl[p] < 2 && i < BYTTAB && ptrs[p][i] == lvl[p] + 1
    requires n !in ptrs && n !in cols && n > 3 && c < PATHS
    ensures Walk(Repoint(ptrs[n := ptrs[lvl[p] + 1]], p, i, n), c, 3) == Walk(ptrs, c, 3)
    ensures var ptrs2 := Repoint(ptrs[n := ptrs[lvl[p] + 1]], p, i, n);
      forall l :: 0 <= l < 3 ==> Walk(ptrs2, c, l) == if l == lvl[p] + 1 && Walk(ptrs, c, l - 1) == p && Byte(c, l - 1) == i then n else Walk(ptrs, c, l)
  {
    WalkOk(ptrs, cols, lvl, parent, solid, c);
    var ptrs2 := Repoint(ptrs[n := ptrs[lvl[p] + 1]], p, i, n);
    var w1, w2 := Walk(ptrs, c, 1), Walk(ptrs, c, 2);
    assert Walk(ptrs2, c, 0) == 0 && Walk(ptrs2, c, 1) == Child(ptrs2, 0, Byte(c, 0));
    assert Walk(ptrs2, c, 2) == Child(ptrs2, Walk(ptrs2, c, 1), Byte(c, 1));
    assert Walk(ptrs2, c, 3) == Child(ptrs2, Walk(ptrs2, c, 2), Byte(c, 2));
    if lvl[p] == 0 {
      assert p == 0 && w2 != 0 && Walk(ptrs2, c, 1) == if Byte(c, 0) == i then n else w1;
      assert Walk(ptrs2, c, 2) == w2;
    } else {
      assert p != 0 && Walk(ptrs2, c, 1) == w1;
      assert Walk(ptrs2, c, 2) == if w1 == p && Byte(c, 1) == i then n else w2;
    }
  }

  /** The pointer at p, i of the last pointer level now leads to the colour block b: the characters that pass there
      have the colours of b, all others keep theirs. */
  lemma PointWalk(ptrs: Ptrs, cols: Cols, lvl: map<nat, nat>, parent: map<nat, (nat, nat)>, solid: set<nat>, p: nat, i: nat, b: nat, c: nat)
    requires Tree(ptrs, cols, lvl, parent, solid) && p in ptrs && Own(p) && lvl[p] == 2 && i < BYTTAB && c < PATHS
    ensures var ptrs2 := Repoint(ptrs, p, i, b); forall l :: 0 <= l < 3 ==> Walk(ptrs2, c, l) == Walk(ptrs, c, l)
    ensures Walk(Repoint(ptrs, p, i, b), c, 3) == if Walk(ptrs, c, 2) == p && Byte(c, 2) == i then b else Walk(ptrs, c, 3)
  {
    WalkOk(ptrs, cols, lvl, parent, solid, c);
    var ptrs2 := Repoint(ptrs, p, i, b);
    assert Walk(ptrs2, c, 1) == Child(ptrs2, 0, Byte(c, 0));
    assert Walk(ptrs2, c, 2) == Child(ptrs2, Walk(ptrs2, c, 1), Byte(c, 1));
    assert Walk(ptrs2, c, 3) == Child(ptrs2, Walk(ptrs2, c, 2), Byte(c, 2));
  }

  /** b, which is shared or hangs nowhere yet, is hung at p, i. */
  lemma PointOk(ptrs: Ptrs, cols: Cols, lvl: map<nat, nat>, parent: map<nat, (nat, nat)>, solid: set<nat>, p: nat, i: nat, b: nat, parent2: map<nat, (nat, nat)>)
    requires Tree(ptrs, cols, lvl, parent, solid) && p in ptrs && Own(p) && lvl[p] == 2 && i < BYTTAB && b in cols
    requires if Shared(b, solid) then parent2 == parent else Unhung(ptrs, b) && parent2 == parent[b := (p, i)]
    ensures Tree(Repoint(ptrs, p, i, b), cols, lvl, parent2, solid)
  {
    var ptrs2 := Repoint(ptrs, p, i, b);
    forall q, j | q in ptrs2 && 0 <= j < |ptrs2[q]| ensures BlockOk(ptrs2, cols, lvl, parent2, solid, q, j) {
      assert BlockOk(ptrs, cols, lvl, parent, solid, q, j);
      if !Shared(b, solid) { assert !HangsAt(ptrs, b, q, j); }
    }
    forall q | q in ptrs2 && q > 2 ensures HungUp(ptrs2, parent2, q) {
      assert HungUp(ptrs, parent, q);
      var r := parent[q];
      assert BlockOk(ptrs, cols, lvl, parent, solid, r.0, r.1);
    }
  }

  ghost predicate HangsAt(ptrs: Ptrs, b: nat, p: nat, i: nat) {
    p in ptrs && i < |ptrs[p]| && ptrs[p][i] == b
  }

  /** No pointer leads to b. */
  ghost predicate Unhung(ptrs: Ptrs, b: nat) {
    forall p, i :: !HangsAt(ptrs, b, p, i)
  }

  /** A block at a new address: nothing refers to it yet. */
  lemma NewBlock(ptrs: Ptrs, cols: Cols, lvl: map<nat, nat>, parent: map<nat, (nat, nat)>, solid: set<nat>, n: nat, row: seq<nat>, isSolid: bool)
    requires Tree(ptrs, cols, lvl, parent, solid) && n !in ptrs && n !in cols && n > 3 && |row| == BYTTAB
    ensures Tree(ptrs, cols[n := row], lvl, parent, if isSolid then solid + {n} else solid) && Unhung(ptrs, n)
    ensures forall c :: 0 <= c < PATHS ==> Look(ptrs, cols[n := row], c) == Look(ptrs, cols, c)
  {
    var cols2, solid2 := cols[n := row], if isSolid then solid + {n} else solid;
    forall p, i | p in ptrs && 0 <= i < |ptrs[p]| ensures BlockOk(ptrs, cols2, lvl, parent, solid2, p, i) && ptrs[p][i] != n {
      assert BlockOk(ptrs, cols, lvl, parent, solid, p, i);
    }
    forall c | 0 <= c < PATHS ensures Look(ptrs, cols2, c) == Look(ptrs, cols, c) { WalkOk(ptrs, cols, lvl, parent, solid, c); }
  }

  /** Writing a colour into a block of c's own changes the colour of c alone. */
  lemma Store(ptrs: Ptrs, cols: Cols, lvl: map<nat, nat>, parent: map<nat, (nat, nat)>, solid: set<nat>, c: nat, co: nat)
    requires Tree(ptrs, cols, lvl, parent, solid) && c < PATHS && !Shared(Walk(ptrs, c, 3), solid)
    ensures var t := Walk(ptrs, c, 3); t in cols && Tree(ptrs, cols[t := Put(cols[t], Byte(c, 3), co)], lvl, parent, solid)
    ensures var t := Walk(ptrs, c, 3);
      forall d :: 0 <= d < PATHS ==> Look(ptrs, cols[t := Put(cols[t], Byte(c, 3), co)], d) == if d == c then co else Look(ptrs, cols, d)
  {
    var t := Walk(ptrs, c, 3);
    WalkOk(ptrs, cols, lvl, parent, solid, c);
    Bytes(c);
    var cols2 := cols[t := Put(cols[t], Byte(c, 3), co)];
    forall p, i | p in ptrs && 0 <= i < |ptrs[p]| ensures BlockOk(ptrs, cols2, lvl, parent, solid, p, i) {
      assert BlockOk(ptrs, cols, lvl, parent, solid, p, i);
    }
    forall d | 0 <= d < PATHS ensures Look(ptrs, cols2, d) == if d == c then co else Look(ptrs, cols, d) {
      WalkOk(ptrs, cols, lvl, parent, solid, d);
      Bytes(d);
      if Walk(ptrs, d, 3) == t { OnePath(ptrs, cols, lvl, parent, solid, c, d, 3); }
    }
  }

  /** A solid block nothing leads to may go. */
  lemma Unsolid(ptrs: Ptrs, cols: Cols, lvl: map<nat, nat>, parent: map<nat, (nat, nat)>, solid: set<nat>, b: nat)
    requires Tree(ptrs, cols, lvl, parent, solid) && b in solid && b > 3 && Unhung(ptrs, b)
    ensures Tree(ptrs, cols - {b}, lvl, parent, solid - {b})
    ensures forall c :: 0 <= c < PATHS ==> Look(ptrs, cols - {b}, c) == Look(ptrs, cols, c)
  {
    var cols2 := cols - {b};
    forall p, i | p in ptrs && 0 <= i < |ptrs[p]| ensures BlockOk(ptrs, cols2, lvl, parent, solid - {b}, p, i) {
      assert BlockOk(ptrs, cols, lvl, parent, solid, p, i) && !HangsAt(ptrs, b, p, i);
    }
    forall c | 0 <= c < PATHS ensures Look(ptrs, cols2, c) == Look(ptrs, cols, c) {
      WalkOk(ptrs, cols, lvl, parent, solid, c);
      assert !HangsAt(ptrs, b, Walk(ptrs, c, 2), Byte(c, 2));
    }
  }

  /** A block of colours that hangs somewhere is on the path of some character. */
  lemma Reached(ptrs: Ptrs, cols: Cols, lvl: map<nat, nat>, parent: map<nat, (nat, nat)>, solid: set<nat>, b: nat, p: nat, i: nat) returns (c: nat)
    requires Tree(ptrs, cols, lvl, parent, solid) && b in cols && b != 3 && HangsAt(ptrs, b, p, i)
    ensures c < PATHS && Walk(ptrs, c, 3) == b && Look(ptrs, cols, c) == cols[b][0]
  {
    assert BlockOk(ptrs, cols, lvl, parent, solid, p, i);
    assert lvl[p] == 2 && p > 2;
    var (q, j) := parent[p];
    assert HungUp(ptrs, parent, p) && BlockOk(ptrs, cols, lvl, parent, solid, q, j);
    assert lvl[q] == 1 && q > 2;
    var (r, k) := parent[q];
    assert HungUp(ptrs, parent, q) && BlockOk(ptrs, cols, lvl, parent, solid, r, k);
    assert r == 0;
    c := ((k * 256 + j) * 256 + i) * 256;
    ComposedBytes(k, j, i);
    WalkOk(ptrs, cols, lvl, parent, solid, c);
  }

  lemma ComposedBytes(k: nat, j: nat, i: nat)
    requires k < 256 && j < 256 && i < 256
    ensures var c := ((k * 256 + j) * 256 + i) * 256; c < PATHS && Byte(c, 0) == k && Byte(c, 1) == j && Byte(c, 2) == i && Byte(c, 3) == 0
  {
    var c := ((k * 256 + j) * 256 + i) * 256;
    assert c / 256 == (k * 256 + j) * 256 + i && c / 0x1_0000 == k * 256 + j && c / 0x100_0000 == k;
  }
}
