/** The colormap, regc_color.c:42-642: the tree and the colours together. */
module ColorMap {
  import opened Options
  import opened Nfa
  import opened ColorTree
  import opened C = Colors

  // ---------------------------------------------------------------- the free chain

  ghost predicate LinkAt(cd: seq<Desc>, list: seq<nat>, i: nat)
    requires i < |list|
  {
    0 < list[i] < |cd| && cd[list[i]].isFree && cd[list[i]].sub == Head(list[i + 1..])
  }

  function Head(list: seq<nat>): nat { if list == [] then 0 else list[0] }

  /** From first on, the chain runs through the list. */
  ghost predicate Links(cd: seq<Desc>, first: nat, list: seq<nat>) {
    && first == Head(list) && (forall i, j :: 0 <= i < j < |list| ==> list[i] != list[j])
    && forall i :: 0 <= i < |list| ==> LinkAt(cd, list, i)
  }

  /** The free chain holds exactly the free colours up to max. */
  ghost predicate FreeOk(cd: seq<Desc>, max: nat, free: nat, list: seq<nat>) {
    && Links(cd, free, list) && (forall x :: x in list ==> x <= max)
    && forall co :: 0 < co <= max && co < |cd| && cd[co].isFree ==> co in list
  }

  lemma InFree(cd: seq<Desc>, first: nat, list: seq<nat>)
    requires Links(cd, first, list)
    ensures forall x :: x in list ==> 0 < x < |cd| && cd[x].isFree
  {
    forall x | x in list ensures 0 < x < |cd| && cd[x].isFree {
      var i :| 0 <= i < |list| && list[i] == x;
      assert LinkAt(cd, list, i);
    }
  }

  lemma LinksHead(cd: seq<Desc>, first: nat, list: seq<nat>)
    requires Links(cd, first, list)
    ensures first == Head(list) && (first != 0 <==> list != [])
  {
    if list != [] { assert LinkAt(cd, list, 0); }
  }

  lemma LinksTail(cd: seq<Desc>, first: nat, list: seq<nat>)
    requires Links(cd, first, list) && list != []
    ensures 0 < list[0] < |cd| && cd[list[0]].isFree && cd[list[0]].sub == Head(list[1..]) && first == list[0]
    ensures Links(cd, Head(list[1..]), list[1..]) && list[0] !in list[1..]
  {
    assert LinkAt(cd, list, 0);
    var rest := list[1..];
    forall i | 0 <= i < |rest| ensures LinkAt(cd, rest, i) {
      assert LinkAt(cd, list, i + 1) && rest[i + 1..] == list[i + 2..];
    }
  }

  /** The chain depends on the links of its own colours only. */
  lemma LinksKept(cd: seq<Desc>, cd2: seq<Desc>, first: nat, list: seq<nat>)
    requires Links(cd, first, list) && |cd| <= |cd2|
    requires forall x :: x in list && x < |cd| ==> cd2[x].isFree == cd[x].isFree && cd2[x].sub == cd[x].sub
    ensures Links(cd2, first, list)
  {
    forall i | 0 <= i < |list| ensures LinkAt(cd2, list, i) { assert LinkAt(cd, list, i) && list[i] in list; }
  }

  lemma LinksPush(cd: seq<Desc>, first: nat, list: seq<nat>, co: nat)
    requires Links(cd, first, list) && 0 < co < |cd| && cd[co].isFree && co !in list
    ensures Links(cd[co := cd[co].(sub := first)], co, [co] + list)
  {
    var cd2, list2 := cd[co := cd[co].(sub := first)], [co] + list;
    forall i | 0 <= i < |list2| ensures LinkAt(cd2, list2, i) {
      if i == 0 { assert list2[1..] == list; } else {
        assert LinkAt(cd, list, i - 1) && list[i - 1] in list && list2[i + 1..] == list[i..];
      }
    }
  }

  /** Taking one colour out of the chain, behind the last one of head. */
  lemma LinksCut(cd: seq<Desc>, first: nat, head: seq<nat>, tail: seq<nat>)
    requires Links(cd, first, head + tail) && head != [] && tail != []
    ensures var p := head[|head| - 1];
      p < |cd| && Links(cd[p := cd[p].(sub := Head(tail[1..]))], first, head + tail[1..])
  {
    var list, list2 := head + tail, head + tail[1..];
    var k := |head| - 1;
    var p := head[k];
    assert list[k] == p && LinkAt(cd, list, k);
    var cd2 := cd[p := cd[p].(sub := Head(tail[1..]))];
    forall i, j | 0 <= i < j < |list2| ensures list2[i] != list2[j] {
      assert list2[i] == list[if i < |head| then i else i + 1] && list2[j] == list[if j < |head| then j else j + 1];
    }
    forall i | 0 <= i < |list2| ensures LinkAt(cd2, list2, i) {
      var h := if i < |head| then i else i + 1;
      assert LinkAt(cd, list, h) && list2[i] == list[h];
      if i < k {
        assert list2[i + 1..][0] == list[i + 1..][0];
      } else if i == k {
        assert list2[i + 1..] == tail[1..];
      } else {
        assert list2[i + 1..] == list[h + 1..] && list[h] != list[k];
      }
    }
  }

  // ---------------------------------------------------------------- tree and colours

  /** The solid blocks. */
  ghost function SolidOf(cd: seq<Desc>): set<nat> {
    set co | 0 <= co < |cd| && cd[co].block.Some? :: cd[co].block.value
  }

  ghost predicate SolidFor(cols: Cols, b: nat, co: nat) {
    b in cols && |cols[b]| == BYTTAB && forall i :: 0 <= i < BYTTAB ==> cols[b][i] == co
  }

  /** A colour's block is of that colour throughout; the fill block is WHITE's. */
  ghost predicate Blocks(cd: seq<Desc>, cols: Cols) {
    && |cd| > 0 && cd[C.WHITE].block == Some(3)
    && forall co :: 0 <= co < |cd| && cd[co].block.Some? ==> SolidFor(cols, cd[co].block.value, co)
  }

  ghost predicate Cells(cols: Cols, n: nat) {
    forall b, i :: b in cols && 0 <= i < |cols[b]| ==> cols[b][i] < n
  }

  ghost predicate Addressed(ptrs: Ptrs, cols: Cols, next: nat) {
    next > 3 && (forall p :: p in ptrs ==> p < next) && (forall b :: b in cols ==> b < next)
  }

  ghost predicate MapOk(ptrs: Ptrs, cols: Cols, lvl: map<nat, nat>, parent: map<nat, (nat, nat)>, next: nat, cd: seq<Desc>) {
    Tree(ptrs, cols, lvl, parent, SolidOf(cd)) && Addressed(ptrs, cols, next) && Cells(cols, |cd|) && Blocks(cd, cols)
  }

  /** The flat map. */
  ghost function Flat(ptrs: Ptrs, cols: Cols): nat -> nat { (c: nat) => Look(ptrs, cols, c) }

  /** What is no character stays WHITE. */
  ghost predicate Beyond(ptrs: Ptrs, cols: Cols) {
    forall c :: NCHRS <= c < PATHS ==> Look(ptrs, cols, c) == C.WHITE
  }

  /** A block is shared exactly when it is the fill block or the block of its first cell's colour. */
  lemma SolidTest(ptrs: Ptrs, cols: Cols, lvl: map<nat, nat>, parent: map<nat, (nat, nat)>, next: nat, cd: seq<Desc>, t: nat)
    requires MapOk(ptrs, cols, lvl, parent, next, cd) && t in cols
    ensures |cols[t]| == BYTTAB && cols[t][0] < |cd|
    ensures Shared(t, SolidOf(cd)) <==> t == 3 || cd[cols[t][0]].block == Some(t)
  {
    if t in SolidOf(cd) {
      var co :| 0 <= co < |cd| && cd[co].block.Some? && cd[co].block.value == t;
      assert SolidFor(cols, t, co);
    }
    assert 1 in ptrs && 2 in ptrs;
  }

  /** Changing nothing but counts, subcolours and arcs leaves the map alone. */
  lemma SameBlocks(ptrs: Ptrs, cols: Cols, lvl: map<nat, nat>, parent: map<nat, (nat, nat)>, next: nat, cd: seq<Desc>, cd2: seq<Desc>)
    requires MapOk(ptrs, cols, lvl, parent, next, cd) && |cd| <= |cd2|
    requires forall x :: 0 <= x < |cd2| ==> cd2[x].block == if x < |cd| then cd[x].block else None
    ensures MapOk(ptrs, cols, lvl, parent, next, cd2) && SolidOf(cd2) == SolidOf(cd)
  {
    forall b ensures b in SolidOf(cd2) <==> b in SolidOf(cd) {
      if b in SolidOf(cd) {
        var co :| 0 <= co < |cd| && cd[co].block.Some? && cd[co].block.value == b;
        assert cd2[co].block == cd[co].block;
      }
      if b in SolidOf(cd2) {
        var co :| 0 <= co < |cd2| && cd2[co].block.Some? && cd2[co].block.value == b;
        assert cd[co].block == cd2[co].block;
      }
    }
    assert SolidOf(cd2) == SolidOf(cd);
    hide Tree;
    assert cd2[C.WHITE].block == cd[C.WHITE].block;
  }

  class Colormap {
    var ptrs: Ptrs
    var cols: Cols
    var next: nat
    var cd: seq<Desc>
    var max: nat
    var free: nat
    ghost var lvl: map<nat, nat>
    ghost var parent: map<nat, (nat, nat)>
    ghost var list: seq<nat>

    ghost predicate TreeValid()
      reads this
    {
      MapOk(ptrs, cols, lvl, parent, next, cd)
    }

    ghost predicate Valid()
      reads this
    {
      TreeValid() && ColoursOk(cd, max, Flat(ptrs, cols)) && FreeOk(cd, max, free, list) && Beyond(ptrs, cols)
    }

    /** No colour is left. */
    predicate Exhausted()
      reads this
    {
      free == 0 && max == MAX_COLOR
    }

    /** GETCOLOR. */
    method GetColor(c: nat) returns (co: nat)
      requires TreeValid() && c < PATHS
      ensures co == Look(ptrs, cols, c)
    {
      WalkOk(ptrs, cols, lvl, parent, SolidOf(cd), c);
      co := cols[ptrs[ptrs[ptrs[0][Byte(c, 0)]][Byte(c, 1)]][Byte(c, 2)]][Byte(c, 3)];
    }

    /** A new copy of the fill block of pointers that c's path comes to. */
    method CopyPtrs(c: nat, level: nat, p: nat) returns (t: nat)
      requires TreeValid() && c < PATHS && level < 2 && Walk(ptrs, c, level) == p && p in ptrs && Own(p)
      requires Byte(c, level) < |ptrs[p]| && ptrs[p][Byte(c, level)] == level + 1
      modifies this`ptrs, this`next, this`lvl, this`parent
      ensures TreeValid() && t > 3 && t in ptrs && Walk(ptrs, c, level) == p && Walk(ptrs, c, level + 1) == t
      ensures SameLooks(old(ptrs), cols, ptrs, cols)
    {
      hide MapOk, Walk, SameLooks;
      PtrCopied(ptrs, cols, lvl, parent, next, cd, c, level, p);
      t := next;
      next := next + 1;
      ptrs := Repoint(ptrs[t := ptrs[level + 1]], p, Byte(c, level), t);
      lvl := lvl[t := level + 1];
      parent := parent[t := (p, Byte(c, level))];
    }

    /** A new copy of the shared block of colours that c's path comes to. */
    method CopyCols(c: nat, p: nat) returns (t: nat)
      requires TreeValid() && c < PATHS && Walk(ptrs, c, 2) == p && p in ptrs && Own(p)
      requires Byte(c, 2) < |ptrs[p]| && ptrs[p][Byte(c, 2)] in cols
      modifies this`ptrs, this`cols, this`next, this`parent
      ensures TreeValid() && t in cols && Walk(ptrs, c, 3) == t && !Shared(t, SolidOf(cd))
      ensures SameLooks(old(ptrs), old(cols), ptrs, cols)
    {
      hide MapOk, Walk, SameLooks;
      ColsCopied(ptrs, cols, lvl, parent, next, cd, c, p);
      t := next;
      next := next + 1;
      cols := cols[t := cols[ptrs[p][Byte(c, 2)]]];
      ptrs := Repoint(ptrs, p, Byte(c, 2), t);
      parent := parent[t := (p, Byte(c, 2))];
    }

    /** One level down c's path, among the pointers: a fill block is replaced by a copy. */
    method StepPtr(c: nat, level: nat, lastt: nat) returns (t: nat)
      requires TreeValid() && c < PATHS && level < 2 && lastt == Walk(ptrs, c, level) && lastt in ptrs && Own(lastt)
      modifies this`ptrs, this`next, this`lvl, this`parent
      ensures TreeValid() && t == Walk(ptrs, c, level + 1) && SameLooks(old(ptrs), cols, ptrs, cols) && t in ptrs && Own(t)
    {
      WalkOk(ptrs, cols, lvl, parent, SolidOf(cd), c);
      var b := Byte(c, level);
      t := ptrs[lastt][b];
      if t == level + 1 {
        t := CopyPtrs(c, level, lastt);
      } else {
        PtrLevel(ptrs, cols, lvl, parent, SolidOf(cd), lastt, b, level);
      }
    }

    /** One level down c's path, replacing a shared block by a copy (regc_color.c:179-200). */
    method StepDown(c: nat, level: nat, lastt: nat) returns (t: nat)
      requires TreeValid() && c < PATHS && level < 3 && lastt == Walk(ptrs, c, level) && lastt in ptrs && Own(lastt)
      modifies this`ptrs, this`cols, this`next, this`lvl, this`parent
      ensures TreeValid() && t == Walk(ptrs, c, level + 1) && SameLooks(old(ptrs), old(cols), ptrs, cols)
      ensures if level < 2 then t in ptrs && Own(t) else t in cols && !Shared(t, SolidOf(cd))
    {
      if level < 2 {
        t := StepPtr(c, level, lastt);
        return;
      }
      WalkOk(ptrs, cols, lvl, parent, SolidOf(cd), c);
      t := ptrs[lastt][Byte(c, level)];
      SolidTest(ptrs, cols, lvl, parent, next, cd, t);
      var cb := cd[cols[t][0]].block;
      if t == 3 || cb == Some(t) {
        t := CopyCols(c, lastt);
      }
    }

    /** setcolor(), regc_color.c:154-207: c alone changes colour. */
    method SetColor(c: nat, co: nat) returns (prev: nat)
      requires TreeValid() && c < PATHS && co < |cd|
      modifies this`ptrs, this`cols, this`next, this`lvl, this`parent
      ensures TreeValid() && prev == Look(old(ptrs), old(cols), c)
      ensures forall d :: 0 <= d < PATHS ==> Look(ptrs, cols, d) == if d == c then co else Look(old(ptrs), old(cols), d)
    {
      hide Tree, Addressed, Cells, Blocks, SameLooks;
      ghost var ptrs0, cols0 := ptrs, cols;
      var t := 0;
      var level := 0;
      SameLooksRefl(ptrs, cols);
      WalkOk(ptrs, cols, lvl, parent, SolidOf(cd), c);
      while level < 3
        invariant TreeValid() && 0 <= level <= 3 && t == Walk(ptrs, c, level) && SameLooks(ptrs0, cols0, ptrs, cols)
        invariant if level < 3 then t in ptrs && Own(t) else t in cols && !Shared(t, SolidOf(cd))
      {
        ghost var ptrs1, cols1 := ptrs, cols;
        t := StepDown(c, level, t);
        SameLooksTrans(ptrs0, cols0, ptrs1, cols1, ptrs, cols);
        level := level + 1;
      }
      Stored(ptrs0, cols0, ptrs, cols, lvl, parent, next, cd, c, t, co);
      prev := cols[t][Byte(c, 3)];
      cols := cols[t := Put(cols[t], Byte(c, 3), co)];
    }

    /** initcm(), regc_color.c:42-87: all characters are WHITE. */
    constructor ()
      ensures Valid() && Busy(cd) && (forall co :: !Open(cd, co)) && forall c :: 0 <= c < PATHS ==> Look(ptrs, cols, c) == C.WHITE
    {
      ptrs := map[0 := seq(BYTTAB, i => 1), 1 := seq(BYTTAB, i => 2), 2 := seq(BYTTAB, i => 3)];
      cols := map[3 := seq(BYTTAB, i => C.WHITE)];
      next := 4;
      cd := [Desc(NCHRS, NOSUB, [], false, false, Some(3))];
      max, free := 0, 0;
      lvl := map[0 := 0, 1 := 1, 2 := 2];
      parent := map[];
      list := [];
      new;
      InitOk(ptrs, cols, lvl, cd);
    }

    /** newcolor(), regc_color.c:229-293, apart from running out of memory. */
    method NewColor() returns (r: Option<nat>)
      requires Valid()
      modifies this`cd, this`max, this`free, this`list
      ensures Valid()
      ensures r.None? <==> old(Exhausted())
      ensures r.None? ==> Exhausted()
      ensures if r.None? then cd == old(cd) else Added(old(cd), cd, r.value)
    {
      hide MapOk, ColoursOk, Beyond, Added, Flat, Links, Tree, Addressed, Cells, Blocks;
      ghost var cd0, max0, f := cd, max, Flat(ptrs, cols);
      var co;
      LinksHead(cd, free, list);
      HighestInRange(cd, max, f);
      if free != 0 {
        LinksTail(cd, free, list);
        co := free;
        free := cd[co].sub;
        list := list[1..];
      } else if max == MAX_COLOR {
        return None;
      } else {
        max := max + 1;
        co := max;
      }
      FreeColour(cd0, max0, old(free), old(list), max, co, f);
      cd := if co == |cd| then cd + [NEW] else cd[co := NEW];
      NewColour(cd0, cd, max0, max, old(free), old(list), free, list, co, f);
      SameBlocks(ptrs, cols, lvl, parent, next, cd0, cd);
      r := Some(co);
    }

    /** pseudocolor(), regc_color.c:358-371. */
    method PseudoColor() returns (r: Option<nat>)
      requires Valid()
      modifies this`cd, this`max, this`free, this`list
      ensures r.None? ==> Exhausted()
      ensures Valid()
      ensures r.Some? ==> !Used(old(cd), r.value) && Used(cd, r.value) && !Real(cd, r.value)
      ensures forall x :: Real(cd, x) <==> Real(old(cd), x)
      ensures forall x :: Real(cd, x) ==> cd[x] == old(cd)[x]
    {
      hide MapOk, FreeOk, ColoursOk, Beyond, Flat, Added;
      r := NewColor();
      if r.None? { return; }
      ghost var cd0 := cd;
      AddedAt(old(cd), cd, r.value);
      cd := cd[r.value := cd[r.value].(nchrs := 1, pseudo := true)];
      PseudoOk(old(cd), cd0, cd, r.value, old(max), max, Flat(ptrs, cols), free, list);
      SameBlocks(ptrs, cols, lvl, parent, next, cd0, cd);
    }

    /** newsub(), regc_color.c:405-428. */
    method NewSub(co: nat) returns (r: Option<nat>)
      requires Valid() && Real(cd, co)
      modifies this`cd, this`max, this`free, this`list
      ensures r.None? ==> Exhausted()
      ensures Valid()
      ensures if r.None? then cd == old(cd) else Subbed(old(cd), cd, co, r.value) && Real(cd, r.value)
    {
      hide MapOk, FreeOk, ColoursOk, Beyond, Flat, Subbed, Added;
      SubReal(cd, max, Flat(ptrs, cols), co);
      SubbedNow(cd, co);
      var sub := cd[co].sub;
      if sub == NOSUB {
        if cd[co].nchrs == 1 { return Some(co); }
        r := MakeSub(co);
        return;
      }
      r := Some(sub);
    }

    /** A new colour, as the open subcolour of co. */
    method MakeSub(co: nat) returns (r: Option<nat>)
      requires Valid() && Real(cd, co) && cd[co].sub == NOSUB && cd[co].nchrs != 1
      modifies this`cd, this`max, this`free, this`list
      ensures r.None? ==> Exhausted()
      ensures Valid()
      ensures if r.None? then cd == old(cd) else Subbed(old(cd), cd, co, r.value) && Real(cd, r.value)
    {
      hide MapOk, FreeOk, ColoursOk, Beyond, Flat, Subbed, Added, SubMade;
      ghost var cd0 := cd;
      r := NewColor();
      if r.None? { return; }
      var sco := r.value;
      ghost var cd1 := cd;
      AddedParts(cd0, cd1, co, sco);
      cd := cd[co := cd[co].(sub := sco)];
      cd := cd[sco := cd[sco].(sub := sco)];
      SubMadeAll(ptrs, cols, lvl, parent, next, cd0, cd1, cd, co, sco, max, free, list);
    }

    /** The end of freecolor() when the highest colour goes (regc_color.c:321-347): max comes down to the highest
        colour in use, and the free chain loses what lies above. */
    method TrimMax()
      requires max < |cd| && !cd[0].isFree && Links(cd, free, list) && forall y :: 0 < y < max && cd[y].isFree ==> y in list
      modifies this`cd, this`max, this`free, this`list
      ensures max <= old(max) && |cd| == |old(cd)| && !cd[max].isFree && FreeOk(cd, max, free, list)
      ensures forall y :: max < y <= old(max) ==> cd[y].isFree
      ensures OnlySubs(old(cd), cd)
    {
      hide Links, OnlySubs;
      ghost var cd0, max0 := cd, max;
      while max > C.WHITE && cd[max].isFree
        invariant max <= max0 && forall y :: max < y <= max0 ==> cd[y].isFree
        modifies this`max
      {
        max := max - 1;
      }
      while free > max
        invariant Links(cd, free, list) && forall y :: 0 < y <= max && cd[y].isFree ==> y in list
        modifies this`free, this`list
        decreases |list|
      {
        LinksHead(cd, free, list);
        LinksTail(cd, free, list);
        free := cd[free].sub;
        list := list[1..];
      }
      LinksHead(cd, free, list);
      if free > 0 {
        LinksTail(cd, free, list);
        var pco: nat := free;
        var nco := cd[pco].sub;
        ghost var head: seq<nat>, tail: seq<nat> := [pco], list[1..];
        assert list == head + tail;
        OnlySubsRefl(cd);
        while nco > 0
          invariant list == head + tail && head != [] && pco == head[|head| - 1] && nco == Head(tail) && |cd| == |cd0| && OnlySubs(cd0, cd)
          invariant Links(cd, free, list) && (forall x :: x in head ==> x <= max) && forall y :: 0 < y <= max && cd[y].isFree ==> y in list
          modifies this`cd, this`list
          decreases |tail|
        {
          NextLink(cd, free, head, tail);
          if nco > max {
            // take this one out of the chain
            nco := cd[nco].sub;
            InFree(cd, free, list);
            assert list[|head| - 1] == pco && pco in list;
            LinksCut(cd, free, head, tail);
            CutKeeps(cd0, cd, pco, nco, head, tail, max);
            cd := cd[pco := cd[pco].(sub := nco)];
            list := head + tail[1..];
            tail := tail[1..];
          } else {
            pco := nco;
            nco := cd[pco].sub;
            head, tail := head + [tail[0]], tail[1..];
            assert list == head + tail;
          }
        }
        InFree(cd, free, list);
        if tail != [] { NextLink(cd, free, head, tail); }
        assert list == head;
        OnlySubsFree(cd0, cd);
      } else {
        OnlySubsRefl(cd);
        EndLink(cd, list);
      }
    }

    /** freecolor(), regc_color.c:299-352. */
    method FreeColor(co: nat)
      requires Valid() && Busy(cd) && Real(cd, co)
      requires co != C.WHITE ==> cd[co].arcs == [] && cd[co].sub == NOSUB && cd[co].nchrs == 0
      modifies this`cd, this`cols, this`max, this`free, this`list
      ensures Valid() && Busy(cd) && SameLooks(ptrs, old(cols), ptrs, cols)
      ensures if co == C.WHITE then cd == old(cd) else Freed(old(cd), cd, co)
      ensures Gained(old(cd), Flat(ptrs, old(cols)), cd, Flat(ptrs, cols), 0, 0, {})
    {
      hide MapOk, FreeOk, ColoursOk, Beyond, Flat, Freed, Gained, Links, Busy, SameLooks;
      GainedRefl(cd, Flat(ptrs, cols), 0, 0);
      SameLooksRefl(ptrs, cols);
      if co == C.WHITE {
        return;
      }
      ghost var cd0, cols0, max0 := cd, cols, max;
      FreedStart(ptrs, cols, lvl, parent, next, cd, max, free, list, co);
      cd := cd[co := cd[co].(isFree := true)];
      if cd[co].block.Some? {
        cols := cols - {cd[co].block.value};
        cd := cd[co := cd[co].(block := None)];
      }
      assert cd == cd0[co := cd0[co].(isFree := true, block := None)];
      ghost var cd1 := cd;
      Unchain(co);
      FreedEnd(ptrs, cols0, cols, lvl, parent, next, cd0, cd1, cd, co, max0, max);
    }

    /** The colour that has just been freed is left above max, or goes on the free chain. */
    method Unchain(co: nat)
      requires max < |cd| && !cd[0].isFree && Links(cd, free, list) && co !in list && 0 < co <= max && cd[co].isFree && (co != max ==> !cd[max].isFree)
      requires (forall y :: 0 < y < max && y != co && cd[y].isFree ==> y in list) && forall x :: x in list ==> x <= max
      modifies this`cd, this`max, this`free, this`list
      ensures max <= old(max) && |cd| == |old(cd)| && !cd[max].isFree && FreeOk(cd, max, free, list)
      ensures forall y :: max < y <= old(max) ==> cd[y].isFree
      ensures OnlySubs(old(cd), cd)
    {
      if co == max {
        TrimMax();
      } else {
        LinksPush(cd, free, list, co);
        cd := cd[co := cd[co].(sub := free)];
        free := co;
        list := [co] + list;
      }
    }

    /** What holds while a bracket expression between lp and rp is read. */
    ghost predicate Reading(lp: nat, rp: nat)
      reads this
    {
      Valid() && Busy(cd) && Bracket(cd, lp, rp)
    }

    /** newarc() for a coloured arc. */
    method NewArc(a: Arc)
      requires a.co < |cd|
      modifies this`cd
      ensures cd == ArcAdded(old(cd), a)
    {
      if a !in cd[a.co].arcs {
        cd := cd[a.co := cd[a.co].(arcs := [a] + cd[a.co].arcs)];
      }
    }

    /** subcolor(), regc_color.c:377-399. cd1 are the colours once newsub() is done. */
    method SubColor(c: nat) returns (r: Option<nat>, ghost cd1: seq<Desc>)
      requires Valid() && Busy(cd) && c < NCHRS
      modifies this
      ensures r.None? ==> Exhausted()
      ensures r.Some? ==> Valid() && Busy(cd) && SubTaken(old(cd), cd1, cd, Look(old(ptrs), old(cols), c), r.value, 1)
      ensures r.Some? ==> Painted(old(ptrs), old(cols), ptrs, cols, {c}, r.value)
    {
      hide MapOk, FreeOk, ColoursOk, Beyond, Busy, Painted, SubTaken;
      ghost var cd0, ptrs0, cols0, max0 := cd, ptrs, cols, max;
      CharColour(ptrs, cols, cd, max, c);
      var co := GetColor(c);
      r := NewSub(co);
      cd1 := cd;
      if r.None? { return; }
      var sco := r.value;
      SubbedParts(cd0, cd1, co, sco);
      ghost var max1, free1, list1 := max, free, list;
      if co == sco {
        NothingPainted(ptrs, cols, c);
        ShiftArcs(cd1, co, sco, 1, 0, 0);
        PaintDone(ptrs0, cols0, ptrs, cols, lvl, parent, next, cd0, cd1, max0, max, free, list, co, sco, {c});
        return;
      }
      cd := cd[co := cd[co].(nchrs := cd[co].nchrs - 1)];
      cd := cd[sco := cd[sco].(nchrs := cd[sco].nchrs + 1)];
      ShiftBlocks(ptrs, cols, lvl, parent, next, cd1, co, sco, 1);
      var prev := SetColor(c, sco);
      OnePainted(ptrs0, cols0, ptrs, cols, c, sco);
      PaintDone(ptrs0, cols0, ptrs, cols, lvl, parent, next, cd0, cd1, max0, max, free, list, co, sco, {c});
    }

    /** newarc() with subcolor(), as in subrange() and dovec(): c can now pass from lp to rp. */
    method AddChar(c: nat, lp: nat, rp: nat) returns (ok: bool)
      requires Reading(lp, rp) && c < NCHRS
      modifies this
      ensures !ok ==> Exhausted()
      ensures ok ==> Reading(lp, rp) && Gained(old(cd), Flat(old(ptrs), old(cols)), cd, Flat(ptrs, cols), lp, rp, {c})
      ensures ok ==> Spared(old(ptrs), old(cols), ptrs, cols, {c})
    {
      hide MapOk, FreeOk, ColoursOk, Beyond, Busy, Painted, SubTaken, Bracket, Gained, Flat, Spared, Subbed;
      ghost var cd0, ptrs0, cols0, max0 := cd, ptrs, cols, max;
      CharColour(ptrs, cols, cd, max, c);
      var r;
      ghost var cd1;
      r, cd1 := SubColor(c);
      if r.None? { return false; }
      ghost var co := Look(ptrs0, cols0, c);
      SubTakenParts(cd0, cd1, cd, co, r.value, 1);
      ArcAddedAll(ptrs, cols, lvl, parent, next, cd, max, free, list, Arc(PLAIN, r.value, lp, rp));
      NewArc(Arc(PLAIN, r.value, lp, rp));
      OneOf(ptrs0, cols0, c);
      BracketGains(ptrs0, cols0, ptrs, cols, cd0, cd1, cd, max0, co, r.value, {c}, 1, lp, rp);
      ok := true;
    }

    /** The first loop of subblock(), regc_color.c:482-581: the pointers on the way are the block's own now. */
    method FindBlock(start: nat) returns (lastt: nat, t: nat)
      requires TreeValid() && start < PATHS
      modifies this`ptrs, this`next, this`lvl, this`parent
      ensures TreeValid() && SameLooks(old(ptrs), cols, ptrs, cols)
      ensures lastt == Walk(ptrs, start, 2) && lastt in ptrs && Own(lastt) && t == Walk(ptrs, start, 3) && t in cols
    {
      ghost var ptrs0 := ptrs;
      lastt := StepPtr(start, 0, 0);
      ghost var ptrs1 := ptrs;
      lastt := StepPtr(start, 1, lastt);
      SameLooksTrans(ptrs0, cols, ptrs1, cols, ptrs, cols);
      WalkOk(ptrs, cols, lvl, parent, SolidOf(cd), start);
      t := ptrs[lastt][Byte(start, 2)];
    }

    /** The solid block of a colour, set up if there is none yet (regc_color.c:540-551). */
    method SolidBlockOf(sco: nat) returns (t: nat)
      requires Valid() && Used(cd, sco)
      modifies this`cols, this`next, this`cd
      ensures TreeValid() && SameLooks(ptrs, old(cols), ptrs, cols) && cd == WithBlock(old(cd), sco, t) && SolidFor(cols, t, sco)
      ensures sco < |cd| && cd[sco].block == Some(t)
    {
      if cd[sco].block.Some? {
        t := cd[sco].block.value;
        assert SolidFor(cols, t, sco) && WithBlock(cd, sco, t) == cd;
        return;
      }
      hide MapOk, SameLooks, WithBlock, SolidFor;
      t := next;
      next := next + 1;
      BlockGiven(ptrs, cols, lvl, parent, t, cd, sco, seq(BYTTAB, i => sco));
      cols := cols[t := seq(BYTTAB, i => sco)];
      cd := cd[sco := cd[sco].(block := Some(t))];
    }

    /** subblock()'s special case, a fill block or a solid block (regc_color.c:532-562): all its characters go
        over to the subcolour at once. */
    method TakeSolid(start: nat, lastt: nat, t: nat, lp: nat, rp: nat) returns (ok: bool)
      requires Reading(lp, rp) && start % BYTTAB == 0 && start + BYTTAB <= NCHRS
      requires lastt == Walk(ptrs, start, 2) && lastt in ptrs && Own(lastt) && t == Walk(ptrs, start, 3) && t in cols && Shared(t, SolidOf(cd))
      modifies this
      ensures !ok ==> Exhausted()
      ensures ok ==> Reading(lp, rp) && Gained(old(cd), Flat(old(ptrs), old(cols)), cd, Flat(ptrs, cols), lp, rp, Span(start, start + BYTTAB))
      ensures ok ==> Spared(old(ptrs), old(cols), ptrs, cols, Span(start, start + BYTTAB))
    {
      ghost var cd0, max0 := cd, max;
      BlockColour(ptrs, cols, lvl, parent, next, cd, max, start, t);
      var co := cols[t][0];
      hide MapOk, FreeOk, ColoursOk, Beyond, Busy, Bracket, Gained, Flat, Spared, Subbed, Shared, AllOf;
      var r := NewSub(co);
      if r.None? { return false; }
      PaintSolid(start, lastt, co, r.value, cd0, max0, lp, rp);
      ok := true;
    }

    method PaintSolid(start: nat, lastt: nat, co: nat, sco: nat, ghost cd0: seq<Desc>, ghost max0: nat, lp: nat, rp: nat)
      requires Valid() && Real(cd0, co) && Subbed(cd0, cd, co, sco) && Real(cd, sco) && ColoursOk(cd0, max0, Flat(ptrs, cols)) && Busy(cd0) && Bracket(cd0, lp, rp)
      requires start % BYTTAB == 0 && start + BYTTAB <= NCHRS && AllOf(ptrs, cols, Span(start, start + BYTTAB), co)
      requires lastt == Walk(ptrs, start, 2) && lastt in ptrs && Own(lastt)
      modifies this
      ensures Reading(lp, rp) && Gained(cd0, Flat(old(ptrs), old(cols)), cd, Flat(ptrs, cols), lp, rp, Span(start, start + BYTTAB))
      ensures Spared(old(ptrs), old(cols), ptrs, cols, Span(start, start + BYTTAB))
    {
      hide MapOk, FreeOk, ColoursOk, Beyond, Busy, Bracket, Gained, Flat, Spared, Subbed, SameLooks, SolidFor, WithBlock, AllOf, Painted, Repoint, Span, Walk, Shifted, Arced;
      ghost var ptrs0, cols0, cd1 := ptrs, cols, cd;
      SubbedParts(cd0, cd1, co, sco);
      var b := SolidBlockOf(sco);
      Repainted(ptrs, cols0, cols, lvl, parent, next, cd, start, lastt, b, sco);
      Repaint(start, lastt, co, sco, b, lp, rp);
      SpanSize(start, start + BYTTAB);
      SolidDone(ptrs0, cols0, ptrs, cols, lvl, parent, next, cd0, cd1, cd, max0, max, free, list, co, sco, Span(start, start + BYTTAB), b, lp, rp);
    }

    /** The solid block hung in its place, the arc, and the counts (regc_color.c:557-560). */
    method Repaint(start: nat, lastt: nat, co: nat, sco: nat, b: nat, lp: nat, rp: nat)
      requires lastt in ptrs && Byte(start, 2) < |ptrs[lastt]| && co < |cd| && sco < |cd|
      requires MapOk(Repoint(ptrs, lastt, Byte(start, 2), b), cols, lvl, parent, next, cd)
      modifies this`ptrs, this`cd
      ensures ptrs == Repoint(old(ptrs), lastt, Byte(start, 2), b) && cd == Shifted(Arced(old(cd), sco, lp, rp), co, sco, BYTTAB)
      ensures MapOk(ptrs, cols, lvl, parent, next, old(cd))
    {
      hide MapOk;
      ptrs := Repoint(ptrs, lastt, Byte(start, 2), b);
      NewArc(Arc(PLAIN, sco, lp, rp));
      cd := cd[co := cd[co].(nchrs := cd[co].nchrs - BYTTAB)];
      cd := cd[sco := cd[sco].(nchrs := cd[sco].nchrs + BYTTAB)];
    }

    /** The inner loop of subblock()'s general case (regc_color.c:574-576): the run of co's characters that begins
        at i gets colour sco. */
    method PaintRun(start: nat, t: nat, previ: nat, co: nat, sco: nat) returns (i: nat)
      requires TreeValid() && start % BYTTAB == 0 && start + BYTTAB <= NCHRS && t == Walk(ptrs, start, 3) && !Shared(t, SolidOf(cd))
      requires previ < BYTTAB && t in cols && |cols[t]| == BYTTAB && cols[t][previ] == co && sco < |cd|
      modifies this`cols
      ensures TreeValid() && previ < i <= BYTTAB
      ensures Painted(ptrs, old(cols), ptrs, cols, Span(start + previ, start + i), sco) && AllOf(ptrs, old(cols), Span(start + previ, start + i), co)
    {
      hide MapOk, Painted, AllOf, Span, Walk, SolidOf, Shared;
      ghost var cols0 := cols;
      RunStart(ptrs, cols0, start + previ, co);
      i := previ;
      RunNext(ptrs, cols0, cols, lvl, parent, next, cd, start, t, previ, i, co, sco);
      cols := cols[t := Put(cols[t], i, sco)];
      i := i + 1;
      while i < BYTTAB && cols[t][i] == co
        invariant TreeValid() && previ < i <= BYTTAB && t in cols && |cols[t]| == BYTTAB
        invariant Painted(ptrs, cols0, ptrs, cols, Span(start + previ, start + i), sco) && AllOf(ptrs, cols0, Span(start + previ, start + i), co)
      {
        RunNext(ptrs, cols0, cols, lvl, parent, next, cd, start, t, previ, i, co, sco);
        cols := cols[t := Put(cols[t], i, sco)];
        i := i + 1;
      }
    }

    /** One turn of that case: a run of characters of one colour goes over to the subcolour. */
    method TakeRun(start: nat, t: nat, previ: nat, lp: nat, rp: nat) returns (ok: bool, i: nat)
      requires Reading(lp, rp) && start % BYTTAB == 0 && start + BYTTAB <= NCHRS && t == Walk(ptrs, start, 3) && t in cols && !Shared(t, SolidOf(cd)) && previ < BYTTAB
      modifies this
      ensures !ok ==> Exhausted()
      ensures ok ==> Reading(lp, rp) && previ < i <= BYTTAB && ptrs == old(ptrs) && t in cols && !Shared(t, SolidOf(cd))
      ensures ok ==> Gained(old(cd), Flat(ptrs, old(cols)), cd, Flat(ptrs, cols), lp, rp, Span(start + previ, start + i))
      ensures ok ==> Spared(ptrs, old(cols), ptrs, cols, Span(start + previ, start + i))
    {
      ghost var cd0, max0 := cd, max;
      hide MapOk, FreeOk, ColoursOk, Beyond, Busy, Bracket, Gained, Flat, Spared, Subbed, Shared, AllOf, Painted, Span, Walk, SolidOf;
      RunColour(ptrs, cols, lvl, parent, next, cd, max, start, t, previ);
      i := previ;
      var co := cols[t][i];
      var r := NewSub(co);
      if r.None? { return false, i; }
      SubbedSolid(cd0, cd, co, r.value);
      i := PaintTheRun(start, t, previ, co, r.value, cd0, max0, lp, rp);
      ok := true;
    }

    method PaintTheRun(start: nat, t: nat, previ: nat, co: nat, sco: nat, ghost cd0: seq<Desc>, ghost max0: nat, lp: nat, rp: nat) returns (i: nat)
      requires Valid() && Real(cd0, co) && Subbed(cd0, cd, co, sco) && Real(cd, sco) && ColoursOk(cd0, max0, Flat(ptrs, cols)) && Busy(cd0) && Bracket(cd0, lp, rp)
      requires start % BYTTAB == 0 && start + BYTTAB <= NCHRS && t == Walk(ptrs, start, 3) && !Shared(t, SolidOf(cd))
      requires previ < BYTTAB && t in cols && |cols[t]| == BYTTAB && cols[t][previ] == co
      modifies this`cd, this`cols
      ensures Reading(lp, rp) && previ < i <= BYTTAB && SolidOf(cd) == SolidOf(old(cd)) && t in cols
      ensures Gained(cd0, Flat(ptrs, old(cols)), cd, Flat(ptrs, cols), lp, rp, Span(start + previ, start + i))
      ensures Spared(ptrs, old(cols), ptrs, cols, Span(start + previ, start + i))
    {
      hide MapOk, FreeOk, ColoursOk, Beyond, Busy, Bracket, Gained, Flat, Spared, Subbed, Shared, AllOf, Painted, Span, Walk, SolidOf, Shifted, ArcAdded;
      ghost var cols0, cd1 := cols, cd;
      SubbedParts(cd0, cd1, co, sco);
      ArcMap(ptrs, cols, lvl, parent, next, cd, sco, lp, rp);
      NewArc(Arc(PLAIN, sco, lp, rp));
      i := PaintRun(start, t, previ, co, sco);
      var ndone := i - previ;
      ArcMore(cd1, co, sco, ndone, lp, rp);
      ShiftMap(ptrs, cols, lvl, parent, next, cd, co, sco, ndone);
      cd := cd[co := cd[co].(nchrs := cd[co].nchrs - ndone)];
      cd := cd[sco := cd[sco].(nchrs := cd[sco].nchrs + ndone)];
      RunFilled(start + previ, start + i);
      StepDone(ptrs, cols0, ptrs, cols, lvl, parent, next, cd0, cd1, max0, max, free, list, co, sco, Span(start + previ, start + i), ndone, lp, rp);
      StillThere(ptrs, cols, lvl, parent, next, cd, start, t);
    }

    /** subblock()'s general case, a mixed block (regc_color.c:568-580). */
    method TakeMixed(start: nat, t: nat, lp: nat, rp: nat) returns (ok: bool)
      requires Reading(lp, rp) && start % BYTTAB == 0 && start + BYTTAB <= NCHRS && t == Walk(ptrs, start, 3) && t in cols && !Shared(t, SolidOf(cd))
      modifies this
      ensures !ok ==> Exhausted()
      ensures ok ==> Reading(lp, rp) && Gained(old(cd), Flat(old(ptrs), old(cols)), cd, Flat(ptrs, cols), lp, rp, Span(start, start + BYTTAB))
      ensures ok ==> Spared(old(ptrs), old(cols), ptrs, cols, Span(start, start + BYTTAB))
    {
      hide MapOk, FreeOk, ColoursOk, Beyond, Busy, Bracket, Gained, Flat, Spared, Shared, Span, Walk, SolidOf;
      ghost var ptrs0, cols0, cd0 := ptrs, cols, cd;
      NoneTaken(ptrs, cols, cd, start, lp, rp);
      var i := 0;
      while i < BYTTAB
        invariant Reading(lp, rp) && 0 <= i <= BYTTAB && t == Walk(ptrs, start, 3) && t in cols && !Shared(t, SolidOf(cd)) && ptrs == ptrs0
        invariant Gained(cd0, Flat(ptrs0, cols0), cd, Flat(ptrs, cols), lp, rp, Span(start, start + i)) && Spared(ptrs0, cols0, ptrs, cols, Span(start, start + i))
      {
        ghost var cd1, cols1, i1 := cd, cols, i;
        ok, i := TakeRun(start, t, i, lp, rp);
        if !ok { return; }
        MoreTaken(ptrs0, cols0, cd0, ptrs, cols1, cd1, ptrs, cols, cd, start, start + i1, start + i, lp, rp);
      }
      ok := true;
    }

    /** subblock(), regc_color.c:482-581: the 256 characters from start on can now pass from lp to rp, and no other
        character has changed colour. */
    method SubBlock(start: nat, lp: nat, rp: nat) returns (ok: bool)
      requires Reading(lp, rp) && start % BYTTAB == 0 && start + BYTTAB <= NCHRS
      modifies this
      ensures !ok ==> Exhausted()
      ensures ok ==> Reading(lp, rp) && Gained(old(cd), Flat(old(ptrs), old(cols)), cd, Flat(ptrs, cols), lp, rp, Span(start, start + BYTTAB))
      ensures ok ==> Spared(old(ptrs), old(cols), ptrs, cols, Span(start, start + BYTTAB))
    {
      hide MapOk, FreeOk, ColoursOk, Beyond, Busy, Bracket, Gained, Flat, Spared, Span, Walk, SolidOf, SameLooks;
      ghost var ptrs0, cols0, cd0 := ptrs, cols, cd;
      var lastt, t := FindBlock(start);
      Relooked(ptrs0, ptrs, cols, cd, max, start, lp, rp);
      ghost var ptrs1 := ptrs;
      SolidTest(ptrs, cols, lvl, parent, next, cd, t);
      var co := cols[t][0];
      var cb := cd[co].block;
      if t == 3 || cb == Some(t) {
        ok := TakeSolid(start, lastt, t, lp, rp);
      } else {
        ok := TakeMixed(start, t, lp, rp);
      }
      if ok { MoreTaken(ptrs0, cols0, cd0, ptrs1, cols0, cd0, ptrs, cols, cd, start, start, start + BYTTAB, lp, rp); }
    }

    /** subrange(), regc_color.c:435-476: exactly the characters from first to last gain a way from lp to rp. */
    method SubRange(first: nat, last: nat, lp: nat, rp: nat) returns (ok: bool)
      requires Reading(lp, rp) && first <= last < NCHRS
      modifies this
      ensures !ok ==> Exhausted()
      ensures ok ==> Reading(lp, rp) && Gained(old(cd), Flat(old(ptrs), old(cols)), cd, Flat(ptrs, cols), lp, rp, Span(first, last + 1))
      ensures ok ==> Spared(old(ptrs), old(cols), ptrs, cols, Span(first, last + 1))
    {
      hide MapOk, FreeOk, ColoursOk, Beyond, Busy, Bracket, Gained, Flat, Spared, Span, Walk, SolidOf, Reading;
      ghost var ptrs0, cols0, cd0 := ptrs, cols, cd;
      NoneTaken(ptrs, cols, cd, first, lp, rp);
      var from := first;
      // first, align on a block boundary
      var i := (from + BYTTAB - 1) / BYTTAB * BYTTAB - from;
      while from <= last && i > 0
        invariant Reading(lp, rp) && first <= from <= last + 1 && i >= 0 && (from + i) % BYTTAB == 0
        invariant Gained(cd0, Flat(ptrs0, cols0), cd, Flat(ptrs, cols), lp, rp, Span(first, from)) && Spared(ptrs0, cols0, ptrs, cols, Span(first, from))
        decreases i
      {
        ok := TakeOne(from, first, ptrs0, cols0, cd0, lp, rp);
        if !ok { return; }
        i := i - 1;
        from := from + 1;
      }
      if from > last {
        return true;
      }
      // deal with whole blocks
      while last - from >= BYTTAB
        invariant Reading(lp, rp) && first <= from <= last && from % BYTTAB == 0
        invariant Gained(cd0, Flat(ptrs0, cols0), cd, Flat(ptrs, cols), lp, rp, Span(first, from)) && Spared(ptrs0, cols0, ptrs, cols, Span(first, from))
      {
        ok := TakeBlock(from, first, ptrs0, cols0, cd0, lp, rp);
        if !ok { return; }
        from := from + BYTTAB;
      }
      // clean up any remaining partial table
      while from <= last
        invariant Reading(lp, rp) && first <= from <= last + 1
        invariant Gained(cd0, Flat(ptrs0, cols0), cd, Flat(ptrs, cols), lp, rp, Span(first, from)) && Spared(ptrs0, cols0, ptrs, cols, Span(first, from))
      {
        ok := TakeOne(from, first, ptrs0, cols0, cd0, lp, rp);
        if !ok { return; }
        from := from + 1;
      }
      ok := true;
    }

    method TakeOne(c: nat, ghost first: nat, ghost ptrs0: Ptrs, ghost cols0: Cols, ghost cd0: seq<Desc>, lp: nat, rp: nat) returns (ok: bool)
      requires Reading(lp, rp) && first <= c < NCHRS
      requires Gained(cd0, Flat(ptrs0, cols0), cd, Flat(ptrs, cols), lp, rp, Span(first, c)) && Spared(ptrs0, cols0, ptrs, cols, Span(first, c))
      modifies this
      ensures !ok ==> Exhausted()
      ensures ok ==> Reading(lp, rp) && Gained(cd0, Flat(ptrs0, cols0), cd, Flat(ptrs, cols), lp, rp, Span(first, c + 1))
      ensures ok ==> Spared(ptrs0, cols0, ptrs, cols, Span(first, c + 1))
    {
      hide MapOk, FreeOk, ColoursOk, Beyond, Busy, Bracket, Gained, Flat, Spared, Span, Walk, SolidOf, Reading;
      ghost var ptrs1, cols1, cd1 := ptrs, cols, cd;
      ok := AddChar(c, lp, rp);
      SpanOne(c);
      if ok { MoreTaken(ptrs0, cols0, cd0, ptrs1, cols1, cd1, ptrs, cols, cd, first, c, c + 1, lp, rp); }
    }

    method TakeBlock(start: nat, ghost first: nat, ghost ptrs0: Ptrs, ghost cols0: Cols, ghost cd0: seq<Desc>, lp: nat, rp: nat) returns (ok: bool)
      requires Reading(lp, rp) && first <= start && start % BYTTAB == 0 && start + BYTTAB <= NCHRS
      requires Gained(cd0, Flat(ptrs0, cols0), cd, Flat(ptrs, cols), lp, rp, Span(first, start)) && Spared(ptrs0, cols0, ptrs, cols, Span(first, start))
      modifies this
      ensures !ok ==> Exhausted()
      ensures ok ==> Reading(lp, rp) && Gained(cd0, Flat(ptrs0, cols0), cd, Flat(ptrs, cols), lp, rp, Span(first, start + BYTTAB))
      ensures ok ==> Spared(ptrs0, cols0, ptrs, cols, Span(first, start + BYTTAB))
    {
      hide MapOk, FreeOk, ColoursOk, Beyond, Busy, Bracket, Gained, Flat, Spared, Span, Walk, SolidOf, Reading;
      ghost var ptrs1, cols1, cd1 := ptrs, cols, cd;
      ok := SubBlock(start, lp, rp);
      if ok { MoreTaken(ptrs0, cols0, cd0, ptrs1, cols1, cd1, ptrs, cols, cd, first, start, start + BYTTAB, lp, rp); }
    }

    /** The open subcolour of a colour that has lost all its characters takes over its arcs, and the colour goes
        (regc_color.c:609-625). */
    method PromoteEmpty(co: nat, sco: nat)
      requires Valid() && Busy(cd) && Parent(cd, co, sco) && cd[co].nchrs == 0
      modifies this`cd, this`cols, this`max, this`free, this`list
      ensures Valid() && Busy(cd) && SameLooks(ptrs, old(cols), ptrs, cols) && Handled(old(cd), cd, co, sco)
      ensures Gained(old(cd), Flat(ptrs, old(cols)), cd, Flat(ptrs, cols), 0, 0, {})
    {
      hide MapOk, FreeOk, ColoursOk, Beyond, Busy, Gained, Flat, SameLooks, Handled, Promoted, Moving, Parent;
      ghost var cd0, max0, free0, list0 := cd, max, free, list;
      ParentParts(cd, max, Flat(ptrs, cols), co, sco);
      ghost var chain := cd[co].arcs;
      assert cd[sco].nchrs > 0 && cd[sco].sub == sco;
      cd := cd[co := cd[co].(sub := NOSUB)];
      cd := cd[sco := cd[sco].(sub := NOSUB)];
      MovingStart(cd0, cd, co, sco);
      ghost var k: nat := 0;
      while cd[co].arcs != []
        invariant co < |cd| && sco < |cd| && k <= |chain| && Moving(cd0, cd, co, sco, chain, k, chain[k..]) && cd[co].arcs == chain[k..]
        modifies this`cd
        decreases |chain| - k
      {
        var a := cd[co].arcs[0];
        ghost var cd1 := cd;
        cd := cd[co := cd[co].(arcs := cd[co].arcs[1..])];
        cd := cd[sco := cd[sco].(arcs := [a.(co := sco)] + cd[sco].arcs)];
        MovingEmpty(cd0, cd1, cd, co, sco, chain, k);
        k := k + 1;
      }
      MovedEmpty(cd0, cd, max, Flat(ptrs, cols), co, sco, chain, k);
      PromotedAll(ptrs, cols, lvl, parent, next, cd0, cd, max, free, list, co, sco);
      ghost var cd2, cols2, f2 := cd, cols, Flat(ptrs, cols);
      FreeColor(co);
      HandledEmpty(cd0, cd2, cd, co, sco);
      var none: set<nat> := {};
      GainedTrans(cd0, f2, cd2, f2, cd, Flat(ptrs, cols), 0, 0, none, none);
      assert none + none == none;
    }

    /** The arcs of a colour that still has characters gain parallel arcs of the subcolour (regc_color.c:631-639). */
    method PromoteFull(co: nat, sco: nat)
      requires Valid() && Busy(cd) && Parent(cd, co, sco) && cd[co].nchrs != 0
      modifies this`cd
      ensures Valid() && Busy(cd) && Handled(old(cd), cd, co, sco)
      ensures Gained(old(cd), Flat(ptrs, cols), cd, Flat(ptrs, cols), 0, 0, {})
    {
      hide MapOk, FreeOk, ColoursOk, Beyond, Busy, Gained, Flat, Handled, Promoted, Moving, Parent, ArcAdded;
      ghost var cd0 := cd;
      ParentParts(cd, max, Flat(ptrs, cols), co, sco);
      ghost var chain := cd[co].arcs;
      assert cd[sco].nchrs > 0 && cd[sco].sub == sco;
      cd := cd[co := cd[co].(sub := NOSUB)];
      cd := cd[sco := cd[sco].(sub := NOSUB)];
      MovingStart(cd0, cd, co, sco);
      var k := 0;
      while k < |cd[co].arcs|
        invariant co < |cd| && sco < |cd| && 0 <= k <= |chain| && Moving(cd0, cd, co, sco, chain, k, chain) && cd[co].arcs == chain
        modifies this`cd
        decreases |chain| - k
      {
        var a := cd[co].arcs[k];
        ghost var cd1 := cd;
        NewArc(a.(co := sco));
        MovingFull(cd0, cd1, cd, co, sco, chain, k);
        k := k + 1;
      }
      MovedFull(cd0, cd, co, sco, chain);
      PromotedAll(ptrs, cols, lvl, parent, next, cd0, cd, max, free, list, co, sco);
      HandledFull(cd0, cd, co, sco);
    }

    /** okcolors(), regc_color.c:587-642: no colour has an open subcolour any more, and between any two states the
        arcs of any type let the same characters pass as before. */
    method OkColors()
      requires Valid() && Busy(cd)
      modifies this`cd, this`cols, this`max, this`free, this`list
      ensures Valid() && Busy(cd) && SameLooks(ptrs, old(cols), ptrs, cols) && (forall x :: Used(cd, x) ==> cd[x].sub == NOSUB)
      ensures forall typ, from, to, c :: 0 <= c < NCHRS ==>
        (Means(cd, Flat(ptrs, cols), typ, from, to, c) <==> Means(old(cd), Flat(ptrs, old(cols)), typ, from, to, c))
    {
      hide MapOk, FreeOk, ColoursOk, Beyond, Busy, Gained, Means, Flat, Handled, Parent, Awaiting;
      ghost var cd0, cols0 := cd, cols;
      var end := max + 1;
      EndOfColours(cd, max, Flat(ptrs, cols));
      GainedRefl(cd, Flat(ptrs, cols), 0, 0);
      var co := 0;
      AwaitingStart(cd, end);
      while co < end
        invariant Valid() && Busy(cd) && SameLooks(ptrs, cols0, ptrs, cols) && Gained(cd0, Flat(ptrs, cols0), cd, Flat(ptrs, cols), 0, 0, {})
        invariant 0 <= co <= end <= |cd| && Awaiting(cd, co, end)
      {
        ghost var cd1, cols1 := cd, cols;
        Promote(co, end);
        var none: set<nat> := {};
        GainedTrans(cd0, Flat(ptrs, cols0), cd1, Flat(ptrs, cols1), cd, Flat(ptrs, cols), 0, 0, none, none);
        assert none + none == none;
        co := co + 1;
      }
      AllPromoted(cd, max, Flat(ptrs, cols), end);
      GainedNothing(cd0, Flat(ptrs, cols0), cd, Flat(ptrs, cols));
    }

    /** One turn of okcolors()'s loop. */
    method Promote(co: nat, ghost end: nat)
      requires Valid() && Busy(cd) && co < end <= |cd| && Awaiting(cd, co, end)
      modifies this`cd, this`cols, this`max, this`free, this`list
      ensures Valid() && Busy(cd) && |cd| == |old(cd)| && Awaiting(cd, co + 1, end) && SameLooks(ptrs, old(cols), ptrs, cols)
      ensures Gained(old(cd), Flat(ptrs, old(cols)), cd, Flat(ptrs, cols), 0, 0, {})
    {
      hide MapOk, FreeOk, ColoursOk, Beyond, Busy, Gained, Flat, Handled, Awaiting;
      var sco := cd[co].sub;
      GainedRefl(cd, Flat(ptrs, cols), 0, 0);
      if cd[co].isFree || sco == NOSUB {
        AwaitingNext(cd, co, end);
      } else if sco == co {
        AwaitingNext(cd, co, end);
      } else {
        ghost var cd0 := cd;
        SubIsReal(cd, max, Flat(ptrs, cols), co);
        if cd[co].nchrs == 0 {
          PromoteEmpty(co, sco);
        } else {
          PromoteFull(co, sco);
        }
        AwaitingHandled(cd0, cd, co, sco, end);
      }
    }
  }

  predicate Between(a: nat, c: nat, b: nat) { a <= c < b }

  /** The characters from a up to b, b not included. */
  ghost function Span(a: nat, b: nat): set<nat> { set c: nat | c < b && Between(a, c, b) }

  lemma {:induction false} SpanSize(a: nat, b: nat)
    requires a <= b
    ensures |Span(a, b)| == b - a
    decreases b
  {
    if a < b {
      SpanSize(a, b - 1);
      assert Span(a, b) == Span(a, b - 1) + {b - 1};
    }
  }

  lemma InitTree(ptrs: Ptrs, cols: Cols, lvl: map<nat, nat>)
    requires ptrs.Keys == {0, 1, 2} && cols.Keys == {3} && lvl == map[0 := 0, 1 := 1, 2 := 2]
    requires |ptrs[0]| == |ptrs[1]| == |ptrs[2]| == |cols[3]| == BYTTAB
    requires forall i :: 0 <= i < BYTTAB ==> ptrs[0][i] == 1 && ptrs[1][i] == 2 && ptrs[2][i] == 3 && cols[3][i] == C.WHITE
    ensures Tree(ptrs, cols, lvl, map[], {3})
    ensures forall c :: 0 <= c < PATHS ==> Look(ptrs, cols, c) == C.WHITE
  {
    forall c | 0 <= c < PATHS ensures Look(ptrs, cols, c) == C.WHITE { WalkOk(ptrs, cols, lvl, map[], {3}, c); }
  }

  lemma InitOk(ptrs: Ptrs, cols: Cols, lvl: map<nat, nat>, cd: seq<Desc>)
    requires ptrs.Keys == {0, 1, 2} && cols.Keys == {3} && lvl == map[0 := 0, 1 := 1, 2 := 2]
    requires |ptrs[0]| == |ptrs[1]| == |ptrs[2]| == |cols[3]| == BYTTAB
    requires forall i :: 0 <= i < BYTTAB ==> ptrs[0][i] == 1 && ptrs[1][i] == 2 && ptrs[2][i] == 3 && cols[3][i] == C.WHITE
    requires cd == [Desc(NCHRS, NOSUB, [], false, false, Some(3))]
    ensures MapOk(ptrs, cols, lvl, map[], 4, cd) && ColoursOk(cd, 0, Flat(ptrs, cols)) && Busy(cd) && FreeOk(cd, 0, 0, [])
    ensures forall c :: 0 <= c < PATHS ==> Look(ptrs, cols, c) == C.WHITE
  {
    InitTree(ptrs, cols, lvl);
    assert SolidOf(cd) == {3} by { assert cd[0].block.value in SolidOf(cd); }
    SpanSize(0, NCHRS);
    var f := Flat(ptrs, cols);
    assert Members(f, 0) == Span(0, NCHRS);
    hide Tree;
  }

  /** The colour that newcolor() hands out was not in use. */
  lemma FreeColour(cd: seq<Desc>, max: nat, free: nat, list: seq<nat>, max2: nat, co: nat, f: nat -> nat)
    requires ColoursOk(cd, max, f) && FreeOk(cd, max, free, list)
    requires if free != 0 then max2 == max && co == free else max2 == max + 1 <= MAX_COLOR && co == max2
    ensures co <= |cd| && !Used(cd, co) && co != C.WHITE && (co < |cd| ==> cd[co].block.None?) && (co == |cd| ==> |cd| <= MAX_COLOR)
    ensures free != 0 ==> co < max
  {
    if free != 0 {
      LinksTail(cd, free, list);
      assert list[0] in list;
    }
  }

  lemma NewColour(cd: seq<Desc>, cd2: seq<Desc>, max: nat, max2: nat, free: nat, list: seq<nat>, free2: nat, list2: seq<nat>, co: nat, f: nat -> nat)
    requires ColoursOk(cd, max, f) && FreeOk(cd, max, free, list) && co <= |cd| && cd2 == if co == |cd| then cd + [NEW] else cd[co := NEW]
    requires !Used(cd, co) && co != C.WHITE && (co == |cd| ==> |cd| <= MAX_COLOR)
    requires if free != 0 then max2 == max && co == free && list != [] && list2 == list[1..] && free2 == Head(list2) && co < max
             else max2 == max + 1 && co == max2 && free2 == free && list2 == list
    ensures Added(cd, cd2, co) && ColoursOk(cd2, max2, f) && FreeOk(cd2, max2, free2, list2)
  {
    AddedKeeps(cd, cd2, co, max, max2, f);
    if free != 0 { LinksTail(cd, free, list); }
    LinksKept(cd, cd2, free2, list2);
    assert forall x :: x in list2 ==> x in list;
    forall y | 0 < y <= max2 && y < |cd2| && cd2[y].isFree ensures y in list2 {
      assert y <= max && y in list;
    }
  }

  lemma SubReal(cd: seq<Desc>, max: nat, f: nat -> nat, co: nat)
    requires ColoursOk(cd, max, f) && Real(cd, co)
    ensures cd[co].sub == NOSUB || Real(cd, cd[co].sub)
  {
  }

  lemma SubbedNow(cd: seq<Desc>, co: nat)
    requires co < |cd|
    ensures cd[co].sub >= 0 ==> Subbed(cd, cd, co, cd[co].sub)
    ensures cd[co].sub == NOSUB && cd[co].nchrs == 1 ==> Subbed(cd, cd, co, co)
  {
  }

  lemma SubbedNew(cd: seq<Desc>, cd2: seq<Desc>, co: nat, sco: nat)
    requires co < |cd| <= |cd2| && cd[co].sub == NOSUB && cd[co].nchrs != 1 && sco != co && SubMade(cd, cd2, co, sco)
    ensures Subbed(cd, cd2, co, sco) && Real(cd2, sco)
  {
  }

  lemma SubMadeAll(ptrs: Ptrs, cols: Cols, lvl: map<nat, nat>, parent: map<nat, (nat, nat)>, next: nat,
                   cd0: seq<Desc>, cd1: seq<Desc>, cd2: seq<Desc>, co: nat, sco: nat, max: nat, free: nat, list: seq<nat>)
    requires MapOk(ptrs, cols, lvl, parent, next, cd1) && ColoursOk(cd1, max, Flat(ptrs, cols)) && FreeOk(cd1, max, free, list)
    requires Added(cd0, cd1, sco) && Real(cd0, co) && cd0[co].sub == NOSUB && cd0[co].nchrs != 1 && co != sco
    requires sco < |cd1| && co < |cd1| && cd2 == cd1[co := cd1[co].(sub := sco)][sco := NEW.(sub := sco)]
    ensures MapOk(ptrs, cols, lvl, parent, next, cd2) && ColoursOk(cd2, max, Flat(ptrs, cols)) && FreeOk(cd2, max, free, list)
    ensures Subbed(cd0, cd2, co, sco) && Real(cd2, sco)
  {
    AddedParts(cd0, cd1, co, sco);
    hide MapOk, ColoursOk, FreeOk, Flat;
    SubMadeKeeps(cd0, cd1, cd2, co, sco, max, Flat(ptrs, cols));
    SubKeepsFree(cd1, cd2, co, sco, max, free, list);
    SameBlocks(ptrs, cols, lvl, parent, next, cd1, cd2);
    SubbedNew(cd0, cd2, co, sco);
  }

  lemma AddedParts(cd: seq<Desc>, cd1: seq<Desc>, co: nat, sco: nat)
    requires Added(cd, cd1, sco) && Used(cd, co)
    ensures |cd| <= |cd1| && co != sco && sco < |cd1| && cd1[co] == cd[co] && cd1[sco] == NEW && Used(cd1, co)
  {
  }

  lemma AddedAt(cd: seq<Desc>, cd1: seq<Desc>, co: nat)
    requires Added(cd, cd1, co)
    ensures co < |cd1| && !Used(cd, co) && cd1[co] == NEW
  {
  }

  lemma PseudoOk(cd: seq<Desc>, cd1: seq<Desc>, cd2: seq<Desc>, co: nat, max0: nat, max: nat, f: nat -> nat, free: nat, list: seq<nat>)
    requires ColoursOk(cd, max0, f) && co < |cd1|
    requires Added(cd, cd1, co) && ColoursOk(cd1, max, f) && FreeOk(cd1, max, free, list) && cd2 == cd1[co := cd1[co].(nchrs := 1, pseudo := true)]
    ensures ColoursOk(cd2, max, f) && FreeOk(cd2, max, free, list)
    ensures forall x :: Real(cd2, x) <==> Real(cd, x)
    ensures forall x :: Real(cd2, x) ==> cd2[x] == cd[x]
  {
    hide Members, SubsOk;
    forall x: int ensures Real(cd2, x) <==> Real(cd, x) {
      if 0 <= x < |cd1| && x != co {
        var was := cd1[x];
        assert x < |cd| && was == cd[x];
      }
    }
    forall x: int ensures (Used(cd2, x) <==> Used(cd1, x)) && (Open(cd2, x) <==> Open(cd1, x)) && (Parent(cd2, x, x) <==> Parent(cd1, x, x)) {}
    PseudoSubs(cd1, cd2, co);
    InFree(cd1, free, list);
    LinksKept(cd1, cd2, free, list);
  }

  lemma PseudoSubs(cd1: seq<Desc>, cd2: seq<Desc>, co: nat)
    requires SubsOk(cd1) && co < |cd1| && cd1[co] == NEW && cd2 == cd1[co := cd1[co].(nchrs := 1, pseudo := true)]
    ensures SubsOk(cd2)
  {
    forall x | Open(cd2, x) ensures x != C.WHITE && exists p :: Parent(cd2, p, x) {
      assert Open(cd1, x);
      var p :| Parent(cd1, p, x);
      assert Parent(cd2, p, x);
    }
    forall x | Used(cd2, x) && cd2[x].sub != NOSUB ensures Real(cd2, x) && Real(cd2, cd2[x].sub) && Open(cd2, cd2[x].sub) {
      assert Used(cd1, x) && Open(cd1, cd1[x].sub);
    }
  }

  lemma SubKeepsFree(cd1: seq<Desc>, cd2: seq<Desc>, co: nat, sco: nat, max: nat, free: nat, list: seq<nat>)
    requires FreeOk(cd1, max, free, list) && Used(cd1, co) && Used(cd1, sco) && co < |cd1|
    requires |cd2| == |cd1| && forall x :: 0 <= x < |cd1| ==> cd2[x].isFree == cd1[x].isFree && (x != co && x != sco ==> cd2[x] == cd1[x])
    ensures FreeOk(cd2, max, free, list)
  {
    InFree(cd1, free, list);
    LinksKept(cd1, cd2, free, list);
  }

  // ---------------------------------------------------------------- characters going over

  lemma ArcAddedAll(ptrs: Ptrs, cols: Cols, lvl: map<nat, nat>, parent: map<nat, (nat, nat)>, next: nat, cd: seq<Desc>, max: nat, free: nat, list: seq<nat>, a: Arc)
    requires MapOk(ptrs, cols, lvl, parent, next, cd) && ColoursOk(cd, max, Flat(ptrs, cols)) && FreeOk(cd, max, free, list) && Used(cd, a.co)
    ensures var cd2 := ArcAdded(cd, a);
      && MapOk(ptrs, cols, lvl, parent, next, cd2) && ColoursOk(cd2, max, Flat(ptrs, cols)) && FreeOk(cd2, max, free, list) && (Busy(cd) ==> Busy(cd2))
  {
    ArcAddedOk(cd, max, Flat(ptrs, cols), a);
    SubKeepsFree(cd, ArcAdded(cd, a), a.co, a.co, max, free, list);
    SameBlocks(ptrs, cols, lvl, parent, next, cd, ArcAdded(cd, a));
    hide MapOk, ColoursOk, FreeOk, Flat;
  }

  /** The characters of d have got colour sco. */
  ghost predicate Painted(ptrs: Ptrs, cols: Cols, ptrs2: Ptrs, cols2: Cols, d: set<nat>, sco: nat) {
    forall c :: 0 <= c < PATHS ==> Look(ptrs2, cols2, c) == if c in d then sco else Look(ptrs, cols, c)
  }

  /** Characters of one colour. */
  ghost predicate AllOf(ptrs: Ptrs, cols: Cols, d: set<nat>, co: nat) {
    forall c :: c in d ==> c < NCHRS && Look(ptrs, cols, c) == co
  }

  /** Only characters of d have changed colour. */
  ghost predicate Spared(ptrs: Ptrs, cols: Cols, ptrs2: Ptrs, cols2: Cols, d: set<nat>) {
    forall c :: 0 <= c < PATHS && c !in d ==> Look(ptrs2, cols2, c) == Look(ptrs, cols, c)
  }

  /** newsub() has been called for co, and n characters have been counted over. */
  ghost predicate SubTaken(cd: seq<Desc>, cd1: seq<Desc>, cd2: seq<Desc>, co: nat, sco: nat, n: nat) {
    Real(cd, co) && Subbed(cd, cd1, co, sco) && co < |cd1| && Used(cd1, sco) && cd2 == Shifted(cd1, co, sco, n)
  }

  lemma SubTakenParts(cd: seq<Desc>, cd1: seq<Desc>, cd2: seq<Desc>, co: nat, sco: nat, n: nat)
    requires SubTaken(cd, cd1, cd2, co, sco, n)
    ensures Real(cd, co) && Subbed(cd, cd1, co, sco) && co < |cd1| && Used(cd1, sco) && cd2 == Shifted(cd1, co, sco, n) && Used(cd2, sco)
  {
    ShiftedSame(cd1, co, sco, n);
  }

  lemma SubbedParts(cd: seq<Desc>, cd1: seq<Desc>, co: nat, sco: nat)
    requires Subbed(cd, cd1, co, sco) && Real(cd, co) && Real(cd1, sco)
    ensures co < |cd1| && sco < |cd1| && Used(cd1, sco) && Used(cd1, co)
  {
  }

  lemma PaintMembers(ptrs: Ptrs, cols: Cols, ptrs2: Ptrs, cols2: Cols, d: set<nat>, co: nat, sco: nat)
    requires Painted(ptrs, cols, ptrs2, cols2, d, sco) && AllOf(ptrs, cols, d, co)
    ensures d <= Members(Flat(ptrs, cols), co) && Recoloured(Flat(ptrs, cols), Flat(ptrs2, cols2), d, sco)
  {
  }

  lemma PaintBeyond(ptrs: Ptrs, cols: Cols, ptrs2: Ptrs, cols2: Cols, d: set<nat>, co: nat, sco: nat)
    requires Painted(ptrs, cols, ptrs2, cols2, d, sco) && AllOf(ptrs, cols, d, co) && Beyond(ptrs, cols)
    ensures Beyond(ptrs2, cols2)
  {
  }

  lemma CharColour(ptrs: Ptrs, cols: Cols, cd: seq<Desc>, max: nat, c: nat)
    requires ColoursOk(cd, max, Flat(ptrs, cols)) && c < NCHRS
    ensures Real(cd, Look(ptrs, cols, c))
  {
    assert Real(cd, Flat(ptrs, cols)(c));
  }

  lemma OneOf(ptrs: Ptrs, cols: Cols, c: nat)
    requires c < NCHRS
    ensures {c} <= Members(Flat(ptrs, cols), Look(ptrs, cols, c)) && |{c}| == 1
  {
  }

  lemma NothingPainted(ptrs: Ptrs, cols: Cols, c: nat)
    ensures Painted(ptrs, cols, ptrs, cols, {c}, Look(ptrs, cols, c))
  {
  }

  lemma OnePainted(ptrs: Ptrs, cols: Cols, ptrs2: Ptrs, cols2: Cols, c: nat, sco: nat)
    requires forall d :: 0 <= d < PATHS ==> Look(ptrs2, cols2, d) == if d == c then sco else Look(ptrs, cols, d)
    ensures Painted(ptrs, cols, ptrs2, cols2, {c}, sco)
  {
  }

  lemma ShiftBlocks(ptrs: Ptrs, cols: Cols, lvl: map<nat, nat>, parent: map<nat, (nat, nat)>, next: nat, cd: seq<Desc>, co: nat, sco: nat, n: int)
    requires MapOk(ptrs, cols, lvl, parent, next, cd) && co < |cd| && sco < |cd|
    ensures MapOk(ptrs, cols, lvl, parent, next, Shifted(cd, co, sco, n))
  {
    ShiftedSame(cd, co, sco, n);
    var cd2 := Shifted(cd, co, sco, n);
    forall x | 0 <= x < |cd| ensures cd2[x].block == cd[x].block { assert cd2[x].(nchrs := 0) == cd[x].(nchrs := 0); }
    SameBlocks(ptrs, cols, lvl, parent, next, cd, cd2);
  }

  /** Counting and painting done, everything holds again. */
  lemma PaintDone(ptrs0: Ptrs, cols0: Cols, ptrs: Ptrs, cols: Cols, lvl: map<nat, nat>, parent: map<nat, (nat, nat)>, next: nat,
                  cd0: seq<Desc>, cd1: seq<Desc>, max0: nat, max: nat, free: nat, list: seq<nat>, co: nat, sco: nat, d: set<nat>)
    requires ColoursOk(cd0, max0, Flat(ptrs0, cols0)) && Busy(cd0) && Beyond(ptrs0, cols0) && Real(cd0, co)
    requires Subbed(cd0, cd1, co, sco) && Real(cd1, sco) && co < |cd1|
    requires ColoursOk(cd1, max, Flat(ptrs0, cols0)) && FreeOk(cd1, max, free, list)
    requires Painted(ptrs0, cols0, ptrs, cols, d, sco) && d != {} && AllOf(ptrs0, cols0, d, co)
    ensures var cd2 := Shifted(cd1, co, sco, |d|);
      && ColoursOk(cd2, max, Flat(ptrs, cols)) && Busy(cd2) && FreeOk(cd2, max, free, list) && Beyond(ptrs, cols) && SubTaken(cd0, cd1, cd2, co, sco, |d|)
  {
    var cd2 := Shifted(cd1, co, sco, |d|);
    var f, f2 := Flat(ptrs0, cols0), Flat(ptrs, cols);
    hide ColoursOk, Busy, Members, Subbed, Recoloured, Beyond, Painted, AllOf, Flat, FreeOk;
    PaintMembers(ptrs0, cols0, ptrs, cols, d, co, sco);
    PaintBeyond(ptrs0, cols0, ptrs, cols, d, co, sco);
    SubbedParts(cd0, cd1, co, sco);
    ShiftOk(cd0, cd1, max0, max, f, f2, co, sco, d);
    ShiftedSame(cd1, co, sco, |d|);
    SubKeepsFree(cd1, cd2, co, sco, max, free, list);
  }

  /** The gain of one step, the arc of the subcolour included. */
  lemma BracketGains(ptrs0: Ptrs, cols0: Cols, ptrs: Ptrs, cols: Cols, cd0: seq<Desc>, cd1: seq<Desc>, cd2: seq<Desc>, max0: nat,
                     co: nat, sco: nat, d: set<nat>, n: nat, lp: nat, rp: nat)
    requires ColoursOk(cd0, max0, Flat(ptrs0, cols0)) && Bracket(cd0, lp, rp) && Real(cd0, co) && Subbed(cd0, cd1, co, sco)
    requires co < |cd1| && Used(cd1, sco) && cd2 == Arced(Shifted(cd1, co, sco, n), sco, lp, rp) && n == |d|
    requires Painted(ptrs0, cols0, ptrs, cols, d, sco) && d <= Members(Flat(ptrs0, cols0), co) && d != {}
    ensures Bracket(cd2, lp, rp) && Gained(cd0, Flat(ptrs0, cols0), cd2, Flat(ptrs, cols), lp, rp, d) && Spared(ptrs0, cols0, ptrs, cols, d)
  {
    var f, f2 := Flat(ptrs0, cols0), Flat(ptrs, cols);
    assert Recoloured(f, f2, d, sco);
    hide ColoursOk, Members, Subbed, Gained, Bracket, Arced, Shifted;
    BracketKept(cd0, cd1, max0, f, co, sco, n, lp, rp);
    ShiftMeans(cd0, cd1, cd2, max0, f, f2, co, sco, d, lp, rp);
  }

  // ---------------------------------------------------------------- whole blocks

  function WithBlock(cd: seq<Desc>, sco: nat, t: nat): (r: seq<Desc>)
    requires sco < |cd|
    ensures |r| == |cd|
  {
    cd[sco := cd[sco].(block := Some(t))]
  }

  lemma BlockGiven(ptrs: Ptrs, cols: Cols, lvl: map<nat, nat>, parent: map<nat, (nat, nat)>, n: nat, cd: seq<Desc>, sco: nat, row: seq<nat>)
    requires MapOk(ptrs, cols, lvl, parent, n, cd) && sco < |cd| && cd[sco].block.None? && |row| == BYTTAB && forall i :: 0 <= i < BYTTAB ==> row[i] == sco
    ensures var cols2, cd2 := cols[n := row], WithBlock(cd, sco, n);
      && MapOk(ptrs, cols2, lvl, parent, n + 1, cd2) && SameLooks(ptrs, cols, ptrs, cols2) && SolidFor(cols2, n, sco)
  {
    var cols2, cd2 := cols[n := row], WithBlock(cd, sco, n);
    NewBlock(ptrs, cols, lvl, parent, SolidOf(cd), n, row, true);
    forall b ensures b in SolidOf(cd2) <==> b in SolidOf(cd) + {n} {
      if b in SolidOf(cd) {
        var co :| 0 <= co < |cd| && cd[co].block.Some? && cd[co].block.value == b;
        assert cd2[co].block == cd[co].block;
      }
      if b in SolidOf(cd2) && b != n {
        var co :| 0 <= co < |cd2| && cd2[co].block.Some? && cd2[co].block.value == b;
        assert cd[co].block == cd2[co].block;
      }
      assert cd2[sco].block == Some(n);
    }
    assert SolidOf(cd2) == SolidOf(cd) + {n};
    assert Blocks(cd2, cols2) by {
      forall x | 0 <= x < |cd2| && cd2[x].block.Some? ensures SolidFor(cols2, cd2[x].block.value, x) {
        if x != sco { assert SolidFor(cols, cd[x].block.value, x); }
      }
    }
    hide Tree, Blocks;
  }

  /** The characters of an aligned block are those that share its path. */
  lemma SameBlock(ptrs: Ptrs, start: nat, c: nat)
    requires start % BYTTAB == 0 && start + BYTTAB <= PATHS && Between(start, c, start + BYTTAB)
    ensures Byte(c, 0) == Byte(start, 0) && Byte(c, 1) == Byte(start, 1) && Byte(c, 2) == Byte(start, 2) && Byte(c, 3) == c - start
    ensures Walk(ptrs, c, 2) == Walk(ptrs, start, 2) && Walk(ptrs, c, 3) == Walk(ptrs, start, 3)
  {
    assert c / 256 == start / 256;
    assert c / 0x1_0000 == c / 256 / 256 && start / 0x1_0000 == start / 256 / 256;
    assert c / 0x100_0000 == c / 0x1_0000 / 256 && start / 0x100_0000 == start / 0x1_0000 / 256;
    assert Walk(ptrs, c, 1) == Walk(ptrs, start, 1);
  }

  lemma OtherBlock(start: nat, c: nat)
    requires start % BYTTAB == 0 && start < PATHS && c < PATHS
    requires Byte(c, 0) == Byte(start, 0) && Byte(c, 1) == Byte(start, 1) && Byte(c, 2) == Byte(start, 2)
    ensures Between(start, c, start + BYTTAB)
  {
    Bytes(c);
    Bytes(start);
  }

  /** A shared block has one colour, and so have its characters. */
  lemma BlockColour(ptrs: Ptrs, cols: Cols, lvl: map<nat, nat>, parent: map<nat, (nat, nat)>, next: nat, cd: seq<Desc>, max: nat, start: nat, t: nat)
    requires MapOk(ptrs, cols, lvl, parent, next, cd) && ColoursOk(cd, max, Flat(ptrs, cols)) && start % BYTTAB == 0 && start + BYTTAB <= NCHRS
    requires t == Walk(ptrs, start, 3) && t in cols && Shared(t, SolidOf(cd))
    ensures |cols[t]| == BYTTAB && Real(cd, cols[t][0]) && AllOf(ptrs, cols, Span(start, start + BYTTAB), cols[t][0])
  {
    SolidTest(ptrs, cols, lvl, parent, next, cd, t);
    var co := cols[t][0];
    assert forall i :: 0 <= i < BYTTAB ==> cols[t][i] == co by {
      if cd[co].block == Some(t) { assert SolidFor(cols, t, co); }
    }
    forall c | c in Span(start, start + BYTTAB) ensures Look(ptrs, cols, c) == co {
      SameBlock(ptrs, start, c);
      WalkOk(ptrs, cols, lvl, parent, SolidOf(cd), c);
    }
    CharColour(ptrs, cols, cd, max, start);
    assert start in Span(start, start + BYTTAB);
  }

  /** The pointer moved to the solid block of sco: exactly the characters of the aligned block have changed. */
  lemma Repainted(ptrs: Ptrs, cols0: Cols, cols: Cols, lvl: map<nat, nat>, parent: map<nat, (nat, nat)>, next: nat, cd: seq<Desc>,
                  start: nat, p: nat, b: nat, sco: nat)
    requires MapOk(ptrs, cols, lvl, parent, next, cd) && SameLooks(ptrs, cols0, ptrs, cols) && start % BYTTAB == 0 && start + BYTTAB <= NCHRS
    requires p == Walk(ptrs, start, 2) && p in ptrs && Own(p) && sco < |cd| && cd[sco].block == Some(b) && SolidFor(cols, b, sco)
    ensures Byte(start, 2) < |ptrs[p]|
    ensures var ptrs2 := Repoint(ptrs, p, Byte(start, 2), b);
      MapOk(ptrs2, cols, lvl, parent, next, cd) && Painted(ptrs, cols0, ptrs2, cols, Span(start, start + BYTTAB), sco)
  {
    var i := Byte(start, 2);
    WalkOk(ptrs, cols, lvl, parent, SolidOf(cd), start);
    assert b in SolidOf(cd);
    PointOk(ptrs, cols, lvl, parent, SolidOf(cd), p, i, b, parent);
    var ptrs2 := Repoint(ptrs, p, i, b);
    forall c | 0 <= c < PATHS ensures Look(ptrs2, cols, c) == if c in Span(start, start + BYTTAB) then sco else Look(ptrs, cols, c) {
      RepaintedAt(ptrs, cols, lvl, parent, next, cd, start, p, b, sco, c);
    }
    hide Tree, Blocks;
  }

  lemma RepaintedAt(ptrs: Ptrs, cols: Cols, lvl: map<nat, nat>, parent: map<nat, (nat, nat)>, next: nat, cd: seq<Desc>,
                    start: nat, p: nat, b: nat, sco: nat, c: nat)
    requires MapOk(ptrs, cols, lvl, parent, next, cd) && start % BYTTAB == 0 && start + BYTTAB <= NCHRS && c < PATHS && Byte(start, 2) < BYTTAB
    requires p == Walk(ptrs, start, 2) && p in ptrs && |ptrs[p]| == BYTTAB && Own(p) && lvl[p] == 2 && SolidFor(cols, b, sco)
    ensures Look(Repoint(ptrs, p, Byte(start, 2), b), cols, c) == if c in Span(start, start + BYTTAB) then sco else Look(ptrs, cols, c)
  {
    var i := Byte(start, 2);
    PointWalk(ptrs, cols, lvl, parent, SolidOf(cd), p, i, b, c);
    WalkOk(ptrs, cols, lvl, parent, SolidOf(cd), c);
    Bytes(c);
    if Between(start, c, start + BYTTAB) {
      SameBlock(ptrs, start, c);
    } else if Walk(ptrs, c, 2) == p && Byte(c, 2) == i {
      assert p > 3 && p !in SolidOf(cd);
      OnePath(ptrs, cols, lvl, parent, SolidOf(cd), start, c, 2);
      OtherBlock(start, c);
    }
  }

  /** Blocks are of no concern to the colours. */
  lemma BlockAside(cd: seq<Desc>, sco: nat, t: nat, max: nat, f: nat -> nat, free: nat, list: seq<nat>)
    requires ColoursOk(cd, max, f) && FreeOk(cd, max, free, list) && Used(cd, sco)
    ensures var cd2 := WithBlock(cd, sco, t);
      && ColoursOk(cd2, max, f) && FreeOk(cd2, max, free, list) && (Busy(cd) ==> Busy(cd2)) && (forall lp, rp :: Bracket(cd, lp, rp) ==> Bracket(cd2, lp, rp))
      && Gained(cd, f, cd2, f, 0, 0, {})
  {
    hide SubsOk, FreeOk, Gained;
    var cd2 := WithBlock(cd, sco, t);
    SubsSame(cd, cd2);
    SubKeepsFree(cd, cd2, sco, sco, max, free, list);
    BlockMeans(cd, sco, t, f);
    forall x: int ensures (Used(cd2, x) <==> Used(cd, x)) && (Real(cd2, x) <==> Real(cd, x)) && (Open(cd2, x) <==> Open(cd, x)) {}
    hide Members;
  }

  lemma BlockMeans(cd: seq<Desc>, sco: nat, t: nat, f: nat -> nat)
    requires sco < |cd|
    ensures Gained(cd, f, WithBlock(cd, sco, t), f, 0, 0, {})
  {
    var cd2 := WithBlock(cd, sco, t);
    forall typ, from, to, c | 0 <= c < NCHRS ensures Means(cd2, f, typ, from, to, c) <==> Means(cd, f, typ, from, to, c) {
      if Means(cd, f, typ, from, to, c) {
        var x: nat :| MeansBy(cd, f, typ, from, to, c, x);
        assert MeansBy(cd2, f, typ, from, to, c, x);
      }
      if Means(cd2, f, typ, from, to, c) {
        var x: nat :| MeansBy(cd2, f, typ, from, to, c, x);
        assert MeansBy(cd, f, typ, from, to, c, x);
      }
    }
    hide Means;
  }

  lemma BlockCommutes(cd: seq<Desc>, co: nat, sco: nat, n: int, t: nat, lp: nat, rp: nat)
    requires co < |cd| && sco < |cd|
    ensures Shifted(Arced(WithBlock(cd, sco, t), sco, lp, rp), co, sco, n) == WithBlock(Arced(Shifted(cd, co, sco, n), sco, lp, rp), sco, t)
  {
    var a, b := Shifted(Arced(WithBlock(cd, sco, t), sco, lp, rp), co, sco, n), WithBlock(Arced(Shifted(cd, co, sco, n), sco, lp, rp), sco, t);
    assert |a| == |b| && forall x :: 0 <= x < |a| ==> a[x] == b[x];
  }

  /** One step of subblock() done. */
  lemma StepDone(ptrs0: Ptrs, cols0: Cols, ptrs: Ptrs, cols: Cols, lvl: map<nat, nat>, parent: map<nat, (nat, nat)>, next: nat,
                 cd0: seq<Desc>, cd1: seq<Desc>, max0: nat, max: nat, free: nat, list: seq<nat>, co: nat, sco: nat, d: set<nat>, n: nat, lp: nat, rp: nat)
    requires ColoursOk(cd0, max0, Flat(ptrs0, cols0)) && Busy(cd0) && Bracket(cd0, lp, rp) && Beyond(ptrs0, cols0) && Real(cd0, co)
    requires Subbed(cd0, cd1, co, sco) && Real(cd1, sco) && co < |cd1| && n == |d|
    requires ColoursOk(cd1, max, Flat(ptrs0, cols0)) && FreeOk(cd1, max, free, list)
    requires Painted(ptrs0, cols0, ptrs, cols, d, sco) && d != {} && AllOf(ptrs0, cols0, d, co)
    ensures var cd2 := Arced(Shifted(cd1, co, sco, n), sco, lp, rp);
      && ColoursOk(cd2, max, Flat(ptrs, cols)) && Busy(cd2) && FreeOk(cd2, max, free, list) && Beyond(ptrs, cols) && Used(cd2, sco)
      && Bracket(cd2, lp, rp) && Gained(cd0, Flat(ptrs0, cols0), cd2, Flat(ptrs, cols), lp, rp, d) && Spared(ptrs0, cols0, ptrs, cols, d)
  {
    hide ColoursOk, Busy, Members, Subbed, Bracket, Gained, Spared, Beyond, Painted, FreeOk, Flat, AllOf, Recoloured;
    PaintMembers(ptrs0, cols0, ptrs, cols, d, co, sco);
    PaintDone(ptrs0, cols0, ptrs, cols, lvl, parent, next, cd0, cd1, max0, max, free, list, co, sco, d);
    var cd2 := Shifted(cd1, co, sco, n);
    ShiftedSame(cd1, co, sco, n);
    ArcAddedOk(cd2, max, Flat(ptrs, cols), Arc(PLAIN, sco, lp, rp));
    SubKeepsFree(cd2, Arced(cd2, sco, lp, rp), sco, sco, max, free, list);
    BracketGains(ptrs0, cols0, ptrs, cols, cd0, cd1, Arced(cd2, sco, lp, rp), max0, co, sco, d, n, lp, rp);
  }

  lemma SolidDone(ptrs0: Ptrs, cols0: Cols, ptrs: Ptrs, cols: Cols, lvl: map<nat, nat>, parent: map<nat, (nat, nat)>, next: nat,
                  cd0: seq<Desc>, cd1: seq<Desc>, cd2: seq<Desc>, max0: nat, max: nat, free: nat, list: seq<nat>, co: nat, sco: nat, d: set<nat>, b: nat, lp: nat, rp: nat)
    requires ColoursOk(cd0, max0, Flat(ptrs0, cols0)) && Busy(cd0) && Bracket(cd0, lp, rp) && Beyond(ptrs0, cols0) && Real(cd0, co)
    requires Subbed(cd0, cd1, co, sco) && Real(cd1, sco) && co < |cd1| && |d| == BYTTAB
    requires ColoursOk(cd1, max, Flat(ptrs0, cols0)) && FreeOk(cd1, max, free, list)
    requires Painted(ptrs0, cols0, ptrs, cols, d, sco) && AllOf(ptrs0, cols0, d, co)
    requires MapOk(ptrs, cols, lvl, parent, next, WithBlock(cd1, sco, b))
    requires cd2 == Shifted(Arced(WithBlock(cd1, sco, b), sco, lp, rp), co, sco, BYTTAB)
    ensures MapOk(ptrs, cols, lvl, parent, next, cd2) && ColoursOk(cd2, max, Flat(ptrs, cols)) && Busy(cd2) && FreeOk(cd2, max, free, list) && Beyond(ptrs, cols)
    ensures Bracket(cd2, lp, rp) && Gained(cd0, Flat(ptrs0, cols0), cd2, Flat(ptrs, cols), lp, rp, d) && Spared(ptrs0, cols0, ptrs, cols, d)
  {
    hide ColoursOk, Busy, Subbed, Bracket, Gained, Spared, Beyond, Painted, FreeOk, Flat, MapOk, WithBlock, Arced, Shifted;
    assert d != {};
    StepDone(ptrs0, cols0, ptrs, cols, lvl, parent, next, cd0, cd1, max0, max, free, list, co, sco, d, BYTTAB, lp, rp);
    var cdA := Arced(Shifted(cd1, co, sco, BYTTAB), sco, lp, rp);
    BlockCommutes(cd1, co, sco, BYTTAB, b, lp, rp);
    BlockAside(cdA, sco, b, max, Flat(ptrs, cols), free, list);
    GainedNone(cdA, Flat(ptrs, cols), cd2, Flat(ptrs, cols), lp, rp);
    GainedTrans(cd0, Flat(ptrs0, cols0), cdA, Flat(ptrs, cols), cd2, Flat(ptrs, cols), lp, rp, d, {});
    assert d + {} == d;
    SolidMap(ptrs, cols, lvl, parent, next, WithBlock(cd1, sco, b), co, sco, lp, rp);
  }

  lemma SolidMap(ptrs: Ptrs, cols: Cols, lvl: map<nat, nat>, parent: map<nat, (nat, nat)>, next: nat, cd: seq<Desc>, co: nat, sco: nat, lp: nat, rp: nat)
    requires MapOk(ptrs, cols, lvl, parent, next, cd) && co < |cd| && sco < |cd|
    ensures MapOk(ptrs, cols, lvl, parent, next, Shifted(Arced(cd, sco, lp, rp), co, sco, BYTTAB))
  {
    SameBlocks(ptrs, cols, lvl, parent, next, cd, Arced(cd, sco, lp, rp));
    hide MapOk;
    ShiftBlocks(ptrs, cols, lvl, parent, next, Arced(cd, sco, lp, rp), co, sco, BYTTAB);
  }

  lemma GainedNone(cd: seq<Desc>, f: nat -> nat, cd2: seq<Desc>, f2: nat -> nat, lp: nat, rp: nat)
    requires Gained(cd, f, cd2, f2, 0, 0, {})
    ensures Gained(cd, f, cd2, f2, lp, rp, {})
  {
  }

  // ---------------------------------------------------------------- mixed blocks

  lemma RunStart(ptrs: Ptrs, cols: Cols, from: nat, co: nat)
    ensures forall sco :: Painted(ptrs, cols, ptrs, cols, Span(from, from), sco)
    ensures AllOf(ptrs, cols, Span(from, from), co)
  {
  }

  /** One more character of the run. */
  lemma RunNext(ptrs: Ptrs, cols0: Cols, cols: Cols, lvl: map<nat, nat>, parent: map<nat, (nat, nat)>, next: nat, cd: seq<Desc>,
                start: nat, t: nat, previ: nat, i: nat, co: nat, sco: nat)
    requires MapOk(ptrs, cols, lvl, parent, next, cd) && start % BYTTAB == 0 && start + BYTTAB <= NCHRS && t == Walk(ptrs, start, 3) && !Shared(t, SolidOf(cd))
    requires previ <= i < BYTTAB && t in cols && |cols[t]| == BYTTAB && cols[t][i] == co && sco < |cd|
    requires Painted(ptrs, cols0, ptrs, cols, Span(start + previ, start + i), sco) && AllOf(ptrs, cols0, Span(start + previ, start + i), co)
    ensures var cols2 := cols[t := Put(cols[t], i, sco)];
      && MapOk(ptrs, cols2, lvl, parent, next, cd) && |cols2[t]| == BYTTAB
      && Painted(ptrs, cols0, ptrs, cols2, Span(start + previ, start + i + 1), sco)
    ensures AllOf(ptrs, cols0, Span(start + previ, start + i + 1), co)
  {
    hide MapOk, Painted, AllOf, Span, Walk, SolidOf, Shared;
    RunStored(ptrs, cols, lvl, parent, next, cd, start, t, i, co, sco);
    RunPainted(ptrs, cols0, cols, cols[t := Put(cols[t], i, sco)], start + previ, start + i, co, sco);
  }

  /** The cell written: one character, of colour co, has changed. */
  lemma RunStored(ptrs: Ptrs, cols: Cols, lvl: map<nat, nat>, parent: map<nat, (nat, nat)>, next: nat, cd: seq<Desc>, start: nat, t: nat, i: nat, co: nat, sco: nat)
    requires MapOk(ptrs, cols, lvl, parent, next, cd) && start % BYTTAB == 0 && start + BYTTAB <= NCHRS && t == Walk(ptrs, start, 3) && !Shared(t, SolidOf(cd))
    requires i < BYTTAB && t in cols && |cols[t]| == BYTTAB && cols[t][i] == co && sco < |cd|
    ensures var cols2 := cols[t := Put(cols[t], i, sco)];
      && MapOk(ptrs, cols2, lvl, parent, next, cd) && |cols2[t]| == BYTTAB && Painted(ptrs, cols, ptrs, cols2, {start + i}, sco)
    ensures Look(ptrs, cols, start + i) == co
  {
    var c := start + i;
    SameBlock(ptrs, start, c);
    WalkOk(ptrs, cols, lvl, parent, SolidOf(cd), c);
    Store(ptrs, cols, lvl, parent, SolidOf(cd), c, sco);
    var cols2 := cols[t := Put(cols[t], i, sco)];
    assert Blocks(cd, cols2) by {
      forall x | 0 <= x < |cd| && cd[x].block.Some? ensures SolidFor(cols2, cd[x].block.value, x) {
        assert SolidFor(cols, cd[x].block.value, x) && cd[x].block.value in SolidOf(cd);
      }
    }
    hide Tree, Blocks, Look;
  }

  lemma RunPainted(ptrs: Ptrs, cols0: Cols, cols: Cols, cols2: Cols, a: nat, c: nat, co: nat, sco: nat)
    requires a <= c < NCHRS && Painted(ptrs, cols0, ptrs, cols, Span(a, c), sco) && AllOf(ptrs, cols0, Span(a, c), co)
    requires Painted(ptrs, cols, ptrs, cols2, {c}, sco) && Look(ptrs, cols, c) == co
    ensures Painted(ptrs, cols0, ptrs, cols2, Span(a, c + 1), sco) && AllOf(ptrs, cols0, Span(a, c + 1), co)
  {
    hide Look;
    assert forall d: nat :: d in Span(a, c + 1) <==> d in Span(a, c) || d == c;
    assert c !in Span(a, c);
  }

  lemma RunColour(ptrs: Ptrs, cols: Cols, lvl: map<nat, nat>, parent: map<nat, (nat, nat)>, next: nat, cd: seq<Desc>, max: nat, start: nat, t: nat, i: nat)
    requires MapOk(ptrs, cols, lvl, parent, next, cd) && ColoursOk(cd, max, Flat(ptrs, cols)) && start % BYTTAB == 0 && start + BYTTAB <= NCHRS
    requires t == Walk(ptrs, start, 3) && i < BYTTAB
    ensures t in cols && |cols[t]| == BYTTAB && Real(cd, cols[t][i])
    ensures forall x :: 0 <= x < |cd| && cd[x].isFree ==> cd[x].block.None?
  {
    SameBlock(ptrs, start, start + i);
    WalkOk(ptrs, cols, lvl, parent, SolidOf(cd), start + i);
    CharColour(ptrs, cols, cd, max, start + i);
  }

  lemma SubbedSolid(cd: seq<Desc>, cd2: seq<Desc>, co: nat, sco: nat)
    requires Subbed(cd, cd2, co, sco) && co < |cd| && (forall x :: 0 <= x < |cd| && cd[x].isFree ==> cd[x].block.None?)
    ensures SolidOf(cd2) == SolidOf(cd)
  {
    forall b ensures b in SolidOf(cd2) <==> b in SolidOf(cd) {
      if b in SolidOf(cd) {
        var x :| 0 <= x < |cd| && cd[x].block.Some? && cd[x].block.value == b;
        assert cd2[x].block == cd[x].block;
      }
      if b in SolidOf(cd2) {
        var x :| 0 <= x < |cd2| && cd2[x].block.Some? && cd2[x].block.value == b;
        assert cd[x].block == cd2[x].block;
      }
    }
  }

  lemma ArcMap(ptrs: Ptrs, cols: Cols, lvl: map<nat, nat>, parent: map<nat, (nat, nat)>, next: nat, cd: seq<Desc>, sco: nat, lp: nat, rp: nat)
    requires MapOk(ptrs, cols, lvl, parent, next, cd) && sco < |cd|
    ensures MapOk(ptrs, cols, lvl, parent, next, Arced(cd, sco, lp, rp)) && SolidOf(Arced(cd, sco, lp, rp)) == SolidOf(cd)
  {
    SameBlocks(ptrs, cols, lvl, parent, next, cd, Arced(cd, sco, lp, rp));
  }

  lemma ArcMore(cd1: seq<Desc>, co: nat, sco: nat, n: int, lp: nat, rp: nat)
    requires co < |cd1| && sco < |cd1|
    ensures Shifted(Arced(cd1, sco, lp, rp), co, sco, n) == Arced(Shifted(cd1, co, sco, n), sco, lp, rp)
  {
    ShiftArcs(cd1, co, sco, n, lp, rp);
  }

  lemma ShiftMap(ptrs: Ptrs, cols: Cols, lvl: map<nat, nat>, parent: map<nat, (nat, nat)>, next: nat, cd: seq<Desc>, co: nat, sco: nat, n: int)
    requires MapOk(ptrs, cols, lvl, parent, next, cd) && co < |cd| && sco < |cd|
    ensures MapOk(ptrs, cols, lvl, parent, next, Shifted(cd, co, sco, n)) && SolidOf(Shifted(cd, co, sco, n)) == SolidOf(cd)
    ensures Shifted(cd, co, sco, n) == var cd1 := cd[co := cd[co].(nchrs := cd[co].nchrs - n)]; cd1[sco := cd1[sco].(nchrs := cd1[sco].nchrs + n)]
  {
    var cd2 := Shifted(cd, co, sco, n);
    forall x | 0 <= x < |cd| ensures cd2[x].block == cd[x].block {}
    SameBlocks(ptrs, cols, lvl, parent, next, cd, cd2);
  }

  lemma RunFilled(a: nat, b: nat)
    requires a < b
    ensures |Span(a, b)| == b - a && Span(a, b) != {}
  {
    SpanSize(a, b);
    assert a in Span(a, b);
  }

  lemma StillThere(ptrs: Ptrs, cols: Cols, lvl: map<nat, nat>, parent: map<nat, (nat, nat)>, next: nat, cd: seq<Desc>, start: nat, t: nat)
    requires MapOk(ptrs, cols, lvl, parent, next, cd) && start < PATHS && t == Walk(ptrs, start, 3)
    ensures t in cols
  {
    WalkOk(ptrs, cols, lvl, parent, SolidOf(cd), start);
  }

  lemma GainedRefl(cd: seq<Desc>, f: nat -> nat, lp: nat, rp: nat)
    ensures Gained(cd, f, cd, f, lp, rp, {})
  {
  }

  lemma NoneTaken(ptrs: Ptrs, cols: Cols, cd: seq<Desc>, start: nat, lp: nat, rp: nat)
    ensures Gained(cd, Flat(ptrs, cols), cd, Flat(ptrs, cols), lp, rp, Span(start, start)) && Spared(ptrs, cols, ptrs, cols, Span(start, start))
  {
    assert Span(start, start) == {};
    GainedRefl(cd, Flat(ptrs, cols), lp, rp);
    hide Gained;
  }

  lemma MoreTaken(ptrs0: Ptrs, cols0: Cols, cd0: seq<Desc>, ptrs1: Ptrs, cols1: Cols, cd1: seq<Desc>, ptrs: Ptrs, cols: Cols, cd: seq<Desc>,
                  a: nat, b: nat, c: nat, lp: nat, rp: nat)
    requires a <= b <= c && Gained(cd0, Flat(ptrs0, cols0), cd1, Flat(ptrs1, cols1), lp, rp, Span(a, b)) && Spared(ptrs0, cols0, ptrs1, cols1, Span(a, b))
    requires Gained(cd1, Flat(ptrs1, cols1), cd, Flat(ptrs, cols), lp, rp, Span(b, c)) && Spared(ptrs1, cols1, ptrs, cols, Span(b, c))
    ensures Gained(cd0, Flat(ptrs0, cols0), cd, Flat(ptrs, cols), lp, rp, Span(a, c)) && Spared(ptrs0, cols0, ptrs, cols, Span(a, c))
  {
    assert Span(a, c) == Span(a, b) + Span(b, c);
    GainedTrans(cd0, Flat(ptrs0, cols0), cd1, Flat(ptrs1, cols1), cd, Flat(ptrs, cols), lp, rp, Span(a, b), Span(b, c));
    hide Gained, Flat, Span, Look;
  }

  lemma SpanOne(c: nat)
    ensures Span(c, c + 1) == {c}
  {
  }

  lemma Relooked(ptrs0: Ptrs, ptrs: Ptrs, cols: Cols, cd: seq<Desc>, max: nat, start: nat, lp: nat, rp: nat)
    requires ColoursOk(cd, max, Flat(ptrs0, cols)) && SameLooks(ptrs0, cols, ptrs, cols) && Beyond(ptrs0, cols)
    ensures ColoursOk(cd, max, Flat(ptrs, cols)) && Beyond(ptrs, cols)
    ensures Gained(cd, Flat(ptrs0, cols), cd, Flat(ptrs, cols), lp, rp, Span(start, start)) && Spared(ptrs0, cols, ptrs, cols, Span(start, start))
  {
    SameFlat(cd, max, Flat(ptrs0, cols), Flat(ptrs, cols));
    hide ColoursOk;
    GainedNone(cd, Flat(ptrs0, cols), cd, Flat(ptrs, cols), lp, rp);
    assert Span(start, start) == {};
    hide Gained;
  }

  // ---------------------------------------------------------------- promotion

  lemma ParentParts(cd: seq<Desc>, max: nat, f: nat -> nat, co: nat, sco: nat)
    requires ColoursOk(cd, max, f) && Busy(cd) && Parent(cd, co, sco)
    ensures co != sco && co < |cd| && sco < |cd| && cd[sco].sub == sco && cd[sco].nchrs > 0 && Real(cd, co)
    ensures forall k :: 0 <= k < |cd[co].arcs| ==> cd[co].arcs[k].co == co
  {
    assert Open(cd, sco);
  }

  lemma SubIsReal(cd: seq<Desc>, max: nat, f: nat -> nat, co: nat)
    requires ColoursOk(cd, max, f) && Used(cd, co) && cd[co].sub != NOSUB && cd[co].sub != co
    ensures cd[co].sub >= 0 && Parent(cd, co, cd[co].sub) && Used(cd, cd[co].sub)
  {
  }

  /** The first k arcs of co's chain have got counterparts on sco's; rest is what co's chain is now. */
  ghost predicate Moving(cd0: seq<Desc>, cd: seq<Desc>, co: nat, sco: nat, chain: seq<Arc>, k: nat, rest: seq<Arc>)
    requires k <= |chain|
  {
    && |cd| == |cd0| && co < |cd| && sco < |cd| && co != sco && chain == cd0[co].arcs
    && (forall x :: 0 <= x < |cd| && x != co && x != sco ==> cd[x] == cd0[x])
    && cd[co] == cd0[co].(sub := NOSUB, arcs := rest) && cd[sco] == cd0[sco].(sub := NOSUB, arcs := cd[sco].arcs)
    && (forall a :: a in cd[sco].arcs <==> a in cd0[sco].arcs || (a.co == sco && CameFrom(chain, k, co, a)))
  }

  ghost predicate CameFrom(chain: seq<Arc>, k: nat, co: nat, a: Arc)
    requires k <= |chain|
  {
    a.(co := co) in chain[..k]
  }

  lemma CameMore(chain: seq<Arc>, k: nat, co: nat, sco: nat)
    requires k < |chain| && chain[k].co == co
    ensures forall a: Arc :: a.co == sco ==> (CameFrom(chain, k + 1, co, a) <==> CameFrom(chain, k, co, a) || a == chain[k].(co := sco))
  {
    assert chain[..k + 1] == chain[..k] + [chain[k]];
    forall a: Arc | a.co == sco ensures CameFrom(chain, k + 1, co, a) <==> CameFrom(chain, k, co, a) || a == chain[k].(co := sco) {
      assert a.(co := co) == chain[k] <==> a == chain[k].(co := sco);
    }
  }

  lemma MovingStart(cd0: seq<Desc>, cd: seq<Desc>, co: nat, sco: nat)
    requires co < |cd0| && sco < |cd0| && co != sco && cd == cd0[co := cd0[co].(sub := NOSUB)][sco := cd0[sco].(sub := NOSUB)]
    ensures Moving(cd0, cd, co, sco, cd0[co].arcs, 0, cd0[co].arcs) && cd0[co].arcs[0..] == cd0[co].arcs
  {
  }

  lemma MovingEmpty(cd0: seq<Desc>, cd1: seq<Desc>, cd2: seq<Desc>, co: nat, sco: nat, chain: seq<Arc>, k: nat)
    requires k < |chain| && Moving(cd0, cd1, co, sco, chain, k, chain[k..]) && chain[k].co == co
    requires cd2 == cd1[co := cd1[co].(arcs := chain[k + 1..])][sco := cd1[sco].(arcs := [chain[k].(co := sco)] + cd1[sco].arcs)]
    ensures Moving(cd0, cd2, co, sco, chain, k + 1, chain[k + 1..])
  {
    CameMore(chain, k, co, sco);
    hide CameFrom;
  }

  lemma MovingFull(cd0: seq<Desc>, cd1: seq<Desc>, cd2: seq<Desc>, co: nat, sco: nat, chain: seq<Arc>, k: nat)
    requires k < |chain| && Moving(cd0, cd1, co, sco, chain, k, chain) && chain[k].co == co
    requires cd2 == ArcAdded(cd1, chain[k].(co := sco))
    ensures Moving(cd0, cd2, co, sco, chain, k + 1, chain) && co < |cd2| && sco < |cd2| && cd2[co].arcs == chain
  {
    CameMore(chain, k, co, sco);
    hide CameFrom;
  }

  lemma MovedArcs(cd0: seq<Desc>, cd: seq<Desc>, co: nat, sco: nat, chain: seq<Arc>, k: nat, rest: seq<Arc>)
    requires k == |chain| && Moving(cd0, cd, co, sco, chain, k, rest)
    ensures forall a :: a in cd[sco].arcs <==> a in cd0[sco].arcs || (a.co == sco && a.(co := co) in cd0[co].arcs)
  {
    assert chain[..k] == chain;
    forall a ensures a in cd[sco].arcs <==> a in cd0[sco].arcs || (a.co == sco && a.(co := co) in cd0[co].arcs) {
      assert CameFrom(chain, k, co, a) <==> a.(co := co) in chain;
    }
  }

  lemma MovedEmpty(cd0: seq<Desc>, cd: seq<Desc>, max: nat, f: nat -> nat, co: nat, sco: nat, chain: seq<Arc>, k: nat)
    requires k <= |chain| && Moving(cd0, cd, co, sco, chain, k, chain[k..]) && chain[k..] == [] && cd0[co].nchrs == 0
    ensures Promoted(cd0, cd, co, sco) && cd[co].arcs == [] && cd[co].sub == NOSUB && cd[co].nchrs == 0
  {
    MovedArcs(cd0, cd, co, sco, chain, k, chain[k..]);
  }

  lemma MovedFull(cd0: seq<Desc>, cd: seq<Desc>, co: nat, sco: nat, chain: seq<Arc>)
    requires Moving(cd0, cd, co, sco, chain, |chain|, chain) && cd0[co].nchrs != 0
    ensures Promoted(cd0, cd, co, sco)
  {
    MovedArcs(cd0, cd, co, sco, chain, |chain|, chain);
  }

  lemma PromotedAll(ptrs: Ptrs, cols: Cols, lvl: map<nat, nat>, parent: map<nat, (nat, nat)>, next: nat, cd0: seq<Desc>, cd: seq<Desc>,
                    max: nat, free: nat, list: seq<nat>, co: nat, sco: nat)
    requires MapOk(ptrs, cols, lvl, parent, next, cd0) && ColoursOk(cd0, max, Flat(ptrs, cols)) && FreeOk(cd0, max, free, list) && Busy(cd0)
    requires Parent(cd0, co, sco) && Promoted(cd0, cd, co, sco)
    ensures MapOk(ptrs, cols, lvl, parent, next, cd) && ColoursOk(cd, max, Flat(ptrs, cols)) && FreeOk(cd, max, free, list) && Busy(cd)
    ensures Gained(cd0, Flat(ptrs, cols), cd, Flat(ptrs, cols), 0, 0, {}) && (Real(cd, co) <==> Real(cd0, co))
  {
    ParentParts(cd0, max, Flat(ptrs, cols), co, sco);
    hide MapOk, ColoursOk, FreeOk, Gained, Flat, Busy;
    PromotedOk(cd0, cd, co, sco, max, Flat(ptrs, cols));
    forall x | 0 <= x < |cd| ensures cd[x].block == cd0[x].block && cd[x].isFree == cd0[x].isFree {}
    SubKeepsFree(cd0, cd, co, sco, max, free, list);
    SameBlocks(ptrs, cols, lvl, parent, next, cd0, cd);
  }

  /** co has no subcolour any more, sco is none any more; whatever else was in use is as it was. */
  ghost predicate Handled(cd0: seq<Desc>, cd: seq<Desc>, co: nat, sco: nat) {
    && |cd| == |cd0| && (Used(cd, co) ==> cd[co].sub == NOSUB) && (Used(cd, sco) ==> cd[sco].sub == NOSUB)
    && (forall x :: Used(cd, x) && x != co && x != sco ==> Used(cd0, x) && cd[x].sub == cd0[x].sub)
  }

  lemma HandledFull(cd0: seq<Desc>, cd: seq<Desc>, co: nat, sco: nat)
    requires Promoted(cd0, cd, co, sco)
    ensures Handled(cd0, cd, co, sco)
  {
  }

  lemma HandledEmpty(cd0: seq<Desc>, cd1: seq<Desc>, cd: seq<Desc>, co: nat, sco: nat)
    requires Promoted(cd0, cd1, co, sco) && (if co == C.WHITE then cd == cd1 else Freed(cd1, cd, co))
    ensures Handled(cd0, cd, co, sco)
  {
    if co != C.WHITE {
      forall x | Used(cd, x) && x != co ensures Used(cd1, x) && cd[x] == cd1[x] {
        assert cd[x].(sub := 0) == cd1[x].(sub := 0);
      }
    }
  }

  /** Of the colours before co only open subcolours still have their sub field set. */
  ghost predicate Awaiting(cd: seq<Desc>, co: nat, end: nat) {
    && (forall x :: 0 <= x < co && Used(cd, x) && cd[x].sub != NOSUB ==> cd[x].sub == x)
    && (forall x :: end <= x < |cd| ==> cd[x].isFree)
  }

  lemma HighestInRange(cd: seq<Desc>, max: nat, f: nat -> nat)
    requires ColoursOk(cd, max, f)
    ensures max < |cd| && max <= MAX_COLOR
  {
  }

  lemma EndOfColours(cd: seq<Desc>, max: nat, f: nat -> nat)
    requires ColoursOk(cd, max, f)
    ensures max < |cd| && forall x :: max + 1 <= x < |cd| ==> cd[x].isFree
  {
  }

  lemma AwaitingStart(cd: seq<Desc>, end: nat)
    requires forall x :: end <= x < |cd| ==> cd[x].isFree
    ensures Awaiting(cd, 0, end)
  {
  }

  lemma AwaitingNext(cd: seq<Desc>, co: nat, end: nat)
    requires Awaiting(cd, co, end) && co < |cd| && (cd[co].isFree || cd[co].sub == NOSUB || cd[co].sub == co)
    ensures Awaiting(cd, co + 1, end)
  {
  }

  lemma AwaitingHandled(cd0: seq<Desc>, cd: seq<Desc>, co: nat, sco: nat, end: nat)
    requires Awaiting(cd0, co, end) && Handled(cd0, cd, co, sco) && co < end && Used(cd0, co) && Used(cd0, sco)
    ensures Awaiting(cd, co + 1, end) && |cd| == |cd0|
  {
    forall x | end <= x < |cd| ensures cd[x].isFree {
      assert cd0[x].isFree;
      assert Used(cd, x) && x != co && x != sco ==> Used(cd0, x);
    }
  }

  /** An open subcolour left over would have a parent left over. */
  lemma AllPromoted(cd: seq<Desc>, max: nat, f: nat -> nat, end: nat)
    requires ColoursOk(cd, max, f) && Awaiting(cd, end, end)
    ensures forall x :: Used(cd, x) ==> cd[x].sub == NOSUB
  {
    forall p | Used(cd, p) && cd[p].sub != NOSUB ensures cd[p].sub == p {}
    forall x | Used(cd, x) ensures cd[x].sub == NOSUB {
      forall p ensures !Parent(cd, p, x) {}
      assert !Open(cd, x);
    }
  }

  lemma GainedNothing(cd: seq<Desc>, f: nat -> nat, cd2: seq<Desc>, f2: nat -> nat)
    requires Gained(cd, f, cd2, f2, 0, 0, {})
    ensures forall typ, from, to, c :: 0 <= c < NCHRS ==> (Means(cd2, f2, typ, from, to, c) <==> Means(cd, f, typ, from, to, c))
  {
    hide Means;
  }

  // ---------------------------------------------------------------- freeing a colour

  /** Nothing but sub fields of free colours has changed. */
  ghost predicate OnlySubs(cd: seq<Desc>, cd2: seq<Desc>) {
    |cd2| == |cd| && forall x :: 0 <= x < |cd| ==> cd2[x].(sub := 0) == cd[x].(sub := 0) && (!cd[x].isFree ==> cd2[x] == cd[x])
  }

  lemma OnlySubsFree(cd: seq<Desc>, cd2: seq<Desc>)
    requires OnlySubs(cd, cd2)
    ensures |cd2| == |cd| && forall x :: 0 <= x < |cd| ==> cd2[x].isFree == cd[x].isFree
  {
    forall x | 0 <= x < |cd| ensures cd2[x].isFree == cd[x].isFree { assert cd2[x].(sub := 0) == cd[x].(sub := 0); }
  }

  lemma OnlySubsRefl(cd: seq<Desc>)
    ensures OnlySubs(cd, cd)
  {
  }

  lemma NextLink(cd: seq<Desc>, first: nat, head: seq<nat>, tail: seq<nat>)
    requires Links(cd, first, head + tail) && tail != []
    ensures 0 < tail[0] < |cd| && cd[tail[0]].isFree && cd[tail[0]].sub == Head(tail[1..])
  {
    var list := head + tail;
    assert LinkAt(cd, list, |head|) && list[|head|] == tail[0] && list[|head| + 1..] == tail[1..];
  }

  lemma EndLink(cd: seq<Desc>, list: seq<nat>)
    requires Links(cd, 0, list)
    ensures list == []
  {
    if list != [] { LinksTail(cd, 0, list); }
  }

  lemma CutKeeps(cd0: seq<Desc>, cd: seq<Desc>, p: nat, n: int, head: seq<nat>, tail: seq<nat>, max: nat)
    requires OnlySubs(cd0, cd) && p < |cd| && cd[p].isFree && tail != [] && tail[0] > max
    requires forall y :: 0 < y <= max && y < |cd| && cd[y].isFree ==> y in head + tail
    ensures OnlySubs(cd0, cd[p := cd[p].(sub := n)])
    ensures var cd2 := cd[p := cd[p].(sub := n)]; forall y :: 0 < y <= max && y < |cd2| && cd2[y].isFree ==> y in head + tail[1..]
  {
    var cd2 := cd[p := cd[p].(sub := n)];
    forall y | 0 < y <= max && y < |cd2| && cd2[y].isFree ensures y in head + tail[1..] {
      assert y in head + tail && y != tail[0];
      assert tail == [tail[0]] + tail[1..];
    }
    assert cd0[p].(sub := 0) == cd[p].(sub := 0);
  }

  /** nchrs at work: no pointer leads to the block of a colour without characters. */
  lemma BlockUnhung(ptrs: Ptrs, cols: Cols, lvl: map<nat, nat>, parent: map<nat, (nat, nat)>, next: nat, cd: seq<Desc>, max: nat, co: nat)
    requires MapOk(ptrs, cols, lvl, parent, next, cd) && ColoursOk(cd, max, Flat(ptrs, cols)) && Beyond(ptrs, cols)
    requires Real(cd, co) && co != C.WHITE && cd[co].nchrs == 0 && cd[co].block.Some?
    ensures Unhung(ptrs, cd[co].block.value) && cd[co].block.value > 3
  {
    var b := cd[co].block.value;
    assert SolidFor(cols, b, co) && b in SolidOf(cd);
    assert cols[b][0] == co && cols[3][0] == C.WHITE && 0 in ptrs && 1 in ptrs && 2 in ptrs;
    forall p, i ensures !HangsAt(ptrs, b, p, i) {
      if HangsAt(ptrs, b, p, i) {
        var c := Reached(ptrs, cols, lvl, parent, SolidOf(cd), b, p, i);
        assert c < NCHRS;
        NotEmpty(cd, Flat(ptrs, cols), co, c);
      }
    }
  }

  ghost function WithoutBlock(cols: Cols, d: Desc): Cols { if d.block.Some? then cols - {d.block.value} else cols }

  /** The colour gone, and its block with it. */
  lemma BlockFreed(ptrs: Ptrs, cols: Cols, lvl: map<nat, nat>, parent: map<nat, (nat, nat)>, next: nat, cd: seq<Desc>, co: nat)
    requires MapOk(ptrs, cols, lvl, parent, next, cd) && co < |cd| && co != C.WHITE
    requires cd[co].block.Some? ==> Unhung(ptrs, cd[co].block.value) && cd[co].block.value > 3
    ensures var cols2, cd2 := WithoutBlock(cols, cd[co]), cd[co := cd[co].(isFree := true, block := None)];
      MapOk(ptrs, cols2, lvl, parent, next, cd2) && SameLooks(ptrs, cols, ptrs, cols2)
  {
    var cols2, cd2 := WithoutBlock(cols, cd[co]), cd[co := cd[co].(isFree := true, block := None)];
    if cd[co].block.Some? {
      var b := cd[co].block.value;
      assert b in SolidOf(cd) && SolidFor(cols, b, co);
      forall x ensures x in SolidOf(cd2) <==> x in SolidOf(cd) - {b} {
        if x in SolidOf(cd2) {
          var y :| 0 <= y < |cd2| && cd2[y].block.Some? && cd2[y].block.value == x;
          assert cd[y].block == cd2[y].block && SolidFor(cols, x, y);
          assert cols[x][0] == y && cols[b][0] == co;
        }
        if x in SolidOf(cd) && x != b {
          var y :| 0 <= y < |cd| && cd[y].block.Some? && cd[y].block.value == x;
          assert cd2[y].block == cd[y].block;
        }
      }
      Unsolid(ptrs, cols, lvl, parent, SolidOf(cd), b);
      assert SolidOf(cd2) == SolidOf(cd) - {b};
      assert Blocks(cd2, cols2) by {
        forall y | 0 <= y < |cd2| && cd2[y].block.Some? ensures SolidFor(cols2, cd2[y].block.value, y) {
          assert SolidFor(cols, cd[y].block.value, y);
          assert cols[cd[y].block.value][0] == y && cols[b][0] == co;
        }
      }
      hide Tree, Blocks;
    } else {
      SameBlocks(ptrs, cols, lvl, parent, next, cd, cd2);
    }
  }

  lemma SubsKeepBlocks(ptrs: Ptrs, cols: Cols, lvl: map<nat, nat>, parent: map<nat, (nat, nat)>, next: nat, cd: seq<Desc>, cd2: seq<Desc>)
    requires MapOk(ptrs, cols, lvl, parent, next, cd) && |cd2| == |cd| && forall x :: 0 <= x < |cd| ==> cd2[x].(sub := 0) == cd[x].(sub := 0)
    ensures MapOk(ptrs, cols, lvl, parent, next, cd2)
  {
    forall x | 0 <= x < |cd| ensures cd2[x].block == cd[x].block { assert cd2[x].(sub := 0) == cd[x].(sub := 0); }
    SameBlocks(ptrs, cols, lvl, parent, next, cd, cd2);
  }

  /** The colour marked as free and its block gone, but the free chain as it was. */
  lemma FreedStart(ptrs: Ptrs, cols: Cols, lvl: map<nat, nat>, parent: map<nat, (nat, nat)>, next: nat, cd: seq<Desc>, max: nat, free: nat, list: seq<nat>, co: nat)
    requires MapOk(ptrs, cols, lvl, parent, next, cd) && ColoursOk(cd, max, Flat(ptrs, cols)) && Beyond(ptrs, cols) && FreeOk(cd, max, free, list)
    requires Real(cd, co) && co != C.WHITE && cd[co].nchrs == 0
    ensures var cd1 := cd[co := cd[co].(isFree := true, block := None)];
      && MapOk(ptrs, WithoutBlock(cols, cd[co]), lvl, parent, next, cd1) && SameLooks(ptrs, cols, ptrs, WithoutBlock(cols, cd[co]))
      && max < |cd1| && !cd1[0].isFree && Links(cd1, free, list) && co !in list && co <= max && (co != max ==> !cd1[max].isFree)
      && (forall y :: 0 < y < max && y != co && cd1[y].isFree ==> y in list) && forall x :: x in list ==> x <= max
  {
    var cd1 := cd[co := cd[co].(isFree := true, block := None)];
    InFree(cd, free, list);
    LinksKept(cd, cd1, free, list);
    if cd[co].block.Some? { BlockUnhung(ptrs, cols, lvl, parent, next, cd, max, co); }
    BlockFreed(ptrs, cols, lvl, parent, next, cd, co);
    hide MapOk;
  }

  lemma FreedEnd(ptrs: Ptrs, cols: Cols, cols2: Cols, lvl: map<nat, nat>, parent: map<nat, (nat, nat)>, next: nat,
                 cd0: seq<Desc>, cd1: seq<Desc>, cd2: seq<Desc>, co: nat, max: nat, max2: nat)
    requires MapOk(ptrs, cols2, lvl, parent, next, cd1) && SameLooks(ptrs, cols, ptrs, cols2) && Beyond(ptrs, cols)
    requires ColoursOk(cd0, max, Flat(ptrs, cols)) && Busy(cd0) && Real(cd0, co) && co != C.WHITE && cd0[co].nchrs == 0 && cd0[co].sub == NOSUB && cd0[co].arcs == []
    requires cd1 == cd0[co := cd0[co].(isFree := true, block := None)] && OnlySubs(cd1, cd2)
    requires max2 <= max && (forall y :: max2 < y <= max ==> cd2[y].isFree) && !cd2[max2].isFree
    ensures MapOk(ptrs, cols2, lvl, parent, next, cd2) && Beyond(ptrs, cols2) && Freed(cd0, cd2, co) && Busy(cd2)
    ensures ColoursOk(cd2, max2, Flat(ptrs, cols2)) && Gained(cd0, Flat(ptrs, cols), cd2, Flat(ptrs, cols2), 0, 0, {})
  {
    SameFlats(ptrs, cols, cols2);
    hide MapOk, ColoursOk, Busy, Gained, Flat;
    SubsKeepBlocks(ptrs, cols2, lvl, parent, next, cd1, cd2);
    FreedNow(cd0, cd1, cd2, co, max, max2, Flat(ptrs, cols), Flat(ptrs, cols2));
  }

  lemma SameFlats(ptrs: Ptrs, cols: Cols, cols2: Cols)
    requires SameLooks(ptrs, cols, ptrs, cols2)
    ensures forall c :: 0 <= c < PATHS ==> Flat(ptrs, cols2)(c) == Flat(ptrs, cols)(c)
    ensures Beyond(ptrs, cols) ==> Beyond(ptrs, cols2)
  {
  }

  lemma FreedNow(cd0: seq<Desc>, cd1: seq<Desc>, cd2: seq<Desc>, co: nat, max: nat, max2: nat, f: nat -> nat, f2: nat -> nat)
    requires ColoursOk(cd0, max, f) && Busy(cd0) && Real(cd0, co) && co != C.WHITE && cd0[co].nchrs == 0 && cd0[co].sub == NOSUB && cd0[co].arcs == []
    requires cd1 == cd0[co := cd0[co].(isFree := true, block := None)] && OnlySubs(cd1, cd2)
    requires max2 <= max && (forall y :: max2 < y <= max ==> cd2[y].isFree) && !cd2[max2].isFree
    requires forall c :: 0 <= c < PATHS ==> f2(c) == f(c)
    ensures Freed(cd0, cd2, co) && ColoursOk(cd2, max2, f2) && Busy(cd2) && Gained(cd0, f, cd2, f2, 0, 0, {})
  {
    assert Freed(cd0, cd2, co) by {
      forall x | 0 <= x < |cd0| && x != co ensures cd2[x].(sub := 0) == cd0[x].(sub := 0) { assert cd2[x].(sub := 0) == cd1[x].(sub := 0); }
      assert cd2[co].(sub := 0) == cd1[co].(sub := 0);
    }
    assert Ranges(cd2, max2) by { hide Counted, SubsOk, ChainsOk, Busy; FreedRanges(cd0, cd2, co, max, max2); }
    FreedOk(cd0, cd2, co, max, max2, f);
    SameFlat(cd2, max2, f, f2);
    var none: set<nat> := {};
    GainedTrans(cd0, f, cd2, f, cd2, f2, 0, 0, none, none);
    assert none + none == none;
  }

  lemma FreedRanges(cd0: seq<Desc>, cd2: seq<Desc>, co: nat, max: nat, max2: nat)
    requires Ranges(cd0, max) && Freed(cd0, cd2, co) && co != C.WHITE && Real(cd0, co)
    requires max2 <= max && (forall y :: max2 < y <= max ==> cd2[y].isFree) && !cd2[max2].isFree
    ensures Ranges(cd2, max2)
  {
    forall x | 0 <= x < |cd0| && x != co ensures cd2[x].isFree == cd0[x].isFree && cd2[x].arcs == cd0[x].arcs && cd2[x].block == cd0[x].block {
      assert cd2[x].(sub := 0) == cd0[x].(sub := 0);
    }
  }

  /** Only the colours of the characters matter. */
  lemma SameFlat(cd: seq<Desc>, max: nat, f: nat -> nat, f2: nat -> nat)
    requires ColoursOk(cd, max, f) && forall c :: 0 <= c < NCHRS ==> f2(c) == f(c)
    ensures ColoursOk(cd, max, f2) && Gained(cd, f, cd, f2, 0, 0, {})
  {
    forall co: nat ensures Members(f2, co) == Members(f, co) {}
    assert Counted(cd, f2);
    forall typ, from, to, c | 0 <= c < NCHRS ensures Means(cd, f2, typ, from, to, c) <==> Means(cd, f, typ, from, to, c) {
      if Means(cd, f, typ, from, to, c) {
        var x: nat :| MeansBy(cd, f, typ, from, to, c, x);
        assert MeansBy(cd, f2, typ, from, to, c, x);
      }
      if Means(cd, f2, typ, from, to, c) {
        var x: nat :| MeansBy(cd, f2, typ, from, to, c, x);
        assert MeansBy(cd, f, typ, from, to, c, x);
      }
    }
  }

  ghost predicate SameLooks(ptrs: Ptrs, cols: Cols, ptrs2: Ptrs, cols2: Cols) {
    forall d :: 0 <= d < PATHS ==> Look(ptrs2, cols2, d) == Look(ptrs, cols, d)
  }

  /** setcolor()'s last step. */
  lemma Stored(ptrs0: Ptrs, cols0: Cols, ptrs: Ptrs, cols: Cols, lvl: map<nat, nat>, parent: map<nat, (nat, nat)>, next: nat, cd: seq<Desc>,
               c: nat, t: nat, co: nat)
    requires MapOk(ptrs, cols, lvl, parent, next, cd) && SameLooks(ptrs0, cols0, ptrs, cols) && c < PATHS && co < |cd|
    requires t == Walk(ptrs, c, 3) && t in cols && !Shared(t, SolidOf(cd))
    ensures Byte(c, 3) < |cols[t]| && cols[t][Byte(c, 3)] == Look(ptrs0, cols0, c)
    ensures MapOk(ptrs, cols[t := Put(cols[t], Byte(c, 3), co)], lvl, parent, next, cd)
    ensures forall d :: 0 <= d < PATHS ==> Look(ptrs, cols[t := Put(cols[t], Byte(c, 3), co)], d) == if d == c then co else Look(ptrs0, cols0, d)
  {
    WalkOk(ptrs, cols, lvl, parent, SolidOf(cd), c);
    Store(ptrs, cols, lvl, parent, SolidOf(cd), c, co);
  }

  lemma PtrCopied(ptrs: Ptrs, cols: Cols, lvl: map<nat, nat>, parent: map<nat, (nat, nat)>, next: nat, cd: seq<Desc>, c: nat, level: nat, p: nat)
    requires MapOk(ptrs, cols, lvl, parent, next, cd) && c < PATHS && level < 2 && Walk(ptrs, c, level) == p && p in ptrs && Own(p)
    requires Byte(c, level) < |ptrs[p]| && ptrs[p][Byte(c, level)] == level + 1
    ensures level + 1 in ptrs && next > 3 && p != next
    ensures var ptrs2 := Repoint(ptrs[next := ptrs[level + 1]], p, Byte(c, level), next);
      && MapOk(ptrs2, cols, lvl[next := level + 1], parent[next := (p, Byte(c, level))], next + 1, cd) && SameLooks(ptrs, cols, ptrs2, cols)
      && Walk(ptrs2, c, level) == p && Walk(ptrs2, c, level + 1) == next && next in ptrs2
  {
    WalkOk(ptrs, cols, lvl, parent, SolidOf(cd), c);
    var i := Byte(c, level);
    assert lvl[p] == level by { if level == 0 { assert p == 0; } }
    GrowPtr(ptrs, cols, lvl, parent, SolidOf(cd), p, i, next);
    var ptrs2 := Repoint(ptrs[next := ptrs[level + 1]], p, i, next);
    forall d | 0 <= d < PATHS ensures Look(ptrs2, cols, d) == Look(ptrs, cols, d) {
      GrowPtrWalk(ptrs, cols, lvl, parent, SolidOf(cd), p, i, next, d);
    }
    GrowPtrWalk(ptrs, cols, lvl, parent, SolidOf(cd), p, i, next, c);
    hide Tree, Blocks, Cells;
  }

  lemma ColsCopied(ptrs: Ptrs, cols: Cols, lvl: map<nat, nat>, parent: map<nat, (nat, nat)>, next: nat, cd: seq<Desc>, c: nat, p: nat)
    requires MapOk(ptrs, cols, lvl, parent, next, cd) && c < PATHS && Walk(ptrs, c, 2) == p && p in ptrs && Own(p)
    requires Byte(c, 2) < |ptrs[p]| && ptrs[p][Byte(c, 2)] in cols
    ensures var ptrs2, cols2 := Repoint(ptrs, p, Byte(c, 2), next), cols[next := cols[ptrs[p][Byte(c, 2)]]];
      && MapOk(ptrs2, cols2, lvl, parent[next := (p, Byte(c, 2))], next + 1, cd) && SameLooks(ptrs, cols, ptrs2, cols2)
      && Walk(ptrs2, c, 3) == next && !Shared(next, SolidOf(cd))
  {
    WalkOk(ptrs, cols, lvl, parent, SolidOf(cd), c);
    var i, solid := Byte(c, 2), SolidOf(cd);
    var row := cols[ptrs[p][i]];
    var ptrs2, cols2 := Repoint(ptrs, p, i, next), cols[next := row];
    NewBlock(ptrs, cols, lvl, parent, solid, next, row, false);
    PointOk(ptrs, cols2, lvl, parent, solid, p, i, next, parent[next := (p, i)]);
    forall d | 0 <= d < PATHS ensures Look(ptrs2, cols2, d) == Look(ptrs, cols, d) {
      WalkOk(ptrs, cols, lvl, parent, solid, d);
      PointWalk(ptrs, cols, lvl, parent, solid, p, i, next, d);
    }
    PointWalk(ptrs, cols, lvl, parent, solid, p, i, next, c);
    assert Blocks(cd, cols2) by {
      forall co | 0 <= co < |cd| && cd[co].block.Some? ensures SolidFor(cols2, cd[co].block.value, co) { assert SolidFor(cols, cd[co].block.value, co); }
    }
    hide Tree, Blocks;
  }

  lemma SameLooksRefl(p: Ptrs, c: Cols)
    ensures SameLooks(p, c, p, c)
  {
  }

  lemma SameLooksTrans(p: Ptrs, c: Cols, p1: Ptrs, c1: Cols, p2: Ptrs, c2: Cols)
    requires SameLooks(p, c, p1, c1) && SameLooks(p1, c1, p2, c2)
    ensures SameLooks(p, c, p2, c2)
  {
  }

  /** A block of pointers below the top that is not the fill block of its level is no fill block. */
  lemma PtrLevel(ptrs: Ptrs, cols: Cols, lvl: map<nat, nat>, parent: map<nat, (nat, nat)>, solid: set<nat>, p: nat, i: nat, level: nat)
    requires Tree(ptrs, cols, lvl, parent, solid) && p in ptrs && lvl[p] == level < 2 && i < BYTTAB && ptrs[p][i] != level + 1
    ensures ptrs[p][i] in ptrs && Own(ptrs[p][i])
  {
    assert BlockOk(ptrs, cols, lvl, parent, solid, p, i);
  }
}
