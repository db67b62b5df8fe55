/** The stack analysis of the assembler, tclAssembly.c:3311-3600, run after the catch analysis. */
module StackCheck {
  import opened Options
  import opened Blocks
  import opened Catches

  /** The counters each block ended up with. */
  datatype Use = Use(min: int, max: int, final: int)

  ghost predicate Counted(code: seq<Block>, uses: seq<Use>) {
    |uses| == |code| && forall b :: 0 <= b < |code| ==> Describes(code[b].ops, uses[b].min, uses[b].max, uses[b].final)
  }

  /** What is known of one visited block: it stays above zero, above the level of its enclosing catch (which
      has been visited, so that its level is known), and at or below max. */
  ghost predicate BlockSafe(visited: set<nat>, initial: seq<int>, enclosing: seq<Option<nat>>, uses: seq<Use>, maxDepth: int, b: nat)
    requires b < |initial| == |enclosing| == |uses|
  {
    && 0 <= initial[b] + uses[b].min && initial[b] + uses[b].max <= maxDepth
    && (enclosing[b].Some? ==>
          var c := enclosing[b].value;
          c < |initial| && c in visited && initial[c] + uses[c].final <= initial[b] + uses[b].min)
  }

  /** Every successor of b has been visited at the depth b leaves. */
  ghost predicate Continued(code: seq<Block>, visited: set<nat>, initial: seq<int>, uses: seq<Use>, b: nat)
    requires b < |code| == |initial| == |uses|
  {
    forall y :: IsSuccessor(code[b], y) ==> VisitedAt(visited, initial, y, initial[b] + uses[b].final)
  }

  ghost predicate IsSuccessor(blk: Block, y: nat) {
    blk.fall == Some(y) || blk.jump == Some(y) || y in blk.table
  }

  ghost predicate VisitedAt(visited: set<nat>, initial: seq<int>, y: nat, d: int) {
    y < |initial| && y in visited && initial[y] == d
  }

  ghost predicate Checked(code: seq<Block>, visited: set<nat>, initial: seq<int>, enclosing: seq<Option<nat>>, uses: seq<Use>, maxDepth: int, open: set<nat>) {
    && |code| == |initial| == |enclosing| == |uses| && (forall b :: b in visited ==> b < |code|)
    && (forall b :: b in visited ==> BlockSafe(visited, initial, enclosing, uses, maxDepth, b))
    && (forall b :: b in visited && b !in open ==> Continued(code, visited, initial, uses, b))
  }

  /** Blocks stay visited at their depths; the maximum only grows. */
  ghost predicate Since(visited: set<nat>, initial: seq<int>, maxDepth: int, visited2: set<nat>, initial2: seq<int>, maxDepth2: int) {
    && |initial| == |initial2| && visited <= visited2 && maxDepth <= maxDepth2
    && forall b :: b in visited && b < |initial| ==> initial2[b] == initial[b]
  }

  lemma SinceTrans(v1: set<nat>, i1: seq<int>, m1: int, v2: set<nat>, i2: seq<int>, m2: int, v3: set<nat>, i3: seq<int>, m3: int)
    requires Since(v1, i1, m1, v2, i2, m2) && Since(v2, i2, m2, v3, i3, m3)
    ensures Since(v1, i1, m1, v3, i3, m3)
  {
  }

  lemma StillVisited(v1: set<nat>, i1: seq<int>, m1: int, v2: set<nat>, i2: seq<int>, m2: int, y: nat, d: int)
    requires Since(v1, i1, m1, v2, i2, m2) && VisitedAt(v1, i1, y, d)
    ensures VisitedAt(v2, i2, y, d)
  {
  }

  /** Entering a block for the first time. */
  lemma Visiting(code: seq<Block>, visited: set<nat>, initial: seq<int>, enclosing: seq<Option<nat>>, uses: seq<Use>, maxDepth: int, open: set<nat>,
                 b: nat, d: int, maxDepth2: int)
    requires Checked(code, visited, initial, enclosing, uses, maxDepth, open) && b < |code| && b !in visited && maxDepth <= maxDepth2
    requires BlockSafe(visited, initial[b := d], enclosing, uses, maxDepth2, b)
    ensures Checked(code, visited + {b}, initial[b := d], enclosing, uses, maxDepth2, open + {b})
    ensures Since(visited, initial, maxDepth, visited + {b}, initial[b := d], maxDepth2)
  {
    var visited2, initial2 := visited + {b}, initial[b := d];
    forall x | x in visited ensures BlockSafe(visited2, initial2, enclosing, uses, maxDepth2, x) {
      assert BlockSafe(visited, initial, enclosing, uses, maxDepth, x);
    }
    forall x | x in visited && x !in open ensures Continued(code, visited2, initial2, uses, x) {
      assert Continued(code, visited, initial, uses, x);
      forall y | IsSuccessor(code[x], y) ensures VisitedAt(visited2, initial2, y, initial2[x] + uses[x].final) {
        assert VisitedAt(visited, initial, y, initial[x] + uses[x].final);
      }
    }
  }

  lemma Closing(code: seq<Block>, visited: set<nat>, initial: seq<int>, enclosing: seq<Option<nat>>, uses: seq<Use>, maxDepth: int, open: set<nat>, b: nat)
    requires Checked(code, visited, initial, enclosing, uses, maxDepth, open + {b}) && b < |code| && Continued(code, visited, initial, uses, b)
    ensures Checked(code, visited, initial, enclosing, uses, maxDepth, open)
  {
  }

  /** Not yet visited. */
  ghost function Unvisited(n: nat, visited: set<nat>): set<nat> {
    set b | 0 <= b < n && b !in visited
  }

  /** The walk that brings control to b leaves these catches open, all of them visited. */
  ghost predicate Arriving(code: seq<Block>, visited: set<nat>, b: nat, opens: seq<nat>, d: int) {
    (forall i :: 0 <= i < |opens| ==> opens[i] in visited) && exists n: nat :: Walk(code, b, opens, d, n)
  }

  /** The innermost open catch of a walk is the block's enclosing catch, and it has been visited. */
  lemma EnclosingVisited(code: seq<Block>, enclosing: seq<Option<nat>>, depth: seq<int>, visited: set<nat>, b: nat, opens: seq<nat>, d: int)
    requires Analysed(code, enclosing, depth) && Arriving(code, visited, b, opens, d)
    ensures b < |enclosing| && (enclosing[b].Some? ==> enclosing[b].value in visited)
  {
    var n: nat :| Walk(code, b, opens, d, n);
    assert IsChain(enclosing, b, opens);
  }

  /** Going on to a successor. */
  lemma ArrivingNext(code: seq<Block>, enclosing: seq<Option<nat>>, depth: seq<int>, uses: seq<Use>, visited: set<nat>, b: nat, opens: seq<nat>, d: int,
                     visited2: set<nat>, y: nat, opens2: seq<nat>)
    requires Arriving(code, visited, b, opens, d) && Counted(code, uses) && visited + {b} <= visited2
    requires Passes(code, b, y, opens, opens2)
    ensures Arriving(code, visited2, y, opens2, d + uses[b].final)
  {
    var n: nat :| Walk(code, b, opens, d, n);
    WalkOn(code, b, opens, d, n, y, opens2);
  }

  /** The recorded maximum is one that some walk reaches. */
  ghost predicate Peak(code: seq<Block>, max: int) {
    max == 0 || exists b: nat, opens: seq<nat>, d: int, n: nat, i: nat :: PeakAt(code, max, b, opens, d, n, i)
  }

  ghost predicate PeakAt(code: seq<Block>, max: int, b: nat, opens: seq<nat>, d: int, n: nat, i: nat) {
    Walk(code, b, opens, d, n) && b < |code| && i <= |code[b].ops| && d + Depth(code[b].ops, i) == max
  }

  lemma BlockPeak(code: seq<Block>, uses: seq<Use>, visited: set<nat>, b: nat, opens: seq<nat>, d: int)
    requires Arriving(code, visited, b, opens, d) && Counted(code, uses) && b < |code|
    ensures Peak(code, d + uses[b].max)
  {
    var n: nat :| Walk(code, b, opens, d, n);
    var ops, max := code[b].ops, uses[b].max;
    assert Describes(ops, uses[b].min, max, uses[b].final);
    var i: nat :| i <= |ops| && Depth(ops, i) == max by {
      if max == 0 { assert Depth(ops, 0) == max; }
    }
    assert PeakAt(code, d + max, b, opens, d, n, i);
  }

  // ---------------------------------------------------------------- what is wrong with code that is rejected

  /** Some walk enters b at this depth. */
  ghost predicate Enters(code: seq<Block>, b: nat, opens: seq<nat>, d: int) {
    exists n: nat :: Walk(code, b, opens, d, n)
  }

  /** Entered at depth d, block b takes the stack below floor. */
  ghost predicate Sinks(code: seq<Block>, b: nat, d: int, floor: int)
    requires b < |code|
  {
    d < floor || exists i :: 0 <= i < |code[b].ops| && d + Low(code[b].ops, i) < floor
  }

  /** Below zero, or below the level at which the innermost open catch c was begun, entered itself at depth dc. */
  ghost predicate Underflows(code: seq<Block>, b: nat, opens: seq<nat>, d: int) {
    b < |code| && Enters(code, b, opens, d) && (Sinks(code, b, d, 0) || UnderCatch(code, b, opens, d))
  }

  ghost predicate UnderCatch(code: seq<Block>, b: nat, opens: seq<nat>, d: int)
    requires b < |code|
  {
    opens != [] && SinksBelow(code, b, d, opens[|opens| - 1])
  }

  ghost predicate SinksBelow(code: seq<Block>, b: nat, d: int, c: nat)
    requires b < |code|
  {
    exists o, dc: int :: SinksUnder(code, b, d, c, o, dc)
  }

  ghost predicate SinksUnder(code: seq<Block>, b: nat, d: int, c: nat, o: seq<nat>, dc: int)
    requires b < |code|
  {
    c < |code| && Enters(code, c, o, dc) && Sinks(code, b, d, dc + Final(code[c]))
  }

  ghost predicate Disagrees(code: seq<Block>, b: nat, o: seq<nat>, d: int, o2: seq<nat>, d2: int) {
    Enters(code, b, o, d) && Enters(code, b, o2, d2) && d != d2
  }

  ghost predicate BadExit(code: seq<Block>, b: nat, opens: seq<nat>, d: int) {
    b + 1 == |code| && Enters(code, b, opens, d) && d + Final(code[b]) != 0 && d + Final(code[b]) != 1
  }

  /** Two walks enter a block at different depths; or a walk makes the stack underflow, or leaves anything but
      nothing or one value at the end. */
  ghost predicate Unbalanced(code: seq<Block>) {
    || (exists b: nat, o, d: int, o2, d2: int :: Disagrees(code, b, o, d, o2, d2))
    || (exists b: nat, opens, d: int :: Underflows(code, b, opens, d))
    || (exists b: nat, opens, d: int :: BadExit(code, b, opens, d))
  }

  /** Every visited block has been walked into at its depth. */
  ghost predicate Measured(code: seq<Block>, visited: set<nat>, initial: seq<int>) {
    |code| == |initial| && forall b :: b in visited ==> b < |code| && EnteredAt(code, b, initial[b])
  }

  ghost predicate EnteredAt(code: seq<Block>, b: nat, d: int) {
    exists opens :: Enters(code, b, opens, d)
  }

  lemma MeasuredNow(code: seq<Block>, visited: set<nat>, initial: seq<int>, b: nat, opens: seq<nat>, d: int)
    requires Measured(code, visited, initial) && b < |code| && Arriving(code, visited, b, opens, d) && b !in visited
    ensures Measured(code, visited + {b}, initial[b := d])
  {
    assert Enters(code, b, opens, d) && EnteredAt(code, b, d);
    hide EnteredAt;
  }

  lemma Disagreeing(code: seq<Block>, visited: set<nat>, initial: seq<int>, b: nat, opens: seq<nat>, d: int)
    requires Measured(code, visited, initial) && b in visited && Arriving(code, visited, b, opens, d) && initial[b] != d
    ensures Unbalanced(code)
  {
    var o :| Enters(code, b, o, initial[b]);
    assert Disagrees(code, b, o, initial[b], opens, d);
  }

  lemma Sunk(code: seq<Block>, uses: seq<Use>, b: nat, d: int, floor: int)
    requires Counted(code, uses) && b < |code| && d + uses[b].min < floor
    ensures Sinks(code, b, d, floor)
  {
    var ops := code[b].ops;
    assert Describes(ops, uses[b].min, uses[b].max, uses[b].final);
    if uses[b].min != 0 {
      var i :| 0 <= i < |ops| && Low(ops, i) == uses[b].min;
      assert d + Low(ops, i) < floor;
    }
  }

  lemma Underflowing(code: seq<Block>, uses: seq<Use>, visited: set<nat>, b: nat, opens: seq<nat>, d: int)
    requires Counted(code, uses) && b < |code| && Arriving(code, visited, b, opens, d) && d + uses[b].min < 0
    ensures Unbalanced(code)
  {
    Sunk(code, uses, b, d, 0);
    assert Enters(code, b, opens, d);
    assert Underflows(code, b, opens, d);
  }

  lemma CatchUnderflowing(code: seq<Block>, uses: seq<Use>, enclosing: seq<Option<nat>>, depth: seq<int>, visited: set<nat>, initial: seq<int>,
                          b: nat, opens: seq<nat>, d: int)
    requires Counted(code, uses) && b < |code| && Analysed(code, enclosing, depth) && Arriving(code, visited, b, opens, d) && Measured(code, visited, initial)
    requires enclosing[b].Some? && enclosing[b].value in visited && d + uses[b].min < initial[enclosing[b].value] + uses[enclosing[b].value].final
    ensures Unbalanced(code)
  {
    var c := enclosing[b].value;
    var n: nat :| Walk(code, b, opens, d, n);
    assert IsChain(enclosing, b, opens) && opens != [] && opens[|opens| - 1] == c;
    assert Describes(code[c].ops, uses[c].min, uses[c].max, uses[c].final);
    var o :| Enters(code, c, o, initial[c]);
    Sunk(code, uses, b, d, initial[c] + Final(code[c]));
    assert SinksUnder(code, b, d, c, o, initial[c]);
    assert Enters(code, b, opens, d) && Underflows(code, b, opens, d);
  }

  class StackAnalysis {
    const code: seq<Block>
    const uses: seq<Use>
    const enclosing: seq<Option<nat>>
    var visited: set<nat>
    var initial: seq<int>
    var maxDepth: int

    constructor (code: seq<Block>, uses: seq<Use>, enclosing: seq<Option<nat>>)
      requires |code| == |uses| == |enclosing|
      ensures this.code == code && this.uses == uses && this.enclosing == enclosing
      ensures visited == {} && |initial| == |code| && maxDepth == 0
    {
      this.code, this.uses, this.enclosing := code, uses, enclosing;
      visited := {};
      initial := seq(|code|, _ => 0);
      maxDepth := 0;
    }

    /** The catch analysis has succeeded, and the blocks visited so far are right but for the open ones. */
    ghost predicate Sound(depth: seq<int>, open: set<nat>)
      reads this
    {
      && Assembled(code) && Counted(code, uses) && Analysed(code, enclosing, depth)
      && Checked(code, visited, initial, enclosing, uses, maxDepth, open)
    }

    /** StackCheckBasicBlock(), tclAssembly.c:3378-3514. The walk taken to the block is known: it has these
        catches open. */
    method CheckBlock(b: nat, d: int, ghost opens: seq<nat>, ghost depth: seq<int>, ghost open: set<nat>) returns (ok: bool)
      requires Sound(depth, open) && b < |code| && Arriving(code, visited, b, opens, d) && Measured(code, visited, initial)
      modifies this`visited, this`initial, this`maxDepth
      ensures if ok then Measured(code, visited, initial) else Unbalanced(code)
      ensures ok ==> Sound(depth, open) && VisitedAt(visited, initial, b, d)
      ensures Since(old(visited), old(initial), old(maxDepth), visited, initial, maxDepth)
      ensures Peak(code, old(maxDepth)) ==> Peak(code, maxDepth)
      decreases Unvisited(|code|, visited), 0
    {
      hide Counted, Analysed, Checked, Arriving, Assembled, Peak, Measured, Unbalanced;
      Lengths(code, visited, initial, enclosing, uses, maxDepth, open);
      if b in visited {
        if initial[b] != d { Disagreeing(code, visited, initial, b, opens, d); }
        return initial[b] == d;
      }
      EnclosingVisited(code, enclosing, depth, visited, b, opens, d);
      ghost var visited0, initial0, maxDepth0 := visited, initial, maxDepth;
      MeasuredNow(code, visited, initial, b, opens, d);
      ArrivingMore(code, visited, b, opens, d);
      visited := visited + {b};
      initial := initial[b := d];
      if d + uses[b].min < 0 {
        Underflowing(code, uses, visited, b, opens, d);
        return false;
      }
      if enclosing[b].Some? {
        var c := enclosing[b].value;
        if d + uses[b].min < initial[c] + uses[c].final {
          CatchUnderflowing(code, uses, enclosing, depth, visited, initial, b, opens, d);
          return false;
        }
      }
      if d + uses[b].max > maxDepth {
        BlockPeak(code, uses, visited0, b, opens, d);
        maxDepth := d + uses[b].max;
      }
      Visiting(code, visited0, initial0, enclosing, uses, maxDepth0, open, b, d, maxDepth);
      UnvisitedShrinks(|code|, visited0, b);
      ArrivingLater(code, visited0, initial0, maxDepth0, visited, initial, maxDepth, b, opens, d);
      ok := CheckSuccessors(b, d, opens, depth, open);
    }

    /** Check the successors at the depth the block leaves (tclAssembly.c:3480-3513). */
    method CheckSuccessors(b: nat, d: int, ghost opens: seq<nat>, ghost depth: seq<int>, ghost open: set<nat>) returns (ok: bool)
      requires Sound(depth, open + {b}) && b < |code| && VisitedAt(visited, initial, b, d) && Arriving(code, visited, b, opens, d)
      requires Measured(code, visited, initial)
      modifies this`visited, this`initial, this`maxDepth
      ensures if ok then Measured(code, visited, initial) else Unbalanced(code)
      ensures ok ==> Sound(depth, open)
      ensures Since(old(visited), old(initial), old(maxDepth), visited, initial, maxDepth)
      ensures Peak(code, old(maxDepth)) ==> Peak(code, maxDepth)
      decreases Unvisited(|code|, visited), 2
    {
      hide Counted, Analysed, Checked, Arriving, Since, Peak, FallOpens, JumpOpens, Measured, Unbalanced;
      ghost var open2 := open + {b};
      Lengths(code, visited, initial, enclosing, uses, maxDepth, open2);
      ghost var visited0, initial0, maxDepth0 := visited, initial, maxDepth;
      SinceRefl(visited, initial, maxDepth);
      var stackDepth := d + uses[b].final;
      ok := true;
      if code[b].fall.Some? {
        ghost var opens2 := FallOpens(code[b], b, opens);
        ArrivingNext(code, enclosing, depth, uses, visited, b, opens, d, visited, code[b].fall.value, opens2);
        ok := CheckBlock(code[b].fall.value, stackDepth, opens2, depth, open2);
        if !ok { return; }
      }
      ghost var visited1, initial1, maxDepth1 := visited, initial, maxDepth;
      ArrivingLater(code, visited0, initial0, maxDepth0, visited1, initial1, maxDepth1, b, opens, d);
      UnvisitedMonotone(|code|, visited0, initial0, maxDepth0, visited1, initial1, maxDepth1);
      ok := CheckJumps(b, d, stackDepth, opens, depth, open2);
      SinceTrans(visited0, initial0, maxDepth0, visited1, initial1, maxDepth1, visited, initial, maxDepth);
      if !ok { return; }
      if code[b].fall.Some? {
        StillVisited(visited1, initial1, maxDepth1, visited, initial, maxDepth, code[b].fall.value, stackDepth);
      }
      StillVisited(visited0, initial0, maxDepth0, visited, initial, maxDepth, b, d);
      ContinuedNow(code, visited, initial, uses, b, stackDepth);
      Closing(code, visited, initial, enclosing, uses, maxDepth, open, b);
    }

    /** Check the jump target and the targets of the jump table. */
    method CheckJumps(b: nat, d: int, stackDepth: int, ghost opens: seq<nat>, ghost depth: seq<int>, ghost open: set<nat>) returns (ok: bool)
      requires Sound(depth, open) && b < |code| == |uses| && stackDepth == d + uses[b].final && b in visited && Arriving(code, visited, b, opens, d)
      requires Measured(code, visited, initial)
      modifies this`visited, this`initial, this`maxDepth
      ensures if ok then Measured(code, visited, initial) else Unbalanced(code)
      ensures ok ==> Sound(depth, open)
      ensures ok && code[b].jump.Some? ==> VisitedAt(visited, initial, code[b].jump.value, stackDepth)
      ensures ok ==> forall i :: 0 <= i < |code[b].table| ==> VisitedAt(visited, initial, code[b].table[i], stackDepth)
      ensures Since(old(visited), old(initial), old(maxDepth), visited, initial, maxDepth)
      ensures Peak(code, old(maxDepth)) ==> Peak(code, maxDepth)
      decreases Unvisited(|code|, visited), 1
    {
      hide Counted, Analysed, Checked, Arriving, Since, Peak, JumpOpens, Measured, Unbalanced;
      ghost var visited0, initial0, maxDepth0 := visited, initial, maxDepth;
      ghost var opens2 := JumpOpens(code[b], b, opens);
      SinceRefl(visited, initial, maxDepth);
      ok := true;
      if code[b].jump.Some? {
        ArrivingNext(code, enclosing, depth, uses, visited, b, opens, d, visited, code[b].jump.value, opens2);
        ok := CheckBlock(code[b].jump.value, stackDepth, opens2, depth, open);
        if !ok { return; }
      }
      var i := 0;
      while i < |code[b].table|
        invariant 0 <= i <= |code[b].table| && ok && Sound(depth, open) && Measured(code, visited, initial)
        invariant Since(visited0, initial0, maxDepth0, visited, initial, maxDepth) && (Peak(code, maxDepth0) ==> Peak(code, maxDepth))
        invariant code[b].jump.Some? ==> VisitedAt(visited, initial, code[b].jump.value, stackDepth)
        invariant forall j :: 0 <= j < i ==> VisitedAt(visited, initial, code[b].table[j], stackDepth)
      {
        ghost var visited1, initial1, maxDepth1 := visited, initial, maxDepth;
        ArrivingLater(code, visited0, initial0, maxDepth0, visited1, initial1, maxDepth1, b, opens, d);
        UnvisitedMonotone(|code|, visited0, initial0, maxDepth0, visited1, initial1, maxDepth1);
        ArrivingNext(code, enclosing, depth, uses, visited, b, opens, d, visited, code[b].table[i], opens2);
        ok := CheckBlock(code[b].table[i], stackDepth, opens2, depth, open);
        SinceTrans(visited0, initial0, maxDepth0, visited1, initial1, maxDepth1, visited, initial, maxDepth);
        if !ok { return; }
        forall y | VisitedAt(visited1, initial1, y, stackDepth) ensures VisitedAt(visited, initial, y, stackDepth) {
          StillVisited(visited1, initial1, maxDepth1, visited, initial, maxDepth, y, stackDepth);
        }
        i := i + 1;
      }
    }
  }

  lemma Lengths(code: seq<Block>, visited: set<nat>, initial: seq<int>, enclosing: seq<Option<nat>>, uses: seq<Use>, maxDepth: int, open: set<nat>)
    requires Checked(code, visited, initial, enclosing, uses, maxDepth, open)
    ensures |code| == |initial| == |enclosing| == |uses|
    ensures forall b :: b in visited ==> b < |code|
  {
  }

  lemma SinceRefl(visited: set<nat>, initial: seq<int>, maxDepth: int)
    ensures Since(visited, initial, maxDepth, visited, initial, maxDepth)
  {
  }

  lemma ArrivingLater(code: seq<Block>, v1: set<nat>, i1: seq<int>, m1: int, v2: set<nat>, i2: seq<int>, m2: int, b: nat, opens: seq<nat>, d: int)
    requires Since(v1, i1, m1, v2, i2, m2) && Arriving(code, v1, b, opens, d)
    ensures Arriving(code, v2, b, opens, d) && (b in v1 ==> b in v2)
  {
  }

  lemma ArrivingMore(code: seq<Block>, visited: set<nat>, b: nat, opens: seq<nat>, d: int)
    requires Arriving(code, visited, b, opens, d)
    ensures Arriving(code, visited + {b}, b, opens, d)
  {
  }

  lemma UnvisitedShrinks(n: nat, visited: set<nat>, b: nat)
    requires b < n && b !in visited
    ensures Unvisited(n, visited + {b}) < Unvisited(n, visited)
  {
    assert b in Unvisited(n, visited) && b !in Unvisited(n, visited + {b});
  }

  lemma UnvisitedMonotone(n: nat, v1: set<nat>, i1: seq<int>, m1: int, v2: set<nat>, i2: seq<int>, m2: int)
    requires Since(v1, i1, m1, v2, i2, m2)
    ensures Unvisited(n, v2) <= Unvisited(n, v1)
  {
  }

  lemma ContinuedNow(code: seq<Block>, visited: set<nat>, initial: seq<int>, uses: seq<Use>, b: nat, stackDepth: int)
    requires b < |code| == |initial| == |uses| && stackDepth == initial[b] + uses[b].final
    requires code[b].fall.Some? ==> VisitedAt(visited, initial, code[b].fall.value, stackDepth)
    requires code[b].jump.Some? ==> VisitedAt(visited, initial, code[b].jump.value, stackDepth)
    requires forall i :: 0 <= i < |code[b].table| ==> VisitedAt(visited, initial, code[b].table[i], stackDepth)
    ensures Continued(code, visited, initial, uses, b)
  {
  }

  // ---------------------------------------------------------------- the whole check

  /** Every walk enters each block at the recorded depth. */
  lemma {:induction false} WalksMeasured(code: seq<Block>, visited: set<nat>, initial: seq<int>, enclosing: seq<Option<nat>>, uses: seq<Use>, maxDepth: int,
                                         b: nat, opens: seq<nat>, d: int, n: nat)
    requires Checked(code, visited, initial, enclosing, uses, maxDepth, {}) && VisitedAt(visited, initial, 0, 0) && Counted(code, uses)
    requires Walk(code, b, opens, d, n)
    ensures VisitedAt(visited, initial, b, d)
    decreases n
  {
    if n > 0 {
      var a: nat, opens0: seq<nat>, d0: int :| WalkStep(code, b, opens, d, n, a, opens0, d0);
      WalksMeasured(code, visited, initial, enclosing, uses, maxDepth, a, opens0, d0, n - 1);
      assert Continued(code, visited, initial, uses, a) && IsSuccessor(code[a], b);
    }
  }

  /** Entered at depth d with these catches open, block b never takes the stack below 0, below the level at
      which the innermost open catch was begun, or above max. */
  ghost predicate SafeIn(code: seq<Block>, initial: seq<int>, max: int, b: nat, opens: seq<nat>, d: int) {
    && b < |code| == |initial| && d == initial[b]
    && (forall i :: 0 <= i < |code[b].ops| ==> 0 <= d + Low(code[b].ops, i))
    && (forall i :: 0 <= i <= |code[b].ops| ==> d + Depth(code[b].ops, i) <= max)
    && (opens != [] ==> AboveCatch(code, initial, b, opens[|opens| - 1], d))
  }

  ghost predicate AboveCatch(code: seq<Block>, initial: seq<int>, b: nat, c: nat, d: int)
    requires b < |code| == |initial|
  {
    c < |code| && forall i :: 0 <= i < |code[b].ops| ==> initial[c] + Final(code[c]) <= d + Low(code[b].ops, i)
  }

  lemma WalksSafe(code: seq<Block>, visited: set<nat>, initial: seq<int>, enclosing: seq<Option<nat>>, depth: seq<int>, uses: seq<Use>, maxDepth: int,
                  b: nat, opens: seq<nat>, d: int, n: nat)
    requires Checked(code, visited, initial, enclosing, uses, maxDepth, {}) && VisitedAt(visited, initial, 0, 0) && Counted(code, uses)
    requires Analysed(code, enclosing, depth) && Walk(code, b, opens, d, n)
    ensures SafeIn(code, initial, maxDepth, b, opens, d)
  {
    WalksMeasured(code, visited, initial, enclosing, uses, maxDepth, b, opens, d, n);
    assert BlockSafe(visited, initial, enclosing, uses, maxDepth, b) && IsChain(enclosing, b, opens);
    assert Describes(code[b].ops, uses[b].min, uses[b].max, uses[b].final);
    if opens != [] {
      var c := opens[|opens| - 1];
      assert Describes(code[c].ops, uses[c].min, uses[c].max, uses[c].final);
    }
  }

  /** Code that passes is balanced. */
  lemma Balanced(code: seq<Block>, visited: set<nat>, initial: seq<int>, enclosing: seq<Option<nat>>, depth: seq<int>, uses: seq<Use>, maxDepth: int)
    requires Checked(code, visited, initial, enclosing, uses, maxDepth, {}) && VisitedAt(visited, initial, 0, 0) && Counted(code, uses)
    requires Analysed(code, enclosing, depth)
    requires |code| - 1 in visited ==> 0 <= initial[|code| - 1] + uses[|code| - 1].final <= 1
    ensures !Unbalanced(code)
  {
    forall b: nat, opens, d: int | Enters(code, b, opens, d) ensures VisitedAt(visited, initial, b, d) {
      var n: nat :| Walk(code, b, opens, d, n);
      WalksMeasured(code, visited, initial, enclosing, uses, maxDepth, b, opens, d, n);
    }
    forall b: nat, o, d: int, o2, d2: int ensures !Disagrees(code, b, o, d, o2, d2) {}
    forall b: nat, opens, d: int ensures !BadExit(code, b, opens, d) {
      if b + 1 == |code| && Enters(code, b, opens, d) { assert Describes(code[b].ops, uses[b].min, uses[b].max, uses[b].final); }
    }
    forall b: nat, opens, d: int ensures !Underflows(code, b, opens, d) {
      if b < |code| && Enters(code, b, opens, d) { NoUnderflow(code, visited, initial, enclosing, depth, uses, maxDepth, b, opens, d); }
    }
  }

  lemma NoUnderflow(code: seq<Block>, visited: set<nat>, initial: seq<int>, enclosing: seq<Option<nat>>, depth: seq<int>, uses: seq<Use>, maxDepth: int,
                    b: nat, opens: seq<nat>, d: int)
    requires Checked(code, visited, initial, enclosing, uses, maxDepth, {}) && VisitedAt(visited, initial, 0, 0) && Counted(code, uses)
    requires Analysed(code, enclosing, depth) && Enters(code, b, opens, d) && b < |code|
    ensures !Underflows(code, b, opens, d)
  {
    var n: nat :| Walk(code, b, opens, d, n);
    WalksMeasured(code, visited, initial, enclosing, uses, maxDepth, b, opens, d, n);
    assert BlockSafe(visited, initial, enclosing, uses, maxDepth, b) && IsChain(enclosing, b, opens);
    assert Describes(code[b].ops, uses[b].min, uses[b].max, uses[b].final);
    if opens != [] {
      var c := opens[|opens| - 1];
      assert Describes(code[c].ops, uses[c].min, uses[c].max, uses[c].final);
      forall o, dc: int ensures !SinksUnder(code, b, d, c, o, dc) {
        if c < |code| && Enters(code, c, o, dc) {
          var m: nat :| Walk(code, c, o, dc, m);
          WalksMeasured(code, visited, initial, enclosing, uses, maxDepth, c, o, dc, m);
        }
      }
    }
  }

  lemma LeftOver(code: seq<Block>, visited: set<nat>, initial: seq<int>, uses: seq<Use>)
    requires Measured(code, visited, initial) && Counted(code, uses) && |code| > 0 && |code| - 1 in visited
    requires initial[|code| - 1] + uses[|code| - 1].final != 0 && initial[|code| - 1] + uses[|code| - 1].final != 1
    ensures Unbalanced(code)
  {
    var b := |code| - 1;
    assert Describes(code[b].ops, uses[b].min, uses[b].max, uses[b].final);
    var o :| Enters(code, b, o, initial[b]);
    assert BadExit(code, b, o, initial[b]);
  }

  lemma CheckBegins(code: seq<Block>, visited: set<nat>, initial: seq<int>, enclosing: seq<Option<nat>>, uses: seq<Use>)
    requires visited == {} && |initial| == |code| == |enclosing| == |uses|
    ensures Arriving(code, visited, 0, [], 0) && Measured(code, visited, initial) && Checked(code, visited, initial, enclosing, uses, 0, {})
  {
    assert Walk(code, 0, [], 0, 0);
  }

  lemma AllSafe(code: seq<Block>, visited: set<nat>, initial: seq<int>, enclosing: seq<Option<nat>>, depth: seq<int>, uses: seq<Use>, maxDepth: int)
    requires Checked(code, visited, initial, enclosing, uses, maxDepth, {}) && VisitedAt(visited, initial, 0, 0) && Counted(code, uses)
    requires Analysed(code, enclosing, depth)
    ensures forall b: nat, opens: seq<nat>, d: int, n: nat :: Walk(code, b, opens, d, n) ==> SafeIn(code, initial, maxDepth, b, opens, d)
    ensures forall b: nat, opens: seq<nat>, d: int, n: nat :: Walk(code, b, opens, d, n) ==> VisitedAt(visited, initial, b, d) && Final(code[b]) == uses[b].final
  {
    forall b: nat, opens: seq<nat>, d: int, n: nat | Walk(code, b, opens, d, n)
      ensures SafeIn(code, initial, maxDepth, b, opens, d) && VisitedAt(visited, initial, b, d) && Final(code[b]) == uses[b].final
    {
      WalksSafe(code, visited, initial, enclosing, depth, uses, maxDepth, b, opens, d, n);
      WalksMeasured(code, visited, initial, enclosing, uses, maxDepth, b, opens, d, n);
      assert Describes(code[b].ops, uses[b].min, uses[b].max, uses[b].final);
    }
  }

  /** CheckStack() and StackCheckExit(), tclAssembly.c:3311-3353, 3537-3600. It fails exactly when some walk, or some
      pair of walks, shows a fault. pushed says that a null result is pushed at the end of the last block; it is
      pushed too late for the recorded maximum, which covers it only if an instruction raises the depth to 1 as well.
      (The "done" that ends the code raises the compiler's own maximum afterwards, tclAssembly.c:907.) */
  method CheckStack(an: StackAnalysis, ghost depth: seq<int>) returns (ok: bool, max: int, pushed: bool)
    requires Assembled(an.code) && Counted(an.code, an.uses) && Analysed(an.code, an.enclosing, depth)
    requires an.visited == {} && |an.initial| == |an.code| && |an.uses| == |an.enclosing| == |an.code|
    modifies an
    ensures ok <==> !Unbalanced(an.code)
    ensures ok ==> forall b: nat, opens: seq<nat>, d: int, n: nat :: Walk(an.code, b, opens, d, n) ==> SafeIn(an.code, an.initial, max, b, opens, d)
    ensures ok ==> Peak(an.code, max)
    ensures ok ==> forall b: nat, opens: seq<nat>, d: int, n: nat :: Walk(an.code, b, opens, d, n) && b == |an.code| - 1 ==>
      d + Final(an.code[b]) + (if pushed then 1 else 0) == 1
    ensures ok && pushed ==> (1 <= max <==> Rises(an.code))
  {
    hide Rises, Counted, Analysed, Checked, Arriving, Measured, Unbalanced, SafeIn;
    an.maxDepth := 0;
    pushed, max := false, 0;
    CheckBegins(an.code, an.visited, an.initial, an.enclosing, an.uses);
    ok := an.CheckBlock(0, 0, [], depth, {});
    if !ok { return; }
    max := an.maxDepth;
    Lengths(an.code, an.visited, an.initial, an.enclosing, an.uses, max, {});
    AllSafe(an.code, an.visited, an.initial, an.enclosing, depth, an.uses, max);
    var last := |an.code| - 1;
    if last in an.visited {
      var exit := an.uses[last].final + an.initial[last];
      if exit == 0 {
        pushed := true;
        exit := exit + 1;
      }
      ok := exit == 1;
      if !ok {
        LeftOver(an.code, an.visited, an.initial, an.uses);
        return;
      }
    }
    Balanced(an.code, an.visited, an.initial, an.enclosing, depth, an.uses, max);
    NullCovered(an.code, an.initial, max);
  }

  // ---------------------------------------------------------------- the null result

  /** Some walk comes to an instruction that raises the depth above 0. */
  ghost predicate Rises(code: seq<Block>) {
    exists b: nat, opens: seq<nat>, d: int, n: nat, i: nat :: RisesAt(code, b, opens, d, n, i)
  }

  ghost predicate RisesAt(code: seq<Block>, b: nat, opens: seq<nat>, d: int, n: nat, i: nat) {
    Walk(code, b, opens, d, n) && b < |code| && i < |code[b].ops| && d + Depth(code[b].ops, i) <= 0 < d + Depth(code[b].ops, i + 1)
  }

  /** Before the depth is above 0 at all, some instruction has raised it. */
  lemma {:induction false} RisenBefore(code: seq<Block>, b: nat, opens: seq<nat>, d: int, n: nat, i: nat)
    requires Walk(code, b, opens, d, n) && b < |code| && i <= |code[b].ops| && d + Depth(code[b].ops, i) > 0
    ensures Rises(code)
    decreases n, i
  {
    if i > 0 {
      if d + Depth(code[b].ops, i - 1) > 0 {
        RisenBefore(code, b, opens, d, n, i - 1);
      } else {
        assert RisesAt(code, b, opens, d, n, i - 1);
      }
    } else if n > 0 {
      var a: nat, opens0: seq<nat>, d0: int :| WalkStep(code, b, opens, d, n, a, opens0, d0);
      RisenBefore(code, a, opens0, d0, n - 1, |code[a].ops|);
    }
  }

  /** The recorded maximum covers the null result, at depth 1, if and only if some instruction raises the depth
      above 0. */
  lemma NullCovered(code: seq<Block>, initial: seq<int>, max: int)
    requires Peak(code, max) && |code| > 0
    requires forall b: nat, opens: seq<nat>, d: int, n: nat :: Walk(code, b, opens, d, n) ==> SafeIn(code, initial, max, b, opens, d)
    ensures 1 <= max <==> Rises(code)
  {
    if 1 <= max {
      var b: nat, opens: seq<nat>, d: int, n: nat, i: nat :| PeakAt(code, max, b, opens, d, n, i);
      RisenBefore(code, b, opens, d, n, i);
    }
    if Rises(code) {
      var b: nat, opens: seq<nat>, d: int, n: nat, i: nat :| RisesAt(code, b, opens, d, n, i);
      assert SafeIn(code, initial, max, b, opens, d);
    }
  }

  /** It does not for code without instructions. */
  lemma NullNotCounted(code: seq<Block>)
    requires code == [Block([], None, None, [], false, false)]
    ensures Assembled(code) && !Rises(code)
  {
    forall b: nat, opens: seq<nat>, d: int, n: nat, i: nat ensures !RisesAt(code, b, opens, d, n, i) {}
  }
}
