/** Basic blocks of the bytecode assembler (tclAssembly.c:60-126) and the walks control can take through
    them, each with the catches left open and the stack depth reached. */
module Blocks {
  import opened Options

  /** How many operands an instruction consumes and then produces. */
  datatype Effect = Effect(consumed: nat, produced: nat)

  /** A block: what its instructions do to the stack, the next block if control may fall through to it, the
      jump target (the exception exit of a beginCatch), the targets of a jump table. Block 0 is the first. */
  datatype Block = Block(ops: seq<Effect>, fall: Option<nat>, jump: Option<nat>, table: seq<nat>, beginCatch: bool, endCatch: bool)

  /** Blocks as the assembler makes them: labels resolved; a beginCatch or an endCatch ends its block, falls
      through, and comes without a jump table, an endCatch without a jump (tclAssembly.c:1321-1341, 1447-1455). */
  ghost predicate Assembled(code: seq<Block>) {
    && |code| > 0
    && forall b :: 0 <= b < |code| ==>
      && (code[b].fall.Some? ==> code[b].fall.value < |code|)
      && (code[b].jump.Some? ==> code[b].jump.value < |code|)
      && (forall i :: 0 <= i < |code[b].table| ==> code[b].table[i] < |code|)
      && (code[b].beginCatch ==> !code[b].endCatch && code[b].table == [])
      && (code[b].endCatch ==> code[b].jump.None? && code[b].table == [])
  }

  // ---------------------------------------------------------------- stack use of one block

  /** The depth, relative to the entry, before instruction i. */
  function Depth(ops: seq<Effect>, i: nat): int
    requires i <= |ops|
  {
    if i == 0 then 0 else Depth(ops, i - 1) - ops[i - 1].consumed + ops[i - 1].produced
  }

  /** The lowest point of instruction i: its operands are gone, its results not yet there. */
  function Low(ops: seq<Effect>, i: nat): int
    requires i < |ops|
  {
    Depth(ops, i) - ops[i].consumed
  }

  /** min, max and final describe the instructions: every depth lies between min and max, both of which
      are reached or 0, and final is where it ends. */
  ghost predicate Describes(ops: seq<Effect>, min: int, max: int, final: int) {
    && final == Depth(ops, |ops|) && min <= 0 <= max
    && (forall i :: 0 <= i < |ops| ==> min <= Low(ops, i)) && (forall i :: 0 <= i <= |ops| ==> Depth(ops, i) <= max)
    && (min == 0 || exists i :: 0 <= i < |ops| && Low(ops, i) == min)
    && (max == 0 || exists i :: 0 <= i <= |ops| && Depth(ops, i) == max)
  }

  lemma {:induction false} DepthPrefix(ops: seq<Effect>, e: Effect, i: nat)
    requires i <= |ops|
    ensures Depth(ops + [e], i) == Depth(ops, i)
    ensures i < |ops| ==> Low(ops + [e], i) == Low(ops, i)
    decreases i
  {
    if i > 0 { DepthPrefix(ops, e, i - 1); }
  }

  /** The three counters of a block while instructions are emitted into it. */
  class StackUse {
    var min: int
    var max: int
    var final: int
    ghost var ops: seq<Effect>

    ghost predicate Valid()
      reads this
    {
      Describes(ops, min, max, final)
    }

    constructor ()
      ensures Valid() && ops == []
    {
      min, max, final, ops := 0, 0, 0, [];
    }

    /** BBAdjustStackDepth(), tclAssembly.c:570-589. */
    method Adjust(consumed: nat, produced: nat)
      requires Valid()
      modifies this
      ensures Valid() && ops == old(ops) + [Effect(consumed, produced)]
    {
      ghost var e := Effect(consumed, produced);
      ghost var was := ops;
      forall i | 0 <= i <= |was| ensures Depth(was + [e], i) == Depth(was, i) && (i < |was| ==> Low(was + [e], i) == Low(was, i)) {
        DepthPrefix(was, e, i);
      }
      var depth := final;
      depth := depth - consumed;
      assert depth == Low(was + [e], |was|);
      if depth < min { min := depth; }
      depth := depth + produced;
      assert depth == Depth(was + [e], |was| + 1);
      if depth > max { max := depth; }
      final := depth;
      ops := was + [e];
      MinReached(was, e, min);
      MaxReached(was, e, max);
    }
  }

  lemma MinReached(ops: seq<Effect>, e: Effect, min: int)
    ensures (exists i :: 0 <= i < |ops| && Low(ops, i) == min) || Low(ops + [e], |ops|) == min ==>
      exists i :: 0 <= i < |ops + [e]| && Low(ops + [e], i) == min
  {
    if i :| 0 <= i < |ops| && Low(ops, i) == min {
      DepthPrefix(ops, e, i);
      assert Low(ops + [e], i) == min;
    }
  }

  lemma MaxReached(ops: seq<Effect>, e: Effect, max: int)
    ensures (exists i :: 0 <= i <= |ops| && Depth(ops, i) == max) || Depth(ops + [e], |ops| + 1) == max ==>
      exists i :: 0 <= i <= |ops + [e]| && Depth(ops + [e], i) == max
  {
    if i :| 0 <= i <= |ops| && Depth(ops, i) == max {
      DepthPrefix(ops, e, i);
      assert Depth(ops + [e], i) == max;
    }
  }

  // ---------------------------------------------------------------- walks

  /** The open catches, outermost first, after falling through from block a. */
  function FallOpens(blk: Block, a: nat, opens: seq<nat>): seq<nat> {
    if blk.beginCatch then opens + [a]
    else if blk.endCatch then (if opens == [] then [] else opens[..|opens| - 1])
    else opens
  }

  /** The same after a jump: the exception exit of a beginCatch is reached with the catch still open. */
  function JumpOpens(blk: Block, a: nat, opens: seq<nat>): seq<nat> {
    if blk.beginCatch then opens + [a] else opens
  }

  /** Control may pass from block a to block b, the open catches changing from opens to opens2. */
  ghost predicate Passes(code: seq<Block>, a: nat, b: nat, opens: seq<nat>, opens2: seq<nat>) {
    && a < |code|
    && ((code[a].fall == Some(b) && opens2 == FallOpens(code[a], a, opens))
        || ((code[a].jump == Some(b) || b in code[a].table) && opens2 == JumpOpens(code[a], a, opens)))
  }

  function Final(blk: Block): int { Depth(blk.ops, |blk.ops|) }

  /** A walk of n steps from block 0 enters block b with these catches open and at this stack depth. */
  ghost predicate Walk(code: seq<Block>, b: nat, opens: seq<nat>, depth: int, n: nat)
    decreases n
  {
    if n == 0 then b == 0 && opens == [] && depth == 0
    else exists a: nat, opens0: seq<nat>, depth0: int :: WalkStep(code, b, opens, depth, n, a, opens0, depth0)
  }

  ghost predicate WalkStep(code: seq<Block>, b: nat, opens: seq<nat>, depth: int, n: nat, a: nat, opens0: seq<nat>, depth0: int)
    requires n > 0
    decreases n, 0
  {
    Walk(code, a, opens0, depth0, n - 1) && Passes(code, a, b, opens0, opens) && depth == depth0 + Final(code[a])
  }

  lemma WalkOn(code: seq<Block>, a: nat, opens0: seq<nat>, depth0: int, n: nat, b: nat, opens: seq<nat>)
    requires Walk(code, a, opens0, depth0, n) && Passes(code, a, b, opens0, opens)
    ensures Walk(code, b, opens, depth0 + Final(code[a]), n + 1)
  {
    assert WalkStep(code, b, opens, depth0 + Final(code[a]), n + 1, a, opens0, depth0);
  }
}
