/** The catch analysis of the assembler, tclAssembly.c:3619-3872. */
module Catches {
  import opened Options
  import opened Blocks

  /** BBCS_UNKNOWN, BBCS_NONE, BBCS_INCATCH, BBCS_CAUGHT (tclAssembly.c:49-56). */
  const UNKNOWN: nat := 0
  const NONE: nat := 1
  const INCATCH: nat := 2
  const CAUGHT: nat := 3

  /** s is the chain of enclosing catches of block b, outermost first. */
  ghost predicate IsChain(enclosing: seq<Option<nat>>, b: nat, s: seq<nat>)
    decreases |s|
  {
    && b < |enclosing|
    && if s == [] then enclosing[b] == None
       else enclosing[b] == Some(s[|s| - 1]) && IsChain(enclosing, s[|s| - 1], s[..|s| - 1])
  }

  /** The chain that enclosing catch c puts a block on. */
  ghost function ChainOf(stacks: seq<seq<nat>>, c: Option<nat>): seq<nat>
    requires c.Some? ==> c.value < |stacks|
  {
    if c.None? then [] else stacks[c.value] + [c.value]
  }

  /** What one visited block looks like: its chain is that of its enclosing catch plus that catch, its depth
      the chain's length, and it is outside all catches exactly when its state says so. */
  ghost predicate BlockOk(state: seq<nat>, enclosing: seq<Option<nat>>, depth: seq<int>, stacks: seq<seq<nat>>, b: nat)
    requires b < |state| == |enclosing| == |depth| == |stacks|
  {
    && (enclosing[b].Some? ==> enclosing[b].value < |state| && state[enclosing[b].value] > UNKNOWN)
    && stacks[b] == ChainOf(stacks, enclosing[b]) && depth[b] == |stacks[b]|
    && (state[b] == NONE <==> stacks[b] == [])
  }

  /** Every successor of b has been visited, with the chain a walk through b gives it. */
  ghost predicate Followed(code: seq<Block>, state: seq<nat>, stacks: seq<seq<nat>>, b: nat)
    requires b < |code| == |state| == |stacks|
  {
    && (code[b].endCatch ==> stacks[b] != [])
    && forall y: nat, s: seq<nat> :: Passes(code, b, y, stacks[b], s) ==> y < |code| && state[y] > UNKNOWN && stacks[y] == s
  }

  predicate AllKnown(state: seq<nat>) {
    forall b :: 0 <= b < |state| ==> state[b] <= CAUGHT
  }

  /** The state of the analysis: the blocks in open are being processed. */
  ghost predicate Consistent(code: seq<Block>, state: seq<nat>, enclosing: seq<Option<nat>>, depth: seq<int>, stacks: seq<seq<nat>>, open: set<nat>) {
    && |code| == |state| == |enclosing| == |depth| == |stacks|
    && AllKnown(state)
    && (forall b :: 0 <= b < |code| && state[b] > UNKNOWN ==> BlockOk(state, enclosing, depth, stacks, b))
    && (forall b :: 0 <= b < |code| && state[b] > UNKNOWN && b !in open ==> Followed(code, state, stacks, b))
  }

  /** Blocks stay visited, and keep their chains. */
  ghost predicate Later(state: seq<nat>, stacks: seq<seq<nat>>, enclosing: seq<Option<nat>>, state2: seq<nat>, stacks2: seq<seq<nat>>, enclosing2: seq<Option<nat>>) {
    && |state| == |state2| == |stacks| == |stacks2| == |enclosing| == |enclosing2|
    && forall b :: 0 <= b < |state| && state[b] > UNKNOWN ==> state2[b] >= state[b] && stacks2[b] == stacks[b] && enclosing2[b] == enclosing[b]
  }

  /** How far the states can still rise. */
  function Room(state: seq<nat>): nat {
    if state == [] then 0 else Room(state[..|state| - 1]) + if state[|state| - 1] <= CAUGHT then CAUGHT - state[|state| - 1] else 0
  }

  lemma {:induction false} RoomShrinks(state: seq<nat>, b: nat, v: nat)
    requires b < |state| && state[b] < v <= CAUGHT
    ensures Room(state[b := v]) < Room(state)
    decreases |state|
  {
    var n := |state| - 1;
    if b < n {
      RoomShrinks(state[..n], b, v);
      assert state[b := v][..n] == state[..n][b := v];
    } else {
      assert state[b := v][..n] == state[..n];
    }
  }

  /** A visited block's stack is its chain. */
  lemma {:induction false} StackIsChain(code: seq<Block>, state: seq<nat>, enclosing: seq<Option<nat>>, depth: seq<int>, stacks: seq<seq<nat>>, open: set<nat>, b: nat)
    requires Consistent(code, state, enclosing, depth, stacks, open) && b < |code| && state[b] > UNKNOWN
    ensures IsChain(enclosing, b, stacks[b])
    decreases |stacks[b]|
  {
    assert BlockOk(state, enclosing, depth, stacks, b);
    if enclosing[b].Some? {
      var c := enclosing[b].value;
      StackIsChain(code, state, enclosing, depth, stacks, open, c);
      assert stacks[b][..|stacks[b]| - 1] == stacks[c];
    }
  }

  /** What a successor is to be visited with. */
  ghost predicate Fitting(state: seq<nat>, stacks: seq<seq<nat>>, encl: Option<nat>, st: nat, depth: int, s: seq<nat>) {
    && |state| == |stacks| && (encl.Some? ==> encl.value < |state| && state[encl.value] > UNKNOWN)
    && s == ChainOf(stacks, encl) && depth == |s| && UNKNOWN < st <= CAUGHT && (st == NONE <==> s == [])
  }

  /** Block b is to be given (st, encl): it is new or has this enclosing catch already, in a lower state. */
  ghost predicate Enterable(code: seq<Block>, state: seq<nat>, enclosing: seq<Option<nat>>, depth: seq<int>, stacks: seq<seq<nat>>, open: set<nat>,
                            b: nat, encl: Option<nat>, st: nat, d: int, s: seq<nat>) {
    && Consistent(code, state, enclosing, depth, stacks, open) && b < |code| && state[b] < st
    && (state[b] > UNKNOWN ==> enclosing[b] == encl) && Fitting(state, stacks, encl, st, d, s)
  }

  lemma NotItself(code: seq<Block>, state: seq<nat>, enclosing: seq<Option<nat>>, depth: seq<int>, stacks: seq<seq<nat>>, open: set<nat>,
                  b: nat, encl: Option<nat>, st: nat, d: int, s: seq<nat>)
    requires Enterable(code, state, enclosing, depth, stacks, open, b, encl, st, d, s)
    ensures encl != Some(b) && (state[b] > UNKNOWN ==> stacks[b] == s)
  {
    if state[b] > UNKNOWN {
      assert BlockOk(state, enclosing, depth, stacks, b);
      assert |ChainOf(stacks, encl)| == |stacks[b]|;
    }
  }

  lemma EnteringOk(state: seq<nat>, enclosing: seq<Option<nat>>, depth: seq<int>, stacks: seq<seq<nat>>,
                   b: nat, encl: Option<nat>, st: nat, d: int, s: seq<nat>, x: nat)
    requires b < |state| && x < |state| == |enclosing| == |depth| == |stacks| && Fitting(state, stacks, encl, st, d, s)
    requires encl != Some(b) && (state[b] > UNKNOWN ==> stacks[b] == s) && (x == b || BlockOk(state, enclosing, depth, stacks, x))
    ensures BlockOk(state[b := st], enclosing[b := encl], depth[b := d], stacks[b := s], x)
  {
  }

  lemma EnteringFollowed(code: seq<Block>, state: seq<nat>, enclosing: seq<Option<nat>>, depth: seq<int>, stacks: seq<seq<nat>>, open: set<nat>,
                         b: nat, encl: Option<nat>, st: nat, d: int, s: seq<nat>, x: nat)
    requires Enterable(code, state, enclosing, depth, stacks, open, b, encl, st, d, s) && x < |code| && x != b && state[x] > UNKNOWN && x !in open
    ensures Followed(code, state[b := st], stacks[b := s], x)
  {
    NotItself(code, state, enclosing, depth, stacks, open, b, encl, st, d, s);
    assert Followed(code, state, stacks, x);
    hide Consistent;
    forall y: nat, t: seq<nat> | Passes(code, x, y, stacks[x], t)
      ensures y < |code| && state[b := st][y] > UNKNOWN && stacks[b := s][y] == t
    {
      hide Passes;
    }
  }

  lemma EnteringLater(code: seq<Block>, state: seq<nat>, enclosing: seq<Option<nat>>, depth: seq<int>, stacks: seq<seq<nat>>, open: set<nat>,
                      b: nat, encl: Option<nat>, st: nat, d: int, s: seq<nat>)
    requires Enterable(code, state, enclosing, depth, stacks, open, b, encl, st, d, s)
    ensures |code| == |state| == |enclosing| == |depth| == |stacks| && AllKnown(state[b := st])
    ensures Later(state, stacks, enclosing, state[b := st], stacks[b := s], enclosing[b := encl])
  {
    NotItself(code, state, enclosing, depth, stacks, open, b, encl, st, d, s);
  }

  /** Raising the state of a block, or entering one for the first time. */
  lemma Entering(code: seq<Block>, state: seq<nat>, enclosing: seq<Option<nat>>, depth: seq<int>, stacks: seq<seq<nat>>, open: set<nat>,
                 b: nat, encl: Option<nat>, st: nat, d: int, s: seq<nat>)
    requires Enterable(code, state, enclosing, depth, stacks, open, b, encl, st, d, s)
    ensures Consistent(code, state[b := st], enclosing[b := encl], depth[b := d], stacks[b := s], open + {b})
    ensures Later(state, stacks, enclosing, state[b := st], stacks[b := s], enclosing[b := encl])
  {
    EnteringLater(code, state, enclosing, depth, stacks, open, b, encl, st, d, s);
    NotItself(code, state, enclosing, depth, stacks, open, b, encl, st, d, s);
    hide Followed, BlockOk, Later, Fitting;
    var state2, enclosing2, depth2, stacks2 := state[b := st], enclosing[b := encl], depth[b := d], stacks[b := s];
    forall x | 0 <= x < |code| && state2[x] > UNKNOWN ensures BlockOk(state2, enclosing2, depth2, stacks2, x) {
      EnteringOk(state, enclosing, depth, stacks, b, encl, st, d, s, x);
    }
    forall x | 0 <= x < |code| && state2[x] > UNKNOWN && x !in open + {b} ensures Followed(code, state2, stacks2, x) {
      EnteringFollowed(code, state, enclosing, depth, stacks, open, b, encl, st, d, s, x);
    }
  }

  /** Once every successor of b has been visited, b is no longer open. */
  lemma Leaving(code: seq<Block>, state: seq<nat>, enclosing: seq<Option<nat>>, depth: seq<int>, stacks: seq<seq<nat>>, open: set<nat>, b: nat)
    requires Consistent(code, state, enclosing, depth, stacks, open + {b}) && b < |code| && Followed(code, state, stacks, b)
    ensures Consistent(code, state, enclosing, depth, stacks, open)
  {
  }

  lemma LaterTrans(state: seq<nat>, stacks: seq<seq<nat>>, enclosing: seq<Option<nat>>, state2: seq<nat>, stacks2: seq<seq<nat>>, enclosing2: seq<Option<nat>>,
                   state3: seq<nat>, stacks3: seq<seq<nat>>, enclosing3: seq<Option<nat>>)
    requires Later(state, stacks, enclosing, state2, stacks2, enclosing2) && Later(state2, stacks2, enclosing2, state3, stacks3, enclosing3)
    ensures Later(state, stacks, enclosing, state3, stacks3, enclosing3)
  {
  }

  /** y has been visited, on this chain. */
  ghost predicate Reached(state: seq<nat>, stacks: seq<seq<nat>>, y: nat, s: seq<nat>) {
    y < |state| == |stacks| && state[y] > UNKNOWN && stacks[y] == s
  }

  // ---------------------------------------------------------------- what is wrong with code that is rejected

  /** Some walk enters b with these catches open. */
  ghost predicate Came(code: seq<Block>, b: nat, s: seq<nat>) {
    exists at: int, n: nat :: Walk(code, b, s, at, n)
  }

  /** Every visited block has been walked into, with its chain open. */
  ghost predicate Trodden(code: seq<Block>, state: seq<nat>, stacks: seq<seq<nat>>) {
    |code| == |state| == |stacks| && forall b :: 0 <= b < |code| && state[b] > UNKNOWN ==> Came(code, b, stacks[b])
  }

  /** Two walks enter a block with different catches open; or an endCatch is reached with none open; or the end of
      the code with some. */
  ghost predicate Faulty(code: seq<Block>) {
    || (exists b: nat, s, t :: Came(code, b, s) && Came(code, b, t) && s != t)
    || (exists b: nat :: b < |code| && code[b].endCatch && Came(code, b, []))
    || (|code| > 0 && exists s :: CameLast(code, s) && s != [])
  }

  ghost predicate CameLast(code: seq<Block>, s: seq<nat>)
    requires |code| > 0
  {
    Came(code, |code| - 1, s)
  }

  lemma CameNext(code: seq<Block>, b: nat, s: seq<nat>, y: nat, s2: seq<nat>)
    requires Came(code, b, s) && Passes(code, b, y, s, s2)
    ensures Came(code, y, s2)
  {
    var at: int, n: nat :| Walk(code, b, s, at, n);
    WalkOn(code, b, s, at, n, y, s2);
  }

  lemma Inconsistent(code: seq<Block>, state: seq<nat>, enclosing: seq<Option<nat>>, depth: seq<int>, stacks: seq<seq<nat>>, open: set<nat>, b: nat, encl: Option<nat>)
    requires Consistent(code, state, enclosing, depth, stacks, open) && Trodden(code, state, stacks) && b < |code| && state[b] > UNKNOWN && enclosing[b] != encl
    requires (encl.Some? ==> encl.value < |stacks|) && Came(code, b, ChainOf(stacks, encl))
    ensures Faulty(code)
  {
    assert BlockOk(state, enclosing, depth, stacks, b) && Came(code, b, stacks[b]);
    var s := ChainOf(stacks, encl);
    assert s != stacks[b] by {
      if s != [] && stacks[b] != [] { assert s[|s| - 1] == encl.value && stacks[b][|stacks[b]| - 1] == enclosing[b].value; }
    }
  }

  lemma NotBegun(code: seq<Block>, b: nat)
    requires b < |code| && code[b].endCatch && Came(code, b, [])
    ensures Faulty(code)
  {
  }

  lemma TroddenNow(code: seq<Block>, state: seq<nat>, stacks: seq<seq<nat>>, b: nat, st: nat, s: seq<nat>)
    requires Trodden(code, state, stacks) && b < |code| && Came(code, b, s)
    ensures Trodden(code, state[b := st], stacks[b := s])
  {
  }

  class CatchAnalysis {
    const code: seq<Block>
    var catchState: seq<nat>
    var enclosing: seq<Option<nat>>
    var catchDepth: seq<int>
    ghost var stacks: seq<seq<nat>>

    constructor (code: seq<Block>)
      ensures this.code == code && |catchState| == |enclosing| == |catchDepth| == |stacks| == |code|
    {
      this.code := code;
      catchState := seq(|code|, _ => UNKNOWN);
      enclosing := seq(|code|, _ => None);
      catchDepth := seq(|code|, _ => 0);
      stacks := seq(|code|, _ => []);
    }

    ghost predicate Sound(open: set<nat>)
      reads this
    {
      Assembled(code) && Consistent(code, catchState, enclosing, catchDepth, stacks, open)
    }

    /** Update the state of the block (tclAssembly.c:3724-3749); changed says whether its successors
        need to be looked at. */
    method EnterBlock(b: nat, encl: Option<nat>, state: nat, depth: int, ghost open: set<nat>) returns (ok: bool, changed: bool)
      requires Sound(open) && b < |code| && (encl.Some? ==> encl.value < |stacks|)
      requires Fitting(catchState, stacks, encl, state, depth, ChainOf(stacks, encl))
      requires Trodden(code, catchState, stacks) && Came(code, b, ChainOf(stacks, encl))
      modifies this`catchState, this`enclosing, this`catchDepth, this`stacks
      ensures if ok then Trodden(code, catchState, stacks) else Faulty(code)
      ensures ok ==> Later(old(catchState), old(stacks), old(enclosing), catchState, stacks, enclosing)
      ensures ok ==> Reached(catchState, stacks, b, old(ChainOf(stacks, encl))) && enclosing[b] == encl
      ensures ok ==> if changed then Sound(open + {b}) && catchState[b] == state && Room(catchState) < old(Room(catchState)) else Sound(open)
      ensures !ok || !changed ==> Room(catchState) == old(Room(catchState))
    {
      hide Trodden, Came, Faulty;
      ok, changed := false, false;
      ghost var s, enclosing0 := ChainOf(stacks, encl), enclosing;
      if catchState[b] == UNKNOWN {
        enclosing := enclosing[b := encl];
      } else if enclosing[b] != encl {
        Inconsistent(code, catchState, enclosing, catchDepth, stacks, open, b, encl);
        return;
      }
      ok := true;
      if state > catchState[b] {
        Entering(code, catchState, enclosing0, catchDepth, stacks, open, b, encl, state, depth, s);
        RoomShrinks(catchState, b, state);
        TroddenNow(code, catchState, stacks, b, state, s);
        assert enclosing == enclosing0[b := encl];
        stacks := stacks[b := s];
        catchState := catchState[b := state];
        changed := true;
        catchDepth := catchDepth[b := depth];
      } else {
        assert BlockOk(catchState, enclosing, catchDepth, stacks, b);
      }
    }

    /** The exception context of the successors (tclAssembly.c:3756-3798). */
    method Contexts(b: nat, encl: Option<nat>, state: nat, depth: int, ghost open: set<nat>)
      returns (ok: bool, fallEncl: Option<nat>, fallState: nat, jumpEncl: Option<nat>, jumpState: nat, d: int)
      requires Sound(open) && b < |code| && catchState[b] == state && enclosing[b] == encl
      requires Fitting(catchState, stacks, encl, state, depth, stacks[b]) && Came(code, b, stacks[b])
      ensures !ok ==> Faulty(code)
      ensures ok ==> (code[b].endCatch ==> stacks[b] != [])
      ensures ok && code[b].fall.Some? ==> Fitting(catchState, stacks, fallEncl, fallState, d, FallOpens(code[b], b, stacks[b]))
      ensures ok && !code[b].endCatch ==> Fitting(catchState, stacks, jumpEncl, jumpState, d, JumpOpens(code[b], b, stacks[b]))
    {
      hide Came, Faulty;
      fallEncl, fallState, jumpEncl, jumpState, d := encl, state, encl, state, depth;
      if code[b].beginCatch {
        fallEncl, fallState, jumpEncl, jumpState := Some(b), INCATCH, Some(b), CAUGHT;
        d := d + 1;
      }
      if code[b].endCatch {
        if encl.None? {
          NotBegun(code, b);
          ok := false;
          return;
        }
        ghost var c := encl.value;
        assert BlockOk(catchState, enclosing, catchDepth, stacks, c);
        assert stacks[b][..|stacks[b]| - 1] == stacks[c];
        fallEncl, fallState := enclosing[encl.value], catchState[encl.value];
        d := d - 1;
      }
      ok := true;
    }

    /** ProcessCatchesInBasicBlock(), tclAssembly.c:3687-3835. */
    method ProcessBlock(b: nat, encl: Option<nat>, state: nat, depth: int, ghost open: set<nat>, ghost s: seq<nat>) returns (ok: bool)
      requires Sound(open) && b < |code| && Fitting(catchState, stacks, encl, state, depth, s)
      requires Trodden(code, catchState, stacks) && Came(code, b, s)
      modifies this`catchState, this`enclosing, this`catchDepth, this`stacks
      ensures if ok then Trodden(code, catchState, stacks) else Faulty(code)
      ensures ok ==> Sound(open) && Reached(catchState, stacks, b, s)
      ensures ok ==> Later(old(catchState), old(stacks), old(enclosing), catchState, stacks, enclosing)
      ensures Room(catchState) <= old(Room(catchState))
      decreases Room(catchState), 0
    {
      hide Consistent, Later, Fitting, Reached, Followed, Room, Trodden, Came, Faulty;
      FittingChain(catchState, stacks, encl, state, depth, s);
      var changed;
      ok, changed := EnterBlock(b, encl, state, depth, open);
      if !ok || !changed { return; }
      ghost var state1, stacks1, enclosing1 := catchState, stacks, enclosing;
      StillFits(old(catchState), old(stacks), old(enclosing), state1, stacks1, enclosing1, encl, state, depth, s);
      ReachedStack(state1, stacks1, b, s);
      Bounded(code, catchState, enclosing, catchDepth, stacks, open + {b}, b);
      ok := ProcessSuccessors(b, encl, state, depth, open);
      if ok {
        StillReached(state1, stacks1, enclosing1, catchState, stacks, enclosing, b, s);
        LaterTrans(old(catchState), old(stacks), old(enclosing), state1, stacks1, enclosing1, catchState, stacks, enclosing);
      }
    }

    /** Visit the successors with their contexts (tclAssembly.c:3799-3835). */
    method ProcessSuccessors(b: nat, encl: Option<nat>, state: nat, depth: int, ghost open: set<nat>) returns (ok: bool)
      requires Sound(open + {b}) && b < |code| && b < |catchState| == |enclosing| == |stacks| && catchState[b] == state && enclosing[b] == encl
      requires Fitting(catchState, stacks, encl, state, depth, stacks[b])
      requires Trodden(code, catchState, stacks) && Came(code, b, stacks[b])
      modifies this`catchState, this`enclosing, this`catchDepth, this`stacks
      ensures if ok then Trodden(code, catchState, stacks) else Faulty(code)
      ensures ok ==> Sound(open) && Later(old(catchState), old(stacks), old(enclosing), catchState, stacks, enclosing)
      ensures Room(catchState) <= old(Room(catchState))
      decreases Room(catchState), 3
    {
      ghost var state0, stacks0, enclosing0 := catchState, stacks, enclosing;
      ghost var s := stacks[b];
      ghost var open2 := open + {b};
      Bounded(code, catchState, enclosing, catchDepth, stacks, open2, b);
      hide Consistent, Later, Fitting, Reached, Followed, Room, FallOpens, JumpOpens, Trodden, Came, Faulty;
      var fallEncl, fallState, jumpEncl, jumpState, d;
      ok, fallEncl, fallState, jumpEncl, jumpState, d := Contexts(b, encl, state, depth, open2);
      if !ok { return; }
      LaterRefl(catchState, stacks, enclosing);
      if code[b].fall.Some? {
        CameNext(code, b, s, code[b].fall.value, FallOpens(code[b], b, s));
        ok := ProcessBlock(code[b].fall.value, fallEncl, fallState, d, open2, FallOpens(code[b], b, s));
        if !ok { return; }
      }
      ghost var state1, stacks1, enclosing1 := catchState, stacks, enclosing;
      if code[b].endCatch {
        FollowedEnd(code, catchState, stacks, b, s);
      } else {
        StillFits(state0, stacks0, enclosing0, state1, stacks1, enclosing1, jumpEncl, jumpState, d, JumpOpens(code[b], b, s));
        ok := ProcessJumps(b, jumpEncl, jumpState, d, open2, s);
        if !ok { return; }
        if code[b].fall.Some? {
          StillReached(state1, stacks1, enclosing1, catchState, stacks, enclosing, code[b].fall.value, FallOpens(code[b], b, s));
        }
        LaterTrans(state0, stacks0, enclosing0, state1, stacks1, enclosing1, catchState, stacks, enclosing);
      }
      FollowedNow(code, state0, stacks0, enclosing0, catchState, stacks, enclosing, b, s);
      Leaving(code, catchState, enclosing, catchDepth, stacks, open, b);
    }

    /** Visit the jump target and the targets of the jump table. */
    method ProcessJumps(b: nat, encl: Option<nat>, state: nat, depth: int, ghost open: set<nat>, ghost s: seq<nat>) returns (ok: bool)
      requires Sound(open) && b < |code| && Fitting(catchState, stacks, encl, state, depth, JumpOpens(code[b], b, s))
      requires Trodden(code, catchState, stacks) && Came(code, b, s)
      modifies this`catchState, this`enclosing, this`catchDepth, this`stacks
      ensures if ok then Trodden(code, catchState, stacks) else Faulty(code)
      ensures ok ==> Sound(open) && Later(old(catchState), old(stacks), old(enclosing), catchState, stacks, enclosing)
      ensures ok && code[b].jump.Some? ==> Reached(catchState, stacks, code[b].jump.value, JumpOpens(code[b], b, s))
      ensures ok ==> forall i :: 0 <= i < |code[b].table| ==> Reached(catchState, stacks, code[b].table[i], JumpOpens(code[b], b, s))
      ensures Room(catchState) <= old(Room(catchState))
      decreases Room(catchState), 2
    {
      hide Consistent, Later, Fitting, Reached, Followed, Room, JumpOpens, Trodden, Came, Faulty;
      ghost var state0, stacks0, enclosing0 := catchState, stacks, enclosing;
      ghost var target := JumpOpens(code[b], b, s);
      Bounded(code, catchState, enclosing, catchDepth, stacks, open, b);
      LaterRefl(catchState, stacks, enclosing);
      ok := true;
      if code[b].jump.Some? {
        CameNext(code, b, s, code[b].jump.value, target);
        ok := ProcessBlock(code[b].jump.value, encl, state, depth, open, target);
        if !ok { return; }
      }
      var i := 0;
      while i < |code[b].table|
        invariant 0 <= i <= |code[b].table| && ok && Sound(open) && Trodden(code, catchState, stacks)
        invariant Later(state0, stacks0, enclosing0, catchState, stacks, enclosing) && Room(catchState) <= Room(state0)
        invariant code[b].jump.Some? ==> Reached(catchState, stacks, code[b].jump.value, target)
        invariant forall j :: 0 <= j < i ==> Reached(catchState, stacks, code[b].table[j], target)
      {
        StillFits(state0, stacks0, enclosing0, catchState, stacks, enclosing, encl, state, depth, target);
        ghost var state1, stacks1, enclosing1 := catchState, stacks, enclosing;
        CameNext(code, b, s, code[b].table[i], target);
        ok := ProcessBlock(code[b].table[i], encl, state, depth, open, target);
        if !ok { return; }
        LaterTrans(state0, stacks0, enclosing0, state1, stacks1, enclosing1, catchState, stacks, enclosing);
        forall y | Reached(state1, stacks1, y, target) ensures Reached(catchState, stacks, y, target) {
          StillReached(state1, stacks1, enclosing1, catchState, stacks, enclosing, y, target);
        }
        i := i + 1;
      }
    }
  }

  lemma FittingChain(state: seq<nat>, stacks: seq<seq<nat>>, encl: Option<nat>, st: nat, depth: int, s: seq<nat>)
    requires Fitting(state, stacks, encl, st, depth, s)
    ensures encl.Some? ==> encl.value < |stacks|
    ensures s == ChainOf(stacks, encl)
  {
  }

  lemma ReachedStack(state: seq<nat>, stacks: seq<seq<nat>>, y: nat, s: seq<nat>)
    requires Reached(state, stacks, y, s)
    ensures y < |state| == |stacks| && stacks[y] == s
  {
  }

  lemma StillFits(state: seq<nat>, stacks: seq<seq<nat>>, enclosing: seq<Option<nat>>, state2: seq<nat>, stacks2: seq<seq<nat>>, enclosing2: seq<Option<nat>>,
                  encl: Option<nat>, st: nat, depth: int, s: seq<nat>)
    requires Later(state, stacks, enclosing, state2, stacks2, enclosing2) && Fitting(state, stacks, encl, st, depth, s)
    ensures Fitting(state2, stacks2, encl, st, depth, s)
  {
  }

  lemma StillReached(state: seq<nat>, stacks: seq<seq<nat>>, enclosing: seq<Option<nat>>, state2: seq<nat>, stacks2: seq<seq<nat>>, enclosing2: seq<Option<nat>>,
                     y: nat, s: seq<nat>)
    requires Later(state, stacks, enclosing, state2, stacks2, enclosing2) && Reached(state, stacks, y, s)
    ensures Reached(state2, stacks2, y, s)
  {
  }

  lemma LaterRefl(state: seq<nat>, stacks: seq<seq<nat>>, enclosing: seq<Option<nat>>)
    requires |state| == |stacks| == |enclosing|
    ensures Later(state, stacks, enclosing, state, stacks, enclosing)
  {
  }

  lemma Bounded(code: seq<Block>, state: seq<nat>, enclosing: seq<Option<nat>>, depth: seq<int>, stacks: seq<seq<nat>>, open: set<nat>, b: nat)
    requires Consistent(code, state, enclosing, depth, stacks, open)
    ensures |code| == |state| == |enclosing| == |depth| == |stacks|
  {
  }

  /** An endCatch block only falls through. */
  lemma FollowedEnd(code: seq<Block>, state: seq<nat>, stacks: seq<seq<nat>>, b: nat, s: seq<nat>)
    requires Assembled(code) && b < |code| && code[b].endCatch
    ensures code[b].jump.None? && code[b].table == []
  {
  }

  lemma FollowedNow(code: seq<Block>, state0: seq<nat>, stacks0: seq<seq<nat>>, enclosing0: seq<Option<nat>>,
                    state: seq<nat>, stacks: seq<seq<nat>>, enclosing: seq<Option<nat>>, b: nat, s: seq<nat>)
    requires Later(state0, stacks0, enclosing0, state, stacks, enclosing) && b < |code| == |state| && state0[b] > UNKNOWN && stacks0[b] == s
    requires code[b].endCatch ==> s != []
    requires code[b].fall.Some? ==> Reached(state, stacks, code[b].fall.value, FallOpens(code[b], b, s))
    requires code[b].jump.Some? ==> Reached(state, stacks, code[b].jump.value, JumpOpens(code[b], b, s))
    requires forall i :: 0 <= i < |code[b].table| ==> Reached(state, stacks, code[b].table[i], JumpOpens(code[b], b, s))
    ensures Followed(code, state, stacks, b)
  {
    forall y: nat, t: seq<nat> | Passes(code, b, y, s, t) ensures Reached(state, stacks, y, t) {
      if y in code[b].table && t == JumpOpens(code[b], b, s) {
        var i :| 0 <= i < |code[b].table| && code[b].table[i] == y;
        assert Reached(state, stacks, code[b].table[i], t);
      }
    }
  }

  // ---------------------------------------------------------------- the whole analysis

  /** Every walk enters each block with exactly the block's chain of enclosing catches open. */
  lemma {:induction false} WalksFollow(code: seq<Block>, state: seq<nat>, enclosing: seq<Option<nat>>, depth: seq<int>, stacks: seq<seq<nat>>,
                                       b: nat, opens: seq<nat>, at: int, n: nat)
    requires Consistent(code, state, enclosing, depth, stacks, {}) && Reached(state, stacks, 0, [])
    requires Walk(code, b, opens, at, n)
    ensures Reached(state, stacks, b, opens)
    decreases n
  {
    if n > 0 {
      var a: nat, opens0: seq<nat>, at0: int :| WalkStep(code, b, opens, at, n, a, opens0, at0);
      WalksFollow(code, state, enclosing, depth, stacks, a, opens0, at0, n - 1);
      assert Followed(code, state, stacks, a);
    }
  }

  /** What the analysis has found out, in terms of walks: the chain of enclosing catches of a block that is
      walked into is the stack of open catches, and its length the catch depth. */
  ghost predicate Analysed(code: seq<Block>, enclosing: seq<Option<nat>>, depth: seq<int>) {
    && |code| == |enclosing| == |depth|
    && forall b: nat, opens: seq<nat>, at: int, n: nat :: Walk(code, b, opens, at, n) ==>
         b < |code| && IsChain(enclosing, b, opens) && depth[b] == |opens| && (code[b].endCatch ==> opens != [])
  }

  lemma AnalysisDone(code: seq<Block>, state: seq<nat>, enclosing: seq<Option<nat>>, depth: seq<int>, stacks: seq<seq<nat>>)
    requires Consistent(code, state, enclosing, depth, stacks, {}) && Reached(state, stacks, 0, [])
    ensures Analysed(code, enclosing, depth)
    ensures forall b: nat, opens: seq<nat>, at: int, n: nat :: Walk(code, b, opens, at, n) ==> b < |state| && (state[b] < INCATCH <==> opens == [])
  {
    forall b: nat, opens: seq<nat>, at: int, n: nat | Walk(code, b, opens, at, n)
      ensures b < |code| && IsChain(enclosing, b, opens) && depth[b] == |opens| && (code[b].endCatch ==> opens != [])
      ensures b < |state| && (state[b] < INCATCH <==> opens == [])
    {
      WalksFollow(code, state, enclosing, depth, stacks, b, opens, at, n);
      StackIsChain(code, state, enclosing, depth, stacks, {}, b);
      assert BlockOk(state, enclosing, depth, stacks, b) && Followed(code, state, stacks, b);
    }
  }

  lemma AllUnknown(code: seq<Block>, state: seq<nat>, enclosing: seq<Option<nat>>, depth: seq<int>, stacks: seq<seq<nat>>)
    requires |code| == |state| == |enclosing| == |depth| == |stacks| && forall b :: 0 <= b < |state| ==> state[b] == UNKNOWN
    ensures Consistent(code, state, enclosing, depth, stacks, {}) && Fitting(state, stacks, None, NONE, 0, [])
    ensures Trodden(code, state, stacks) && Came(code, 0, [])
  {
    assert Walk(code, 0, [], 0, 0);
  }

  lemma {:induction false} OneChain(enclosing: seq<Option<nat>>, b: nat, s: seq<nat>, t: seq<nat>)
    requires IsChain(enclosing, b, s) && IsChain(enclosing, b, t)
    ensures s == t
    decreases |s|
  {
    if s != [] && t != [] {
      var n, m := |s| - 1, |t| - 1;
      OneChain(enclosing, s[n], s[..n], t[..m]);
      assert s == s[..n] + [s[n]] && t == t[..m] + [t[m]];
    }
  }

  /** Code that passes has none of the faults. */
  lemma NotFaulty(code: seq<Block>, enclosing: seq<Option<nat>>, depth: seq<int>)
    requires |code| > 0 && Analysed(code, enclosing, depth)
    requires forall b: nat, opens: seq<nat>, at: int, n: nat :: Walk(code, b, opens, at, n) && b == |code| - 1 ==> opens == []
    ensures !Faulty(code)
  {
    forall b: nat, s, t | Came(code, b, s) && Came(code, b, t) ensures s == t {
      var i: int, m: nat :| Walk(code, b, s, i, m);
      var j: int, n: nat :| Walk(code, b, t, j, n);
      OneChain(enclosing, b, s, t);
    }
    forall b: nat | b < |code| && code[b].endCatch ensures !Came(code, b, []) {}
    forall s | CameLast(code, s) ensures s == [] {
      var i: int, m: nat :| Walk(code, |code| - 1, s, i, m);
    }
  }

  lemma Unclosed(code: seq<Block>, state: seq<nat>, enclosing: seq<Option<nat>>, depth: seq<int>, stacks: seq<seq<nat>>)
    requires Consistent(code, state, enclosing, depth, stacks, {}) && Trodden(code, state, stacks) && |code| > 0 && state[|code| - 1] >= INCATCH
    ensures Faulty(code)
  {
    var last := |code| - 1;
    assert BlockOk(state, enclosing, depth, stacks, last) && Came(code, last, stacks[last]);
    assert CameLast(code, stacks[last]);
  }

  lemma NotNothing(code: seq<Block>)
    requires Assembled(code)
    ensures |code| > 0
  {
  }

  /** ProcessCatches() up to BuildExceptionRanges(), tclAssembly.c:3619-3668, 3852-3872. It fails exactly when some
      walk, or some pair of walks, shows a fault. */
  method ProcessCatches(an: CatchAnalysis) returns (ok: bool)
    requires Assembled(an.code) && |an.catchState| == |an.enclosing| == |an.catchDepth| == |an.stacks| == |an.code|
    modifies an
    ensures ok <==> !Faulty(an.code)
    ensures ok ==> Analysed(an.code, an.enclosing, an.catchDepth)
    ensures ok ==> forall b: nat, opens: seq<nat>, at: int, n: nat :: Walk(an.code, b, opens, at, n) && b == |an.code| - 1 ==> opens == []
  {
    hide Faulty, Came, Consistent, Analysed, Trodden, Fitting, Reached, Later, Assembled;
    NotNothing(an.code);
    an.catchState := seq(|an.code|, _ => UNKNOWN);
    an.enclosing := seq(|an.code|, _ => None);
    AllUnknown(an.code, an.catchState, an.enclosing, an.catchDepth, an.stacks);
    ok := an.ProcessBlock(0, None, NONE, 0, {}, []);
    if !ok { return; }
    Bounded(an.code, an.catchState, an.enclosing, an.catchDepth, an.stacks, {}, 0);
    AnalysisDone(an.code, an.catchState, an.enclosing, an.catchDepth, an.stacks);
    ok := an.catchState[|an.code| - 1] < INCATCH;
    if ok {
      NotFaulty(an.code, an.enclosing, an.catchDepth);
    } else {
      Unclosed(an.code, an.catchState, an.enclosing, an.catchDepth, an.stacks);
    }
  }
}
