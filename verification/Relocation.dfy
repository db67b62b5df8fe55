/** Moving bytecode in place once jumps have grown, tclAssembly.c:2968-3004. */
module Relocation {

  /** Where a block stands and where it is to stand, and the offset of its closing jump (-1 for none). */
  datatype Place = Place(original: nat, start: nat, jumpOffset: int)

  /** Blocks follow one another, up to next; each moves up, and no less than the one before it. */
  ghost predicate Laid(places: seq<Place>, next: nat) {
    && |places| > 0 && places[0].original == 0
    && (forall i :: 0 <= i < |places| ==> places[i].original <= places[i].start && places[i].original <= next)
    && (forall i, j :: 0 <= i < j < |places| ==>
          places[i].original <= places[j].original && places[i].start - places[i].original <= places[j].start - places[j].original)
  }

  /** The end of block i before the move. */
  function End(places: seq<Place>, i: nat, next: nat): nat
    requires i < |places|
  {
    if i + 1 < |places| then places[i + 1].original else next
  }

  /** Every byte of block i has reached its new place. */
  ghost predicate Arrived(places: seq<Place>, next: nat, was: seq<bv8>, now: seq<bv8>, i: nat)
    requires Laid(places, next) && i < |places| && next <= |was| == |now|
  {
    places[i].start + (End(places, i, next) - places[i].original) <= |now|
    && forall k :: places[i].original <= k < End(places, i, next) ==> now[places[i].start + (k - places[i].original)] == was[k]
  }

  /** The bytes after memmove(to, from, n). */
  ghost function Overlaid(code: seq<bv8>, to: nat, from: nat, n: nat): seq<bv8>
    requires from + n <= |code| && to + n <= |code|
  {
    code[..to] + code[from..from + n] + code[to + n..]
  }

  /** memmove() within one array. */
  method MemMove(code: array<bv8>, to: nat, from: nat, n: nat)
    requires from + n <= code.Length && to + n <= code.Length
    modifies code
    ensures code[..] == Overlaid(old(code[..]), to, from, n)
  {
    forall k | 0 <= k < n {
      code[to + k] := code[from + k];
    }
  }

  /** The blocks from i on have arrived, the bytes of the others have not been touched. */
  ghost predicate Moved(places: seq<Place>, next: nat, was: seq<bv8>, now: seq<bv8>, i: nat)
    requires Laid(places, next) && i <= |places| && next <= |was| == |now|
  {
    && (forall k :: 0 <= k < Top(places, i, next) ==> now[k] == was[k])
    && (forall j :: i <= j < |places| ==> Arrived(places, next, was, now, j))
  }

  function Top(places: seq<Place>, i: nat, next: nat): nat
    requires i <= |places|
  {
    if i == |places| then next else places[i].original
  }

  /** Moving block i disturbs neither the blocks already moved nor those still to be moved. */
  lemma MovedOne(places: seq<Place>, next: nat, was: seq<bv8>, now: seq<bv8>, i: nat)
    requires Laid(places, next) && i < |places| && next <= |was| == |now| && Moved(places, next, was, now, i + 1)
    requires places[|places| - 1].start - places[|places| - 1].original + next <= |now|
    ensures var n := End(places, i, next) - places[i].original;
      n >= 0 && places[i].original + n <= |now| && places[i].start + n <= |now|
      && Moved(places, next, was, Overlaid(now, places[i].start, places[i].original, n), i)
  {
    hide Arrived;
    var p, n := places[i], End(places, i, next) - places[i].original;
    BlockFits(places, next, |now|, i);
    OverlaidAt(now, p.start, p.original, n);
    var now2 := Overlaid(now, p.start, p.original, n);
    ArrivedNow(places, next, was, now, now2, i);
    forall j | i + 1 <= j < |places| ensures Arrived(places, next, was, now2, j) {
      ArrivedStays(places, next, was, now, now2, j, p.start + n);
    }
  }

  /** Block i fits below the next one in its new place. */
  lemma BlockFits(places: seq<Place>, next: nat, length: nat, i: nat)
    requires Laid(places, next) && i < |places| && places[|places| - 1].start - places[|places| - 1].original + next <= length
    ensures var n := End(places, i, next) - places[i].original;
      n >= 0 && places[i].original + n <= next <= length && places[i].start + n <= length
      && forall j :: i + 1 <= j < |places| ==> places[i].start + n <= places[j].start
  {
    if i < |places| - 1 { assert places[i].original <= places[i + 1].original; }
  }

  lemma ArrivedNow(places: seq<Place>, next: nat, was: seq<bv8>, now: seq<bv8>, now2: seq<bv8>, i: nat)
    requires Laid(places, next) && i < |places| && next <= |was| == |now| == |now2|
    requires var n := End(places, i, next) - places[i].original; n >= 0 && places[i].start + n <= |now| && places[i].original + n <= next
    requires forall k :: 0 <= k < End(places, i, next) ==> now[k] == was[k]
    requires var n := End(places, i, next) - places[i].original;
      forall k :: 0 <= k < |now| ==> now2[k] == if places[i].start <= k < places[i].start + n then now[k - places[i].start + places[i].original] else now[k]
    ensures Arrived(places, next, was, now2, i)
  {
  }

  lemma OverlaidAt(code: seq<bv8>, to: nat, from: nat, n: nat)
    requires from + n <= |code| && to + n <= |code|
    ensures |Overlaid(code, to, from, n)| == |code|
    ensures forall k :: 0 <= k < |code| ==> Overlaid(code, to, from, n)[k] == if to <= k < to + n then code[k - to + from] else code[k]
  {
  }

  lemma ArrivedStays(places: seq<Place>, next: nat, was: seq<bv8>, now: seq<bv8>, now2: seq<bv8>, j: nat, top: nat)
    requires Laid(places, next) && j < |places| && next <= |was| == |now| == |now2| && Arrived(places, next, was, now, j)
    requires top <= places[j].start && forall k :: top <= k < |now| ==> now2[k] == now[k]
    ensures Arrived(places, next, was, now2, j)
  {
  }

  /** The place of a moved block. */
  function Shifted(p: Place): Place {
    p.(jumpOffset := p.jumpOffset + p.start - p.original)
  }

  /** MoveCodeForJumps(): from the last block down, so that no byte is overwritten before it has been moved. */
  method MoveCodeForJumps(code: array<bv8>, places: seq<Place>, next: nat, mustMove: nat) returns (moved: seq<Place>, codeNext: nat)
    requires Laid(places, next) && next + mustMove <= code.Length
    requires places[|places| - 1].start - places[|places| - 1].original == mustMove
    modifies code
    ensures codeNext == next + mustMove && |moved| == |places|
    ensures forall i :: 0 <= i < |places| ==> Arrived(places, next, old(code[..]), code[..], i)
    ensures forall i :: 0 <= i < |places| ==> moved[i] == Shifted(places[i])
  {
    ghost var was := code[..];
    hide Arrived, Overlaid;
    moved := places;
    var top := next;
    var i: nat := |places|;
    while i > 0
      invariant 0 <= i <= |places| == |moved| && top == Top(places, i, next) && Moved(places, next, was, code[..], i)
      invariant forall j :: 0 <= j < i ==> moved[j] == places[j]
      invariant forall j :: i <= j < |places| ==> moved[j] == Shifted(places[j])
    {
      i := i - 1;
      MovedOne(places, next, was, code[..], i);
      MemMove(code, places[i].start, places[i].original, top - places[i].original);
      moved := moved[i := Shifted(places[i])];
      top := places[i].original;
    }
    codeNext := next + mustMove;
  }
}
