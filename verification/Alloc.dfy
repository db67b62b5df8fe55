/** The bucket allocator, tclAlloc.c:253-623, for 64-bit machines and without range checking. Blocks are
    known by the address of their header; the caller's data follows it. */
module Alloc {
  import opened Options

  /** Sizes in bytes (tclAlloc.c:49-98). */
  const OVERHEAD: nat := 16
  const MINBLOCK: nat := 16
  const NBUCKETS: nat := 12
  const MAXMALLOC: nat := 16384
  const BLOCKHEAD: nat := 16
  const BIG: nat := 0xFF
  const UINT_MAX: nat := 0xFFFF_FFFF

  /** size_t arithmetic wraps around. */
  const WORD: nat := 0x1_0000_0000_0000_0000

  function Plus(a: nat, b: nat): nat { (a + b) % WORD }

  function Pow2(n: nat): nat {
    if n == 0 then 1 else 2 * Pow2(n - 1)
  }

  /** The size of the blocks of a bucket, header included. */
  function Size(bucket: nat): nat { 8 * Pow2(bucket) }

  type Chain = map<nat, Option<nat>>

  function At(list: seq<nat>, i: int): Option<nat> {
    if 0 <= i < |list| then Some(list[i]) else None
  }

  /** From head on, the links run through the blocks of the list and end there. */
  ghost predicate Chained(head: Option<nat>, next: Chain, list: seq<nat>) {
    && head == At(list, 0) && (forall i, j :: 0 <= i < j < |list| ==> list[i] != list[j])
    && forall i :: 0 <= i < |list| ==> LinkedAt(next, list, i)
  }

  ghost predicate LinkedAt(next: Chain, list: seq<nat>, i: nat)
    requires i < |list|
  {
    list[i] in next && next[list[i]] == At(list, i + 1)
  }

  /** Every free list is a chain of free blocks of its own bucket; a block that was ever carved is in use or
      on the list of its bucket. */
  ghost predicate Listed(nextf: seq<Option<nat>>, next: Chain, index: map<nat, nat>, carved: map<nat, nat>, lists: seq<seq<nat>>) {
    && |nextf| == |lists| == NBUCKETS
    && (forall b :: 0 <= b < NBUCKETS ==> Chained(nextf[b], next, lists[b]))
    && (forall b, h :: 0 <= b < NBUCKETS && h in lists[b] ==> h in carved && carved[h] == b && h !in index)
    && (forall h :: h in carved ==> carved[h] < NBUCKETS && (h in index || h in lists[carved[h]]))
  }

  /** A block in use is a carved one with its bucket in its header, or a big one. */
  ghost predicate Headed(index: map<nat, nat>, carved: map<nat, nat>, bigs: map<nat, nat>) {
    && (forall h :: h in index ==> if index[h] == BIG then h in bigs else h in carved && index[h] == carved[h])
    && (forall h :: h in bigs ==> h in index && index[h] == BIG && h !in carved)
  }

  /** The bytes of a block, header included. */
  function Extent(carved: map<nat, nat>, bigs: map<nat, nat>, h: nat): nat {
    if h in carved then Size(carved[h]) else if h in bigs then OVERHEAD + bigs[h] else 0
  }

  predicate Disjoint(a: nat, n: nat, b: nat, m: nat) { a + n <= b || b + m <= a }

  /** No two blocks overlap. */
  ghost predicate Apart(carved: map<nat, nat>, bigs: map<nat, nat>) {
    forall h, k :: (h in carved || h in bigs) && (k in carved || k in bigs) && h != k ==>
      Disjoint(h, Extent(carved, bigs, h), k, Extent(carved, bigs, k))
  }

  /** Memory from the system: it overlaps no block there is. */
  ghost predicate Fresh(carved: map<nat, nat>, bigs: map<nat, nat>, a: nat, n: nat) {
    forall h :: h in carved || h in bigs ==> Disjoint(h, Extent(carved, bigs, h), a, n) && !(a <= h < a + n)
  }

  /** How many bytes the caller may use. */
  function Capacity(index: map<nat, nat>, bigs: map<nat, nat>, h: nat): nat
    requires h in index
  {
    if index[h] == BIG then (if h in bigs then bigs[h] else 0)
    else if Size(index[h]) < OVERHEAD then 0 else Size(index[h]) - OVERHEAD
  }

  // ---------------------------------------------------------------- free lists

  lemma Popped(head: Option<nat>, next: Chain, list: seq<nat>)
    requires Chained(head, next, list) && list != []
    ensures list[0] in next && Chained(next[list[0]], next, list[1..])
  {
    assert LinkedAt(next, list, 0);
    var rest := list[1..];
    forall i | 0 <= i < |rest| ensures LinkedAt(next, rest, i) { assert LinkedAt(next, list, i + 1); }
  }

  lemma PushedOn(head: Option<nat>, next: Chain, list: seq<nat>, h: nat)
    requires Chained(head, next, list) && h !in list
    ensures Chained(Some(h), next[h := head], [h] + list)
  {
    var list2, next2 := [h] + list, next[h := head];
    forall i | 0 <= i < |list2| ensures LinkedAt(next2, list2, i) {
      if i > 0 { assert LinkedAt(next, list, i - 1) && list[i - 1] in list; }
    }
  }

  lemma Untouched(head: Option<nat>, next: Chain, list: seq<nat>, h: nat, v: Option<nat>)
    requires Chained(head, next, list) && h !in list
    ensures Chained(head, next[h := v], list)
  {
    var next2 := next[h := v];
    forall i | 0 <= i < |list| ensures LinkedAt(next2, list, i) { assert LinkedAt(next, list, i) && list[i] in list; }
  }

  /** Taking the first block of a bucket. */
  lemma TakeKeeps(nextf: seq<Option<nat>>, next: Chain, index: map<nat, nat>, carved: map<nat, nat>, lists: seq<seq<nat>>, b: nat)
    requires Listed(nextf, next, index, carved, lists) && b < NBUCKETS && lists[b] != []
    ensures var h := lists[b][0]; h in next && h !in index && h in carved && carved[h] == b && nextf[b] == Some(h)
    ensures var h := lists[b][0]; Listed(nextf[b := next[h]], next, index[h := b], carved, lists[b := lists[b][1..]])
  {
    var h := lists[b][0];
    assert h in lists[b] && Chained(nextf[b], next, lists[b]) && LinkedAt(next, lists[b], 0);
    Popped(nextf[b], next, lists[b]);
    var lists2 := lists[b := lists[b][1..]];
    forall k | k in carved ensures k in index[h := b] || k in lists2[carved[k]] {
      if k !in index && k != h && carved[k] == b {
        var i :| 0 <= i < |lists[b]| && lists[b][i] == k;
        assert lists2[b][i - 1] == k;
      }
    }
    forall c, k | 0 <= c < NBUCKETS && k in lists2[c] ensures k in carved && carved[k] == c && k !in index[h := b] {
      assert k in lists[c];
    }
  }

  /** Giving a block back. */
  lemma GiveKeeps(nextf: seq<Option<nat>>, next: Chain, index: map<nat, nat>, carved: map<nat, nat>, lists: seq<seq<nat>>, h: nat)
    requires Listed(nextf, next, index, carved, lists) && h in index && h in carved
    ensures var b := carved[h]; Listed(nextf[b := Some(h)], next[h := nextf[b]], index - {h}, carved, lists[b := [h] + lists[b]])
  {
    var b := carved[h];
    var nextf2, next2, lists2 := nextf[b := Some(h)], next[h := nextf[b]], lists[b := [h] + lists[b]];
    forall c | 0 <= c < NBUCKETS ensures Chained(nextf2[c], next2, lists2[c]) {
      assert Chained(nextf[c], next, lists[c]);
      if c == b { PushedOn(nextf[b], next, lists[b], h); } else { Untouched(nextf[c], next, lists[c], h, nextf[b]); }
    }
    forall k | k in carved ensures k in index - {h} || k in lists2[carved[k]] {}
  }

  // ---------------------------------------------------------------- carving

  lemma SizeTable()
    ensures Size(1) == 16 && Size(2) == 32 && Size(3) == 64 && Size(4) == 128 && Size(5) == 256 && Size(6) == 512
    ensures Size(7) == 1024 && Size(8) == 2048 && Size(9) == 4096 && Size(10) == 8192 && Size(11) == 16384
  {
    assert Pow2(1) == 2 && Pow2(2) == 4 && Pow2(3) == 8 && Pow2(4) == 16 && Pow2(5) == 32 && Pow2(6) == 64;
    assert Pow2(7) == 128 && Pow2(8) == 256 && Pow2(9) == 512 && Pow2(10) == 1024 && Pow2(11) == 2048;
  }

  /** The assertion of MoreCore(): whole blocks fill the chunk. */
  lemma WholeBlocks(b: nat)
    requires 1 <= b < NBUCKETS
    ensures Size(b) > 0 && (MAXMALLOC / Size(b)) * Size(b) == MAXMALLOC && MAXMALLOC / Size(b) >= 1
  {
    SizeTable();
  }

  /** The blocks of a chunk, in order. */
  ghost function Carved(base: nat, size: nat, n: nat): seq<nat> {
    seq(n, k requires 0 <= k < n => base + k * size)
  }

  lemma {:induction false} Steps(j: nat, k: nat, size: nat)
    requires j < k
    ensures j * size + size <= k * size
    decreases k
  {
    if j + 1 < k { Steps(j, k - 1, size); }
  }

  lemma CarvedApart(base: nat, size: nat, n: nat)
    requires size > 0
    ensures forall i, j :: 0 <= i < j < n ==> Carved(base, size, n)[i] + size <= Carved(base, size, n)[j]
    ensures forall i :: 0 <= i < n ==> base <= Carved(base, size, n)[i] && Carved(base, size, n)[i] + size <= base + n * size
  {
    forall i, j | 0 <= i < j < n ensures Carved(base, size, n)[i] + size <= Carved(base, size, n)[j] { Steps(i, j, size); }
    forall i | 0 <= i < n ensures Carved(base, size, n)[i] + size <= base + n * size { Steps(i, n, size); }
  }

  ghost function WithBlocks(carved: map<nat, nat>, list: seq<nat>, b: nat): map<nat, nat> {
    map h | h in carved.Keys + (set x | x in list) :: if h in list then b else carved[h]
  }

  /** A fresh chunk can be carved: the new blocks overlap neither each other nor the old ones. */
  lemma CarveKeepsApart(carved: map<nat, nat>, bigs: map<nat, nat>, base: nat, b: nat, n: nat)
    requires Apart(carved, bigs) && Fresh(carved, bigs, base, n * Size(b)) && Size(b) > 0
    ensures var list := Carved(base, Size(b), n); Apart(WithBlocks(carved, list, b), bigs)
    ensures forall h :: h in Carved(base, Size(b), n) ==> h !in carved && h !in bigs
  {
    hide Size;
    var list := Carved(base, Size(b), n);
    var carved2 := WithBlocks(carved, list, b);
    CarvedApart(base, Size(b), n);
    forall h | h in list ensures base <= h && h + Size(b) <= base + n * Size(b) && h !in carved && h !in bigs {
      var i :| 0 <= i < n && list[i] == h;
    }
    forall h, k | (h in carved2 || h in bigs) && (k in carved2 || k in bigs) && h != k
      ensures Disjoint(h, Extent(carved2, bigs, h), k, Extent(carved2, bigs, k))
    {
      if h in list && k in list {
        CarvedApartFrom(base, Size(b), n, h, k);
      } else if h !in list && k !in list {
        assert (h in carved || h in bigs) && (k in carved || k in bigs);
      } else if h in list {
        assert k in carved || k in bigs;
      }
    }
  }

  lemma CarvedApartFrom(base: nat, size: nat, n: nat, h: nat, k: nat)
    requires size > 0 && h in Carved(base, size, n) && k in Carved(base, size, n) && h != k
    ensures Disjoint(h, size, k, size)
  {
    var list := Carved(base, size, n);
    var i :| 0 <= i < n && list[i] == h;
    var j :| 0 <= j < n && list[j] == k;
    CarvedApart(base, size, n);
  }

  /** The carved blocks on the list of a bucket that was empty. */
  lemma CarveKeepsListed(nextf: seq<Option<nat>>, next: Chain, index: map<nat, nat>, carved: map<nat, nat>, lists: seq<seq<nat>>,
                         b: nat, list: seq<nat>, next2: Chain)
    requires Listed(nextf, next, index, carved, lists) && b < NBUCKETS && nextf[b].None? && list != []
    requires Chained(Some(list[0]), next2, list) && forall h :: h in next && h !in list ==> h in next2 && next2[h] == next[h]
    requires forall h :: h in list ==> h !in carved && h !in index
    ensures Listed(nextf[b := Some(list[0])], next2, index, WithBlocks(carved, list, b), lists[b := list])
  {
    assert Chained(nextf[b], next, lists[b]);
    forall c | 0 <= c < NBUCKETS && c != b ensures Chained(nextf[c], next2, lists[c]) {
      assert Chained(nextf[c], next, lists[c]);
      forall i | 0 <= i < |lists[c]| ensures LinkedAt(next2, lists[c], i) {
        assert LinkedAt(next, lists[c], i) && lists[c][i] in lists[c];
      }
    }
  }

  // ---------------------------------------------------------------- the allocator

  /** The state of the arena: free lists in order, headers right, no two blocks overlapping. */
  ghost predicate Arena(nextf: seq<Option<nat>>, next: Chain, index: map<nat, nat>, carved: map<nat, nat>, lists: seq<seq<nat>>, bigs: map<nat, nat>) {
    Listed(nextf, next, index, carved, lists) && Headed(index, carved, bigs) && Apart(carved, bigs)
    && forall h :: h in carved ==> 1 <= carved[h]
  }

  /** memcpy(to, from, n) on the bytes of memory. */
  function Copied(mem: nat -> bv8, to: nat, from: nat, n: nat): nat -> bv8 {
    (a: nat) => if to <= a < to + n then mem(a - to + from) else mem(a)
  }

  /** What is asked of the system: a big block of its own, or a chunk to be carved. */
  function Wanted(numBytes: nat): nat {
    BLOCKHEAD + if numBytes >= MAXMALLOC - OVERHEAD then OVERHEAD + numBytes else MAXMALLOC
  }

  /** The chunk at a has been carved into blocks of a bucket, all of it after the block head. */
  ghost function WithChunk(carved: map<nat, nat>, a: nat, b: nat): map<nat, nat>
    requires 1 <= b < NBUCKETS
  {
    WholeBlocks(b);
    WithBlocks(carved, Carved(a + BLOCKHEAD, Size(b), MAXMALLOC / Size(b)), b)
  }

  /** Carved blocks stay carved. */
  ghost predicate Grown(carved: map<nat, nat>, carved2: map<nat, nat>) {
    forall h :: h in carved ==> h in carved2 && carved2[h] == carved[h]
  }

  lemma ChunkGrows(nextf: seq<Option<nat>>, next: Chain, index: map<nat, nat>, carved: map<nat, nat>, lists: seq<seq<nat>>, bigs: map<nat, nat>, a: nat, b: nat)
    requires Arena(nextf, next, index, carved, lists, bigs) && Fresh(carved, bigs, a, BLOCKHEAD + MAXMALLOC) && 1 <= b < NBUCKETS
    ensures Grown(carved, WithChunk(carved, a, b))
  {
    WholeBlocks(b);
    FreshPart(carved, bigs, a, BLOCKHEAD, MAXMALLOC);
    CarveKeepsApart(carved, bigs, a + BLOCKHEAD, b, MAXMALLOC / Size(b));
  }

  class Allocator {
    var nextf: seq<Option<nat>>
    var next: Chain
    var index: map<nat, nat>
    var mem: nat -> bv8
    ghost var carved: map<nat, nat>
    ghost var lists: seq<seq<nat>>
    ghost var bigs: map<nat, nat>

    ghost predicate Valid()
      reads this
    {
      Arena(nextf, next, index, carved, lists, bigs)
    }

    constructor (mem: nat -> bv8)
      ensures Valid() && index == map[] && this.mem == mem
    {
      nextf, next, index := seq(NBUCKETS, _ => None), map[], map[];
      this.mem := mem;
      carved, lists, bigs := map[], seq(NBUCKETS, _ => []), map[];
    }

    /** MoreCore(), tclAlloc.c:387-429; chunk is what the system provides. */
    method MoreCore(bucket: nat, chunk: Option<nat>)
      requires Valid() && 1 <= bucket < NBUCKETS && nextf[bucket].None?
      requires chunk.Some? ==> Fresh(carved, bigs, chunk.value, BLOCKHEAD + MAXMALLOC)
      modifies this`nextf, this`next, this`carved, this`lists
      ensures Valid() && (nextf[bucket].None? <==> chunk.None?)
      ensures carved == if chunk.None? then old(carved) else WithChunk(old(carved), chunk.value, bucket)
    {
      hide Listed, Headed, Apart, Fresh, Carved, WithBlocks, Linking, Size;
      WholeBlocks(bucket);
      Buckets(nextf, next, index, carved, lists);
      var size := Size(bucket);
      var numBlocks := MAXMALLOC / size;
      if chunk.None? { return; }
      var base := chunk.value + BLOCKHEAD;
      ghost var n: nat := numBlocks;
      ghost var list := Carved(base, size, n);
      FreshPart(carved, bigs, chunk.value, BLOCKHEAD, MAXMALLOC);
      CarveKeepsApart(carved, bigs, base, bucket, n);
      CarveHeaded(index, carved, bigs, list, bucket);
      ghost var next0 := next;
      var over := base;
      ghost var k: nat := 0;
      LinkingStart(next0, base, size, n);
      while numBlocks > 1
        invariant 1 <= numBlocks <= n && k == n - numBlocks && over == base + k * size
        invariant Linking(next0, next, base, size, n, k)
        modifies this`next
        decreases numBlocks
      {
        LinkingNext(next0, next, base, size, n, k);
        next := next[over := Some(over + size)];
        over := over + size;
        numBlocks := numBlocks - 1;
        k := k + 1;
      }
      LinkingDone(next0, next, base, size, n);
      next := next[over := None];
      CarveKeepsListed(nextf, next0, index, carved, lists, bucket, list, next);
      nextf := nextf[bucket := Some(base)];
      lists := lists[bucket := list];
      carved := WithBlocks(carved, list, bucket);
    }

    /** The bucket for a request (tclAlloc.c:317-328): the first whose blocks are large enough. */
    method BucketFor(numBytes: nat) returns (bucket: nat)
      requires numBytes < MAXMALLOC - OVERHEAD
      ensures 1 <= bucket < NBUCKETS && numBytes + OVERHEAD <= Size(bucket)
      ensures bucket > 1 ==> Size(bucket - 1) < numBytes + OVERHEAD
    {
      SizeTable();
      var amount := MINBLOCK;
      bucket := MINBLOCK / 16;
      while numBytes + OVERHEAD > amount
        invariant 1 <= bucket < NBUCKETS && amount == Size(bucket)
        invariant bucket > 1 ==> Size(bucket - 1) < numBytes + OVERHEAD
        decreases MAXMALLOC - amount
      {
        amount := amount * 2;
        bucket := bucket + 1;
        TopBucket(bucket);
      }
    }

    /** TclpAlloc(), tclAlloc.c:253-367; memory is what the system provides if it is asked. */
    method Alloc(numBytes: nat, memory: Option<nat>) returns (r: Option<nat>)
      requires Valid()
      requires memory.Some? ==> Fresh(carved, bigs, memory.value, Wanted(numBytes))
      modifies this`nextf, this`next, this`index, this`carved, this`lists, this`bigs
      ensures Valid()
      ensures r.None? ==> index == old(index) && bigs == old(bigs) && (memory.None? || numBytes > UINT_MAX - OVERHEAD - BLOCKHEAD)
      ensures Stocked(old(nextf), numBytes) ==> r.Some? && carved == old(carved)
      ensures Grown(old(carved), carved) && (numBytes > UINT_MAX - OVERHEAD - BLOCKHEAD ==> r.None?)
      ensures r.Some? ==> r.value >= OVERHEAD && Allotted(old(index), old(bigs), index, bigs, r.value - OVERHEAD, numBytes)
    {
      hide Arena, Allotted, Fresh, Capacity, WithChunk, Grown, Size, Stocked;
      r := None;
      GrownSelf(carved);
      if numBytes >= MAXMALLOC - OVERHEAD {
        NeverStocked(nextf, numBytes);
        if numBytes > UINT_MAX - OVERHEAD - BLOCKHEAD || memory.None? { return; }
        var over: nat := memory.value + BLOCKHEAD;
        BigKeeps(nextf, next, index, carved, lists, bigs, memory.value, numBytes);
        BigAllotted(index, bigs, over, numBytes);
        index := index[over := BIG];
        bigs := bigs[over := numBytes];
        return Some(over + OVERHEAD);
      }
      var bucket := BucketFor(numBytes);
      if memory.Some? { ChunkGrows(nextf, next, index, carved, lists, bigs, memory.value, bucket); }
      r := Take(bucket, memory);
      OneBucket(old(nextf), bucket, numBytes);
      if r.Some? { SmallAllotted(old(index), bigs, r.value - OVERHEAD, bucket, numBytes); }
    }

    /** The first block of a bucket, more of which are carved if need be (tclAlloc.c:335-349). */
    method Take(bucket: nat, memory: Option<nat>) returns (r: Option<nat>)
      requires Valid() && 1 <= bucket < NBUCKETS
      requires memory.Some? ==> Fresh(carved, bigs, memory.value, BLOCKHEAD + MAXMALLOC)
      modifies this`nextf, this`next, this`index, this`carved, this`lists
      ensures Valid()
      ensures r.None? ==> index == old(index) && memory.None?
      ensures |old(nextf)| == NBUCKETS && (old(nextf)[bucket].Some? ==> r == Some(old(nextf)[bucket].value + OVERHEAD) && carved == old(carved))
      ensures carved == old(carved) || (memory.Some? && carved == WithChunk(old(carved), memory.value, bucket))
      ensures r.Some? ==> r.value >= OVERHEAD && r.value - OVERHEAD !in old(index) && index == old(index)[r.value - OVERHEAD := bucket]
    {
      r := None;
      hide Listed, Headed, Apart, Fresh, Size, WithChunk;
      Buckets(nextf, next, index, carved, lists);
      if nextf[bucket].None? {
        MoreCore(bucket, memory);
        Buckets(nextf, next, index, carved, lists);
        if nextf[bucket].None? { return; }
      }
      var over: nat := nextf[bucket].value;
      HeadOf(nextf, next, index, carved, lists, bucket);
      TakeKeeps(nextf, next, index, carved, lists, bucket);
      TakeHeaded(index, carved, bigs, over, bucket);
      nextf := nextf[bucket := next[over]];
      lists := lists[bucket := lists[bucket][1..]];
      index := index[over := bucket];
      r := Some(over + OVERHEAD);
    }

    /** TclpFree(), tclAlloc.c:447-494; 0 is the null pointer. A pointer to no block in use has no magic numbers
        before it. */
    method Free(ptr: nat)
      requires Valid() && (ptr == 0 || ptr >= OVERHEAD)
      modifies this`nextf, this`next, this`index, this`lists, this`bigs
      ensures Valid() && (ptr == 0 ==> index == old(index) && bigs == old(bigs))
      ensures ptr != 0 ==> index == old(index) - {ptr - OVERHEAD} && bigs == old(bigs) - {ptr - OVERHEAD}
      ensures ptr != 0 && ptr - OVERHEAD in old(index) && old(index)[ptr - OVERHEAD] < |old(nextf)| ==>
        nextf == old(nextf)[old(index)[ptr - OVERHEAD] := Some(ptr - OVERHEAD)]
    {
      hide Listed, Apart, Fresh, Size;
      if ptr == 0 { return; }
      var over: nat := ptr - OVERHEAD;
      if over !in index {
        NotInUse(index, carved, bigs, over);
        return;
      }
      Buckets(nextf, next, index, carved, lists);
      var size := index[over];
      if size == BIG {
        BigFreed(nextf, next, index, carved, lists, bigs, over);
        index := index - {over};
        bigs := bigs - {over};
        return;
      }
      GiveKeeps(nextf, next, index, carved, lists, over);
      SmallBucket(nextf, next, index, carved, lists, over);
      next := next[over := nextf[size]];
      nextf := nextf[size := Some(over)];
      lists := lists[size := [over] + lists[size]];
      index := index - {over};
      assert bigs == bigs - {over};
    }

    /** TclpRealloc() of a block that is too small, or more than twice too large: a new block, the bytes that
        fit, and the old one freed (tclAlloc.c:594-610). */
    method Replace(ptr: nat, numBytes: nat, memory: Option<nat>) returns (r: Option<nat>)
      requires ptr >= OVERHEAD && ptr - OVERHEAD in index && index[ptr - OVERHEAD] != BIG
      requires memory.Some? ==> Fresh(carved, bigs, memory.value, Wanted(numBytes))
      requires Valid()
      modifies this
      ensures r.None? ==> index == old(index) && bigs == old(bigs) && mem == old(mem)
      ensures r.None? ==> memory.None? || numBytes > UINT_MAX - OVERHEAD - BLOCKHEAD
      ensures numBytes > UINT_MAX - OVERHEAD - BLOCKHEAD ==> r.None?
      ensures Stocked(old(nextf), numBytes) ==> r.Some?
      ensures Grown(old(carved), carved)
      ensures r.Some? ==> r != Some(ptr) && r.value - OVERHEAD in index && Tight(index[r.value - OVERHEAD], numBytes)
      ensures r.Some? ==> r.value >= OVERHEAD && Moved(old(index), old(bigs), old(mem), index, bigs, mem, ptr - OVERHEAD, r.value - OVERHEAD, numBytes)
      ensures Valid()
    {
      hide Arena, Fresh, Size, Wanted, Capacity, Moved, Copied, Grown, Stocked;
      ghost var index0, bigs0, mem0 := index, bigs, mem;
      ghost var h: nat := ptr - OVERHEAD;
      HeaderOk(index, carved, bigs, h, nextf, next, lists);
      var maxSize := Size(index[ptr - OVERHEAD]);
      r := Alloc(numBytes, memory);
      if r.None? { return; }
      var n := if maxSize - OVERHEAD < numBytes then maxSize - OVERHEAD else numBytes;
      mem := Copied(mem, r.value, ptr, n);
      CopyKeeps(nextf, next, index0, bigs0, index, carved, lists, bigs, mem0, h, r.value - OVERHEAD, numBytes);
      Free(ptr);
    }

    /** TclpRealloc(), tclAlloc.c:512-623; 0 is the null pointer. For a big block memory is where the system has
        moved it. A success has room for numBytes if and only if the sizes have not wrapped around: if they have, a
        block of the first bucket stays the block without room it is, and a big one becomes one. */
    method Realloc(ptr: nat, numBytes: nat, memory: Option<nat>) returns (r: Option<nat>)
      requires (ptr == 0 || ptr >= OVERHEAD) && numBytes < WORD
      requires memory.Some? ==> Fresh(carved, if ptr >= OVERHEAD then bigs - {ptr - OVERHEAD} else bigs, memory.value, Demand(bigs, ptr, numBytes))
      requires Valid()
      modifies this
      ensures r.None? ==> index == old(index) && bigs == old(bigs) && mem == old(mem)
      ensures ptr == 0 && r.Some? ==> r.value >= OVERHEAD && Allotted(old(index), old(bigs), index, bigs, r.value - OVERHEAD, numBytes) && mem == old(mem)
      ensures r.None? ==> memory.None? || numBytes > UINT_MAX - OVERHEAD - BLOCKHEAD || (ptr != 0 && ptr - OVERHEAD !in old(index))
      ensures ptr != 0 && ptr - OVERHEAD !in old(index) ==> r.None?
      ensures ptr != 0 && ptr - OVERHEAD in old(index) ==> Answers(old(index), index, Stocked(old(nextf), numBytes), ptr, numBytes, memory, r)
      ensures r.Some? ==> r.value >= OVERHEAD && r.value - OVERHEAD in index
      ensures r.Some? && ptr != 0 && !Wraps(old(index), ptr - OVERHEAD, numBytes) ==>
        Moved(old(index), old(bigs), old(mem), index, bigs, mem, ptr - OVERHEAD, r.value - OVERHEAD, numBytes)
      ensures r.Some? && ptr != 0 ==> (numBytes <= Capacity(index, bigs, r.value - OVERHEAD) <==> !Wraps(old(index), ptr - OVERHEAD, numBytes))
      ensures r.Some? && ptr != 0 && Wraps(old(index), ptr - OVERHEAD, numBytes) ==> Capacity(index, bigs, r.value - OVERHEAD) == 0
      ensures Grown(old(carved), carved)
      ensures r.None? || ptr == 0 || !(Wraps(old(index), ptr - OVERHEAD, numBytes) && old(index)[ptr - OVERHEAD] == BIG) ==> Valid()
    {
      hide Arena, Fresh, Size, Wanted, Capacity, Moved, Copied, Allotted, Grown;
      GrownSelf(carved);
      r := None;
      if ptr == 0 {
        r := Alloc(numBytes, memory);
        AllottedIn(old(index), old(bigs), index, bigs, r, numBytes);
        return;
      }
      if ptr - OVERHEAD !in index { return; }
      if index[ptr - OVERHEAD] == BIG {
        BigKnown(nextf, next, index, carved, lists, bigs, ptr - OVERHEAD);
        r := ReallocBig(ptr, numBytes, memory);
      } else {
        HeaderOk(index, carved, bigs, ptr - OVERHEAD, nextf, next, lists);
        assert bigs - {ptr - OVERHEAD} == bigs;
        r := ReallocSmall(ptr, numBytes, memory);
      }
      MovedRoom(old(index), old(bigs), old(mem), index, bigs, mem, ptr - OVERHEAD, r, numBytes);
    }

    /** A big block goes to the system's realloc() (tclAlloc.c:546-585), which is asked for the sum of the sizes
        modulo 2^64. */
    method ReallocBig(ptr: nat, numBytes: nat, memory: Option<nat>) returns (r: Option<nat>)
      requires ptr >= OVERHEAD && numBytes < WORD && ptr - OVERHEAD in index && index[ptr - OVERHEAD] == BIG
      requires memory.Some? ==> Fresh(carved, bigs - {ptr - OVERHEAD}, memory.value, Plus(BLOCKHEAD + OVERHEAD, numBytes))
      requires Valid()
      modifies this`index, this`bigs, this`mem
      ensures r.None? ==> memory.None? && index == old(index) && bigs == old(bigs) && mem == old(mem)
      ensures r.Some? ==> r.value >= OVERHEAD && r.value - OVERHEAD in index
      ensures r.Some? && numBytes < WORD - BLOCKHEAD - OVERHEAD ==>
        Moved(old(index), old(bigs), old(mem), index, bigs, mem, ptr - OVERHEAD, r.value - OVERHEAD, numBytes)
      ensures r.Some? && numBytes >= WORD - BLOCKHEAD - OVERHEAD ==> Capacity(index, bigs, r.value - OVERHEAD) == 0
      ensures r.None? || numBytes < WORD - BLOCKHEAD - OVERHEAD ==> Valid()
      ensures Answers(old(index), index, Stocked(old(nextf), numBytes), ptr, numBytes, memory, r)
    {
      hide Arena, Fresh, Moved, Copied;
      r := None;
      if memory.None? { return; }
      var over: nat := ptr - OVERHEAD;
      var asked := Plus(BLOCKHEAD + OVERHEAD, numBytes);
      var room := Least(numBytes, if asked < BLOCKHEAD + OVERHEAD then 0 else asked - BLOCKHEAD - OVERHEAD);
      var moved: nat := memory.value + BLOCKHEAD;
      BigAsked(numBytes);
      if numBytes < WORD - BLOCKHEAD - OVERHEAD {
        BigMoves(nextf, next, index, carved, lists, bigs, mem, over, memory.value, numBytes);
      }
      mem := SysMoved(mem, moved + OVERHEAD, ptr, room);
      index := (index - {over})[moved := BIG];
      bigs := (bigs - {over})[moved := room];
      r := Some(moved + OVERHEAD);
    }

    /** A block of a bucket is kept if it fits, else replaced (tclAlloc.c:586-622). */
    method ReallocSmall(ptr: nat, numBytes: nat, memory: Option<nat>) returns (r: Option<nat>)
      requires ptr >= OVERHEAD && numBytes < WORD && ptr - OVERHEAD in index && index[ptr - OVERHEAD] != BIG
      requires memory.Some? ==> Fresh(carved, bigs, memory.value, Wanted(numBytes))
      requires Valid()
      modifies this
      ensures r.None? ==> index == old(index) && bigs == old(bigs) && mem == old(mem)
      ensures Grown(old(carved), carved)
      ensures r.Some? ==> r.value >= OVERHEAD && r.value - OVERHEAD in index
      ensures r.Some? && !Wraps(old(index), ptr - OVERHEAD, numBytes) ==>
        Moved(old(index), old(bigs), old(mem), index, bigs, mem, ptr - OVERHEAD, r.value - OVERHEAD, numBytes)
      ensures Wraps(old(index), ptr - OVERHEAD, numBytes) ==>
        r == Some(ptr) && index == old(index) && bigs == old(bigs) && mem == old(mem) && Capacity(index, bigs, ptr - OVERHEAD) == 0
      ensures Answers(old(index), index, Stocked(old(nextf), numBytes), ptr, numBytes, memory, r)
      ensures Valid()
    {
      hide Arena, Fresh, Size, Wanted, Capacity, Moved, Copied, Grown;
      GrownSelf(carved);
      var over: nat := ptr - OVERHEAD;
      var i := index[over];
      HeaderOk(index, carved, bigs, over, nextf, next, lists);
      var maxSize := Size(i);
      var needed := Plus(numBytes, OVERHEAD);
      var expensive := needed > maxSize || (i > 0 && needed < maxSize / 2);
      KeptExactly(i, numBytes);
      SuitsSum(i, numBytes);
      if expensive {
        r := Replace(ptr, numBytes, memory);
        MovedRoom(old(index), old(bigs), old(mem), index, bigs, mem, over, r, numBytes);
        return;
      }
      if !Wraps(index, over, numBytes) { StaysPut(index, carved, bigs, mem, over, numBytes); }
      r := Some(ptr);
    }
  }

  /** Which block is returned, from the sizes before the call. A big block stays with the system, and moves to where the
      system says unless that has no memory. A block of a bucket stays where it is if it suits, or passes for one that
      does; otherwise a block as small as can be takes its place, unless its bucket is empty and there is no memory. */
  ghost predicate Answers(index: map<nat, nat>, index2: map<nat, nat>, stocked: bool, ptr: nat, numBytes: nat, memory: Option<nat>, r: Option<nat>)
    requires ptr >= OVERHEAD && ptr - OVERHEAD in index
  {
    var h := ptr - OVERHEAD;
    if index[h] == BIG then
      (r.None? <==> memory.None?) && (r.Some? ==> r == Some(memory.value + BLOCKHEAD + OVERHEAD) && r.value - OVERHEAD in index2 && index2[r.value - OVERHEAD] == BIG)
    else
      && (r == Some(ptr) <==> Suits(index[h], numBytes) || Wraps(index, h, numBytes))
      && (r.None? ==> !stocked && (memory.None? || numBytes > UINT_MAX - OVERHEAD - BLOCKHEAD))
      && (numBytes > UINT_MAX - OVERHEAD - BLOCKHEAD && !Wraps(index, h, numBytes) ==> r.None?)
      && (r.Some? && r != Some(ptr) ==> r.value >= OVERHEAD && r.value - OVERHEAD in index2 && Tight(index2[r.value - OVERHEAD], numBytes))
  }

  /** Whether a block suits can be told from the sum of the sizes, but for the last sixteen sizes there are. */
  lemma SuitsSum(i: nat, numBytes: nat)
    requires 1 <= i < NBUCKETS && numBytes < WORD
    ensures var needed := Plus(numBytes, OVERHEAD);
      needed <= Size(i) && needed >= Size(i) / 2 <==> Suits(i, numBytes) || (i == 1 && numBytes >= WORD - 8)
    ensures Suits(i, numBytes) ==> numBytes <= UINT_MAX - OVERHEAD - BLOCKHEAD
  {
    KeptExactly(i, numBytes);
    SizeTable();
  }

  /** The sizes in which TclpRealloc() adds to numBytes come out smaller than numBytes, and it goes on all the same. */
  predicate Wraps(index: map<nat, nat>, h: nat, numBytes: nat) {
    h in index && ((index[h] == 1 && numBytes >= WORD - 8) || (index[h] == BIG && numBytes >= WORD - BLOCKHEAD - OVERHEAD))
  }

  function Demand(bigs: map<nat, nat>, ptr: nat, numBytes: nat): nat {
    if ptr >= OVERHEAD && ptr - OVERHEAD in bigs then Plus(BLOCKHEAD + OVERHEAD, numBytes) else Wanted(numBytes)
  }

  /** A block of bucket i passes for one with room for numBytes, though it has none, if and only if it is of the
      first bucket and numBytes is one of the last eight sizes there are. */
  lemma KeptExactly(i: nat, numBytes: nat)
    requires 1 <= i < NBUCKETS && numBytes < WORD
    ensures var needed := Plus(numBytes, OVERHEAD);
      needed <= Size(i) && needed >= Size(i) / 2 && numBytes > Size(i) - OVERHEAD <==> i == 1 && numBytes >= WORD - 8
    ensures Size(1) == OVERHEAD && Size(i) < WORD - OVERHEAD
  {
    SizeTable();
    if numBytes >= WORD - OVERHEAD {
      assert Plus(numBytes, OVERHEAD) == numBytes + OVERHEAD - WORD;
      if i > 1 { assert Size(i) >= 32; }
    } else {
      assert Plus(numBytes, OVERHEAD) == numBytes + OVERHEAD;
    }
  }

  /** The least sizes that wrap around unnoticed: 8 bytes for 2^64 - 8, none at all for 2^64 - 32. */
  lemma FirstWraps()
    ensures var needed := Plus(WORD - 8, OVERHEAD); needed == 8 && !(needed > Size(1)) && !(needed < Size(1) / 2)
    ensures Plus(BLOCKHEAD + OVERHEAD, WORD - BLOCKHEAD - OVERHEAD) == 0
  {
    SizeTable();
  }

  /** The system is asked for at least numBytes if and only if numBytes is none of the last 32 sizes there are. */
  lemma BigAsked(numBytes: nat)
    requires numBytes < WORD
    ensures var asked := Plus(BLOCKHEAD + OVERHEAD, numBytes);
      if numBytes < WORD - BLOCKHEAD - OVERHEAD then asked == BLOCKHEAD + OVERHEAD + numBytes else asked < BLOCKHEAD + OVERHEAD
  {
  }

  lemma Buckets(nextf: seq<Option<nat>>, next: Chain, index: map<nat, nat>, carved: map<nat, nat>, lists: seq<seq<nat>>)
    requires Listed(nextf, next, index, carved, lists)
    ensures |nextf| == |lists| == NBUCKETS
  {
  }

  lemma FreshPart(carved: map<nat, nat>, bigs: map<nat, nat>, a: nat, skip: nat, n: nat)
    requires Fresh(carved, bigs, a, skip + n)
    ensures Fresh(carved, bigs, a + skip, n)
  {
  }

  lemma CarveHeaded(index: map<nat, nat>, carved: map<nat, nat>, bigs: map<nat, nat>, list: seq<nat>, b: nat)
    requires Headed(index, carved, bigs) && (forall h :: h in list ==> h !in carved && h !in bigs) && 1 <= b
    requires forall h :: h in carved ==> 1 <= carved[h]
    ensures Headed(index, WithBlocks(carved, list, b), bigs) && (forall h :: h in list ==> h !in index)
    ensures forall h :: h in WithBlocks(carved, list, b) ==> 1 <= WithBlocks(carved, list, b)[h]
  {
  }

  /** The first k blocks of the chunk have been linked to the ones after them. */
  ghost predicate Linking(next0: Chain, next: Chain, base: nat, size: nat, n: nat, k: nat)
    requires k < n
  {
    var list := Carved(base, size, n);
    && (forall i :: 0 <= i < k ==> LinkedAt(next, list, i))
    && (forall h :: h in next0 && h !in list ==> h in next && next[h] == next0[h])
  }

  lemma LinkingStart(next0: Chain, base: nat, size: nat, n: nat)
    requires n >= 1
    ensures Linking(next0, next0, base, size, n, 0) && |Carved(base, size, n)| == n && Carved(base, size, n)[0] == base
  {
  }

  lemma LinkingNext(next0: Chain, next: Chain, base: nat, size: nat, n: nat, k: nat)
    requires k + 1 < n && size > 0 && Linking(next0, next, base, size, n, k)
    ensures base + k * size + size == base + (k + 1) * size
    ensures Linking(next0, next[base + k * size := Some(base + k * size + size)], base, size, n, k + 1)
  {
    var list := Carved(base, size, n);
    CarvedApart(base, size, n);
    var next2 := next[base + k * size := Some(base + k * size + size)];
    assert base + k * size + size == base + (k + 1) * size;
    assert list[k] == base + k * size && list[k + 1] == base + (k + 1) * size;
    forall i | 0 <= i < k + 1 ensures LinkedAt(next2, list, i) {
      if i < k { assert LinkedAt(next, list, i) && list[i] != list[k]; }
    }
    assert list[k] in list;
  }

  lemma LinkingDone(next0: Chain, next: Chain, base: nat, size: nat, n: nat)
    requires n >= 1 && size > 0 && Linking(next0, next, base, size, n, n - 1)
    ensures var list, next2 := Carved(base, size, n), next[base + (n - 1) * size := None];
      list != [] && Chained(Some(list[0]), next2, list) && forall h :: h in next0 && h !in list ==> h in next2 && next2[h] == next0[h]
  {
    var list, next2 := Carved(base, size, n), next[base + (n - 1) * size := None];
    CarvedApart(base, size, n);
    assert list[n - 1] == base + (n - 1) * size && list[n - 1] in list;
    forall i | 0 <= i < n ensures LinkedAt(next2, list, i) {
      if i < n - 1 { assert LinkedAt(next, list, i) && list[i] != list[n - 1]; }
    }
  }

  lemma TopBucket(bucket: nat)
    requires 2 <= bucket <= NBUCKETS
    ensures Size(bucket) == 2 * Size(bucket - 1) && (Size(bucket - 1) < MAXMALLOC ==> bucket < NBUCKETS)
    ensures Size(bucket - 1) > 0
  {
    SizeTable();
  }

  /** h has come into use, with room for what was asked, and nothing else has changed. */
  ghost predicate Allotted(index: map<nat, nat>, bigs: map<nat, nat>, index2: map<nat, nat>, bigs2: map<nat, nat>, h: nat, numBytes: nat) {
    && h !in index && h in index2 && index2 == index[h := index2[h]] && numBytes <= Capacity(index2, bigs2, h)
    && (index2[h] == BIG ==> bigs2 == bigs[h := numBytes]) && (index2[h] != BIG ==> bigs2 == bigs)
    && Tight(index2[h], numBytes)
  }

  /** A block as small as can be: the system's only if those of no bucket are large enough. */
  predicate Tight(b: nat, numBytes: nat) {
    && (b == BIG <==> numBytes >= MAXMALLOC - OVERHEAD)
    && (b != BIG ==> 1 <= b < NBUCKETS && (b > 1 ==> Size(b - 1) < numBytes + OVERHEAD))
  }

  /** The bucket for numBytes has a free block. */
  ghost predicate Stocked(nextf: seq<Option<nat>>, numBytes: nat) {
    exists b :: 0 <= b < |nextf| && HasRoom(nextf, b, numBytes)
  }

  predicate HasRoom(nextf: seq<Option<nat>>, b: nat, numBytes: nat)
    requires b < |nextf|
  {
    b != BIG && Tight(b, numBytes) && numBytes + OVERHEAD <= Size(b) && nextf[b].Some?
  }

  lemma NeverStocked(nextf: seq<Option<nat>>, numBytes: nat)
    requires numBytes >= MAXMALLOC - OVERHEAD
    ensures !Stocked(nextf, numBytes)
  {
  }

  lemma OneBucket(nextf: seq<Option<nat>>, b: nat, numBytes: nat)
    requires 1 <= b < NBUCKETS == |nextf| && numBytes + OVERHEAD <= Size(b) && (b > 1 ==> Size(b - 1) < numBytes + OVERHEAD)
    ensures Stocked(nextf, numBytes) ==> nextf[b].Some?
  {
    SizeTable();
    hide Size;
  }

  /** A block of bucket i is neither too small for numBytes nor more than twice too large. */
  predicate Suits(i: nat, numBytes: nat) {
    1 <= i < NBUCKETS && Size(i) / 2 <= numBytes + OVERHEAD <= Size(i)
  }

  lemma BigAllotted(index: map<nat, nat>, bigs: map<nat, nat>, h: nat, numBytes: nat)
    requires h !in index && numBytes >= MAXMALLOC - OVERHEAD
    ensures Allotted(index, bigs, index[h := BIG], bigs[h := numBytes], h, numBytes)
  {
  }

  lemma SmallAllotted(index: map<nat, nat>, bigs: map<nat, nat>, h: nat, bucket: nat, numBytes: nat)
    requires h !in index && 1 <= bucket < NBUCKETS && numBytes + OVERHEAD <= Size(bucket) && numBytes < MAXMALLOC - OVERHEAD
    requires bucket > 1 ==> Size(bucket - 1) < numBytes + OVERHEAD
    ensures Allotted(index, bigs, index[h := bucket], bigs, h, numBytes)
  {
    hide Size;
  }

  lemma GrownSelf(carved: map<nat, nat>)
    ensures Grown(carved, carved)
  {
  }

  lemma BigKeeps(nextf: seq<Option<nat>>, next: Chain, index: map<nat, nat>, carved: map<nat, nat>, lists: seq<seq<nat>>, bigs: map<nat, nat>, a: nat, n: nat)
    requires Arena(nextf, next, index, carved, lists, bigs) && Fresh(carved, bigs, a, BLOCKHEAD + OVERHEAD + n)
    ensures var h := a + BLOCKHEAD; h !in index && Arena(nextf, next, index[h := BIG], carved, lists, bigs[h := n])
  {
    hide Listed, Headed, Apart, Fresh;
    var h := a + BLOCKHEAD;
    BigFresh(index, carved, bigs, a, n);
    BigApart(carved, bigs, a, n);
    ListedMore(nextf, next, index, carved, lists, h);
  }

  lemma BigFresh(index: map<nat, nat>, carved: map<nat, nat>, bigs: map<nat, nat>, a: nat, n: nat)
    requires Headed(index, carved, bigs) && Fresh(carved, bigs, a, BLOCKHEAD + OVERHEAD + n)
    ensures var h := a + BLOCKHEAD; h !in index && h !in carved && h !in bigs && Headed(index[h := BIG], carved, bigs[h := n])
  {
  }

  lemma BigApart(carved: map<nat, nat>, bigs: map<nat, nat>, a: nat, n: nat)
    requires Apart(carved, bigs) && Fresh(carved, bigs, a, BLOCKHEAD + OVERHEAD + n)
    requires a + BLOCKHEAD !in carved && a + BLOCKHEAD !in bigs
    ensures Apart(carved, bigs[a + BLOCKHEAD := n])
  {
    hide Size;
    var h := a + BLOCKHEAD;
    var bigs2 := bigs[h := n];
    forall x ensures x != h ==> Extent(carved, bigs2, x) == Extent(carved, bigs, x) {}
    forall x | x in carved || x in bigs ensures Disjoint(x, Extent(carved, bigs, x), h, OVERHEAD + n) {}
    assert Extent(carved, bigs2, h) == OVERHEAD + n;
    hide Extent;
  }

  lemma ListedMore(nextf: seq<Option<nat>>, next: Chain, index: map<nat, nat>, carved: map<nat, nat>, lists: seq<seq<nat>>, h: nat)
    requires Listed(nextf, next, index, carved, lists) && h !in carved
    ensures Listed(nextf, next, index[h := BIG], carved, lists)
  {
    hide Chained;
  }

  lemma HeadOf(nextf: seq<Option<nat>>, next: Chain, index: map<nat, nat>, carved: map<nat, nat>, lists: seq<seq<nat>>, b: nat)
    requires Listed(nextf, next, index, carved, lists) && b < NBUCKETS && nextf[b].Some?
    ensures lists[b] != [] && lists[b][0] == nextf[b].value
  {
    assert Chained(nextf[b], next, lists[b]);
  }

  lemma TakeHeaded(index: map<nat, nat>, carved: map<nat, nat>, bigs: map<nat, nat>, h: nat, b: nat)
    requires Headed(index, carved, bigs) && h in carved && carved[h] == b && h !in index && b < NBUCKETS
    ensures Headed(index[h := b], carved, bigs)
  {
  }

  lemma NotInUse(index: map<nat, nat>, carved: map<nat, nat>, bigs: map<nat, nat>, h: nat)
    requires Headed(index, carved, bigs) && h !in index
    ensures h !in bigs && index - {h} == index && bigs - {h} == bigs
  {
  }

  lemma BigFreed(nextf: seq<Option<nat>>, next: Chain, index: map<nat, nat>, carved: map<nat, nat>, lists: seq<seq<nat>>, bigs: map<nat, nat>, h: nat)
    requires Arena(nextf, next, index, carved, lists, bigs) && h in bigs
    ensures Arena(nextf, next, index - {h}, carved, lists, bigs - {h})
  {
    forall x ensures x in carved || x in bigs - {h} ==> Extent(carved, bigs - {h}, x) == Extent(carved, bigs, x) {}
  }

  lemma SmallBucket(nextf: seq<Option<nat>>, next: Chain, index: map<nat, nat>, carved: map<nat, nat>, lists: seq<seq<nat>>, h: nat)
    requires Listed(nextf, next, index, carved, lists) && h in carved
    ensures carved[h] < NBUCKETS
  {
  }

  // ---------------------------------------------------------------- reallocation

  lemma BigKnown(nextf: seq<Option<nat>>, next: Chain, index: map<nat, nat>, carved: map<nat, nat>, lists: seq<seq<nat>>, bigs: map<nat, nat>, h: nat)
    requires Arena(nextf, next, index, carved, lists, bigs) && h in index && index[h] == BIG
    ensures h in bigs
  {
  }

  predicate SameByte(mem2: nat -> bv8, h2: nat, mem: nat -> bv8, h: nat, k: nat) { mem2(h2 + OVERHEAD + k) == mem(h + OVERHEAD + k) }

  /** The first n bytes the caller sees at h2 are those it saw at h. */
  ghost predicate SameBytes(mem2: nat -> bv8, h2: nat, mem: nat -> bv8, h: nat, n: nat) {
    forall k: nat :: k < n ==> SameByte(mem2, h2, mem, h, k)
  }

  /** Every other block in use is as it was. */
  ghost predicate OthersKept(index: map<nat, nat>, bigs: map<nat, nat>, mem: nat -> bv8, index2: map<nat, nat>, bigs2: map<nat, nat>, mem2: nat -> bv8, h: nat) {
    forall g :: g in index && g != h ==>
      g in index2 && Capacity(index2, bigs2, g) == Capacity(index, bigs, g) && SameBytes(mem2, g, mem, g, Capacity(index, bigs, g))
  }

  /** h's block has become h2's (perhaps the same): room for what was asked, the bytes both hold kept, and no
      byte of any other block in use touched. */
  ghost predicate Moved(index: map<nat, nat>, bigs: map<nat, nat>, mem: nat -> bv8, index2: map<nat, nat>, bigs2: map<nat, nat>, mem2: nat -> bv8,
                        h: nat, h2: nat, numBytes: nat) {
    && h in index && h2 in index2 && index2 == (index - {h})[h2 := index2[h2]] && (h2 == h || h2 !in index) && numBytes <= Capacity(index2, bigs2, h2)
    && SameBytes(mem2, h2, mem, h, Least(numBytes, Capacity(index, bigs, h)))
    && OthersKept(index, bigs, mem, index2, bigs2, mem2, h)
  }

  lemma MovedRoom(index: map<nat, nat>, bigs: map<nat, nat>, mem: nat -> bv8, index2: map<nat, nat>, bigs2: map<nat, nat>, mem2: nat -> bv8,
                  h: nat, r: Option<nat>, numBytes: nat)
    ensures r.Some? && r.value >= OVERHEAD && Moved(index, bigs, mem, index2, bigs2, mem2, h, r.value - OVERHEAD, numBytes) ==>
      r.value - OVERHEAD in index2 && numBytes <= Capacity(index2, bigs2, r.value - OVERHEAD)
  {
  }

  lemma AllottedIn(index: map<nat, nat>, bigs: map<nat, nat>, index2: map<nat, nat>, bigs2: map<nat, nat>, r: Option<nat>, numBytes: nat)
    ensures r.Some? && r.value >= OVERHEAD && Allotted(index, bigs, index2, bigs2, r.value - OVERHEAD, numBytes) ==> r.value - OVERHEAD in index2
  {
  }

  function Least(a: nat, b: nat): nat { if a < b then a else b }

  /** What the system's realloc() does to memory, as far as it says: the bytes are at the new place. */
  function SysMoved(mem: nat -> bv8, to: nat, from: nat, n: nat): nat -> bv8 { Copied(mem, to, from, n) }

  lemma HeaderOk(index: map<nat, nat>, carved: map<nat, nat>, bigs: map<nat, nat>, h: nat, nextf: seq<Option<nat>>, next: Chain, lists: seq<seq<nat>>)
    requires Arena(nextf, next, index, carved, lists, bigs) && h in index && index[h] != BIG
    ensures h in carved && carved[h] == index[h] && h !in bigs && 1 <= index[h] < NBUCKETS
    ensures Size(index[h]) >= OVERHEAD && Capacity(index, bigs, h) == Size(index[h]) - OVERHEAD
  {
    SizeTable();
  }

  /** A block in use lies within its extent. */
  lemma InExtent(index: map<nat, nat>, carved: map<nat, nat>, bigs: map<nat, nat>, h: nat)
    requires Headed(index, carved, bigs) && h in index && (h in carved ==> Size(carved[h]) >= OVERHEAD)
    ensures OVERHEAD + Capacity(index, bigs, h) == Extent(carved, bigs, h) && (h in carved || h in bigs)
  {
  }

  lemma SizesFit(nextf: seq<Option<nat>>, next: Chain, index: map<nat, nat>, carved: map<nat, nat>, lists: seq<seq<nat>>, bigs: map<nat, nat>, h: nat)
    requires Arena(nextf, next, index, carved, lists, bigs) && h in carved
    ensures Size(carved[h]) >= OVERHEAD
  {
    SizeTable();
  }

  /** Bytes of two blocks in use are at different addresses. */
  lemma BytesApart(nextf: seq<Option<nat>>, next: Chain, index: map<nat, nat>, carved: map<nat, nat>, lists: seq<seq<nat>>, bigs: map<nat, nat>,
                   g: nat, k: nat, h: nat, n: nat)
    requires Arena(nextf, next, index, carved, lists, bigs) && g in index && h in index && g != h
    requires k < Capacity(index, bigs, g) && n <= Capacity(index, bigs, h)
    ensures !(h + OVERHEAD <= g + OVERHEAD + k < h + OVERHEAD + n)
  {
    if g in carved { SizesFit(nextf, next, index, carved, lists, bigs, g); }
    if h in carved { SizesFit(nextf, next, index, carved, lists, bigs, h); }
    InExtent(index, carved, bigs, g);
    InExtent(index, carved, bigs, h);
    hide Listed, Headed;
  }

  /** Writing into one block in use leaves the bytes of the others. */
  lemma CopySpares(nextf: seq<Option<nat>>, next: Chain, index: map<nat, nat>, carved: map<nat, nat>, lists: seq<seq<nat>>, bigs: map<nat, nat>,
                   mem: nat -> bv8, h: nat, from: nat, n: nat, g: nat)
    requires Arena(nextf, next, index, carved, lists, bigs) && g in index && h in index && g != h && n <= Capacity(index, bigs, h)
    ensures SameBytes(Copied(mem, h + OVERHEAD, from, n), g, mem, g, Capacity(index, bigs, g))
  {
    hide Arena, Capacity, Extent;
    var mem2 := Copied(mem, h + OVERHEAD, from, n);
    forall k: nat | k < Capacity(index, bigs, g) ensures SameByte(mem2, g, mem, g, k) {
      BytesApart(nextf, next, index, carved, lists, bigs, g, k, h, n);
    }
  }

  lemma CopyCopies(mem: nat -> bv8, h2: nat, h: nat, n: nat)
    ensures SameBytes(Copied(mem, h2 + OVERHEAD, h + OVERHEAD, n), h2, mem, h, n)
  {
    var mem2 := Copied(mem, h2 + OVERHEAD, h + OVERHEAD, n);
    forall k: nat | k < n ensures SameByte(mem2, h2, mem, h, k) {}
  }

  lemma StaysPut(index: map<nat, nat>, carved: map<nat, nat>, bigs: map<nat, nat>, mem: nat -> bv8, h: nat, numBytes: nat)
    requires h in index && numBytes <= Capacity(index, bigs, h)
    ensures Moved(index, bigs, mem, index, bigs, mem, h, h, numBytes)
  {
    assert index == (index - {h})[h := index[h]];
  }

  /** The capacity of the other blocks when h2 comes into use and h, not a big one, goes out of it. */
  lemma CapacitiesKept(index: map<nat, nat>, bigs: map<nat, nat>, index2: map<nat, nat>, bigs2: map<nat, nat>, h: nat, h2: nat, numBytes: nat)
    requires Allotted(index, bigs, index2, bigs2, h2, numBytes) && h in index && h !in bigs
    ensures forall g :: g in index ==> g in index2 && Capacity(index2, bigs2, g) == Capacity(index, bigs, g)
    ensures h != h2 && Capacity(index2 - {h}, bigs2 - {h}, h2) == Capacity(index2, bigs2, h2)
    ensures forall g :: g in index && g != h ==> g in index2 - {h} && Capacity(index2 - {h}, bigs2 - {h}, g) == Capacity(index, bigs, g)
    ensures index2 - {h} == (index - {h})[h2 := index2[h2]]
  {
  }

  lemma CopyKeeps(nextf: seq<Option<nat>>, next: Chain, index: map<nat, nat>, bigs: map<nat, nat>, index2: map<nat, nat>, carved: map<nat, nat>,
                  lists: seq<seq<nat>>, bigs2: map<nat, nat>, mem: nat -> bv8, h: nat, h2: nat, numBytes: nat)
    requires Arena(nextf, next, index2, carved, lists, bigs2) && Allotted(index, bigs, index2, bigs2, h2, numBytes)
    requires h in index && h !in bigs
    ensures var n := Least(numBytes, Capacity(index, bigs, h));
      Moved(index, bigs, mem, index2 - {h}, bigs2 - {h}, Copied(mem, h2 + OVERHEAD, h + OVERHEAD, n), h, h2, numBytes)
  {
    hide Arena, Capacity, Copied, SameBytes;
    var n := Least(numBytes, Capacity(index, bigs, h));
    CapacitiesKept(index, bigs, index2, bigs2, h, h2, numBytes);
    CopyCopies(mem, h2, h, n);
    var mem2 := Copied(mem, h2 + OVERHEAD, h + OVERHEAD, n);
    forall g | g in index && g != h ensures SameBytes(mem2, g, mem, g, Capacity(index, bigs, g)) {
      CopySpares(nextf, next, index2, carved, lists, bigs2, mem, h2, h + OVERHEAD, n, g);
    }
  }

  lemma BigMovesArena(nextf: seq<Option<nat>>, next: Chain, index: map<nat, nat>, carved: map<nat, nat>, lists: seq<seq<nat>>, bigs: map<nat, nat>,
                      h: nat, a: nat, n: nat)
    requires Arena(nextf, next, index, carved, lists, bigs) && h in index && index[h] == BIG
    requires Fresh(carved, bigs - {h}, a, BLOCKHEAD + OVERHEAD + n)
    ensures h in bigs && a + BLOCKHEAD !in index - {h}
    ensures var h2 := a + BLOCKHEAD; Arena(nextf, next, (index - {h})[h2 := BIG], carved, lists, (bigs - {h})[h2 := n])
  {
    assert h in bigs;
    hide Listed, Headed, Apart, Fresh;
    BigFreed(nextf, next, index, carved, lists, bigs, h);
    BigKeeps(nextf, next, index - {h}, carved, lists, bigs - {h}, a, n);
  }

  lemma BigCapacities(index: map<nat, nat>, bigs: map<nat, nat>, h: nat, h2: nat, n: nat)
    requires h in index && h2 !in index - {h}
    ensures Capacity((index - {h})[h2 := BIG], (bigs - {h})[h2 := n], h2) == n
    ensures forall g :: g in index && g != h ==> g != h2 && Capacity((index - {h})[h2 := BIG], (bigs - {h})[h2 := n], g) == Capacity(index, bigs, g)
  {
  }

  lemma BigMoves(nextf: seq<Option<nat>>, next: Chain, index: map<nat, nat>, carved: map<nat, nat>, lists: seq<seq<nat>>, bigs: map<nat, nat>,
                 mem: nat -> bv8, h: nat, a: nat, n: nat)
    requires Arena(nextf, next, index, carved, lists, bigs) && h in index && index[h] == BIG
    requires Fresh(carved, bigs - {h}, a, BLOCKHEAD + OVERHEAD + n)
    ensures var h2 := a + BLOCKHEAD;
      var index2, bigs2 := (index - {h})[h2 := BIG], (bigs - {h})[h2 := n];
      Arena(nextf, next, index2, carved, lists, bigs2)
      && Moved(index, bigs, mem, index2, bigs2, Copied(mem, h2 + OVERHEAD, h + OVERHEAD, n), h, h2, n)
  {
    hide Arena, Capacity, Copied, SameBytes, Fresh;
    var h2 := a + BLOCKHEAD;
    var index2, bigs2 := (index - {h})[h2 := BIG], (bigs - {h})[h2 := n];
    BigMovesArena(nextf, next, index, carved, lists, bigs, h, a, n);
    BigCapacities(index, bigs, h, h2, n);
    CopyCopies(mem, h2, h, n);
    var mem2 := Copied(mem, h2 + OVERHEAD, h + OVERHEAD, n);
    FewerBytes(mem2, h2, mem, h, n, Least(n, Capacity(index, bigs, h)));
    forall g | g in index && g != h ensures SameBytes(mem2, g, mem, g, Capacity(index, bigs, g)) {
      CopySpares(nextf, next, index2, carved, lists, bigs2, mem, h2, h + OVERHEAD, n, g);
    }
  }

  lemma FewerBytes(mem2: nat -> bv8, h2: nat, mem: nat -> bv8, h: nat, n: nat, m: nat)
    requires SameBytes(mem2, h2, mem, h, n) && m <= n
    ensures SameBytes(mem2, h2, mem, h, m)
  {
  }
}
